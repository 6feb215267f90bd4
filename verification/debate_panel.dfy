/** The "Generate Response" action of the debate panel: choose a speaker who
    is not among the authors of the last three statements shown, look up
    the speaker's group, and package a canned sentence for that group's
    orientation as a new statement about the active law.

    The two `Math.random()` draws, the statement id and the clock reading
    are parameters. The panel receives the statements already filtered to
    the active law, so "recent" means recent in that law's debate.
 */
module DebatePanel {
  import opened Collections
  import opened ParliamentUtils
  import ParliamentData

  /** How many of the latest statements bar their authors from speaking. */
  const RecentWindow: nat := 3

  /** `statements.slice(-3).map(s => s.politicianId)`: the authors of the last
      three statements (all of them when there are fewer), oldest first. */
  function RecentSpeakers(statements: seq<Statement>): (r: seq<string>)
    ensures |r| == if |statements| < RecentWindow then |statements| else RecentWindow
    ensures forall k :: 0 <= k < |r| ==> r[k] == statements[|statements| - |r| + k].politicianId
    ensures forall id :: id in r <==>
      exists k :: |statements| - RecentWindow <= k < |statements| && 0 <= k && statements[k].politicianId == id
  {
    var n := if |statements| < RecentWindow then |statements| else RecentWindow;
    var r := seq(n, k requires 0 <= k < n => statements[|statements| - n + k].politicianId);
    assert forall id :: id in r <==>
      exists k :: |statements| - RecentWindow <= k < |statements| && 0 <= k && statements[k].politicianId == id
    by {
      forall id | id in r
        ensures exists k :: |statements| - RecentWindow <= k < |statements| && 0 <= k && statements[k].politicianId == id
      {
        var j :| 0 <= j < n && r[j] == id;
        assert statements[|statements| - n + j].politicianId == id;
      }
      forall id | exists k :: |statements| - RecentWindow <= k < |statements| && 0 <= k && statements[k].politicianId == id
        ensures id in r
      {
        var k :| |statements| - RecentWindow <= k < |statements| && 0 <= k && statements[k].politicianId == id;
        assert r[k - (|statements| - n)] == id;
      }
    }
    r
  }

  /** Three statements appended last are exactly the recent speakers. */
  lemma RecentSpeakersOfLastThree(t: seq<Statement>, s1: Statement, s2: Statement, s3: Statement)
    ensures RecentSpeakers(t + [s1] + [s2] + [s3]) == [s1.politicianId, s2.politicianId, s3.politicianId]
  {
    var u := t + [s1] + [s2] + [s3];
    assert u[|u| - 3] == s1 && u[|u| - 2] == s2 && u[|u| - 1] == s3;
  }

  /** The politicians whose id is not in `recent`, in roster order. */
  function Available(politicians: seq<Politician>, recent: seq<string>): (pool: seq<Politician>)
    ensures forall p :: p in pool <==> p in politicians && p.id !in recent
    ensures forall p :: multiset(pool)[p] == if p.id !in recent then multiset(politicians)[p] else 0
    ensures IsSubsequence(pool, politicians)
  {
    FilterMultiset(politicians, (p: Politician) => p.id !in recent);
    FilterIsSubsequence(politicians, (p: Politician) => p.id !in recent);
    Filter(politicians, (p: Politician) => p.id !in recent)
  }

  /** The candidate pool for the next speaker. */
  function Candidates(politicians: seq<Politician>, statements: seq<Statement>): (pool: seq<Politician>)
    ensures forall p :: p in pool <==>
      (p in politicians &&
       forall k :: |statements| - RecentWindow <= k < |statements| && 0 <= k ==> statements[k].politicianId != p.id)
    ensures IsSubsequence(pool, politicians)
  {
    Available(politicians, RecentSpeakers(statements))
  }

  /** `generateNewStatement` up to the point where the statement is handed to
      the page: None where the program returns without adding anything. */
  function GenerateNewStatement(
    activeLaw: Law,
    statements: seq<Statement>,
    politicians: seq<Politician>,
    groups: seq<Group>,
    speakerRoll: real,
    responseRoll: real,
    statementId: string,
    now: int): (r: Option<Statement>)
    requires 0.0 <= speakerRoll < 1.0 && 0.0 <= responseRoll < 1.0
    ensures |Candidates(politicians, statements)| == 0 ==> r.None?
    ensures |Candidates(politicians, statements)| > 0 ==>
      var speaker := Candidates(politicians, statements)[PickIndex(speakerRoll, |Candidates(politicians, statements)|)];
      (r.Some? <==> GetGroupById(speaker.groupId, groups).Some?) &&
      (r.Some? ==> r.value.politicianId == speaker.id &&
                   r.value.content in ResponsePool(GetGroupById(speaker.groupId, groups).value.orientation))
    ensures r.Some? ==> r.value.politicianId !in RecentSpeakers(statements)
    ensures r.Some? ==> exists p :: p in politicians && p.id == r.value.politicianId
    ensures r.Some? ==> r.value.lawId == activeLaw.id && r.value.id == statementId && r.value.timestamp == now
  {
    var pool := Candidates(politicians, statements);
    var k := PickIndex(speakerRoll, |pool|);
    if k >= |pool| then None
    else
      var speaker := pool[k];
      assert speaker in pool;
      match GetGroupById(speaker.groupId, groups)
      case None => None
      case Some(group) =>
        Some(Statement(
          statementId,
          speaker.id,
          activeLaw.id,
          GeneratePoliticalResponse(speaker, group, activeLaw.title, responseRoll),
          now))
  }

  /** With distinct ids, at most |recent| politicians are barred. */
  lemma AvailableSize(politicians: seq<Politician>, recent: seq<string>)
    requires DistinctKeys(politicians, (p: Politician) => p.id)
    ensures |Available(politicians, recent)| >= |politicians| - |recent|
  {
    var barred := (p: Politician) => p.id in recent;
    var free := (p: Politician) => p.id !in recent;
    FilterComplement(politicians, barred, free);
    var excluded := Filter(politicians, barred);
    FilterKeepsDistinctKeys(politicians, barred, (p: Politician) => p.id);
    forall i | 0 <= i < |excluded| ensures excluded[i].id in recent {
      assert excluded[i] in excluded;
    }
    KeysWithinBound(excluded, (p: Politician) => p.id, recent);
  }

  /** A roster the panel can always draw from: distinct ids, every
      politician in a listed group, and more members than the recency
      window bars. */
  ghost predicate WellSeated(politicians: seq<Politician>, groups: seq<Group>) {
    DistinctKeys(politicians, (p: Politician) => p.id) &&
    (forall i :: 0 <= i < |politicians| ==> GetGroupById(politicians[i].groupId, groups).Some?) &&
    |politicians| > RecentWindow
  }

  /** On a well-seated roster at most three politicians are barred and the
      chosen speaker always has a group, so a statement is produced. */
  lemma RosterAlwaysSpeaks(
    politicians: seq<Politician>, groups: seq<Group>,
    activeLaw: Law, statements: seq<Statement>,
    speakerRoll: real, responseRoll: real, statementId: string, now: int)
    requires WellSeated(politicians, groups)
    requires 0.0 <= speakerRoll < 1.0 && 0.0 <= responseRoll < 1.0
    ensures |Candidates(politicians, statements)| >= |politicians| - RecentWindow
    ensures GenerateNewStatement(activeLaw, statements, politicians, groups,
                                 speakerRoll, responseRoll, statementId, now).Some?
  {
    AvailableSize(politicians, RecentSpeakers(statements));
    var pool := Candidates(politicians, statements);
    var speaker := pool[PickIndex(speakerRoll, |pool|)];
    assert speaker in politicians;
  }

  /** The seed roster of 25 is well seated. */
  lemma SeedRosterIsWellSeated()
    ensures |ParliamentData.Politicians| == 25
    ensures WellSeated(ParliamentData.Politicians, ParliamentData.Groups)
  {
    ParliamentData.PoliticianIdsAreDistinct();
    ParliamentData.PoliticiansBelongToGroups();
  }

  /** With the seed roster, at least 22 politicians are always eligible and
      the action always produces a statement. */
  lemma SeedRosterAlwaysSpeaks(
    activeLaw: Law, statements: seq<Statement>,
    speakerRoll: real, responseRoll: real, statementId: string, now: int)
    requires 0.0 <= speakerRoll < 1.0 && 0.0 <= responseRoll < 1.0
    ensures |Candidates(ParliamentData.Politicians, statements)| >= 22
    ensures GenerateNewStatement(activeLaw, statements, ParliamentData.Politicians, ParliamentData.Groups,
                                 speakerRoll, responseRoll, statementId, now).Some?
  {
    SeedRosterIsWellSeated();
    RosterAlwaysSpeaks(ParliamentData.Politicians, ParliamentData.Groups, activeLaw, statements,
                       speakerRoll, responseRoll, statementId, now);
  }
}
