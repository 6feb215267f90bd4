/** Records of the parliament and the pure helpers over them: id lookups,
    the per-group roster, the chronological transcript of one law, and the
    canned-response table indexed by political orientation.
 */
module ParliamentUtils {
  import opened Collections

  /** The five orientations. In the program they are a string enum, so a
      group's orientation is a string at run time; the response table falls
      back to the Center sentences for a string it has no entry for (the
      names that a plain object inherits, such as "toString", are not
      modelled). */
  const FarLeft: string := "Far Left"
  const LeftWing: string := "Left Wing"
  const Center: string := "Center"
  const RightWing: string := "Right Wing"
  const FarRight: string := "Far Right"

  datatype Group = Group(
    id: string,
    name: string,
    color: string,
    orientation: string,
    seatsCount: nat,
    description: string)

  datatype Politician = Politician(
    id: string,
    name: string,
    groupId: string,
    avatar: string,
    role: Option<string>,
    specialty: string)

  datatype Status = Pending | Debating | Passed | Rejected

  /** Vote counters; `favor` is the program's `for` counter. */
  datatype Votes = Votes(favor: nat, against: nat, abstain: nat)

  datatype Law = Law(
    id: string,
    title: string,
    description: string,
    proposedBy: string,
    status: Status,
    votes: Votes,
    tags: seq<string>)

  datatype Statement = Statement(
    id: string,
    politicianId: string,
    lawId: string,
    content: string,
    timestamp: int)

  // ---------------------------------------------------------------- lookups

  function GetGroupById(groupId: string, groups: seq<Group>): (r: Option<Group>)
    ensures r.None? <==> forall i :: 0 <= i < |groups| ==> groups[i].id != groupId
    ensures r.Some? ==>
      exists i :: 0 <= i < |groups| && groups[i] == r.value && r.value.id == groupId &&
        forall j :: 0 <= j < i ==> groups[j].id != groupId
  {
    Find(groups, (g: Group) => g.id == groupId)
  }

  function GetPoliticianById(politicianId: string, politicians: seq<Politician>): (r: Option<Politician>)
    ensures r.None? <==> forall i :: 0 <= i < |politicians| ==> politicians[i].id != politicianId
    ensures r.Some? ==>
      exists i :: 0 <= i < |politicians| && politicians[i] == r.value && r.value.id == politicianId &&
        forall j :: 0 <= j < i ==> politicians[j].id != politicianId
  {
    Find(politicians, (p: Politician) => p.id == politicianId)
  }

  function GetLawById(lawId: string, laws: seq<Law>): (r: Option<Law>)
    ensures r.None? <==> forall i :: 0 <= i < |laws| ==> laws[i].id != lawId
    ensures r.Some? ==>
      exists i :: 0 <= i < |laws| && laws[i] == r.value && r.value.id == lawId &&
        forall j :: 0 <= j < i ==> laws[j].id != lawId
  {
    Find(laws, (l: Law) => l.id == lawId)
  }

  /** With distinct ids, looking up the id of a listed group yields that group. */
  lemma GroupLookupFindsMember(groups: seq<Group>, k: nat)
    requires DistinctKeys(groups, (g: Group) => g.id)
    requires k < |groups|
    ensures GetGroupById(groups[k].id, groups) == Some(groups[k])
  {
    var r := GetGroupById(groups[k].id, groups);
    var i :| 0 <= i < |groups| && groups[i] == r.value && r.value.id == groups[k].id;
  }

  lemma PoliticianLookupFindsMember(politicians: seq<Politician>, k: nat)
    requires DistinctKeys(politicians, (p: Politician) => p.id)
    requires k < |politicians|
    ensures GetPoliticianById(politicians[k].id, politicians) == Some(politicians[k])
  {
    var r := GetPoliticianById(politicians[k].id, politicians);
    var i :| 0 <= i < |politicians| && politicians[i] == r.value && r.value.id == politicians[k].id;
  }

  function GetPoliticiansByGroup(groupId: string, politicians: seq<Politician>): (r: seq<Politician>)
    ensures forall p :: multiset(r)[p] == if p.groupId == groupId then multiset(politicians)[p] else 0
    ensures forall i :: 0 <= i < |r| ==> r[i].groupId == groupId
    ensures IsSubsequence(r, politicians)
  {
    FilterIsSubsequence(politicians, (p: Politician) => p.groupId == groupId);
    FilterMultiset(politicians, (p: Politician) => p.groupId == groupId);
    Filter(politicians, (p: Politician) => p.groupId == groupId)
  }

  // ------------------------------------------------------------- transcript

  /** The statements about one law, in ledger order. */
  function ForLaw(statements: seq<Statement>, lawId: string): (r: seq<Statement>)
    ensures forall x :: multiset(r)[x] == if x.lawId == lawId then multiset(statements)[x] else 0
    ensures forall i :: 0 <= i < |r| ==> r[i].lawId == lawId
    ensures IsSubsequence(r, statements)
  {
    FilterMultiset(statements, (s: Statement) => s.lawId == lawId);
    FilterIsSubsequence(statements, (s: Statement) => s.lawId == lawId);
    Filter(statements, (s: Statement) => s.lawId == lawId)
  }

  ghost predicate SortedByTime(s: seq<Statement>) {
    forall i, j :: 0 <= i < j < |s| ==> s[i].timestamp <= s[j].timestamp
  }

  /** The statements of `s` with timestamp `t`, in the order of `s`. */
  ghost function AtTime(s: seq<Statement>, t: int): seq<Statement>
  {
    if |s| == 0 then []
    else (if s[0].timestamp == t then [s[0]] else []) + AtTime(s[1..], t)
  }

  lemma SortedCons(h: Statement, s: seq<Statement>)
    ensures SortedByTime([h] + s) <==>
      SortedByTime(s) && forall j :: 0 <= j < |s| ==> h.timestamp <= s[j].timestamp
  {
    var c := [h] + s;
    assert forall j :: 0 <= j < |s| ==> c[j + 1] == s[j];
    if SortedByTime(c) {
      forall i, j | 0 <= i < j < |s| ensures s[i].timestamp <= s[j].timestamp {
        assert c[i + 1] == s[i] && c[j + 1] == s[j];
      }
      forall j | 0 <= j < |s| ensures h.timestamp <= s[j].timestamp {
        assert c[0] == h && c[j + 1] == s[j];
      }
    }
    if SortedByTime(s) && forall j :: 0 <= j < |s| ==> h.timestamp <= s[j].timestamp {
      forall i, j | 0 <= i < j < |c| ensures c[i].timestamp <= c[j].timestamp {
        assert c[j] == s[j - 1];
        if i > 0 {
          assert c[i] == s[i - 1];
        }
      }
    }
  }

  lemma SortedSnoc(s: seq<Statement>, x: Statement)
    requires SortedByTime(s)
    requires forall i :: 0 <= i < |s| ==> s[i].timestamp <= x.timestamp
    ensures SortedByTime(s + [x])
  {
    var c := s + [x];
    forall i, j | 0 <= i < j < |c| ensures c[i].timestamp <= c[j].timestamp {
      assert c[i] == s[i];
      if j < |s| {
        assert c[j] == s[j];
      }
    }
  }

  lemma AtTimeCons(h: Statement, s: seq<Statement>)
    ensures forall t :: AtTime([h] + s, t) == (if h.timestamp == t then [h] else []) + AtTime(s, t)
  {
    assert ([h] + s)[1..] == s;
  }

  /** Insert `x` before the first element whose timestamp is not smaller. */
  function InsertByTime(x: Statement, s: seq<Statement>): (r: seq<Statement>)
    requires SortedByTime(s)
    ensures SortedByTime(r)
    ensures multiset(r) == multiset(s) + multiset{x}
  {
    if |s| == 0 then [x]
    else if x.timestamp <= s[0].timestamp then
      SortedCons(x, s);
      [x] + s
    else
      assert s == [s[0]] + s[1..];
      SortedCons(s[0], s[1..]);
      var rest := InsertByTime(x, s[1..]);
      assert forall j :: 0 <= j < |rest| ==> s[0].timestamp <= rest[j].timestamp by {
        forall j | 0 <= j < |rest| ensures s[0].timestamp <= rest[j].timestamp {
          assert rest[j] in multiset(s[1..]) + multiset{x};
        }
      }
      SortedCons(s[0], rest);
      [s[0]] + rest
  }

  /** Inserting `x` puts it in front of every statement with its own timestamp. */
  lemma {:induction false} InsertByTimeIsStable(x: Statement, s: seq<Statement>)
    requires SortedByTime(s)
    ensures forall t :: AtTime(InsertByTime(x, s), t) == (if x.timestamp == t then [x] else []) + AtTime(s, t)
    decreases |s|
  {
    if |s| == 0 {
      AtTimeCons(x, []);
      assert [x] + [] == [x];
    } else if x.timestamp <= s[0].timestamp {
      AtTimeCons(x, s);
    } else {
      assert s == [s[0]] + s[1..];
      SortedCons(s[0], s[1..]);
      InsertByTimeIsStable(x, s[1..]);
      var rest := InsertByTime(x, s[1..]);
      assert InsertByTime(x, s) == [s[0]] + rest;
      AtTimeCons(s[0], rest);
      AtTimeCons(s[0], s[1..]);
    }
  }

  /** A stable sort by timestamp (insertion sort). */
  function SortByTime(s: seq<Statement>): (r: seq<Statement>)
    ensures SortedByTime(r)
    ensures multiset(r) == multiset(s)
  {
    if |s| == 0 then []
    else
      assert s == [s[0]] + s[1..];
      InsertByTime(s[0], SortByTime(s[1..]))
  }

  /** Statements with equal timestamps keep their relative order. */
  lemma {:induction false} SortByTimeIsStable(s: seq<Statement>)
    ensures forall t :: AtTime(SortByTime(s), t) == AtTime(s, t)
    decreases |s|
  {
    if |s| > 0 {
      assert s == [s[0]] + s[1..];
      SortByTimeIsStable(s[1..]);
      InsertByTimeIsStable(s[0], SortByTime(s[1..]));
      AtTimeCons(s[0], s[1..]);
    }
  }

  /** The chronological transcript of one law: filter by law, then a stable
      sort by timestamp (Array.prototype.sort is stable). */
  function GetStatementsByLaw(lawId: string, statements: seq<Statement>): (r: seq<Statement>)
    ensures forall i :: 0 <= i < |r| ==> r[i].lawId == lawId
    ensures forall x :: multiset(r)[x] == if x.lawId == lawId then multiset(statements)[x] else 0
    ensures SortedByTime(r)
    ensures forall t :: AtTime(r, t) == AtTime(ForLaw(statements, lawId), t)
  {
    var r := SortByTime(ForLaw(statements, lawId));
    SortByTimeIsStable(ForLaw(statements, lawId));
    assert forall i :: 0 <= i < |r| ==> r[i].lawId == lawId by {
      forall i | 0 <= i < |r| ensures r[i].lawId == lawId {
        assert r[i] in multiset(ForLaw(statements, lawId));
      }
    }
    r
  }

  /** A statement about a law extends that law's part of the ledger by itself. */
  lemma ForLawOfAppend(statements: seq<Statement>, s: Statement, lawId: string)
    ensures ForLaw(statements + [s], lawId) ==
      ForLaw(statements, lawId) + (if s.lawId == lawId then [s] else [])
  {
    FilterAppend(statements, [s], (x: Statement) => x.lawId == lawId);
    FilterSingleton(s, (x: Statement) => x.lawId == lawId);
  }

  /** Appending a statement no older than any in the ledger puts it at the end
      of its law's transcript and leaves the other transcripts alone. */
  lemma TranscriptOfAppend(statements: seq<Statement>, s: Statement, lawId: string)
    requires forall i :: 0 <= i < |statements| ==> statements[i].timestamp <= s.timestamp
    ensures GetStatementsByLaw(lawId, statements + [s]) ==
      if s.lawId == lawId then GetStatementsByLaw(lawId, statements) + [s]
      else GetStatementsByLaw(lawId, statements)
  {
    ForLawOfAppend(statements, s, lawId);
    var f := ForLaw(statements, lawId);
    if s.lawId == lawId {
      forall i | 0 <= i < |f| ensures f[i].timestamp <= s.timestamp {
        assert f[i] in multiset(statements);
      }
      SortAppendLatest(f, s);
    } else {
      assert ForLaw(statements + [s], lawId) == f;
    }
  }

  lemma {:induction false} SortAppendLatest(s: seq<Statement>, x: Statement)
    requires forall i :: 0 <= i < |s| ==> s[i].timestamp <= x.timestamp
    ensures SortByTime(s + [x]) == SortByTime(s) + [x]
    decreases |s|
  {
    if |s| == 0 {
      assert [] + [x] == [x];
      assert [x][1..] == [];
    } else {
      assert (s + [x])[0] == s[0];
      assert (s + [x])[1..] == s[1..] + [x];
      SortAppendLatest(s[1..], x);
      var sorted := SortByTime(s[1..]);
      forall i | 0 <= i < |sorted| ensures sorted[i].timestamp <= x.timestamp {
        assert sorted[i] in multiset(s[1..]);
      }
      InsertBeforeLatest(s[0], sorted, x);
    }
  }

  lemma {:induction false} InsertBeforeLatest(y: Statement, s: seq<Statement>, x: Statement)
    requires SortedByTime(s)
    requires forall i :: 0 <= i < |s| ==> s[i].timestamp <= x.timestamp
    requires y.timestamp <= x.timestamp
    ensures SortedByTime(s + [x])
    ensures InsertByTime(y, s + [x]) == InsertByTime(y, s) + [x]
    decreases |s|
  {
    SortedSnoc(s, x);
    if |s| == 0 || y.timestamp <= s[0].timestamp {
      InsertBeforeLatestFront(y, s, x);
    } else {
      SortedCons(s[0], s[1..]);
      assert [s[0]] + s[1..] == s;
      InsertBeforeLatest(y, s[1..], x);
      InsertBeforeLatestStep(y, s, x);
    }
  }

  lemma InsertBeforeLatestFront(y: Statement, s: seq<Statement>, x: Statement)
    requires SortedByTime(s) && SortedByTime(s + [x])
    requires y.timestamp <= x.timestamp
    requires |s| == 0 || y.timestamp <= s[0].timestamp
    ensures InsertByTime(y, s + [x]) == InsertByTime(y, s) + [x]
  {
    if |s| == 0 {
      assert s + [x] == [x];
    } else {
      assert (s + [x])[0] == s[0];
    }
  }

  lemma InsertBeforeLatestStep(y: Statement, s: seq<Statement>, x: Statement)
    requires SortedByTime(s) && SortedByTime(s + [x])
    requires |s| > 0 && y.timestamp > s[0].timestamp
    requires SortedByTime(s[1..]) && SortedByTime(s[1..] + [x])
    requires InsertByTime(y, s[1..] + [x]) == InsertByTime(y, s[1..]) + [x]
    ensures InsertByTime(y, s + [x]) == InsertByTime(y, s) + [x]
  {
    var sx := s + [x];
    calc {
      InsertByTime(y, sx);
    == { assert sx[0] == s[0] && sx[1..] == s[1..] + [x]; InsertByTimeBehind(y, sx); }
      [s[0]] + InsertByTime(y, s[1..] + [x]);
    ==
      [s[0]] + (InsertByTime(y, s[1..]) + [x]);
    ==
      ([s[0]] + InsertByTime(y, s[1..])) + [x];
    == { InsertByTimeBehind(y, s); }
      InsertByTime(y, s) + [x];
    }
  }

  /** Inserting behind the head leaves the head in front. */
  lemma InsertByTimeBehind(y: Statement, s: seq<Statement>)
    requires SortedByTime(s) && |s| > 0 && y.timestamp > s[0].timestamp
    ensures SortedByTime(s[1..])
    ensures InsertByTime(y, s) == [s[0]] + InsertByTime(y, s[1..])
  {
    assert s == [s[0]] + s[1..];
    SortedCons(s[0], s[1..]);
  }

  // ------------------------------------------------------ canned responses

  const FarLeftResponses: seq<string> := [
    "We must radically transform the system to address this issue.",
    "The struggle of the people demands revolutionary action on this matter.",
    "This is another example of systemic inequalities that must be uprooted.",
    "We need complete restructuring, not incremental change.",
    "Power must be returned to the people, not concentrated in the hands of the few."
  ]

  const LeftWingResponses: seq<string> := [
    "We should invest more in public services to address this challenge.",
    "This requires a compassionate approach that protects the vulnerable.",
    "Government intervention is necessary to ensure fairness and equality.",
    "We must consider the social impact alongside economic factors.",
    "Progressive taxation would help fund solutions to this problem."
  ]

  const CenterResponses: seq<string> := [
    "We need a balanced approach that considers all perspectives.",
    "Let's find a pragmatic solution that works for everyone.",
    "Both sides have valid points, but compromise is essential.",
    "We should follow the evidence while respecting diverse viewpoints.",
    "Incremental, practical steps will move us forward on this issue."
  ]

  const RightWingResponses: seq<string> := [
    "The free market will provide the most efficient solution here.",
    "We must reduce regulations to allow innovation to address this challenge.",
    "Lower taxes will stimulate the growth needed to solve this problem.",
    "Traditional values and personal responsibility are central to this issue.",
    "The private sector, not government, should take the lead on this."
  ]

  const FarRightResponses: seq<string> := [
    "This threatens our national sovereignty and traditional way of life.",
    "Radical elements are undermining our society with this agenda.",
    "Strong leadership is needed to restore order in this matter.",
    "We must protect our heritage and values against these changes.",
    "Law and order must be the priority in addressing this situation."
  ]

  /** The response table: an entry for each of the five orientations, none otherwise. */
  function Responses(orientation: string): (r: Option<seq<string>>)
    ensures r.Some? <==> orientation in {FarLeft, LeftWing, Center, RightWing, FarRight}
  {
    if orientation == FarLeft then Some(FarLeftResponses)
    else if orientation == LeftWing then Some(LeftWingResponses)
    else if orientation == Center then Some(CenterResponses)
    else if orientation == RightWing then Some(RightWingResponses)
    else if orientation == FarRight then Some(FarRightResponses)
    else None
  }

  /** The sentences a group of this orientation draws from, with the Center fallback. */
  function ResponsePool(orientation: string): (pool: seq<string>)
    ensures Responses(orientation).Some? ==> pool == Responses(orientation).value
    ensures Responses(orientation).None? ==> pool == CenterResponses
  {
    match Responses(orientation)
    case Some(pool) => pool
    case None => CenterResponses
  }

  lemma ResponseTablesHaveFiveEntries(orientation: string)
    ensures |ResponsePool(orientation)| == 5
    ensures Responses(orientation).Some? ==> |Responses(orientation).value| == 5
  {
  }

  /** `Math.floor(roll * n)` for a roll of `Math.random()`. */
  function PickIndex(roll: real, n: nat): (k: nat)
    requires 0.0 <= roll < 1.0
    ensures n > 0 ==> k < n
    ensures n == 0 ==> k == 0
  {
    (roll * n as real).Floor
  }

  /** Every index is the pick of some roll: the choice can land anywhere. */
  lemma EveryIndexIsPicked(k: nat, n: nat)
    requires k < n
    ensures 0.0 <= k as real / n as real < 1.0
    ensures PickIndex(k as real / n as real, n) == k
  {
    assert (k as real / n as real) * n as real == k as real;
  }

  /** A canned sentence for the speaker's group; the politician and the topic
      are accepted but not used. */
  function GeneratePoliticalResponse(politician: Politician, group: Group, topic: string, roll: real): (r: string)
    requires 0.0 <= roll < 1.0
    ensures r in ResponsePool(group.orientation)
    ensures Responses(group.orientation).None? ==> r in CenterResponses
  {
    var pool := ResponsePool(group.orientation);
    pool[PickIndex(roll, |pool|)]
  }

  /** Only the group's orientation and the roll decide the sentence. */
  lemma ResponseDependsOnlyOnOrientation(
    p1: Politician, g1: Group, t1: string,
    p2: Politician, g2: Group, t2: string, roll: real)
    requires 0.0 <= roll < 1.0
    requires g1.orientation == g2.orientation
    ensures GeneratePoliticalResponse(p1, g1, t1, roll) == GeneratePoliticalResponse(p2, g2, t2, roll)
  {
  }

  /** Each of the sentences for the orientation is produced by some roll. */
  lemma EveryResponseIsReachable(p: Politician, g: Group, topic: string, k: nat)
    requires k < |ResponsePool(g.orientation)|
    ensures exists roll: real ::
              0.0 <= roll < 1.0 && GeneratePoliticalResponse(p, g, topic, roll) == ResponsePool(g.orientation)[k]
  {
    var n := |ResponsePool(g.orientation)|;
    EveryIndexIsPicked(k, n);
    var roll := k as real / n as real;
    assert GeneratePoliticalResponse(p, g, topic, roll) == ResponsePool(g.orientation)[k];
  }
}
