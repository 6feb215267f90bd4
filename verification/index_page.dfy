/** The page that owns the parliament's mutable state: the list of law
    proposals, the active law (a snapshot of the record that was selected),
    and the ledger of debate statements. Its handlers select a law for
    debate, cast a vote, append a submitted proposal, and append a debate
    statement; `Run` replays any series of these from the seed state.

    Failures are silent: voting on an unknown id changes nothing, and the
    debate panel simply adds nothing when no statement can be produced.
 */
module IndexPage {
  import opened Collections
  import opened ParliamentUtils
  import ParliamentData
  import DebatePanel
  import ProposalForm
  import Decimal

  datatype State = State(laws: seq<Law>, active: Option<Law>, statements: seq<Statement>)

  /** The id given to the n-th law: `law${n}`. */
  function LawId(n: nat): (id: string)
    ensures |id| > 3 && id[..3] == "law"
  {
    "law" + Decimal.Digits(n)
  }

  /** The numeral after "law" reads back as the law's number. */
  lemma LawIdReadsBack(n: nat)
    ensures Decimal.AllDigits(LawId(n)[3..]) && Decimal.Value(LawId(n)[3..]) == n
  {
    assert LawId(n)[3..] == Decimal.Digits(n);
    Decimal.ValueOfDigits(n);
  }

  lemma LawIdInjective(m: nat, n: nat)
    ensures LawId(m) == LawId(n) <==> m == n
  {
    if LawId(m) == LawId(n) {
      assert LawId(m)[3..] == Decimal.Digits(m);
      assert LawId(n)[3..] == Decimal.Digits(n);
      Decimal.DigitsInjective(m, n);
    }
  }

  // ---------------------------------------------------------------------
  // Selecting a law for debate
  // ---------------------------------------------------------------------

  /** `laws.map(l => l.id === id ? {...l, status} : l)`. */
  function SetStatus(laws: seq<Law>, id: string, status: Status): (r: seq<Law>)
    ensures |r| == |laws|
    ensures forall i :: 0 <= i < |r| ==> r[i] == if laws[i].id == id then laws[i].(status := status) else laws[i]
  {
    seq(|laws|, i requires 0 <= i < |laws| => if laws[i].id == id then laws[i].(status := status) else laws[i])
  }

  /** `handleSelectLaw`: when a law with a different id was active, every
      record with that id goes back to Pending, whatever its status was;
      then every record with the chosen id becomes Debating and the chosen
      law becomes the active one. Records with neither id are untouched. */
  function SelectLaw(st: State, law: Law): (r: State)
    ensures |r.laws| == |st.laws| && r.active == Some(law) && r.statements == st.statements
    ensures forall i :: 0 <= i < |r.laws| && st.laws[i].id == law.id ==>
      r.laws[i] == st.laws[i].(status := Debating)
    ensures forall i ::
      (0 <= i < |r.laws| && st.active.Some? && st.active.value.id != law.id &&
       st.laws[i].id == st.active.value.id) ==> r.laws[i] == st.laws[i].(status := Pending)
    ensures forall i ::
      (0 <= i < |r.laws| && st.laws[i].id != law.id &&
       (st.active.None? || st.laws[i].id != st.active.value.id)) ==> r.laws[i] == st.laws[i]
  {
    var demoted :=
      if st.active.Some? && st.active.value.id != law.id then SetStatus(st.laws, st.active.value.id, Pending)
      else st.laws;
    State(SetStatus(demoted, law.id, Debating), Some(law), st.statements)
  }

  // ---------------------------------------------------------------------
  // Voting
  // ---------------------------------------------------------------------

  datatype Choice = For | Against | Abstain

  /** Votes for plus votes against at which a law is decided. */
  const VoteThreshold: nat := 50

  /** The decision at or above the threshold: a tie is a rejection. */
  function Outcome(v: Votes): Status {
    if v.favor > v.against then Passed else Rejected
  }

  /** The vote handler's update of the matching record: one more vote of
      the chosen kind, and a recomputed status once for plus against
      reaches the threshold. There is no guard for laws already decided. */
  function VoteOn(law: Law, choice: Choice): (r: Law)
    ensures r.votes.favor == law.votes.favor + (if choice == For then 1 else 0)
    ensures r.votes.against == law.votes.against + (if choice == Against then 1 else 0)
    ensures r.votes.abstain == law.votes.abstain + (if choice == Abstain then 1 else 0)
    ensures r.votes.favor + r.votes.against < VoteThreshold ==> r.status == law.status
    ensures r.votes.favor + r.votes.against >= VoteThreshold ==>
      (r.status == Passed <==> r.votes.favor > r.votes.against) &&
      (r.status == Rejected <==> r.votes.favor <= r.votes.against)
    ensures r.(votes := law.votes, status := law.status) == law
  {
    var v := match choice
      case For => law.votes.(favor := law.votes.favor + 1)
      case Against => law.votes.(against := law.votes.against + 1)
      case Abstain => law.votes.(abstain := law.votes.abstain + 1);
    var status := if v.favor + v.against >= VoteThreshold then Outcome(v) else law.status;
    law.(votes := v, status := status)
  }

  /** `handleVote(lawId, choice)`: every record with that id is updated. */
  function Vote(st: State, lawId: string, choice: Choice): (r: State)
    ensures |r.laws| == |st.laws| && r.active == st.active && r.statements == st.statements
    ensures forall i :: 0 <= i < |r.laws| ==>
      r.laws[i] == if st.laws[i].id == lawId then VoteOn(st.laws[i], choice) else st.laws[i]
  {
    var laws := seq(|st.laws|, i requires 0 <= i < |st.laws| =>
      if st.laws[i].id == lawId then VoteOn(st.laws[i], choice) else st.laws[i]);
    st.(laws := laws)
  }

  /** A vote on an id no law has changes nothing. */
  lemma VoteOnUnknownIdIsNoOp(st: State, lawId: string, choice: Choice)
    requires forall i :: 0 <= i < |st.laws| ==> st.laws[i].id != lawId
    ensures Vote(st, lawId, choice) == st
  {
    assert Vote(st, lawId, choice).laws == st.laws;
  }

  /** `n` votes of the same kind in a row. */
  function VoteMany(law: Law, choice: Choice, n: nat): (r: Law)
    decreases n
  {
    if n == 0 then law else VoteOn(VoteMany(law, choice, n - 1), choice)
  }

  /** Each vote of a kind adds exactly one to that counter and nothing to the
      other two; the record's other fields never change. */
  lemma {:induction false} VoteManyTally(law: Law, choice: Choice, n: nat)
    ensures VoteMany(law, choice, n).votes.favor == law.votes.favor + (if choice == For then n else 0)
    ensures VoteMany(law, choice, n).votes.against == law.votes.against + (if choice == Against then n else 0)
    ensures VoteMany(law, choice, n).votes.abstain == law.votes.abstain + (if choice == Abstain then n else 0)
    ensures VoteMany(law, choice, n).(votes := law.votes, status := law.status) == law
    decreases n
  {
    if n > 0 {
      VoteManyTally(law, choice, n - 1);
    }
  }

  /** No decision is final: whatever its status, a law is rejected once
      enough votes against bring the against count up to the for count. */
  lemma VotesAgainstOverturn(law: Law, n: nat)
    requires n >= 1
    requires law.votes.favor + law.votes.against + n >= VoteThreshold
    requires law.votes.against + n >= law.votes.favor
    ensures VoteMany(law, Against, n).status == Rejected
  {
    VoteManyTally(law, Against, n - 1);
  }

  /** A decision that agrees with the current tally. */
  ghost predicate Settled(law: Law) {
    law.votes.favor + law.votes.against >= VoteThreshold ==> law.status == Outcome(law.votes)
  }

  /** Abstentions never enter the status rule: the number of abstentions
      already cast does not change what a vote does to the status, and an
      abstention leaves a settled law's status as it is. */
  lemma AbstentionsDoNotDecide(law: Law, abstain: nat, choice: Choice)
    ensures VoteOn(law.(votes := law.votes.(abstain := abstain)), choice).status == VoteOn(law, choice).status
    ensures Settled(law) ==> VoteOn(law, Abstain).status == law.status
  {
  }

  /** Every vote leaves the law settled. */
  lemma VoteSettles(law: Law, choice: Choice)
    ensures Settled(VoteOn(law, choice))
  {
  }

  /** A decided law with 50 or more decisive votes that is selected again
      becomes Debating, and the next abstention decides it again from the
      old tally: the status rule is run on every vote, abstentions included. */
  lemma ReopenedLawIsDecidedByAbstention(st: State, k: nat)
    requires Inv(st) && k < |st.laws|
    requires st.laws[k].status == Passed || st.laws[k].status == Rejected
    requires st.laws[k].votes.favor + st.laws[k].votes.against >= VoteThreshold
    ensures SelectLaw(st, st.laws[k]).laws[k].status == Debating
    ensures Vote(SelectLaw(st, st.laws[k]), st.laws[k].id, Abstain).laws[k].status == Outcome(st.laws[k].votes)
  {
    var reopened := SelectLaw(st, st.laws[k]);
    assert reopened.laws[k] == st.laws[k].(status := Debating);
  }

  /** More generally, the next vote of any kind on such a reselected law
      decides it from the tally that vote produces. */
  lemma ReopenedLawIsDecidedByNextVote(st: State, k: nat, choice: Choice)
    requires Inv(st) && k < |st.laws|
    requires st.laws[k].votes.favor + st.laws[k].votes.against >= VoteThreshold
    ensures Vote(SelectLaw(st, st.laws[k]), st.laws[k].id, choice).laws[k].status ==
      Outcome(VoteOn(st.laws[k], choice).votes)
  {
    var reopened := SelectLaw(st, st.laws[k]);
    assert reopened.laws[k] == st.laws[k].(status := Debating);
  }

  /** Two vote scenarios: 31 for and 19 against passes;
      24 for and 26 against is rejected, and an abstention keeps it so. */
  lemma VoteExamples(law: Law)
    ensures VoteOn(law.(votes := Votes(30, 19, 5)), For).status == Passed
    ensures VoteOn(law.(votes := Votes(24, 26, 0), status := Rejected), Abstain).status == Rejected
  {
  }

  /** A passed law is overturned by two votes against. */
  lemma PassedLawCanBeRejected()
    ensures var law := Law("law1", "t", "d", "greens", Passed, Votes(26, 24, 0), []);
      VoteMany(law, Against, 2).status == Rejected
  {
    var law := Law("law1", "t", "d", "greens", Passed, Votes(26, 24, 0), []);
    VotesAgainstOverturn(law, 2);
  }

  // ---------------------------------------------------------------------
  // Proposals and statements
  // ---------------------------------------------------------------------

  /** `handleSubmitProposal`: append a Pending law with no votes, numbered
      one past the current length of the list. */
  function SubmitProposal(st: State, p: ProposalForm.Proposal): (r: State)
    ensures |r.laws| == |st.laws| + 1 && r.laws[..|st.laws|] == st.laws
    ensures r.laws[|st.laws|] ==
      Law(LawId(|st.laws| + 1), p.title, p.description, p.proposedBy, Pending, Votes(0, 0, 0), p.tags)
    ensures r.active == st.active && r.statements == st.statements
  {
    var law := Law(LawId(|st.laws| + 1), p.title, p.description, p.proposedBy, Pending, Votes(0, 0, 0), p.tags);
    assert (st.laws + [law])[..|st.laws|] == st.laws;
    st.(laws := st.laws + [law])
  }

  /** `handleAddStatement`: append to the ledger, nothing reordered or merged. */
  function AddStatement(st: State, s: Statement): (r: State)
    ensures |r.statements| == |st.statements| + 1 && r.statements[|st.statements|] == s
    ensures r.statements[..|st.statements|] == st.statements
    ensures r.laws == st.laws && r.active == st.active
  {
    assert (st.statements + [s])[..|st.statements|] == st.statements;
    st.(statements := st.statements + [s])
  }

  // ---------------------------------------------------------------------
  // The debate panel, as the page wires it
  // ---------------------------------------------------------------------

  /** The random draws, the id and the clock reading one "Generate Response"
      click consumes. */
  datatype Draw = Draw(speakerRoll: real, responseRoll: real, id: string, now: int)

  predicate ValidDraw(d: Draw) {
    0.0 <= d.speakerRoll < 1.0 && 0.0 <= d.responseRoll < 1.0
  }

  /** The roster the page hands to the debate panel. The page passes the
      seed data, which `DebatePanel.SeedRosterIsWellSeated` shows to be
      well seated. */
  datatype Chamber = Chamber(politicians: seq<Politician>, groups: seq<Group>)

  /** The statement the panel produces: the panel is only shown while a law
      is active, and it sees only that law's statements. On a well-seated
      roster it always produces one. */
  function NextStatement(c: Chamber, st: State, d: Draw): (r: Option<Statement>)
    requires ValidDraw(d)
    ensures r.Some? ==> st.active.Some?
    ensures st.active.Some? && DebatePanel.WellSeated(c.politicians, c.groups) ==> r.Some?
    ensures r.Some? ==>
      r.value.lawId == st.active.value.id && r.value.id == d.id && r.value.timestamp == d.now &&
      r.value.politicianId !in DebatePanel.RecentSpeakers(ForLaw(st.statements, st.active.value.id)) &&
      GetPoliticianById(r.value.politicianId, c.politicians).Some?
  {
    match st.active
    case None => None
    case Some(law) =>
      var shown := ForLaw(st.statements, law.id);
      var r := DebatePanel.GenerateNewStatement(law, shown, c.politicians, c.groups,
                                                d.speakerRoll, d.responseRoll, d.id, d.now);
      assert DebatePanel.WellSeated(c.politicians, c.groups) ==> r.Some? by {
        if DebatePanel.WellSeated(c.politicians, c.groups) {
          DebatePanel.RosterAlwaysSpeaks(c.politicians, c.groups, law, shown, d.speakerRoll, d.responseRoll, d.id, d.now);
        }
      }
      r
  }

  /** One "Generate Response" click. */
  function Speak(c: Chamber, st: State, d: Draw): (r: State)
    requires ValidDraw(d)
    ensures NextStatement(c, st, d).None? ==> r == st
    ensures NextStatement(c, st, d).Some? ==> r == AddStatement(st, NextStatement(c, st, d).value)
  {
    match NextStatement(c, st, d)
    case None => st
    case Some(s) => AddStatement(st, s)
  }

  /** On a well-seated roster, a click while a law is active appends one
      statement about that law, which extends that law's part of the ledger. */
  lemma SpeakAppends(c: Chamber, st: State, d: Draw)
    requires DebatePanel.WellSeated(c.politicians, c.groups)
    requires st.active.Some? && ValidDraw(d)
    ensures NextStatement(c, st, d).Some?
    ensures Speak(c, st, d).active == st.active
    ensures Speak(c, st, d).statements == st.statements + [NextStatement(c, st, d).value]
    ensures ForLaw(Speak(c, st, d).statements, st.active.value.id) ==
      ForLaw(st.statements, st.active.value.id) + [NextStatement(c, st, d).value]
  {
    ForLawOfAppend(st.statements, NextStatement(c, st, d).value, st.active.value.id);
  }

  /** After three generated statements in a row on the same law, the fourth
      speaker is none of the three previous speakers. */
  lemma FourthSpeakerIsNew(c: Chamber, st: State, d1: Draw, d2: Draw, d3: Draw, d4: Draw)
    requires DebatePanel.WellSeated(c.politicians, c.groups)
    requires st.active.Some?
    requires ValidDraw(d1) && ValidDraw(d2) && ValidDraw(d3) && ValidDraw(d4)
    ensures var st3 := Speak(c, Speak(c, Speak(c, st, d1), d2), d3);
      var n := |st.statements|;
      |st3.statements| == n + 3 && NextStatement(c, st3, d4).Some? &&
      NextStatement(c, st3, d4).value.politicianId != st3.statements[n].politicianId &&
      NextStatement(c, st3, d4).value.politicianId != st3.statements[n + 1].politicianId &&
      NextStatement(c, st3, d4).value.politicianId != st3.statements[n + 2].politicianId
  {
    var a := st.active.value.id;
    var st1 := Speak(c, st, d1);
    SpeakAppends(c, st, d1);
    var st2 := Speak(c, st1, d2);
    SpeakAppends(c, st1, d2);
    var st3 := Speak(c, st2, d3);
    SpeakAppends(c, st2, d3);
    var s1 := NextStatement(c, st, d1).value;
    var s2 := NextStatement(c, st1, d2).value;
    var s3 := NextStatement(c, st2, d3).value;
    var t := ForLaw(st.statements, a);
    assert ForLaw(st3.statements, a) == t + [s1] + [s2] + [s3];
    DebatePanel.RecentSpeakersOfLastThree(t, s1, s2, s3);
    assert st3.statements == st.statements + [s1] + [s2] + [s3];
  }

  // ---------------------------------------------------------------------
  // Initial state and reachable states
  // ---------------------------------------------------------------------

  /** The mount effect: the first Debating law, if any, becomes active. */
  function InitialActive(laws: seq<Law>): (r: Option<Law>)
    ensures r.None? <==> forall i :: 0 <= i < |laws| ==> laws[i].status != Debating
    ensures r.Some? ==>
      exists i :: 0 <= i < |laws| && laws[i] == r.value && r.value.status == Debating &&
        forall j :: 0 <= j < i ==> laws[j].status != Debating
  {
    Find(laws, (l: Law) => l.status == Debating)
  }

  /** The state once the page has mounted; `now` is the load-time clock.
      The mount effect makes the first proposal, the only one under debate,
      the active law. */
  function InitialState(now: int): (st: State)
    ensures st.laws == ParliamentData.LawProposals
    ensures st.statements == ParliamentData.InitialDebateStatements(now)
    ensures st.active == Some(ParliamentData.LawProposals[0])
  {
    assert InitialActive(ParliamentData.LawProposals) == Some(ParliamentData.LawProposals[0]) by {
      ParliamentData.SeedLawStatuses();
    }
    State(ParliamentData.LawProposals, InitialActive(ParliamentData.LawProposals),
          ParliamentData.InitialDebateStatements(now))
  }

  datatype Action =
    | SelectById(lawId: string)
    | Cast(lawId: string, choice: Choice)
    | Propose(proposal: ProposalForm.Proposal)
    | Generate(draw: Draw)

  predicate ValidAction(a: Action) {
    a.Generate? ==> ValidDraw(a.draw)
  }

  /** One handler call. A law is selected by clicking its card, so the
      selected record is the listed one with that id. */
  function Step(c: Chamber, st: State, a: Action): (r: State)
    requires ValidAction(a)
    ensures a.SelectById? && GetLawById(a.lawId, st.laws).None? ==> r == st
    ensures a.SelectById? && GetLawById(a.lawId, st.laws).Some? ==>
      r.active == GetLawById(a.lawId, st.laws) && r.statements == st.statements &&
      |r.laws| == |st.laws| &&
      forall i :: 0 <= i < |st.laws| && st.laws[i].id == a.lawId ==> r.laws[i].status == Debating
    ensures a.Cast? ==> r.active == st.active && r.statements == st.statements && |r.laws| == |st.laws|
    ensures a.Propose? ==> r.active == st.active && r.statements == st.statements && |r.laws| == |st.laws| + 1
    ensures a.Generate? ==> r.laws == st.laws && r.active == st.active && |r.statements| <= |st.statements| + 1
  {
    match a
    case SelectById(id) =>
      (match GetLawById(id, st.laws)
       case None => st
       case Some(law) => SelectLaw(st, law))
    case Cast(id, choice) => Vote(st, id, choice)
    case Propose(p) => SubmitProposal(st, p)
    case Generate(d) => Speak(c, st, d)
  }

  function Run(c: Chamber, st: State, actions: seq<Action>): State
    requires forall k :: 0 <= k < |actions| ==> ValidAction(actions[k])
    decreases |actions|
  {
    if |actions| == 0 then st else Run(c, Step(c, st, actions[0]), actions[1..])
  }

  /** Laws are numbered law1, law2, … in list order, every Debating law
      carries the active law's id, and the active law is listed. */
  ghost predicate Inv(st: State) {
    (forall i :: 0 <= i < |st.laws| ==> st.laws[i].id == LawId(i + 1)) &&
    (forall i :: 0 <= i < |st.laws| && st.laws[i].status == Debating ==>
       st.active.Some? && st.laws[i].id == st.active.value.id) &&
    (st.active.Some? ==> exists i :: 0 <= i < |st.laws| && st.laws[i].id == st.active.value.id)
  }

  lemma SeedLawIds()
    ensures |ParliamentData.LawProposals| == 5
    ensures forall i :: 0 <= i < 5 ==> ParliamentData.LawProposals[i].id == LawId(i + 1)
  {
  }

  lemma InitialStateInv(now: int)
    ensures Inv(InitialState(now))
    ensures InitialState(now).active == Some(ParliamentData.LawProposals[0])
  {
    SeedLawIds();
    ParliamentData.SeedLawStatuses();
  }

  /** The id a new proposal receives is not taken. */
  lemma NewLawIdIsFresh(st: State)
    requires Inv(st)
    ensures forall i :: 0 <= i < |st.laws| ==> st.laws[i].id != LawId(|st.laws| + 1)
  {
    forall i | 0 <= i < |st.laws| ensures st.laws[i].id != LawId(|st.laws| + 1) {
      LawIdInjective(i + 1, |st.laws| + 1);
    }
  }

  /** With the ids `law1`, `law2`, ... in list order, as the invariant keeps
      them, looking up `law{k+1}` finds the k-th listed law. */
  lemma LawLookupByNumber(laws: seq<Law>, k: nat)
    requires forall i :: 0 <= i < |laws| ==> laws[i].id == LawId(i + 1)
    requires k < |laws|
    ensures GetLawById(LawId(k + 1), laws) == Some(laws[k])
  {
    var id := LawId(k + 1);
    var r := GetLawById(id, laws);
    assert laws[k].id == id;
    var i :| 0 <= i < |laws| && laws[i] == r.value && r.value.id == id &&
      forall j :: 0 <= j < i ==> laws[j].id != id;
    assert laws[i].id == LawId(i + 1);
    LawIdInjective(i + 1, k + 1);
  }

  lemma SelectKeepsInv(st: State, law: Law)
    requires Inv(st)
    requires exists i :: 0 <= i < |st.laws| && st.laws[i] == law
    ensures Inv(SelectLaw(st, law))
  {
    var r := SelectLaw(st, law);
    var k :| 0 <= k < |st.laws| && st.laws[k] == law;
    assert r.laws[k].id == law.id;
  }

  lemma VoteKeepsInv(st: State, lawId: string, choice: Choice)
    requires Inv(st)
    ensures Inv(Vote(st, lawId, choice))
  {
    var r := Vote(st, lawId, choice);
    if st.active.Some? {
      var k :| 0 <= k < |st.laws| && st.laws[k].id == st.active.value.id;
      assert r.laws[k].id == st.active.value.id;
    }
  }

  lemma SubmitKeepsInv(st: State, p: ProposalForm.Proposal)
    requires Inv(st)
    ensures Inv(SubmitProposal(st, p))
  {
    var r := SubmitProposal(st, p);
    forall i | 0 <= i < |st.laws| ensures r.laws[i] == st.laws[i] {
      assert r.laws[..|st.laws|][i] == r.laws[i];
    }
    if st.active.Some? {
      var k :| 0 <= k < |st.laws| && st.laws[k].id == st.active.value.id;
      assert r.laws[k].id == st.active.value.id;
    }
  }

  lemma StepKeepsInv(c: Chamber, st: State, a: Action)
    requires Inv(st) && ValidAction(a)
    ensures Inv(Step(c, st, a))
  {
    match a
    case SelectById(id) =>
      match GetLawById(id, st.laws) {
        case None =>
        case Some(law) => SelectKeepsInv(st, law);
      }
    case Cast(id, choice) => VoteKeepsInv(st, id, choice);
    case Propose(p) => SubmitKeepsInv(st, p);
    case Generate(d) =>
  }

  lemma {:induction false} RunKeepsInv(c: Chamber, st: State, actions: seq<Action>)
    requires Inv(st)
    requires forall k :: 0 <= k < |actions| ==> ValidAction(actions[k])
    ensures Inv(Run(c, st, actions))
    decreases |actions|
  {
    if |actions| > 0 {
      StepKeepsInv(c, st, actions[0]);
      RunKeepsInv(c, Step(c, st, actions[0]), actions[1..]);
    }
  }

  /** Under the invariant at most one law is Debating, and it is the active one. */
  lemma OneDebatingLaw(st: State)
    requires Inv(st)
    ensures forall i, j ::
      (0 <= i < |st.laws| && 0 <= j < |st.laws| &&
       st.laws[i].status == Debating && st.laws[j].status == Debating) ==> i == j
    ensures forall i :: 0 <= i < |st.laws| && st.laws[i].status == Debating ==>
      st.active.Some? && st.laws[i].id == st.active.value.id
  {
    forall i, j | 0 <= i < |st.laws| && 0 <= j < |st.laws| &&
      st.laws[i].status == Debating && st.laws[j].status == Debating
      ensures i == j
    {
      LawIdInjective(i + 1, j + 1);
    }
  }

  /** From a state satisfying the invariant, every series of handler calls
      leads to a state with at most one Debating law, which is the active
      one, and in which the next proposal's id is fresh. */
  lemma RunFromInv(c: Chamber, st: State, actions: seq<Action>)
    requires Inv(st)
    requires forall k :: 0 <= k < |actions| ==> ValidAction(actions[k])
    ensures var r := Run(c, st, actions);
      forall i, j ::
        (0 <= i < |r.laws| && 0 <= j < |r.laws| &&
         r.laws[i].status == Debating && r.laws[j].status == Debating) ==> i == j
    ensures var r := Run(c, st, actions);
      forall i :: 0 <= i < |r.laws| && r.laws[i].status == Debating ==>
        r.active.Some? && r.laws[i].id == r.active.value.id
    ensures var r := Run(c, st, actions);
      forall i :: 0 <= i < |r.laws| ==> r.laws[i].id != LawId(|r.laws| + 1)
  {
    RunKeepsInv(c, st, actions);
    OneDebatingLaw(Run(c, st, actions));
    NewLawIdIsFresh(Run(c, st, actions));
  }

  /** In every state reachable from the seed, at most one law is Debating,
      it is the active one, and the next proposal's id is fresh. */
  lemma ReachableStates(c: Chamber, now: int, actions: seq<Action>)
    requires forall k :: 0 <= k < |actions| ==> ValidAction(actions[k])
    ensures var r := Run(c, InitialState(now), actions);
      forall i, j ::
        (0 <= i < |r.laws| && 0 <= j < |r.laws| &&
         r.laws[i].status == Debating && r.laws[j].status == Debating) ==> i == j
    ensures var r := Run(c, InitialState(now), actions);
      forall i :: 0 <= i < |r.laws| && r.laws[i].status == Debating ==>
        r.active.Some? && r.laws[i].id == r.active.value.id
    ensures var r := Run(c, InitialState(now), actions);
      forall i :: 0 <= i < |r.laws| ==> r.laws[i].id != LawId(|r.laws| + 1)
  {
    InitialStateInv(now);
    RunFromInv(c, InitialState(now), actions);
  }
}
