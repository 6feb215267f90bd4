/** The seed data the program starts from: five parliamentary groups, five
    politicians in each, five law proposals and the opening statements of the
    debate on the first law. The lemmas record the well-formedness the
    operations rely on.
 */
module ParliamentData {
  import opened Collections
  import opened ParliamentUtils

  const ConservativesDescription: string :=
    "Advocates for traditional values, free markets, and limited government intervention."
  const LiberalsDescription: string :=
    "Promotes social equality, welfare programs, and progressive social policies."
  const GreensDescription: string :=
    "Focuses on environmental protection, climate action, and sustainable development."
  const ModeratesDescription: string :=
    "Seeks compromise solutions and practical governance approaches."
  const RadicalsDescription: string :=
    "Advocates for fundamental system changes and direct democracy."

  const Groups: seq<Group> := [
    Group("conservatives", "Conservative Alliance", "parliament-conservative", RightWing, 28, ConservativesDescription),
    Group("liberals", "Progressive Liberals", "parliament-liberal", LeftWing, 23, LiberalsDescription),
    Group("greens", "Green Future", "parliament-green", LeftWing, 15, GreensDescription),
    Group("moderates", "Centrist Moderates", "parliament-moderate", Center, 18, ModeratesDescription),
    Group("radicals", "Radical Reform", "parliament-radical", FarLeft, 16, RadicalsDescription)
  ]

  const Politicians: seq<Politician> := [
    Politician("c1", "Victoria Montgomery", "conservatives", "/placeholder.svg", Some("Group Leader"), "Economic Affairs"),
    Politician("c2", "Richard Sterling", "conservatives", "/placeholder.svg", None, "Defense"),
    Politician("c3", "Elizabeth Harrington", "conservatives", "/placeholder.svg", None, "Foreign Affairs"),
    Politician("c4", "James Wilson", "conservatives", "/placeholder.svg", None, "Agriculture"),
    Politician("c5", "William Thornton", "conservatives", "/placeholder.svg", None, "Justice"),
    Politician("l1", "Sophia Rodriguez", "liberals", "/placeholder.svg", Some("Group Leader"), "Education"),
    Politician("l2", "Marcus Johnson", "liberals", "/placeholder.svg", None, "Healthcare"),
    Politician("l3", "Aria Chen", "liberals", "/placeholder.svg", None, "Social Welfare"),
    Politician("l4", "Darius Williams", "liberals", "/placeholder.svg", None, "Civil Rights"),
    Politician("l5", "Leila Hassan", "liberals", "/placeholder.svg", None, "Housing"),
    Politician("g1", "Oliver Greenwood", "greens", "/placeholder.svg", Some("Group Leader"), "Environment"),
    Politician("g2", "Fiona Rivers", "greens", "/placeholder.svg", None, "Climate Policy"),
    Politician("g3", "Raj Patel", "greens", "/placeholder.svg", None, "Sustainable Transport"),
    Politician("g4", "Luna Forest", "greens", "/placeholder.svg", None, "Renewable Energy"),
    Politician("g5", "Thomas Berg", "greens", "/placeholder.svg", None, "Wildlife Conservation"),
    Politician("m1", "Catherine Gray", "moderates", "/placeholder.svg", Some("Group Leader"), "Economic Stability"),
    Politician("m2", "Michael Brown", "moderates", "/placeholder.svg", None, "Budget"),
    Politician("m3", "Sarah Miller", "moderates", "/placeholder.svg", None, "Infrastructure"),
    Politician("m4", "David Park", "moderates", "/placeholder.svg", None, "Technology"),
    Politician("m5", "Jennifer Lee", "moderates", "/placeholder.svg", None, "Small Business"),
    Politician("r1", "Felix Diaz", "radicals", "/placeholder.svg", Some("Group Leader"), "Political Reform"),
    Politician("r2", "Zoe Black", "radicals", "/placeholder.svg", None, "Workers' Rights"),
    Politician("r3", "Kwame Otieno", "radicals", "/placeholder.svg", None, "Anti-Corruption"),
    Politician("r4", "Astrid Berg", "radicals", "/placeholder.svg", None, "Public Ownership"),
    Politician("r5", "Marcel Dubois", "radicals", "/placeholder.svg", None, "Direct Democracy")
  ]

  const Law1Description: string :=
    "Establish a universal basic income of $1000 monthly for all adult citizens."
  const Law2Description: string :=
    "Reduce corporate tax rates from 35% to 25% to stimulate economic growth."
  const Law3Description: string :=
    "Mandate 50% renewable energy by 2030 and 100% by 2045."
  const Law4Description: string :=
    "Implement ranked-choice voting in all national elections."
  const Law5Description: string :=
    "Allocate $500 billion over 10 years to modernize national infrastructure."

  const LawProposals: seq<Law> := [
    Law("law1", "Universal Basic Income Act",
      Law1Description,
      "liberals", Debating, Votes(0, 0, 0), ["economy", "welfare", "social"]),
    Law("law2", "Corporate Tax Reform",
      Law2Description,
      "conservatives", Pending, Votes(0, 0, 0), ["economy", "taxation", "business"]),
    Law("law3", "Green Energy Transition Act",
      Law3Description,
      "greens", Pending, Votes(0, 0, 0), ["environment", "energy", "climate"]),
    Law("law4", "Electoral Reform Initiative",
      Law4Description,
      "radicals", Pending, Votes(0, 0, 0), ["political", "voting", "democratic"]),
    Law("law5", "Infrastructure Investment Plan",
      Law5Description,
      "moderates", Pending, Votes(0, 0, 0), ["infrastructure", "economy", "development"])
  ]

  const Statement1Content: string :=
    "Universal Basic Income will provide economic security to millions and boost our economy from the bottom up."
  const Statement2Content: string :=
    "This proposal is fiscally irresponsible and would lead to massive inflation and workforce reduction."
  const Statement3Content: string :=
    "While we support the principle, we must ensure this program is funded sustainably and doesn't increase carbon consumption."
  const Statement4Content: string :=
    "We propose a compromise - a targeted basic income for low-income citizens with a gradual implementation."
  const Statement5Content: string :=
    "This doesn't go far enough. We should be looking at full wealth redistribution, not token payments."

  /** The seed debate. Each timestamp is the page-load clock reading `now`
      minus a fixed offset, so the five statements are 50 seconds apart. */
  function InitialDebateStatements(now: int): (s: seq<Statement>)
    ensures |s| == 5
    ensures forall i :: 0 <= i < |s| ==> s[i].timestamp == now - 300000 + 50000 * i
  {
    [
      Statement("stmt1", "l1", "law1",
        Statement1Content,
        now - 300000),
      Statement("stmt2", "c1", "law1",
        Statement2Content,
        now - 250000),
      Statement("stmt3", "g1", "law1",
        Statement3Content,
        now - 200000),
      Statement("stmt4", "m1", "law1",
        Statement4Content,
        now - 150000),
      Statement("stmt5", "r1", "law1",
        Statement5Content,
        now - 100000)
    ]
  }

  const GroupLeader: string := "Group Leader"

  /** The group ids in list order; the roster lists the groups' members in the same order. */
  const GroupIds: seq<string> := ["conservatives", "liberals", "greens", "moderates", "radicals"]

  /** Politician ids are a group letter followed by a member digit. */
  const IdLetters: string := "clgmr"
  const IdDigits: string := "12345"

  lemma GroupIdsAreDistinct()
    ensures |Groups| == 5
    ensures forall k :: 0 <= k < 5 ==> Groups[k].id == GroupIds[k]
    ensures DistinctKeys(Groups, (g: Group) => g.id)
  {
  }

  /** The layout of the roster: member `i` belongs to group `i / 5`, its id is
      a letter for the group and a digit for the member, and only the first
      member of each group carries the role "Group Leader". */
  lemma RosterGroups()
    ensures |Politicians| == 25
    ensures forall i :: 0 <= i < 25 ==> Politicians[i].groupId == GroupIds[i / 5]
  {
  }

  lemma RosterIds()
    ensures |Politicians| == 25
    ensures forall i :: 0 <= i < 25 ==> Politicians[i].id == [IdLetters[i / 5], IdDigits[i % 5]]
  {
  }

  lemma RosterRoles()
    ensures |Politicians| == 25
    ensures forall i :: 0 <= i < 25 ==> Politicians[i].role == if i % 5 == 0 then Some(GroupLeader) else None
  {
  }

  lemma PoliticianIdsAreDistinct()
    ensures |Politicians| == 25
    ensures DistinctKeys(Politicians, (p: Politician) => p.id)
  {
    RosterIds();
    forall i, j | 0 <= i < j < 25 ensures Politicians[i].id != Politicians[j].id {
      if i / 5 == j / 5 {
        assert i % 5 != j % 5;
        assert Politicians[i].id[1] != Politicians[j].id[1];
      } else {
        assert Politicians[i].id[0] != Politicians[j].id[0];
      }
    }
  }

  lemma GroupLookup(k: nat)
    requires k < 5
    ensures GetGroupById(GroupIds[k], Groups) == Some(Groups[k])
  {
    GroupIdsAreDistinct();
    GroupLookupFindsMember(Groups, k);
  }

  /** Every politician's group exists. */
  lemma PoliticiansBelongToGroups()
    ensures forall i :: 0 <= i < |Politicians| ==> GetGroupById(Politicians[i].groupId, Groups).Some?
  {
    RosterGroups();
    forall i | 0 <= i < |Politicians| ensures GetGroupById(Politicians[i].groupId, Groups).Some? {
      GroupLookup(i / 5);
    }
  }

  /** A roster listed in blocks of five per group: member `i` is in group
      `ids[i / 5]`, and the group ids are distinct. */
  ghost predicate BlockRoster(roster: seq<Politician>, ids: seq<string>) {
    && |roster| == 25 && |ids| == 5
    && (forall i :: 0 <= i < 25 ==> roster[i].groupId == ids[i / 5])
    && (forall a, b :: 0 <= a < b < 5 ==> ids[a] != ids[b])
  }

  lemma BlockOutside(roster: seq<Politician>, ids: seq<string>, k: nat, lo: nat, hi: nat)
    requires BlockRoster(roster, ids) && k < 5
    requires lo <= hi <= 25
    requires hi <= 5 * k || 5 * k + 5 <= lo
    ensures Filter(roster[lo..hi], (x: Politician) => x.groupId == ids[k]) == []
  {
    var part := roster[lo..hi];
    forall i | 0 <= i < |part| ensures part[i].groupId != ids[k] {
      assert part[i] == roster[lo + i];
      var g := (lo + i) / 5;
      assert g != k;
      if g < k {
        assert ids[g] != ids[k];
      } else {
        assert ids[k] != ids[g];
      }
    }
    FilterNone(part, (x: Politician) => x.groupId == ids[k]);
  }

  lemma BlockInside(roster: seq<Politician>, ids: seq<string>, k: nat)
    requires BlockRoster(roster, ids) && k < 5
    ensures Filter(roster[5 * k .. 5 * k + 5], (x: Politician) => x.groupId == ids[k]) == roster[5 * k .. 5 * k + 5]
  {
    var part := roster[5 * k .. 5 * k + 5];
    forall i | 0 <= i < |part| ensures part[i].groupId == ids[k] {
      assert part[i] == roster[5 * k + i];
      assert (5 * k + i) / 5 == k;
    }
    FilterAll(part, (x: Politician) => x.groupId == ids[k]);
  }

  /** In a block roster the members of group `k` are the block starting at `5 * k`. */
  lemma BlockMembers(roster: seq<Politician>, ids: seq<string>, k: nat)
    requires BlockRoster(roster, ids) && k < 5
    ensures |GetPoliticiansByGroup(ids[k], roster)| == 5
    ensures forall i :: 0 <= i < 5 ==> GetPoliticiansByGroup(ids[k], roster)[i] == roster[5 * k + i]
  {
    BlockOutside(roster, ids, k, 0, 5 * k);
    BlockOutside(roster, ids, k, 5 * k + 5, 25);
    BlockInside(roster, ids, k);
    JoinBlocks(roster, 5 * k, (x: Politician) => x.groupId == ids[k]);
  }

  lemma JoinBlocks(roster: seq<Politician>, m: nat, p: Politician -> bool)
    requires m + 5 <= |roster|
    requires Filter(roster[0 .. m], p) == []
    requires Filter(roster[m .. m + 5], p) == roster[m .. m + 5]
    requires Filter(roster[m + 5 .. |roster|], p) == []
    ensures |Filter(roster, p)| == 5
    ensures forall i :: 0 <= i < 5 ==> Filter(roster, p)[i] == roster[m + i]
  {
    var front := roster[0 .. m + 5];
    FrontSlices(roster, m, m + 5);
    calc {
      Filter(roster, p);
    == { SplitFilter(roster, m + 5, p); }
      Filter(front, p) + Filter(roster[m + 5 .. |roster|], p);
    ==
      Filter(front, p);
    == { SplitFilter(front, m, p); }
      Filter(roster[0 .. m], p) + Filter(roster[m .. m + 5], p);
    ==
      roster[m .. m + 5];
    }
  }

  /** Five members of whom only the first has the given role have exactly one holder of it. */
  lemma BlockLeader(members: seq<Politician>, role: string)
    requires |members| == 5
    requires members[0].role == Some(role)
    requires forall i :: 1 <= i < 5 ==> members[i].role == None
    ensures Filter(members, (p: Politician) => p.role == Some(role)) == [members[0]]
  {
    var lead := (p: Politician) => p.role == Some(role);
    assert members == [members[0]] + members[1..];
    forall i | 0 <= i < |members[1..]| ensures !lead(members[1..][i]) {
      assert members[1..][i] == members[1 + i];
    }
    FilterNone(members[1..], lead);
    FilterAppend([members[0]], members[1..], lead);
    FilterSingleton(members[0], lead);
  }

  /** In a block roster whose blocks start with the only holder of `role`,
      every group has five members and exactly one holder of `role`. */
  lemma BlockGroupHasOneLeader(roster: seq<Politician>, ids: seq<string>, role: string, k: nat)
    requires BlockRoster(roster, ids) && k < 5
    requires forall i :: 0 <= i < 25 ==> roster[i].role == if i % 5 == 0 then Some(role) else None
    ensures |GetPoliticiansByGroup(ids[k], roster)| == 5
    ensures Filter(GetPoliticiansByGroup(ids[k], roster), (p: Politician) => p.role == Some(role)) == [roster[5 * k]]
  {
    BlockMembers(roster, ids, k);
    var members := GetPoliticiansByGroup(ids[k], roster);
    assert members[0] == roster[5 * k];
    forall j | 1 <= j < 5 ensures members[j].role == None {
      assert members[j] == roster[5 * k + j];
      assert (5 * k + j) % 5 == j;
    }
    BlockLeader(members, role);
  }

  /** Each group has exactly five members, exactly one of them its leader. */
  lemma GroupsHaveFiveMembersAndOneLeader(k: nat)
    requires k < |Groups|
    ensures |GetPoliticiansByGroup(Groups[k].id, Politicians)| == 5
    ensures Filter(GetPoliticiansByGroup(Groups[k].id, Politicians), (p: Politician) => p.role == Some(GroupLeader))
            == [Politicians[5 * k]]
  {
    GroupIdsAreDistinct();
    RosterGroups();
    RosterRoles();
    assert BlockRoster(Politicians, GroupIds);
    BlockGroupHasOneLeader(Politicians, GroupIds, GroupLeader, k);
  }

  /** Every seed proposer is an existing group. */
  lemma SeedProposersAreGroups()
    ensures forall i :: 0 <= i < |LawProposals| ==> GetGroupById(LawProposals[i].proposedBy, Groups).Some?
  {
    SeedLawProposers();
    forall i | 0 <= i < |LawProposals| ensures GetGroupById(LawProposals[i].proposedBy, Groups).Some? {
      GroupLookup(ProposerIndex[i]);
    }
  }

  /** The position in the group list of each seed proposal's proposer. */
  const ProposerIndex: seq<nat> := [1, 0, 2, 4, 3]

  /** Only the first proposal is under debate, and nobody has voted yet. */
  lemma SeedLawStatuses()
    ensures |LawProposals| == 5
    ensures forall i :: 0 <= i < 5 ==> (LawProposals[i].status == Debating <==> i == 0)
    ensures forall i :: 0 <= i < 5 ==> LawProposals[i].votes == Votes(0, 0, 0)
  {
  }

  lemma SeedLawProposers()
    ensures |LawProposals| == 5
    ensures forall i :: 0 <= i < 5 ==> ProposerIndex[i] < 5 && LawProposals[i].proposedBy == GroupIds[ProposerIndex[i]]
  {
  }

  /** The roster positions of the five seed speakers. */
  const SeedSpeakers: seq<nat> := [5, 0, 10, 15, 20]

  /** The seed statements are about the first law and are spoken by the listed politicians. */
  lemma SeedStatementLayout(now: int)
    ensures forall i :: 0 <= i < 5 ==> InitialDebateStatements(now)[i].lawId == LawProposals[0].id
    ensures forall i :: 0 <= i < 5 ==> SeedSpeakers[i] < |Politicians|
    ensures forall i :: 0 <= i < 5 ==>
      InitialDebateStatements(now)[i].politicianId == Politicians[SeedSpeakers[i]].id
  {
  }

  /** Every seed statement quotes an existing politician. */
  lemma SeedSpeakersAreListed(now: int)
    ensures forall i :: 0 <= i < 5 ==>
      GetPoliticianById(InitialDebateStatements(now)[i].politicianId, Politicians).Some?
  {
    PoliticianIdsAreDistinct();
    SeedStatementLayout(now);
    forall i | 0 <= i < 5
      ensures GetPoliticianById(InitialDebateStatements(now)[i].politicianId, Politicians).Some?
    {
      PoliticianLookupFindsMember(Politicians, SeedSpeakers[i]);
    }
  }

  /** The seed statements are strictly increasing in time in list order. */
  lemma SeedStatementTimes(now: int)
    ensures forall i, j :: 0 <= i < j < 5 ==>
      InitialDebateStatements(now)[i].timestamp < InitialDebateStatements(now)[j].timestamp
  {
  }
}
