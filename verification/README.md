# AI Parliament — a Dafny model of the debate and voting core

The AI Parliament is a single-page application of a virtual assembly. It has
five parliamentary groups of five politicians each. Law proposals are
selected for debate, voted on, and submitted through a form. Politicians
"speak" on the active law by producing canned sentences that match their
group's political orientation.

This project models the application's logic as pure functions over immutable
values, and proves what each operation promises:

- `Collections`: `Array.prototype.find` and `Array.prototype.filter` (as
  `Find` and `Filter`), and facts about sequences whose elements have
  distinct ids.
- `Decimal`: how an integer is printed inside a template literal. This is
  used for the `law${n}` ids of new proposals.
- `ParliamentUtils`: the entity records; the lookups by id; a group's
  members; the chronological transcript of a law, including the stability
  of the sort; and the canned-response selector.
- `ParliamentData`: the seed groups, roster, proposals and debate, with
  their well-formedness facts.
- `DebatePanel`: the "Generate Response" action. It picks a speaker outside
  the last three speakers and builds a statement.
- `ProposalForm`: tag editing, validation, default tags and reset in the
  new-proposal form.
- `IndexPage`: the page state and its handlers: select a law, vote, submit a
  proposal, append a statement. Also the mount effect that picks the initial
  active law, and `Run`, which replays any series of handler calls. The
  invariants hold in every state `Run` reaches from the seed.

Modelling choices:

- The two `Math.random()` draws are parameters `roll` with `0 <= roll < 1`.
  The index is `floor(roll * n)`.
- Statement ids and clock readings are parameters.
- The page's roster is a `Chamber` parameter. `DebatePanel.SeedRosterIsWellSeated`
  shows that the seed roster satisfies what the proofs need of it.
- A JavaScript `undefined` read is `None`.
- The vote counter named `for` in the source is called `favor`, because
  `for` is a keyword in Dafny.
- Orientations are strings, as in the source's string enum. This keeps the
  `Center` fallback a reachable case for strings outside the enum, except
  for the property names every plain object inherits (see "Left out").

In a few places a reader might expect other behaviour than the code has;
the model follows the code:

- There is no terminal guard on votes. Once for plus against reaches 50,
  every vote recomputes the status, so a passed law can later be rejected
  (`IndexPage.VotesAgainstOverturn`, `IndexPage.PassedLawCanBeRejected`).
- Selecting a law demotes the previously active law to `pending` whatever
  its status was. Selecting a decided law reopens it.
  - Any decided law with 50 or more decisive votes that is selected again
    is decided again by the next vote of any kind
    (`IndexPage.ReopenedLawIsDecidedByNextVote`). After an abstention,
    which changes neither the for nor the against count, the outcome is the
    one its old tally gives (`IndexPage.ReopenedLawIsDecidedByAbstention`).
  - So "abstentions never affect the status" holds only for settled laws
    (`IndexPage.AbstentionsDoNotDecide`).
- The recent-speaker window is taken over the statements already filtered to
  the active law (src/pages/Index.tsx:171), not over the whole ledger.
- Failures are silent. No statement is produced when the candidate pool is
  empty or the speaker's group is missing, and a vote on an unknown id
  changes nothing. No error values are produced.

## Model

| member | source | states |
|---|---|---|
| Collections.Find | src/utils/parliamentUtils.ts:57 | `find` returns None exactly when no element matches; otherwise it returns a matching element with no match before it |
| Collections.Filter | src/utils/parliamentUtils.ts:71 | `filter` keeps exactly the elements that satisfy the predicate and never lengthens the list |
| Collections.FilterMultiset | src/utils/parliamentUtils.ts:86 | filtering keeps every occurrence of a satisfying element and drops every other, so the result is a permutation of the filtered input |
| Collections.FilterIsSubsequence | src/utils/parliamentUtils.ts:71 | a filter's result keeps the input's relative order |
| Collections.FilterAppend | src/pages/Index.tsx:76 | filtering a list extended at the end gives the old filter result extended by the filtered tail |
| Collections.FilterKeepsDistinctKeys | src/components/DebatePanel.tsx:52 | a filter of a list with distinct ids still has distinct ids |
| Decimal.ValueOfDigits | src/pages/Index.tsx:112 | the digits printed for n read back as n |
| Decimal.DigitsInjective | src/pages/Index.tsx:112 | distinct numbers print as distinct digit strings |
| ParliamentUtils.GetGroupById | src/utils/parliamentUtils.ts:53-58 | None iff no group has the id; otherwise the first group with that id |
| ParliamentUtils.GetPoliticianById | src/utils/parliamentUtils.ts:60-65 | None iff no politician has the id; otherwise the first politician with that id |
| ParliamentUtils.GetLawById | src/utils/parliamentUtils.ts:74-79 | None iff no law has the id; otherwise the first law with that id |
| ParliamentUtils.GroupLookupFindsMember | src/utils/parliamentUtils.ts:53-58 | when group ids are distinct, looking up a listed group's id returns that group |
| ParliamentUtils.PoliticianLookupFindsMember | src/utils/parliamentUtils.ts:60-65 | when politician ids are distinct, looking up a listed politician's id returns that politician |
| ParliamentUtils.GetPoliticiansByGroup | src/utils/parliamentUtils.ts:67-72 | exactly the politicians with that group id, each occurrence kept, in roster order |
| ParliamentUtils.ForLaw | src/utils/parliamentUtils.ts:86 | exactly the statements of that law, each occurrence kept, in ledger order |
| ParliamentUtils.ForLawOfAppend | src/utils/parliamentUtils.ts:86 | a statement appended to the ledger extends its own law's view by itself and no other law's view |
| ParliamentUtils.InsertByTime | src/utils/parliamentUtils.ts:87 | inserting into a time-ordered list keeps it time-ordered and adds exactly the new statement |
| ParliamentUtils.InsertByTimeIsStable | src/utils/parliamentUtils.ts:87 | an inserted statement goes in front of every statement with its own timestamp, so inserting each head into its sorted tail is stable |
| ParliamentUtils.SortByTime | src/utils/parliamentUtils.ts:87 | the sorted list is non-decreasing in timestamp and a permutation of the input |
| ParliamentUtils.SortByTimeIsStable | src/utils/parliamentUtils.ts:87 | statements with equal timestamps keep their input order, as the stable JavaScript sort does |
| ParliamentUtils.GetStatementsByLaw | src/utils/parliamentUtils.ts:81-88 | every result statement is about the law; the result is a time-ordered, stable permutation of that law's statements |
| ParliamentUtils.TranscriptOfAppend | src/utils/parliamentUtils.ts:81-88 | appending a statement no older than any other extends its law's transcript by it at the end and leaves other laws' transcripts alone |
| ParliamentUtils.Responses | src/utils/parliamentUtils.ts:99-135 | a table exists exactly for the five orientation names |
| ParliamentUtils.ResponsePool | src/utils/parliamentUtils.ts:137 | the table for the orientation, or the Center table for any other string (apart from the inherited object keys listed under "Left out") |
| ParliamentUtils.ResponseTablesHaveFiveEntries | src/utils/parliamentUtils.ts:99-135 | every orientation's table, and the fallback, has exactly five sentences |
| ParliamentUtils.PickIndex | src/utils/parliamentUtils.ts:138 | `floor(roll * n)` for a roll in [0, 1) is a valid index of a non-empty list |
| ParliamentUtils.EveryIndexIsPicked | src/utils/parliamentUtils.ts:138 | every index of a list is drawn by some roll |
| ParliamentUtils.GeneratePoliticalResponse | src/utils/parliamentUtils.ts:91-139 | the sentence is from the group's orientation table, or from the Center table when the orientation has none (as `ResponsePool` says) |
| ParliamentUtils.ResponseDependsOnlyOnOrientation | src/utils/parliamentUtils.ts:91-139 | the politician and the topic do not affect the sentence; only the orientation and the roll do |
| ParliamentUtils.EveryResponseIsReachable | src/utils/parliamentUtils.ts:137-138 | every sentence of the chosen table is produced by some roll |
| ParliamentData.InitialDebateStatements | src/data/parliamentData.ts:305-341 | five seed statements, 50 seconds apart, the last 100 seconds before page load |
| ParliamentData.GroupIdsAreDistinct | src/data/parliamentData.ts:4-45 | the five group ids are pairwise distinct |
| ParliamentData.RosterGroups | src/data/parliamentData.ts:48-233 | the 25 politicians are listed group by group, five per group, in group-list order |
| ParliamentData.RosterIds | src/data/parliamentData.ts:48-233 | each politician id is the group's letter followed by the member's digit |
| ParliamentData.RosterRoles | src/data/parliamentData.ts:48-233 | the first member of each group is "Group Leader" and no other member has a role |
| ParliamentData.PoliticianIdsAreDistinct | src/data/parliamentData.ts:48-233 | the 25 politician ids are pairwise distinct |
| ParliamentData.GroupLookup | src/data/parliamentData.ts:4-45 | looking up each seed group id returns that group |
| ParliamentData.PoliticiansBelongToGroups | src/data/parliamentData.ts:48-233 | every politician's group id names a seed group |
| ParliamentData.GroupsHaveFiveMembersAndOneLeader | src/data/parliamentData.ts:48-233 | each group has exactly five members, and exactly one of them is "Group Leader" |
| ParliamentData.SeedProposersAreGroups | src/data/parliamentData.ts:236-302 | every seed proposal names a seed group as its proposer, which the group lookup finds |
| ParliamentData.SeedLawStatuses | src/data/parliamentData.ts:236-302 | only the first seed proposal is debating, and every vote counter is zero |
| ParliamentData.SeedLawProposers | src/data/parliamentData.ts:241-293 | each seed proposal is proposed by a listed group id |
| ParliamentData.SeedStatementTimes | src/data/parliamentData.ts:311-339 | the seed statements' timestamps strictly increase in list order |
| ParliamentData.SeedStatementLayout | src/data/parliamentData.ts:305-341 | every seed statement is about the first law and is spoken by the listed leader |
| ParliamentData.SeedSpeakersAreListed | src/data/parliamentData.ts:305-341 | every seed statement quotes a politician whom the politician lookup finds |
| DebatePanel.RecentSpeakers | src/components/DebatePanel.tsx:51 | the speakers of the last min(3, n) statements in order; an id is recent iff one of those statements has it |
| DebatePanel.RecentSpeakersOfLastThree | src/components/DebatePanel.tsx:51 | three statements appended last are exactly the recent speakers |
| DebatePanel.Candidates | src/components/DebatePanel.tsx:51-52 | a politician is a candidate iff listed and the author of none of the last three statements; roster order is kept |
| DebatePanel.Available | src/components/DebatePanel.tsx:52 | exactly the politicians whose id is not recent, each occurrence kept, in roster order |
| DebatePanel.GenerateNewStatement | src/components/DebatePanel.tsx:47-77 | nothing when the pool is empty or the chosen speaker's group is missing; otherwise the chosen speaker, who is never recent, speaks on the active law with a sentence from their group's table |
| DebatePanel.AvailableSize | src/components/DebatePanel.tsx:51-53 | with distinct ids, at most as many politicians are barred as there are recent ids |
| DebatePanel.RosterAlwaysSpeaks | src/components/DebatePanel.tsx:51-58 | on a well-seated roster at most three politicians are barred and a statement is always produced |
| DebatePanel.SeedRosterIsWellSeated | src/data/parliamentData.ts:48-233 | the seed roster has 25 members with distinct ids, all in seed groups |
| DebatePanel.SeedRosterAlwaysSpeaks | src/components/DebatePanel.tsx:51-55 | with the seed roster at least 22 politicians are eligible, and a statement is always produced |
| ProposalForm.AddTag | src/components/ProposalForm.tsx:30-35 | appends the typed tag and clears the input iff the tag is non-empty and new; otherwise nothing changes; duplicate-freeness is kept |
| ProposalForm.RemoveTag | src/components/ProposalForm.tsx:37-39 | removes every occurrence of the tag and keeps the rest in order; duplicate-freeness is kept |
| ProposalForm.Submit | src/components/ProposalForm.tsx:41-63 | refuses iff a required field is empty, leaving the form unchanged; otherwise submits the fields with the tags or ["general"], and resets everything except the tag input |
| ProposalForm.RemoveUndoesAdd | src/components/ProposalForm.tsx:30-39 | removing a just-added tag restores the previous list |
| ProposalForm.SubmittedTags | src/components/ProposalForm.tsx:53 | a submitted proposal's tags are non-empty, and distinct when the form's were |
| ProposalForm.BlankTitleIsAccepted | src/components/ProposalForm.tsx:44 | only the empty string fails validation; a title of spaces passes |
| ProposalForm.SubmitExamples | src/components/ProposalForm.tsx:44-54 | an empty title is refused; an empty tag list becomes ["general"] |
| ProposalForm.Apply | src/components/ProposalForm.tsx:24-63 | only the submit button ever hands over a proposal |
| ProposalForm.EditsKeepTagsDistinct | src/components/ProposalForm.tsx:30-60 | no series of edits introduces a duplicate tag, and every proposal submitted along the way has non-empty distinct tags |
| IndexPage.LawId | src/pages/Index.tsx:112 | the id starts with "law" followed by more characters |
| IndexPage.LawIdReadsBack | src/pages/Index.tsx:112 | the characters after "law" are a decimal numeral whose value is the law's number |
| IndexPage.LawIdInjective | src/pages/Index.tsx:112 | `law${m}` equals `law${n}` iff m equals n |
| IndexPage.SetStatus | src/pages/Index.tsx:44-60 | the list keeps its length and order; records with the id get the new status, and the others are unchanged |
| IndexPage.SelectLaw | src/pages/Index.tsx:42-63 | the chosen id becomes debating and the law becomes active; a different previously active id becomes pending whatever its status; all other records are unchanged |
| IndexPage.VoteOn | src/pages/Index.tsx:82-97 | exactly one counter goes up by one; below 50 for plus against the status is kept, at or above it is passed iff for exceeds against, else rejected; nothing else changes |
| IndexPage.Vote | src/pages/Index.tsx:80-102 | every record with the id gets the vote; all other records, the active law and the ledger are untouched |
| IndexPage.VoteOnUnknownIdIsNoOp | src/pages/Index.tsx:82-98 | a vote on an id no law has changes nothing |
| IndexPage.VoteManyTally | src/pages/Index.tsx:84-85 | n votes of one kind add exactly n to that counter and nothing to the other two |
| IndexPage.VotesAgainstOverturn | src/pages/Index.tsx:88-93 | with no terminal guard, enough votes against reject a law whatever its status |
| IndexPage.AbstentionsDoNotDecide | src/pages/Index.tsx:88-93 | the abstain count never enters the status rule, and an abstention leaves a settled law's status alone |
| IndexPage.VoteSettles | src/pages/Index.tsx:88-93 | after any vote the status agrees with the tally |
| IndexPage.ReopenedLawIsDecidedByAbstention | src/pages/Index.tsx:42-102 | in any invariant state, selecting a passed or rejected law with 50 or more decisive votes makes it debating, and the next abstention on it sets its status back to the outcome of its old tally |
| IndexPage.ReopenedLawIsDecidedByNextVote | src/pages/Index.tsx:42-102 | in any invariant state, after a law with 50 or more decisive votes is selected again, the next vote of any kind sets its status to the outcome of the tally that vote produces |
| IndexPage.VoteExamples | src/pages/Index.tsx:88-93 | 31 for against 19 passes; 24 for against 26 stays rejected after an abstention |
| IndexPage.PassedLawCanBeRejected | src/pages/Index.tsx:88-93 | a passed law at 26 against 24 is rejected after two votes against |
| IndexPage.SubmitProposal | src/pages/Index.tsx:105-126 | appends exactly one pending law with no votes, id `law${len+1}` and the submitted fields; the existing list is a prefix of the result |
| IndexPage.AddStatement | src/pages/Index.tsx:75-77 | appends the statement at the end; the old ledger is an unchanged prefix |
| IndexPage.NextStatement | src/pages/Index.tsx:168-175 | a statement only while a law is active, and always one on a well-seated roster; it is about the active law and its speaker is not among the last three in that law's debate |
| IndexPage.Speak | src/components/DebatePanel.tsx:73-74 | the produced statement, if any, is appended to the ledger; otherwise the state is unchanged |
| IndexPage.SpeakAppends | src/components/DebatePanel.tsx:64-74 | on a well-seated roster a click appends one statement about the active law |
| IndexPage.FourthSpeakerIsNew | src/components/DebatePanel.tsx:51-53 | after three generated statements on a law, the fourth speaker is none of the previous three |
| IndexPage.InitialState | src/pages/Index.tsx:27-39 | after mount the seed laws and seed statements are shown and the first seed law, the only one debating, is active |
| IndexPage.Step | src/pages/Index.tsx:42-126 | a card click on an unlisted id changes nothing, and on a listed id it makes that law active and debating; a vote keeps the active law and the ledger; a submission adds one law; a generation leaves the laws alone and adds at most one statement |
| IndexPage.InitialActive | src/pages/Index.tsx:34-39 | the first debating law becomes active, and none does when no law is debating |
| IndexPage.SeedLawIds | src/data/parliamentData.ts:236-302 | the seed proposals are law1 to law5 in list order |
| IndexPage.InitialStateInv | src/pages/Index.tsx:34-39 | after mounting, law1 is active and the state invariant holds |
| IndexPage.NewLawIdIsFresh | src/pages/Index.tsx:112 | under the invariant, the id of a new proposal is not already taken |
| IndexPage.LawLookupByNumber | src/utils/parliamentUtils.ts:74-79 | when the laws carry the ids `law1`, `law2`, ... in order (as the invariant keeps them), looking up `law{k+1}` returns the k-th listed law |
| IndexPage.SelectKeepsInv | src/pages/Index.tsx:42-63 | selecting a listed law keeps the state invariant |
| IndexPage.VoteKeepsInv | src/pages/Index.tsx:80-102 | voting keeps the state invariant |
| IndexPage.SubmitKeepsInv | src/pages/Index.tsx:105-126 | submitting a proposal keeps the state invariant |
| IndexPage.StepKeepsInv | src/pages/Index.tsx:42-126 | every handler call keeps the state invariant |
| IndexPage.RunKeepsInv | src/pages/Index.tsx:42-126 | every series of handler calls keeps the state invariant |
| IndexPage.OneDebatingLaw | src/pages/Index.tsx:42-63 | under the invariant at most one law is debating, and it is the active one |
| IndexPage.RunFromInv | src/pages/Index.tsx:42-126 | from any state satisfying the invariant, every series of handler calls leaves at most one debating law, which is the active one, and a fresh next proposal id |
| IndexPage.ReachableStates | src/pages/Index.tsx:34-126 | in every state reachable from the seed at most one law is debating, it is the active law, and the next proposal id is fresh |

## Left out

- JSX rendering, toasts, dialogs, tabs, and the politician detail dialog (`handlePoliticianClick`): these are presentation only.
- The status badge and colour mappings in the law, group and politician cards: presentation only.
- The group ordering in the parliament layout: presentation only. Its comparator is not transitive, so the order of the sort's result depends on the engine.
- `Math.random` is replaced by roll parameters. Floating-point rounding in `roll * n` is not modelled; the product is an exact real.
- `generateStatementId`: its base-36 rendering of a random float is not modelled, and the statement id is a parameter.
- `new Date().getTime()` is a parameter. The seed statements use one clock reading, `now`, for all five timestamps; the source reads the clock once per statement when the module loads.
- JavaScript numbers are unbounded integers here: vote counters never lose precision, and `law${n}` is printed for every natural n.
- The one-second `setTimeout` before a generated statement is added, and the `isGeneratingDebate` flag, are not modelled. So the early returns that leave the flag set are not modelled either. The click and the append are one step.
- The stale `activeLaw` snapshot is kept in the state, but its use for the vote-count labels and the vote toast text is not modelled (it is display only).
- `formatTime` and locale time formatting: display only.
- React's batching of state updates: each handler's updates are applied in order, as one step.
- The proposal form's group select offers only listed groups, but `Submit` accepts any non-empty `proposedBy`, as the handler itself does.
- ParliamentUtils.ResponsePool: the response table is a plain object, so an orientation string that names an inherited property (`toString`, `constructor`, `valueOf`, `hasOwnProperty`, `__proto__`, ...) finds that member. The Center fallback is skipped and the drawn sentence is `undefined`. The model gives the Center table for every string outside the five orientations, because JavaScript's prototype lookup is not modelled; the enum type admits none of these strings.
- Comparator results that are NaN in the transcript sort: timestamps are integers here, so `a.timestamp - b.timestamp` is always a number.
