/** The new-proposal form: five pieces of component state (title,
    description, proposing group, the tag being typed, the tag list), the
    "Add" and badge-click tag edits, and the submit handler's validation,
    default tags and reset.

    Validation only rejects the empty string; the proposing group is
    whatever the select holds, and is not checked against the group list.
 */
module ProposalForm {
  import opened Collections

  datatype Form = Form(
    title: string,
    description: string,
    proposedBy: string,
    tag: string,
    tags: seq<string>)

  /** What `onSubmit` receives. */
  datatype Proposal = Proposal(title: string, description: string, proposedBy: string, tags: seq<string>)

  /** The new form state and, on success, the proposal handed to the page. */
  datatype Submitted = Submitted(form: Form, proposal: Option<Proposal>)

  const EmptyForm: Form := Form("", "", "", "", [])

  /** Tags used for a proposal submitted with an empty tag list. */
  const DefaultTags: seq<string> := ["general"]

  ghost predicate NoDuplicates(tags: seq<string>) {
    DistinctKeys(tags, (t: string) => t)
  }

  /** `handleAddTag`: append the typed tag and clear the input when it is
      non-empty and not yet listed; otherwise change nothing. */
  function AddTag(f: Form): (r: Form)
    ensures r.tags == f.tags + [f.tag] <==> f.tag != "" && f.tag !in f.tags
    ensures r.tags == f.tags || r.tags == f.tags + [f.tag]
    ensures forall x :: x in r.tags <==> x in f.tags || (x == f.tag && x != "")
    ensures r.tag == if r.tags == f.tags then f.tag else ""
    ensures r.title == f.title && r.description == f.description && r.proposedBy == f.proposedBy
    ensures NoDuplicates(f.tags) ==> NoDuplicates(r.tags)
  {
    if f.tag != "" && f.tag !in f.tags then
      var r := f.(tags := f.tags + [f.tag], tag := "");
      assert r.tags != f.tags by { assert |r.tags| != |f.tags|; }
      assert NoDuplicates(f.tags) ==> NoDuplicates(r.tags) by {
        if NoDuplicates(f.tags) {
          forall i, j | 0 <= i < j < |r.tags| ensures r.tags[i] != r.tags[j] {
            if j == |f.tags| {
              assert r.tags[i] == f.tags[i];
            }
          }
        }
      }
      r
    else
      assert f.tags + [f.tag] != f.tags by { assert |f.tags + [f.tag]| != |f.tags|; }
      f
  }

  /** `handleRemoveTag`: drop every occurrence of `x`, keeping the order of
      the rest. */
  function RemoveTag(f: Form, x: string): (r: Form)
    ensures forall t :: t in r.tags <==> t in f.tags && t != x
    ensures forall t :: multiset(r.tags)[t] == if t != x then multiset(f.tags)[t] else 0
    ensures IsSubsequence(r.tags, f.tags)
    ensures r.title == f.title && r.description == f.description &&
            r.proposedBy == f.proposedBy && r.tag == f.tag
    ensures NoDuplicates(f.tags) ==> NoDuplicates(r.tags)
  {
    FilterMultiset(f.tags, (t: string) => t != x);
    FilterIsSubsequence(f.tags, (t: string) => t != x);
    assert NoDuplicates(f.tags) ==> NoDuplicates(Filter(f.tags, (t: string) => t != x)) by {
      if NoDuplicates(f.tags) {
        FilterKeepsDistinctKeys(f.tags, (t: string) => t != x, (t: string) => t);
      }
    }
    f.(tags := Filter(f.tags, (t: string) => t != x))
  }

  /** `handleSubmit`: refuse when a required field is empty; otherwise hand
      over the proposal (with the default tag when none was added) and
      clear every field except the tag being typed, which the source does
      not reset. */
  function Submit(f: Form): (r: Submitted)
    ensures r.proposal.None? <==> f.title == "" || f.description == "" || f.proposedBy == ""
    ensures r.proposal.None? ==> r.form == f
    ensures r.proposal.Some? ==>
      r.proposal.value.title == f.title &&
      r.proposal.value.description == f.description &&
      r.proposal.value.proposedBy == f.proposedBy
    ensures r.proposal.Some? && |f.tags| > 0 ==> r.proposal.value.tags == f.tags
    ensures r.proposal.Some? && |f.tags| == 0 ==> r.proposal.value.tags == DefaultTags
    ensures r.proposal.Some? ==> r.form == EmptyForm.(tag := f.tag)
  {
    if f.title == "" || f.description == "" || f.proposedBy == "" then
      Submitted(f, None)
    else
      var tags := if |f.tags| > 0 then f.tags else DefaultTags;
      Submitted(Form("", "", "", f.tag, []), Some(Proposal(f.title, f.description, f.proposedBy, tags)))
  }

  /** Removing a tag that was just added restores the previous list. */
  lemma RemoveUndoesAdd(f: Form)
    requires f.tag != "" && f.tag !in f.tags
    ensures RemoveTag(AddTag(f), f.tag).tags == f.tags
  {
    var p := (t: string) => t != f.tag;
    FilterAppend(f.tags, [f.tag], p);
    FilterSingleton(f.tag, p);
    FilterAll(f.tags, p);
  }

  /** A proposal leaving the form always has a non-empty tag list, and its
      tags are distinct when the form's were. */
  lemma SubmittedTags(f: Form)
    requires Submit(f).proposal.Some?
    ensures |Submit(f).proposal.value.tags| > 0
    ensures NoDuplicates(f.tags) ==> NoDuplicates(Submit(f).proposal.value.tags)
  {
  }

  /** Only the empty string fails validation: a title of spaces is accepted. */
  lemma BlankTitleIsAccepted(description: string, proposedBy: string, tag: string, tags: seq<string>)
    requires description != "" && proposedBy != ""
    ensures Submit(Form(" ", description, proposedBy, tag, tags)).proposal.Some?
  {
  }

  /** Two example submissions: an empty title fails, and
      an empty tag list becomes `["general"]`. */
  lemma SubmitExamples()
    ensures Submit(Form("", "x", "liberals", "", [])).proposal.None?
    ensures Submit(Form("Title", "Desc", "liberals", "", [])).proposal ==
      Some(Proposal("Title", "Desc", "liberals", ["general"]))
  {
  }

  /** The user's edits of the form. */
  datatype Edit =
    | TypeTitle(s: string)
    | TypeDescription(s: string)
    | ChooseGroup(id: string)
    | TypeTag(s: string)
    | ClickAdd
    | ClickTag(t: string)
    | ClickSubmit

  function Apply(f: Form, e: Edit): (r: Submitted)
    ensures e != ClickSubmit ==> r.proposal.None?
  {
    match e
    case TypeTitle(s) => Submitted(f.(title := s), None)
    case TypeDescription(s) => Submitted(f.(description := s), None)
    case ChooseGroup(id) => Submitted(f.(proposedBy := id), None)
    case TypeTag(s) => Submitted(f.(tag := s), None)
    case ClickAdd => Submitted(AddTag(f), None)
    case ClickTag(t) => Submitted(RemoveTag(f, t), None)
    case ClickSubmit => Submit(f)
  }

  /** The form after a series of edits, and every proposal submitted on the way. */
  function ApplyAll(f: Form, es: seq<Edit>): (r: (Form, seq<Proposal>))
    ensures |r.1| <= |es|
    decreases |es|
  {
    if |es| == 0 then (f, [])
    else
      var s := Apply(f, es[0]);
      var rest := ApplyAll(s.form, es[1..]);
      (rest.0, (if s.proposal.Some? then [s.proposal.value] else []) + rest.1)
  }

  /** Starting from a form whose tag list has no duplicates, no edit sequence
      introduces one, and every submitted proposal has a non-empty list of
      distinct tags. */
  lemma {:induction false} EditsKeepTagsDistinct(f: Form, es: seq<Edit>)
    requires NoDuplicates(f.tags)
    ensures NoDuplicates(ApplyAll(f, es).0.tags)
    ensures forall k :: 0 <= k < |ApplyAll(f, es).1| ==>
      |ApplyAll(f, es).1[k].tags| > 0 && NoDuplicates(ApplyAll(f, es).1[k].tags)
    decreases |es|
  {
    if |es| > 0 {
      var s := Apply(f, es[0]);
      if es[0] == ClickSubmit && s.proposal.Some? {
        SubmittedTags(f);
      }
      assert NoDuplicates(s.form.tags);
      EditsKeepTagsDistinct(s.form, es[1..]);
    }
  }
}
