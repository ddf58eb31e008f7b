/** Project milestones as values, and the pure rules the milestone editor
    applies to a working list: the blank template, the "submittable" filter,
    per-item validation with the ordering rule, removal at an index, the
    request each item turns into on commit and how the batch's responses
    fold back into the committed list. */
module Milestones {
  import opened Common

  /** A project milestone. `id == 0` is the falsy id of an item that the
      server has not created yet; an empty description stands for a missing one.
      Amounts are in satoshis. */
  datatype Milestone = Milestone(id: int, name: string, projectId: int, description: string, amount: int)

  /** The blank row the editor appends and seeds an empty list with. */
  const DefaultMilestone := Milestone(0, "", 0, "", 0)

  /** The configured maximum lengths of the name and the description. */
  datatype MilestoneLimits = MilestoneLimits(nameMaxLength: nat, descriptionMaxLength: nat)

  /** The messages shown under one row; `None` means no message for that field. */
  datatype MilestoneErrors = MilestoneErrors(name: Option<FieldError>, amount: Option<FieldError>, description: Option<FieldError>)

  const NoErrors := MilestoneErrors(None, None, None)

  /** A request the editor sends to the server. */
  datatype MilestoneRequest =
    | CreateMilestone(projectId: int, name: string, description: string, amount: int)
    | UpdateMilestone(projectMilestoneId: int, name: string, description: string, amount: int)
    | DeleteMilestone(projectMilestoneId: int)

  /** The server's answer to one create or update: rejected (transport or
      server error), or resolved with the id it returned (0 when missing). */
  datatype Response = Rejected | Resolved(returnedId: int)

  // ---------------------------------------------------------------------
  // The submittable filter

  predicate IsSubmittable(m: Milestone) {
    m.amount > 0 && m.name != ""
  }

  /** The rows a commit or a close hands on: non-empty name and positive amount. */
  function SubmittableMilestones(ms: seq<Milestone>): (r: seq<Milestone>)
    ensures |r| <= |ms|
    ensures forall m :: m in r <==> m in ms && m.amount > 0 && m.name != ""
  {
    Filter(ms, IsSubmittable)
  }

  /** The filter keeps the original order and drops nothing that qualifies:
      it distributes over concatenation and counts every kept value as often
      as the input does. */
  lemma SubmittableKeepsOrder(a: seq<Milestone>, b: seq<Milestone>, m: Milestone)
    ensures SubmittableMilestones(a + b) == SubmittableMilestones(a) + SubmittableMilestones(b)
    ensures multiset(SubmittableMilestones(a))[m] == if IsSubmittable(m) then multiset(a)[m] else 0
  {
    FilterDistributes(a, b, IsSubmittable);
    FilterCounts(a, IsSubmittable, m);
  }

  // ---------------------------------------------------------------------
  // Validation

  /** Row `i` passes every rule: a name that is present and not too long, an
      amount of at least 1, a description that is absent or not too long, and
      an amount not below the previous row's. */
  predicate ItemValid(ms: seq<Milestone>, i: int, limits: MilestoneLimits)
    requires 0 <= i < |ms|
  {
    && ms[i].name != ""
    && |ms[i].name| <= limits.nameMaxLength
    && ms[i].amount >= 1
    && (ms[i].description == "" || |ms[i].description| <= limits.descriptionMaxLength)
    && (i > 0 ==> ms[i - 1].amount <= ms[i].amount)
  }

  predicate MilestonesValid(ms: seq<Milestone>, limits: MilestoneLimits) {
    forall i :: 0 <= i < |ms| ==> ItemValid(ms, i, limits)
  }

  predicate OutOfOrderAt(ms: seq<Milestone>, i: int)
    requires 0 <= i < |ms|
  {
    i > 0 && ms[i - 1].amount > ms[i].amount
  }

  /** The messages validation records for row `i`. */
  function ItemErrors(ms: seq<Milestone>, i: int, limits: MilestoneLimits): (e: MilestoneErrors)
    requires 0 <= i < |ms|
    ensures e == NoErrors <==> ItemValid(ms, i, limits)
    ensures e.name == Some(Required) <==> ms[i].name == ""
    ensures e.name == Some(TooLong) <==> ms[i].name != "" && |ms[i].name| > limits.nameMaxLength
    ensures e.name.None? <==> ms[i].name != "" && |ms[i].name| <= limits.nameMaxLength
    // the ordering message replaces the minimum-amount message
    ensures e.amount == Some(OutOfOrder) <==> OutOfOrderAt(ms, i)
    ensures e.amount == Some(BelowMinimum) <==> ms[i].amount < 1 && !OutOfOrderAt(ms, i)
    ensures e.amount.None? <==> ms[i].amount >= 1 && !OutOfOrderAt(ms, i)
    ensures e.description.Some? <==> ms[i].description != "" && |ms[i].description| > limits.descriptionMaxLength
    ensures e.description.Some? ==> e.description == Some(TooLong)
  {
    var m := ms[i];
    var name :=
      if m.name == "" then Some(Required)
      else if |m.name| > limits.nameMaxLength then Some(TooLong)
      else None;
    var amount :=
      if OutOfOrderAt(ms, i) then Some(OutOfOrder)
      else if m.amount < 1 then Some(BelowMinimum)
      else None;
    var description :=
      if m.description != "" && |m.description| > limits.descriptionMaxLength then Some(TooLong) else None;
    MilestoneErrors(name, amount, description)
  }

  /** The error list of a validation pass: one entry per row. */
  function AllErrors(ms: seq<Milestone>, limits: MilestoneLimits): (errs: seq<MilestoneErrors>)
    ensures |errs| == |ms|
    ensures forall i :: 0 <= i < |ms| ==> errs[i] == ItemErrors(ms, i, limits)
    ensures (forall i :: 0 <= i < |errs| ==> errs[i] == NoErrors) <==> MilestonesValid(ms, limits)
  {
    var errs := seq(|ms|, i requires 0 <= i < |ms| => ItemErrors(ms, i, limits));
    assert forall i :: 0 <= i < |ms| ==> (errs[i] == NoErrors <==> ItemValid(ms, i, limits));
    errs
  }

  /** A list that passes validation is ordered by amount. */
  lemma {:induction false} ValidMilestonesAreSorted(ms: seq<Milestone>, limits: MilestoneLimits)
    requires MilestonesValid(ms, limits)
    ensures forall i, j :: 0 <= i <= j < |ms| ==> ms[i].amount <= ms[j].amount
  {
    forall i, j | 0 <= i <= j < |ms|
      ensures ms[i].amount <= ms[j].amount
    {
      var k := i;
      while k < j
        invariant i <= k <= j
        invariant ms[i].amount <= ms[k].amount
      {
        assert ItemValid(ms, k + 1, limits);
        k := k + 1;
      }
    }
  }

  /** A list that passes validation loses nothing to the submittable filter. */
  lemma ValidMilestonesAreSubmittable(ms: seq<Milestone>, limits: MilestoneLimits)
    requires MilestonesValid(ms, limits)
    ensures SubmittableMilestones(ms) == ms
  {
    forall i | 0 <= i < |ms| ensures IsSubmittable(ms[i]) {
      assert ItemValid(ms, i, limits);
    }
    FilterKeepsAll(ms, IsSubmittable);
  }

  /** An appended blank row blocks validation but is invisible to the filter. */
  lemma BlankRowBlocksValidation(ms: seq<Milestone>, limits: MilestoneLimits)
    ensures !MilestonesValid(ms + [DefaultMilestone], limits)
    ensures SubmittableMilestones(ms + [DefaultMilestone]) == SubmittableMilestones(ms)
  {
    assert !ItemValid(ms + [DefaultMilestone], |ms|, limits);
    FilterDistributes(ms, [DefaultMilestone], IsSubmittable);
    assert Filter([DefaultMilestone], IsSubmittable) == [];
  }

  // ---------------------------------------------------------------------
  // Editing

  /** The list without the row at `i`; an index outside the list removes nothing. */
  function RemoveAt(ms: seq<Milestone>, i: int): (r: seq<Milestone>)
    ensures !(0 <= i < |ms|) ==> r == ms
    ensures 0 <= i < |ms| ==> |r| == |ms| - 1
    ensures 0 <= i < |ms| ==> forall k :: 0 <= k < i ==> r[k] == ms[k]
    ensures 0 <= i < |ms| ==> forall k :: i <= k < |r| ==> r[k] == ms[k + 1]
  {
    if 0 <= i < |ms| then ms[..i] + ms[i + 1..] else ms
  }

  /** Removing a row from a valid list leaves a valid list: the neighbours
      it joins were already in order. */
  lemma RemovalKeepsValidity(ms: seq<Milestone>, i: int, limits: MilestoneLimits)
    requires MilestonesValid(ms, limits)
    ensures MilestonesValid(RemoveAt(ms, i), limits)
  {
    if 0 <= i < |ms| {
      var r := RemoveAt(ms, i);
      forall k | 0 <= k < |r| ensures ItemValid(r, k, limits) {
        if k < i {
          assert ItemValid(ms, k, limits);
        } else {
          assert ItemValid(ms, k + 1, limits);
          if k > 0 {
            if k == i {
              assert ItemValid(ms, k, limits);
              assert r[k - 1] == ms[k - 1];
            } else {
              assert r[k - 1] == ms[k];
            }
          }
        }
      }
    }
  }

  // ---------------------------------------------------------------------
  // Commit

  /** The one request a submittable row turns into: an update addressed by
      its id when it has one, otherwise a create carrying the project id. */
  function RequestFor(m: Milestone, projectId: int): (q: MilestoneRequest)
    ensures q.UpdateMilestone? <==> m.id != 0
    ensures q.CreateMilestone? <==> m.id == 0
    ensures q.UpdateMilestone? ==> q.projectMilestoneId == m.id
    ensures q.CreateMilestone? ==> q.projectId == projectId
    ensures !q.DeleteMilestone? && q.name == m.name && q.description == m.description && q.amount == m.amount
  {
    if m.id != 0 then UpdateMilestone(m.id, m.name, m.description, m.amount)
    else CreateMilestone(projectId, m.name, m.description, m.amount)
  }

  /** The requests a commit issues, one per row, in order. */
  function Requests(ms: seq<Milestone>, projectId: int): (qs: seq<MilestoneRequest>)
    ensures |qs| == |ms|
    ensures forall i :: 0 <= i < |ms| ==> qs[i] == RequestFor(ms[i], projectId)
    decreases |ms|
  {
    if |ms| == 0 then []
    else Requests(ms[..|ms| - 1], projectId) + [RequestFor(ms[|ms| - 1], projectId)]
  }

  /** What one row becomes once its response is in: an updated row is kept as
      it is, a created row takes the returned id; a rejection, or a create
      answered without an id, is a failure. */
  function Resolve(m: Milestone, r: Response): (o: Option<Milestone>)
    ensures o.Some? <==> r.Resolved? && (m.id != 0 || r.returnedId != 0)
    ensures o.Some? && m.id != 0 ==> o.value == m
    ensures o.Some? && m.id == 0 ==> o.value == m.(id := r.returnedId)
  {
    if r.Rejected? then None
    else if m.id != 0 then Some(m)
    else if r.returnedId != 0 then Some(m.(id := r.returnedId))
    else None
  }

  /** The list handed to the caller after a batch commit, or `None` when any
      request of the batch failed. */
  function CommitOutcome(ms: seq<Milestone>, rs: seq<Response>): (o: Option<seq<Milestone>>)
    requires |ms| == |rs|
    ensures o.Some? <==> forall i :: 0 <= i < |ms| ==> Resolve(ms[i], rs[i]).Some?
    ensures o.Some? ==> |o.value| == |ms|
    ensures o.Some? ==> forall i :: 0 <= i < |ms| ==> o.value[i] == Resolve(ms[i], rs[i]).value
    decreases |ms|
  {
    if |ms| == 0 then Some([])
    else
      var n := |ms| - 1;
      match CommitOutcome(ms[..n], rs[..n])
      case None => None
      case Some(prefix) =>
        match Resolve(ms[n], rs[n])
        case None => None
        case Some(m) => Some(prefix + [m])
  }

  /** After a successful commit every row is persisted (non-zero id) and
      differs from the submitted one at most in its id: updated rows are
      unchanged, created rows carry the server's id. */
  lemma CommittedRowsArePersisted(ms: seq<Milestone>, rs: seq<Response>)
    requires |ms| == |rs|
    requires CommitOutcome(ms, rs).Some?
    ensures var out := CommitOutcome(ms, rs).value;
      forall i :: 0 <= i < |ms| ==>
        && out[i].id != 0
        && out[i] == ms[i].(id := out[i].id)
        && (ms[i].id != 0 ==> out[i] == ms[i])
        && (ms[i].id == 0 ==> out[i].id == rs[i].returnedId)
  {
    var out := CommitOutcome(ms, rs).value;
    forall i | 0 <= i < |ms|
      ensures out[i].id != 0 && out[i] == ms[i].(id := out[i].id)
    {
      assert Resolve(ms[i], rs[i]).Some?;
    }
  }

  /** Validation looks at names, amounts and descriptions only, so the list
      a successful commit returns for a valid list is valid too. */
  lemma CommitKeepsValidity(ms: seq<Milestone>, rs: seq<Response>, limits: MilestoneLimits)
    requires |ms| == |rs|
    requires MilestonesValid(ms, limits)
    requires CommitOutcome(ms, rs).Some?
    ensures MilestonesValid(CommitOutcome(ms, rs).value, limits)
  {
    var out := CommitOutcome(ms, rs).value;
    CommittedRowsArePersisted(ms, rs);
    forall i | 0 <= i < |out| ensures ItemValid(out, i, limits) {
      assert ItemValid(ms, i, limits);
    }
  }

  // ---------------------------------------------------------------------
  // Arrays

  /** A fresh array holding `s`, as a spread or `map`/`filter` allocates one. */
  method FromSeq(s: seq<Milestone>) returns (a: array<Milestone>)
    ensures fresh(a) && a[..] == s
  {
    a := new Milestone[|s|](i requires 0 <= i < |s| => s[i]);
  }
}
