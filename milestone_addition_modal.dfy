/** The milestone editor: a modal that keeps an ordered working list of
    milestones, edits it row by row, validates it, commits it to the server
    as a batch of creates and updates, and hands the result to the panel that
    opened it (its `onSubmit` and `onClose` callbacks are the panel's
    handlers). */
module MilestoneModal {
  import opened Common
  import opened Milestones
  import opened Settings

  class MilestoneAdditionModal {
    /** The panel whose handlers are this editor's callbacks. */
    const host: MilestoneSettings
    /** The project new milestones are created under. */
    const projectId: int
    const limits: MilestoneLimits

    /** The working list (the `milestones` ref). */
    var milestones: array<Milestone>
    /** The per-row messages on display. */
    var formErrors: seq<MilestoneErrors>
    /** Every request sent to the server, in order. */
    var requests: seq<MilestoneRequest>
    /** The list passed to each `onClose` and each `onSubmit` call, in order. */
    ghost var closeCalls: seq<seq<Milestone>>
    ghost var submitCalls: seq<seq<Milestone>>

    /** Opening keeps the given array itself as the working list. */
    constructor (host: MilestoneSettings, availableMilestones: array<Milestone>, projectId: int, limits: MilestoneLimits)
      ensures this.host == host && this.projectId == projectId && this.limits == limits
      ensures milestones == availableMilestones
      ensures formErrors == [] && requests == [] && closeCalls == [] && submitCalls == []
    {
      this.host := host;
      this.projectId := projectId;
      this.limits := limits;
      milestones := availableMilestones;
      formErrors := [];
      requests := [];
      closeCalls := [];
      submitCalls := [];
    }

    /** Appends one blank row; the earlier rows are untouched. */
    method AddMilestone()
      modifies this`milestones
      ensures fresh(milestones)
      ensures milestones[..] == old(milestones[..]) + [DefaultMilestone]
    {
      milestones := FromSeq(milestones[..] + [DefaultMilestone]);
    }

    /** Sets the amount of one row, writing into the working array in place,
        and clears the messages. */
    method AmountChange(newAmount: int, itemIndex: int)
      requires 0 <= itemIndex < milestones.Length
      modifies milestones, this`formErrors
      ensures milestones == old(milestones)
      ensures milestones[..] == old(milestones[..])[itemIndex := old(milestones[itemIndex]).(amount := newAmount)]
      ensures formErrors == []
    {
      var newMilestone := milestones[itemIndex].(amount := newAmount);
      milestones[itemIndex] := newMilestone;
      formErrors := [];
    }

    /** Sets the name of one row from a change event (`None` for a null
        event, which changes nothing). The list is rebuilt: an index outside
        it leaves every row as it was. */
    method TextChange(event: Option<string>, itemIndex: int)
      modifies this`milestones, this`formErrors
      ensures event.None? ==> milestones == old(milestones) && formErrors == old(formErrors)
      ensures event.Some? ==> fresh(milestones) && formErrors == []
      ensures event.Some? && 0 <= itemIndex < old(milestones.Length) ==>
        milestones[..] == old(milestones[..])[itemIndex := old(milestones[itemIndex]).(name := event.value)]
      ensures event.Some? && !(0 <= itemIndex < old(milestones.Length)) ==>
        milestones[..] == old(milestones[..])
    {
      if event.Some? {
        var rows := milestones[..];
        if 0 <= itemIndex < |rows| {
          rows := rows[itemIndex := rows[itemIndex].(name := event.value)];
        }
        formErrors := [];
        milestones := FromSeq(rows);
      }
    }

    /** The submittable rows, in a fresh array. */
    method GetFilteredMilestones() returns (filtered: array<Milestone>)
      ensures fresh(filtered)
      ensures filtered[..] == SubmittableMilestones(milestones[..])
    {
      filtered := FromSeq(SubmittableMilestones(milestones[..]));
    }

    /** Validates every row of the working list. The messages are replaced
        wholesale, and only when the list is invalid. */
    method ValidateMilestones() returns (isValid: bool)
      modifies this`formErrors
      ensures isValid == MilestonesValid(milestones[..], limits)
      ensures formErrors == if isValid then old(formErrors) else AllErrors(milestones[..], limits)
    {
      isValid := true;
      var totalErrors: seq<MilestoneErrors> := [];
      var index := 0;
      while index < milestones.Length
        invariant 0 <= index <= milestones.Length
        invariant |totalErrors| == index
        invariant forall k :: 0 <= k < index ==> totalErrors[k] == ItemErrors(milestones[..], k, limits)
        invariant isValid == forall k :: 0 <= k < index ==> ItemValid(milestones[..], k, limits)
      {
        var milestone := milestones[index];
        var nameError: Option<FieldError> := None;
        var amountError: Option<FieldError> := None;
        var descriptionError: Option<FieldError> := None;
        if milestone.name == "" {
          nameError := Some(Required);
          isValid := false;
        } else if |milestone.name| > limits.nameMaxLength {
          nameError := Some(TooLong);
          isValid := false;
        }
        if milestone.amount < 1 {
          amountError := Some(BelowMinimum);
          isValid := false;
        }
        if index > 0 && milestones[index - 1].amount > milestone.amount {
          amountError := Some(OutOfOrder);
          isValid := false;
        }
        if milestone.description != "" && |milestone.description| > limits.descriptionMaxLength {
          descriptionError := Some(TooLong);
          isValid := false;
        }
        assert MilestoneErrors(nameError, amountError, descriptionError) == ItemErrors(milestones[..], index, limits);
        totalErrors := totalErrors + [MilestoneErrors(nameError, amountError, descriptionError)];
        index := index + 1;
      }
      if !isValid {
        formErrors := totalErrors;
      }
    }

    /** Closing without confirming. When the list is invalid the callback runs
        twice, first with the whole working list and then with the
        submittable rows, so the panel always ends up with the filtered list. */
    method HandleModalClose()
      modifies this`formErrors, this`closeCalls, host`milestones, host`modalOpen
      ensures var was := old(milestones[..]);
        closeCalls == old(closeCalls) + (if MilestonesValid(was, limits) then [] else [was]) + [SubmittableMilestones(was)]
      ensures fresh(host.milestones) && host.milestones[..] == SubmittableMilestones(old(milestones[..]))
      ensures !host.modalOpen
      ensures formErrors == if MilestonesValid(old(milestones[..]), limits) then old(formErrors) else AllErrors(old(milestones[..]), limits)
    {
      var isValid := ValidateMilestones();
      if !isValid {
        closeCalls := closeCalls + [milestones[..]];
        host.HandleMilestoneModalClose(milestones);
      }
      var filtered := GetFilteredMilestones();
      closeCalls := closeCalls + [filtered[..]];
      host.HandleMilestoneModalClose(filtered);
    }

    /** Closing as evidently intended: an invalid list is handed back whole
        (the working array itself), so rows still being typed are kept; a
        valid list is handed back filtered, which loses nothing. */
    method HandleModalCloseIntended()
      modifies this`formErrors, this`closeCalls, host`milestones, host`modalOpen
      ensures var was := old(milestones[..]);
        closeCalls == old(closeCalls) + [if MilestonesValid(was, limits) then SubmittableMilestones(was) else was]
      ensures host.milestones[..] == old(milestones[..])
      ensures !MilestonesValid(old(milestones[..]), limits) ==> host.milestones == milestones
      ensures !host.modalOpen
      ensures formErrors == if MilestonesValid(old(milestones[..]), limits) then old(formErrors) else AllErrors(old(milestones[..]), limits)
    {
      var isValid := ValidateMilestones();
      if !isValid {
        closeCalls := closeCalls + [milestones[..]];
        host.HandleMilestoneModalClose(milestones);
        return;
      }
      ValidMilestonesAreSubmittable(milestones[..], limits);
      var filtered := GetFilteredMilestones();
      closeCalls := closeCalls + [filtered[..]];
      host.HandleMilestoneModalClose(filtered);
    }

    /** Confirming. An invalid list sends nothing and stays open with its
        messages. A valid one sends one request per submittable row (all of
        them, whatever the responses), and only when every response succeeds
        is the committed list handed to `onSubmit`. Nothing is undone after a
        failure. `responses[i]` is the server's answer to the i-th request. */
    method ConfirmMilestone(responses: seq<Response>)
      requires |responses| == |SubmittableMilestones(milestones[..])|
      modifies this`formErrors, this`requests, this`submitCalls, host`milestones, host`modalOpen
      ensures formErrors == if MilestonesValid(old(milestones[..]), limits) then old(formErrors) else AllErrors(old(milestones[..]), limits)
      ensures !MilestonesValid(old(milestones[..]), limits) ==>
        && requests == old(requests) && submitCalls == old(submitCalls)
        && host.milestones == old(host.milestones) && host.modalOpen == old(host.modalOpen)
      ensures MilestonesValid(old(milestones[..]), limits) ==>
        requests == old(requests) + Requests(SubmittableMilestones(old(milestones[..])), projectId)
      ensures var outcome := CommitOutcome(SubmittableMilestones(old(milestones[..])), responses);
        MilestonesValid(old(milestones[..]), limits) && outcome.Some? ==>
          && submitCalls == old(submitCalls) + [outcome.value]
          && host.milestones[..] == outcome.value && !host.modalOpen
      ensures var outcome := CommitOutcome(SubmittableMilestones(old(milestones[..])), responses);
        MilestonesValid(old(milestones[..]), limits) && outcome.None? ==>
          && submitCalls == old(submitCalls)
          && host.milestones == old(host.milestones) && host.modalOpen == old(host.modalOpen)
    {
      var isValid := ValidateMilestones();
      if !isValid {
        return;
      }
      var filtered := GetFilteredMilestones();
      var failed, newMilestones := CommitBatch(filtered, responses);
      if !failed {
        var committed := FromSeq(newMilestones);
        submitCalls := submitCalls + [newMilestones];
        host.HandleMilestoneSubmit(committed);
      }
    }

    /** The batch of a commit: one request per row of `rows`, every one of
        them sent, then the responses folded in order. `failed` reports a
        rejection or a create answered without an id; otherwise
        `newMilestones` is the committed list. */
    method CommitBatch(rows: array<Milestone>, responses: seq<Response>) returns (failed: bool, newMilestones: seq<Milestone>)
      requires |responses| == rows.Length
      modifies this`requests
      ensures requests == old(requests) + Requests(rows[..], projectId)
      ensures failed <==> CommitOutcome(rows[..], responses).None?
      ensures !failed ==> CommitOutcome(rows[..], responses) == Some(newMilestones)
    {
      newMilestones := [];
      failed := false;
      var i := 0;
      while i < rows.Length
        invariant 0 <= i <= rows.Length
        invariant requests == old(requests) + Requests(rows[..i], projectId)
        invariant failed <==> CommitOutcome(rows[..i], responses[..i]).None?
        invariant !failed ==> CommitOutcome(rows[..i], responses[..i]) == Some(newMilestones)
      {
        var milestone := rows[i];
        assert rows[..i + 1][..i] == rows[..i];
        assert responses[..i + 1][..i] == responses[..i];
        if milestone.id != 0 {
          requests := requests + [UpdateMilestone(milestone.id, milestone.name, milestone.description, milestone.amount)];
          if responses[i].Rejected? {
            failed := true;
          } else {
            newMilestones := newMilestones + [milestone];
          }
        } else {
          requests := requests + [CreateMilestone(projectId, milestone.name, milestone.description, milestone.amount)];
          if responses[i].Resolved? && responses[i].returnedId != 0 {
            newMilestones := newMilestones + [milestone.(id := responses[i].returnedId)];
          } else {
            failed := true;
          }
        }
        i := i + 1;
      }
      assert rows[..i] == rows[..];
      assert responses[..i] == responses;
    }

    /** Removing the row at `itemIndex`. A row with a server id is deleted
        remotely first and removed only when the delete succeeds; any other
        row (or an index outside the list) is handled locally without a
        request. */
    method RemoveMilestone(itemIndex: int, deleteSucceeds: bool)
      modifies this`milestones, this`requests
      ensures var was := old(milestones[..]);
        var persisted := 0 <= itemIndex < |was| && was[itemIndex].id != 0;
        && (persisted ==> requests == old(requests) + [DeleteMilestone(was[itemIndex].id)])
        && (!persisted ==> requests == old(requests))
        && (persisted && !deleteSucceeds ==> milestones == old(milestones))
        && (!persisted || deleteSucceeds ==> fresh(milestones) && milestones[..] == RemoveAt(was, itemIndex))
    {
      var newMilestones := RemoveAt(milestones[..], itemIndex);
      if 0 <= itemIndex < milestones.Length && milestones[itemIndex].id != 0 {
        requests := requests + [DeleteMilestone(milestones[itemIndex].id)];
        if deleteSucceeds {
          milestones := FromSeq(newMilestones);
        }
      } else {
        milestones := FromSeq(newMilestones);
      }
    }
  }

  /** The panel opening its editor: the editor is seeded with the panel's
      list, or with one blank row when that list is empty. A non-empty list
      is handed over by reference. */
  method OpenEditor(host: MilestoneSettings, projectId: int, limits: MilestoneLimits) returns (editor: MilestoneAdditionModal)
    modifies host`modalOpen
    ensures fresh(editor) && editor.host == host && host.modalOpen
    ensures editor.projectId == projectId && editor.limits == limits
    ensures editor.milestones[..] == EditorSeed(old(host.milestones[..]))
    ensures old(host.milestones.Length) > 0 ==> editor.milestones == host.milestones
    ensures editor.formErrors == [] && editor.requests == [] && editor.closeCalls == [] && editor.submitCalls == []
  {
    host.OpenMilestoneModal();
    var seed := host.AvailableMilestones();
    editor := new MilestoneAdditionModal(host, seed, projectId, limits);
  }

  /** Because the editor shares the panel's array and an amount change writes
      into it in place, the panel's own list changes before anything is
      confirmed. */
  method AmountEditReachesPanel(host: MilestoneSettings, projectId: int, limits: MilestoneLimits, newAmount: int)
    returns (editor: MilestoneAdditionModal)
    requires host.milestones.Length > 0
    modifies host`modalOpen, host.milestones
    ensures host.milestones == old(host.milestones)
    ensures host.milestones[0] == old(host.milestones[0]).(amount := newAmount)
  {
    editor := OpenEditor(host, projectId, limits);
    editor.AmountChange(newAmount, 0);
  }

  /** A row whose name is typed but whose amount is not yet set, dropped by a
      close: the list is invalid, and the panel still ends up with only the
      first row. */
  method CloseDropsTypedRow() returns (adopted: seq<Milestone>)
    ensures adopted == [Milestone(7, "Phase 1", 1, "", 500)]
  {
    var host := new MilestoneSettings();
    var rows := FromSeq([Milestone(7, "Phase 1", 1, "", 500), Milestone(0, "Phase 2", 0, "", 0)]);
    var editor := new MilestoneAdditionModal(host, rows, 1, MilestoneLimits(280, 2200));
    assert !ItemValid(rows[..], 1, editor.limits);
    assert rows[..] == [rows[0]] + [rows[1]];
    FilterDistributes([rows[0]], [rows[1]], IsSubmittable);
    editor.HandleModalClose();
    adopted := host.milestones[..];
  }

  /** The same close with the intended early return keeps both rows. */
  method IntendedCloseKeepsTypedRow() returns (adopted: seq<Milestone>)
    ensures adopted == [Milestone(7, "Phase 1", 1, "", 500), Milestone(0, "Phase 2", 0, "", 0)]
  {
    var host := new MilestoneSettings();
    var rows := FromSeq([Milestone(7, "Phase 1", 1, "", 500), Milestone(0, "Phase 2", 0, "", 0)]);
    var editor := new MilestoneAdditionModal(host, rows, 1, MilestoneLimits(280, 2200));
    editor.HandleModalCloseIntended();
    adopted := host.milestones[..];
  }
}
