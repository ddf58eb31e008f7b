/** The dashboard's milestone panel: it displays the project's milestones,
    seeds the editor when the editor opens, and adopts whatever list the
    editor hands back through its submit and close callbacks. */
module Settings {
  import opened Milestones

  /** The list the editor is seeded with: the current list, or a single blank
      row when there is none, so the editor never opens empty. */
  function EditorSeed(current: seq<Milestone>): (seed: seq<Milestone>)
    ensures |seed| >= 1
    ensures |current| > 0 ==> seed == current
    ensures |current| == 0 ==> seed == [DefaultMilestone]
  {
    if |current| > 0 then current else [DefaultMilestone]
  }

  class MilestoneSettings {
    /** The displayed list (React state; the array object itself is shared
        with whoever handed it over). */
    var milestones: array<Milestone>
    /** Whether the editor is open. */
    var modalOpen: bool

    constructor ()
      ensures fresh(milestones) && milestones[..] == [] && !modalOpen
    {
      milestones := new Milestone[0];
      modalOpen := false;
    }

    /** The effect run when the project changes: a project that carries a
        non-empty milestone list replaces the displayed one (by reference);
        a missing or empty one leaves it as it is. */
    method SyncProject(projectMilestones: array?<Milestone>)
      modifies this`milestones
      ensures projectMilestones != null && projectMilestones.Length > 0 ==> milestones == projectMilestones
      ensures projectMilestones == null || projectMilestones.Length == 0 ==> milestones == old(milestones)
    {
      if projectMilestones != null && projectMilestones.Length > 0 {
        milestones := projectMilestones;
      }
    }

    method OpenMilestoneModal()
      modifies this`modalOpen
      ensures modalOpen
    {
      modalOpen := true;
    }

    /** The `availableMilestones` expression: the displayed array itself when
        it is non-empty, otherwise a fresh one-element array. */
    method AvailableMilestones() returns (seed: array<Milestone>)
      ensures seed[..] == EditorSeed(milestones[..])
      ensures milestones.Length > 0 ==> seed == milestones
      ensures milestones.Length == 0 ==> fresh(seed)
    {
      if milestones.Length > 0 {
        seed := milestones;
      } else {
        seed := FromSeq([DefaultMilestone]);
      }
    }

    /** The editor's submit callback: adopt the committed list and close. */
    method HandleMilestoneSubmit(newMilestones: array<Milestone>)
      modifies this`milestones, this`modalOpen
      ensures milestones == newMilestones && !modalOpen
    {
      milestones := newMilestones;
      modalOpen := false;
    }

    /** The editor's close callback: adopt the list it passes and close. */
    method HandleMilestoneModalClose(newMilestones: array<Milestone>)
      modifies this`milestones, this`modalOpen
      ensures milestones == newMilestones && !modalOpen
    {
      milestones := newMilestones;
      modalOpen := false;
    }
  }
}
