/** The dashboard's entry lists: published entries ("live") and unpublished
    ones ("drafts"), and deleting the entry the user selected, which removes
    it from the list its `published` flag names once the server confirms. */
module DashboardEntries {
  import opened Common

  /** A project entry; `id == 0` is a falsy id. */
  datatype Entry = Entry(id: int, title: string, published: bool)

  /** The list without the entries carrying `id`, in their original order. */
  function WithoutEntry(entries: seq<Entry>, id: int): (r: seq<Entry>)
    ensures |r| <= |entries|
    ensures forall e :: e in r <==> e in entries && e.id != id
  {
    Filter(entries, (e: Entry) => e.id != id)
  }

  /** Removing keeps the remaining entries' relative order, and an id that is
      not in the list removes nothing. */
  lemma WithoutEntryKeepsOrder(a: seq<Entry>, b: seq<Entry>, id: int)
    ensures WithoutEntry(a + b, id) == WithoutEntry(a, id) + WithoutEntry(b, id)
    ensures (forall i :: 0 <= i < |a| ==> a[i].id != id) ==> WithoutEntry(a, id) == a
  {
    FilterDistributes(a, b, (e: Entry) => e.id != id);
    if forall i :: 0 <= i < |a| ==> a[i].id != id {
      FilterKeepsAll(a, (e: Entry) => e.id != id);
    }
  }

  class ProjectDashboardEntries {
    var liveEntries: seq<Entry>
    var draftEntries: seq<Entry>
    var selectedEntry: Option<Entry>
    var deleteDialogOpen: bool
    /** The ids of every delete sent to the server, in order. */
    var deleteRequests: seq<int>

    constructor ()
      ensures liveEntries == [] && draftEntries == [] && selectedEntry == None
      ensures !deleteDialogOpen && deleteRequests == []
    {
      liveEntries := [];
      draftEntries := [];
      selectedEntry := None;
      deleteDialogOpen := false;
      deleteRequests := [];
    }

    /** The dashboard query completed: both lists are replaced. */
    method EntriesLoaded(published: seq<Entry>, unpublished: seq<Entry>)
      modifies this`liveEntries, this`draftEntries
      ensures liveEntries == published && draftEntries == unpublished
    {
      liveEntries := published;
      draftEntries := unpublished;
    }

    /** The delete button of an entry: select it and open the confirm dialog. */
    method TriggerDeleteEntry(entry: Entry)
      modifies this`selectedEntry, this`deleteDialogOpen
      ensures selectedEntry == Some(entry) && deleteDialogOpen
    {
      selectedEntry := Some(entry);
      deleteDialogOpen := true;
    }

    /** The dialog's confirm. Without a selected entry with an id nothing
        happens, and the dialog stays open. Otherwise one delete is sent; on
        success the entry's id leaves the list its flag names and the other
        list is untouched; on failure both lists stay. Either way the dialog
        then closes. */
    method HandleRemoveEntry(deleteSucceeds: bool)
      modifies this`liveEntries, this`draftEntries, this`deleteDialogOpen, this`deleteRequests
      ensures selectedEntry.None? || selectedEntry.value.id == 0 ==>
        && liveEntries == old(liveEntries) && draftEntries == old(draftEntries)
        && deleteDialogOpen == old(deleteDialogOpen) && deleteRequests == old(deleteRequests)
      ensures selectedEntry.Some? && selectedEntry.value.id != 0 ==>
        var target := selectedEntry.value;
        && deleteRequests == old(deleteRequests) + [target.id]
        && !deleteDialogOpen
        && liveEntries == (if deleteSucceeds && target.published then WithoutEntry(old(liveEntries), target.id) else old(liveEntries))
        && draftEntries == (if deleteSucceeds && !target.published then WithoutEntry(old(draftEntries), target.id) else old(draftEntries))
    {
      if selectedEntry.None? || selectedEntry.value.id == 0 {
        return;
      }
      var target := selectedEntry.value;
      deleteRequests := deleteRequests + [target.id];
      if deleteSucceeds {
        if target.published {
          liveEntries := WithoutEntry(liveEntries, target.id);
        } else {
          draftEntries := WithoutEntry(draftEntries, target.id);
        }
      }
      deleteDialogOpen := false;
    }
  }
}
