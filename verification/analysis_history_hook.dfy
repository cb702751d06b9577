/** `useAnalysisHistory`: the list of recent analyses, reloaded on demand. */
module AnalysisHistoryHook {
  import opened Common
  import opened HttpClient
  import AC = AnalysisController

  const HistoryFailed: string := "Could not load history."

  class AnalysisHistoryState {
    var items: seq<AC.AnalysisListItem>
    var loading: bool
    var error: Option<string>

    constructor ()
      ensures items == [] && !loading && error.None?
    {
      items, loading, error := [], false, None;
    }

    /** `refresh` up to its request: loading, with the error cleared and the list kept. */
    method Refresh()
      modifies this
      ensures loading && error.None? && items == old(items)
    {
      loading := true;
      error := None;
    }

    /** `refresh` after `fetchAnalysisHistory` settles: the new list replaces the
        old one; a failure keeps the old list and reports a fixed message;
        loading ends either way. */
    method Settle(outcome: Outcome<seq<AC.AnalysisListItem>>)
      modifies this
      ensures !loading
      ensures outcome.Resolved? ==> items == outcome.value && error == old(error)
      ensures outcome.Rejected? ==> items == old(items) && error == Some(HistoryFailed)
    {
      if outcome.Resolved? {
        items := outcome.value;
      } else {
        error := Some(HistoryFailed);
      }
      loading := false;
    }
  }

  /** Loaded from the list endpoint, the history holds the previews of the
      newest `take` stored analyses, each at most once, newest first, each
      preview at most 141 characters long; with `take` at least the count, it
      holds every stored analysis. */
  lemma HistoryShowsNewest(db: AC.Store.Db, take: int)
    ensures var items := Serve(Ok(AC.GetMany(db, take))).value;
      && |items| <= (if take <= 0 then 0 else take)
      && |items| == |AC.ListedRows(db, take)|
      && (forall i :: 0 <= i < |items| ==> items[i] == AC.ListItem(AC.ListedRows(db, take)[i]))
      && (take >= |db.analyses| ==> forall m :: m in db.analyses ==> AC.ListItem(m) in items)
      && (forall i, j :: 0 <= i < j < |items| ==> items[i].createdAt >= items[j].createdAt)
      && (forall i :: 0 <= i < |items| ==> |items[i].summaryPreview| <= AC.ListPreviewLength + 1)
  {
    var items := Serve(Ok(AC.GetMany(db, take))).value;
    forall m | m in db.analyses && take >= |db.analyses|
      ensures AC.ListItem(m) in items
    {
      AC.GetManyListsNewest(db, take, m);
    }
  }
}
