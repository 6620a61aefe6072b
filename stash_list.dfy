/** The list of stashes under an expanded repository
    (src/components/StashList.jsx): a loading line, an empty state, or one
    row per stash keyed by repository id and position. */
module StashList {
  import opened Text
  import opened Domain

  /** One rendered row: its React key, the index it passes to its stash
      item, and the stash. */
  datatype StashRow = StashRow(key: string, index: nat, stash: Stash)

  datatype StashListView = LoadingView | EmptyView | ItemsView(rows: seq<StashRow>)

  /** `${repository.id}-${index}`. */
  function RowKey(id: RepoId, index: nat): string {
    id + "-" + NatToString(index)
  }

  /** Two rows of one list never share a key. */
  lemma RowKeysDistinct(id: RepoId, i: nat, j: nat)
    requires i != j
    ensures RowKey(id, i) != RowKey(id, j)
  {
    IndexedKeysDistinct(id, id, i, j);
  }

  function Rows(id: RepoId, stashes: seq<Stash>, from: nat): (r: seq<StashRow>)
    ensures |r| == |stashes|
    ensures forall k :: 0 <= k < |r| ==> r[k] == StashRow(RowKey(id, from + k), from + k, stashes[k])
    decreases |stashes|
  {
    if |stashes| == 0 then []
    else [StashRow(RowKey(id, from), from, stashes[0])] + Rows(id, stashes[1..], from + 1)
  }

  /** What the list renders for the value the cache holds: the loading line
      exactly for the loading marker, the empty state exactly for nothing or
      an empty list, and otherwise one row per stash, in order, passing the
      stash's position as its index. */
  function View(repository: Repository, stashes: StashSlot): (v: StashListView)
    ensures v.LoadingView? <==> stashes == Loading
    ensures v.EmptyView? <==> stashes == Unset || stashes == Loaded([])
    ensures v.ItemsView? ==> stashes.Loaded? && |v.rows| == |stashes.stashes|
    ensures v.ItemsView? ==> forall k :: 0 <= k < |v.rows| ==>
      v.rows[k].index == k && v.rows[k].stash == stashes.stashes[k] && v.rows[k].key == RowKey(repository.id, k)
  {
    match stashes
    case Loading => LoadingView
    case Unset => EmptyView
    case Loaded(list) => if |list| == 0 then EmptyView else ItemsView(Rows(repository.id, list, 0))
  }
}
