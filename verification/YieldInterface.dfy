/** What the block cache sees of VM's second-level cache: one combined call that may give a block
    away and may take one back, both through the same pages. */
module YieldInterface {

  datatype Option<+T> = None | Some(value: T)

  /** Outcome of a combined call: the blocks VM now holds, the contents of the caller's pages, and
      whether the requested block was delivered. */
  datatype YieldGet<K, V> = YieldGet(store: map<K, V>, data: V, ok: bool)

  /** Block `yieldid` (unless VM refuses it or holds it already) moves from the caller's pages to the
      store, leaving `blank` pages; then `getid`, if the store has it, moves to the caller's pages. */
  function YieldGetBlock<K, V>(store: map<K, V>, yieldid: Option<K>, getid: Option<K>,
                               data: V, accepted: bool, blank: V): YieldGet<K, V>
  {
    var gives := yieldid.Some? && accepted && yieldid.value !in store;
    var store1 := if gives then store[yieldid.value := data] else store;
    var data1 := if gives then blank else data;
    if getid.Some? && getid.value in store1
    then YieldGet(store1 - {getid.value}, store1[getid.value], true)
    else YieldGet(store1, data1, false)
  }

  /** A combined call is its yield half followed by its get half. */
  lemma HalvesCompose<K, V>(store: map<K, V>, yieldid: Option<K>, getid: Option<K>, data: V, accepted: bool, blank: V)
    ensures var y := YieldGetBlock(store, yieldid, None, data, accepted, blank);
            YieldGetBlock(store, yieldid, getid, data, accepted, blank)
            == YieldGetBlock(y.store, None, getid, y.data, false, blank)
  {
  }

  /** The store loses nothing but a block delivered. */
  lemma OthersKept<K, V>(store: map<K, V>, yieldid: Option<K>, getid: Option<K>, data: V, accepted: bool, blank: V,
                         id: K)
    requires id in store
    ensures var y := YieldGetBlock(store, yieldid, getid, data, accepted, blank);
            !(y.ok && getid == Some(id)) ==> id in y.store && y.store[id] == store[id]
  {
  }

  /** A block in the store is delivered, whatever is yielded by the same call. */
  lemma Delivered<K, V>(store: map<K, V>, yieldid: Option<K>, getid: K, data: V, accepted: bool, blank: V)
    requires getid in store
    ensures var y := YieldGetBlock(store, yieldid, Some(getid), data, accepted, blank);
            y.ok && y.data == store[getid]
  {
  }
}
