// The transaction database (src/txdb-leveldb.h, src/txdb-leveldb.cpp): a stored index, the stored
// best-chain hash, and at most one open batch that hides or adds entries until it is committed.
module TxDb {
  import opened Common
  import opened Ledger

  type Changes = map<Hash256, Option<TxIndex>>

  // The index as read through a batch of puts (Some) and deletes (None).
  function Overlay(base: Index, changes: Changes): Index {
    map h | h in base.Keys + changes.Keys && (h in changes ==> changes[h].Some?) ::
      if h in changes then changes[h].value else base[h]
  }

  lemma OverlayEmpty(base: Index)
    ensures Overlay(base, map[]) == base
  {
    var none: Changes := map[];
    assert base.Keys + none.Keys == base.Keys;
  }

  class TxDB {
    var stored: Index
    var storedTip: Hash256
    var batch: Option<Changes>
    var batchTip: Option<Hash256>

    constructor (index: Index, tip: Hash256)
      ensures stored == index && storedTip == tip && batch.None? && batchTip.None?
    {
      stored, storedTip, batch, batchTip := index, tip, None, None;
    }

    ghost function View(): Index
      reads this
    {
      if batch.Some? then Overlay(stored, batch.value) else stored
    }

    ghost function ViewTip(): Hash256
      reads this
    {
      if batch.Some? && batchTip.Some? then batchTip.value else storedTip
    }

    method TxnBegin()
      requires batch.None?
      modifies this
      ensures batch.Some? && stored == old(stored) && storedTip == old(storedTip)
      ensures View() == old(View()) && ViewTip() == old(ViewTip())
    {
      OverlayEmpty(stored);
      batch, batchTip := Some(map[]), None;
    }

    // The write of the whole batch may fail as a whole; `written` is the store's answer.
    method TxnCommit(written: bool) returns (ok: bool)
      requires batch.Some?
      modifies this
      ensures batch.None? && ok == written
      ensures if ok then stored == old(View()) && storedTip == old(ViewTip())
              else stored == old(stored) && storedTip == old(storedTip)
    {
      ok := written;
      if ok {
        stored := Overlay(stored, batch.value);
        if batchTip.Some? {
          storedTip := batchTip.value;
        }
      }
      batch, batchTip := None, None;
    }

    method TxnAbort()
      modifies this
      ensures batch.None? && stored == old(stored) && storedTip == old(storedTip)
    {
      batch, batchTip := None, None;
    }

    method ReadTxIndex(h: Hash256) returns (entry: Option<TxIndex>)
      ensures entry == if h in View() then Some(View()[h]) else None
    {
      if batch.Some? && h in batch.value {
        return batch.value[h];
      }
      entry := if h in stored then Some(stored[h]) else None;
    }

    method UpdateTxIndex(h: Hash256, entry: TxIndex)
      requires batch.Some?
      modifies this
      ensures batch.Some? && stored == old(stored) && storedTip == old(storedTip)
      ensures View() == old(View())[h := entry] && ViewTip() == old(ViewTip())
    {
      batch := Some(batch.value[h := Some(entry)]);
    }

    method EraseTxIndex(h: Hash256)
      requires batch.Some?
      modifies this
      ensures batch.Some? && stored == old(stored) && storedTip == old(storedTip)
      ensures View() == old(View()) - {h} && ViewTip() == old(ViewTip())
    {
      batch := Some(batch.value[h := None]);
    }

    method WriteHashBestChain(tip: Hash256)
      requires batch.Some?
      modifies this
      ensures batch.Some? && stored == old(stored) && storedTip == old(storedTip)
      ensures View() == old(View()) && ViewTip() == tip
    {
      batchTip := Some(tip);
    }
  }
}
