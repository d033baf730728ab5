/**
 * RoutesSearcher.consume: the filter between the route index's search and
 * the caller's consumer. Every entry of the search for the requested command
 * store whose transaction id lies in the half-open window [minTxnId, maxTxnId)
 * is passed on, in the order the search yields them, duplicates included.
 *
 * The index search itself (searchRange / searchKey) is a parameter here: a
 * function from the query to the entries it yields.
 */
module RoutesSearcher {
  import opened AccordPrimitives
  import opened TokenRanges

  /** One row the search yields: the command store and the transaction id of a command. */
  datatype Entry = Entry(storeId: int, txnId: TxnId)

  /** minTxnId <= txnId < maxTxnId, by Timestamp.compareTo. */
  predicate InWindow(txnId: TxnId, minTxnId: TxnId, maxTxnId: Timestamp)
  {
    CompareTimestamps(txnId, minTxnId) >= 0 && CompareTimestamps(txnId, maxTxnId) < 0
  }

  /** The window is half-open: its lower bound is in it when the window is not empty, its upper bound never. */
  lemma WindowIsHalfOpen(minTxnId: TxnId, maxTxnId: Timestamp)
    ensures InWindow(minTxnId, minTxnId, maxTxnId) <==> CompareTimestamps(minTxnId, maxTxnId) < 0
    ensures !InWindow(maxTxnId, minTxnId, maxTxnId)
  {
  }

  /** What consume hands the consumer, as a function of what the iterator yields. */
  function Selected(entries: seq<Entry>, storeId: int, minTxnId: TxnId, maxTxnId: Timestamp): (ids: seq<TxnId>)
    ensures |ids| <= |entries|
    ensures forall i :: 0 <= i < |ids| ==> InWindow(ids[i], minTxnId, maxTxnId)
    decreases |entries|
  {
    if |entries| == 0 then []
    else
      var e := entries[0];
      var rest := Selected(entries[1..], storeId, minTxnId, maxTxnId);
      if e.storeId == storeId && InWindow(e.txnId, minTxnId, maxTxnId) then [e.txnId] + rest else rest
  }

  /** An id is passed on exactly when some entry of the requested store carries it and it lies in the window. */
  lemma {:induction false} SelectedMembers(entries: seq<Entry>, storeId: int, minTxnId: TxnId, maxTxnId: Timestamp, id: TxnId)
    ensures id in Selected(entries, storeId, minTxnId, maxTxnId)
        <==> exists i :: 0 <= i < |entries| && entries[i] == Entry(storeId, id) && InWindow(id, minTxnId, maxTxnId)
    decreases |entries|
  {
    if |entries| > 0 {
      SelectedMembers(entries[1..], storeId, minTxnId, maxTxnId, id);
      if exists i :: 0 <= i < |entries[1..]| && entries[1..][i] == Entry(storeId, id) && InWindow(id, minTxnId, maxTxnId) {
        var i :| 0 <= i < |entries[1..]| && entries[1..][i] == Entry(storeId, id) && InWindow(id, minTxnId, maxTxnId);
        assert entries[i + 1] == Entry(storeId, id);
      }
      if exists i :: 0 <= i < |entries| && entries[i] == Entry(storeId, id) && InWindow(id, minTxnId, maxTxnId) {
        var i :| 0 <= i < |entries| && entries[i] == Entry(storeId, id) && InWindow(id, minTxnId, maxTxnId);
        if i > 0 {
          assert entries[1..][i - 1] == Entry(storeId, id);
        }
      }
    }
  }

  /** Order is kept: the ids of a longer run are those of its first part, then those of the rest. */
  lemma {:induction false} SelectedAppend(a: seq<Entry>, b: seq<Entry>, storeId: int, minTxnId: TxnId, maxTxnId: Timestamp)
    ensures Selected(a + b, storeId, minTxnId, maxTxnId)
         == Selected(a, storeId, minTxnId, maxTxnId) + Selected(b, storeId, minTxnId, maxTxnId)
    decreases |a|
  {
    if |a| == 0 {
      assert a + b == b;
    } else {
      assert (a + b)[1..] == a[1..] + b;
      SelectedAppend(a[1..], b, storeId, minTxnId, maxTxnId);
    }
  }

  /** No de-duplication: an entry seen twice is passed on twice. */
  lemma SelectedKeepsDuplicates(e: Entry, minTxnId: TxnId, maxTxnId: Timestamp)
    requires InWindow(e.txnId, minTxnId, maxTxnId)
    ensures Selected([e, e], e.storeId, minTxnId, maxTxnId) == [e.txnId, e.txnId]
  {
    assert [e, e][1..] == [e];
  }

  /** The Consumer<TxnId> the search results are pushed into: everything accepted, in order. */
  class TxnIdConsumer {
    var accepted: seq<TxnId>

    constructor()
      ensures accepted == []
    {
      accepted := [];
    }

    method Accept(id: TxnId)
      modifies this
      ensures accepted == old(accepted) + [id]
    {
      accepted := accepted + [id];
    }
  }

  /** consume: one pass over the iterator, skipping other stores and ids outside the window. */
  method Consume(entries: seq<Entry>, storeId: int, minTxnId: TxnId, maxTxnId: Timestamp, forEach: TxnIdConsumer)
    modifies forEach
    ensures forEach.accepted == old(forEach.accepted) + Selected(entries, storeId, minTxnId, maxTxnId)
  {
    var i := 0;
    while i < |entries|
      invariant 0 <= i <= |entries|
      invariant forEach.accepted == old(forEach.accepted) + Selected(entries[..i], storeId, minTxnId, maxTxnId)
    {
      var next := entries[i];
      SelectedAppend(entries[..i], [next], storeId, minTxnId, maxTxnId);
      assert entries[..i + 1] == entries[..i] + [next];
      i := i + 1;
      if next.storeId != storeId {
        continue;
      }
      if CompareTimestamps(next.txnId, minTxnId) >= 0 && CompareTimestamps(next.txnId, maxTxnId) < 0 {
        forEach.Accept(next.txnId);
      }
    }
    assert entries[..i] == entries;
  }

  /** The search the index performs: what it yields for a store and a pair of routing keys. */
  type Search = (int, RoutingKey, RoutingKey) -> seq<Entry>

  /** intersects over a pair of keys: search, then consume. */
  method Intersects(storeId: int, start: RoutingKey, end: RoutingKey, minTxnId: TxnId, maxTxnId: Timestamp,
                    searchRange: Search, forEach: TxnIdConsumer)
    modifies forEach
    ensures forEach.accepted == old(forEach.accepted) + Selected(searchRange(storeId, start, end), storeId, minTxnId, maxTxnId)
  {
    Consume(searchRange(storeId, start, end), storeId, minTxnId, maxTxnId, forEach);
  }

  /** intersects over a TokenRange: the same as over its two endpoints. */
  method IntersectsTokenRange(storeId: int, range: TokenRange, minTxnId: TxnId, maxTxnId: Timestamp,
                              searchRange: Search, forEach: TxnIdConsumer)
    modifies forEach
    ensures forEach.accepted
         == old(forEach.accepted) + Selected(searchRange(storeId, range.start, range.end), storeId, minTxnId, maxTxnId)
  {
    Intersects(storeId, range.start, range.end, minTxnId, maxTxnId, searchRange, forEach);
  }

  /** What a fresh consumer holds after one TokenRange query. */
  method CollectIntersecting(storeId: int, range: TokenRange, minTxnId: TxnId, maxTxnId: Timestamp, searchRange: Search)
    returns (ids: seq<TxnId>)
    ensures ids == Selected(searchRange(storeId, range.start, range.end), storeId, minTxnId, maxTxnId)
    ensures forall i :: 0 <= i < |ids| ==> CompareTimestamps(minTxnId, ids[i]) <= 0 && CompareTimestamps(ids[i], maxTxnId) < 0
  {
    var forEach := new TxnIdConsumer();
    IntersectsTokenRange(storeId, range, minTxnId, maxTxnId, searchRange, forEach);
    ids := forEach.accepted;
    forall i | 0 <= i < |ids|
      ensures CompareTimestamps(minTxnId, ids[i]) <= 0
    {
      CompareAntisymmetric(minTxnId, ids[i]);
    }
  }
}
