/**
 * AccordSafeCommand: one execution context's guarded view of a cached
 * command record. preExecute takes the record exclusively from the cache
 * entry as `original` and starts `current` from it; `set` replaces `current`;
 * `update` hands the (original, current) pair to the journal; `invalidate`
 * ends the wrapper's life, after which every guarded accessor throws.
 */
module SafeCommand {
  import opened AccordPrimitives
  import opened Optional

  /** accord.local.Command, reduced to what the wrapper passes around: whose record it is and its state. */
  datatype Command = Command(txnId: TxnId, status: nat)

  /** Journal.CommandUpdate: the before/after delta of one execution step. */
  datatype CommandUpdate = CommandUpdate(before: Option<Command>, after: Option<Command>)

  /** What a call throws. */
  datatype Error =
    | IllegalState          // checkNotInvalidated on an invalidated wrapper
    | UnsupportedOperation  // hashCode

  /** A call's outcome: its return value, or what it threw. */
  datatype Outcome<+T> = Returned(value: T) | Threw(error: Error)

  /**
   * AccordCacheEntry<TxnId, Command>: the shared slot the wrapper is bound to.
   * Its exclusive acquisition (and any waiting it involves) belongs to the
   * cache manager; here it hands back the slot's value.
   */
  class CacheEntry {
    const key: TxnId
    var value: Option<Command>

    constructor(key: TxnId, value: Option<Command>)
      ensures this.key == key && this.value == value
    {
      this.key := key;
      this.value := value;
    }

    method GetExclusive() returns (c: Option<Command>)
      ensures c == value
    {
      c := value;
    }
  }

  class AccordSafeCommand {
    /** SafeCommand's txnId, taken from global.key() by the constructor. */
    const txnId: TxnId
    const global: CacheEntry
    var invalidated: bool
    var original: Option<Command>
    var current: Option<Command>
    /** How many times the superclass's uninitialised() hook has been called. */
    var uninitialisedCalls: nat

    constructor(global: CacheEntry)
      ensures this.global == global && txnId == global.key
      ensures original == None && current == None && !invalidated
      ensures uninitialisedCalls == 0
    {
      this.txnId := global.key;
      this.global := global;
      this.invalidated := false;
      this.original := None;
      this.current := None;
      this.uninitialisedCalls := 0;
    }

    /** The state a successful guarded call must leave as it was. */
    ghost predicate Unchanged(invalidated0: bool, original0: Option<Command>, current0: Option<Command>, calls0: nat)
      reads this
    {
      invalidated == invalidated0 && original == original0 && current == current0 && uninitialisedCalls == calls0
    }

    method Global() returns (r: Outcome<CacheEntry>)
      ensures invalidated ==> r == Threw(IllegalState)
      ensures !invalidated ==> r == Returned(global)
    {
      if invalidated {
        return Threw(IllegalState);
      }
      r := Returned(global);
    }

    method Current() returns (r: Outcome<Option<Command>>)
      ensures invalidated ==> r == Threw(IllegalState)
      ensures !invalidated ==> r == Returned(current)
    {
      if invalidated {
        return Threw(IllegalState);
      }
      r := Returned(current);
    }

    method Original() returns (r: Outcome<Option<Command>>)
      ensures invalidated ==> r == Threw(IllegalState)
      ensures !invalidated ==> r == Returned(original)
    {
      if invalidated {
        return Threw(IllegalState);
      }
      r := Returned(original);
    }

    /** set: only `current` changes; an invalidated wrapper throws and stays as it was. */
    method Set(command: Option<Command>) returns (r: Outcome<()>)
      modifies this
      ensures old(invalidated) ==> r == Threw(IllegalState) && Unchanged(old(invalidated), old(original), old(current), old(uninitialisedCalls))
      ensures !old(invalidated) ==> r == Returned(()) && Unchanged(old(invalidated), old(original), command, old(uninitialisedCalls))
    {
      if invalidated {
        return Threw(IllegalState);
      }
      current := command;
      r := Returned(());
    }

    /** update: the delta, read without the invalidation guard. */
    function Update(): (u: CommandUpdate)
      reads this
      ensures u.before == original && u.after == current
    {
      CommandUpdate(original, current)
    }

    /** isUnset: the record just taken from the cache does not exist yet. */
    predicate IsUnset()
      reads this
    {
      current.None?
    }

    /**
     * preExecute: take the entry's value as the snapshot and start `current`
     * from it; the uninitialised() hook runs exactly when that value is absent.
     * The hook belongs to the superclass; `uninitialised` is the working value
     * it installs for this txnId (a not-yet-defined record, or nothing).
     */
    method PreExecute(uninitialised: TxnId -> Option<Command>) returns (r: Outcome<()>)
      modifies this
      ensures old(invalidated) ==> r == Threw(IllegalState) && Unchanged(old(invalidated), old(original), old(current), old(uninitialisedCalls))
      ensures !old(invalidated) ==> r == Returned(())
      ensures !old(invalidated) ==> original == global.value && !invalidated
      ensures !old(invalidated) && global.value.Some? ==> current == original
      ensures !old(invalidated) && global.value.None? ==> current == uninitialised(txnId)
      ensures !old(invalidated) ==> uninitialisedCalls == old(uninitialisedCalls) + (if global.value.None? then 1 else 0)
    {
      if invalidated {
        return Threw(IllegalState);
      }
      original := global.GetExclusive();
      current := original;
      if IsUnset() {
        Uninitialised(uninitialised);
      }
      r := Returned(());
    }

    /** The superclass's uninitialised() hook: it installs its working value for the txnId. */
    method Uninitialised(uninitialised: TxnId -> Option<Command>)
      modifies this
      ensures current == uninitialised(txnId) && uninitialisedCalls == old(uninitialisedCalls) + 1
      ensures original == old(original) && invalidated == old(invalidated)
    {
      current := uninitialised(txnId);
      uninitialisedCalls := uninitialisedCalls + 1;
    }

    /** invalidate: unconditional; nothing else changes, and nothing ever clears the flag again. */
    method Invalidate()
      modifies this
      ensures invalidated
      ensures original == old(original) && current == old(current) && uninitialisedCalls == old(uninitialisedCalls)
    {
      invalidated := true;
    }

    function Invalidated(): (b: bool)
      reads this
      ensures b == invalidated
    {
      invalidated
    }

    /**
     * equals: the same object, or another wrapper whose snapshot and working
     * value are equal; so two wrappers are equal exactly when they would hand
     * the journal the same delta. The entry and the invalidation flag play no part.
     */
    predicate Equals(other: AccordSafeCommand?)
      reads this, other
      ensures Equals(other) <==> other != null && Update() == other.Update()
    {
      this == other || (other != null && original == other.original && current == other.current)
    }

    method HashCode() returns (r: Outcome<int>)
      ensures r == Threw(UnsupportedOperation)
    {
      r := Threw(UnsupportedOperation);
    }
  }

  /** Equality is an equivalence on wrappers. */
  lemma EqualsIsEquivalence(a: AccordSafeCommand, b: AccordSafeCommand, c: AccordSafeCommand)
    ensures a.Equals(a)
    ensures a.Equals(b) ==> b.Equals(a)
    ensures a.Equals(b) && b.Equals(c) ==> a.Equals(c)
  {
  }

  /**
   * One execution step as the runtime drives it: acquire, replace the working
   * value, read the delta back, invalidate. Afterwards the wrapper refuses
   * every guarded access, while the delta still reads the same.
   */
  method ExecutionStep(entry: CacheEntry, uninitialised: TxnId -> Option<Command>, next: Command)
    returns (delta: CommandUpdate, after: Outcome<Option<Command>>)
    ensures delta == CommandUpdate(entry.value, Some(next))
    ensures after == Threw(IllegalState)
  {
    var safe := new AccordSafeCommand(entry);
    var acquired := safe.PreExecute(uninitialised);
    var replaced := safe.Set(Some(next));
    delta := safe.Update();
    safe.Invalidate();
    after := safe.Current();
    var again := safe.PreExecute(uninitialised);
    assert again == Threw(IllegalState);
    assert safe.Update() == delta;
  }
}
