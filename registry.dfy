/**
 * The fixed-capacity callback table: 32 slots, a slot being free when its
 * function pointer is NULL. Registration fills the lowest free slot, so the
 * occupied slots always form a prefix of the table, in registration order.
 */
module Registry {
  import opened Wrappers
  import opened LogApi

  const MaxCallbacks: nat := 32

  /** One slot: callback (NULL when free), its context pointer and its threshold. */
  datatype Callback = Callback(fn: Option<LogFn>, udata: Handle, level: Level)

  /** A zero-initialised slot. */
  const EmptySlot: Callback := Callback(None, Null, Trace)

  /** The table at program start: every slot zero. */
  function InitialTable(): (cbs: seq<Callback>)
    ensures |cbs| == MaxCallbacks
    ensures forall k :: 0 <= k < |cbs| ==> cbs[k].fn.None?
  {
    seq(MaxCallbacks, _ => EmptySlot)
  }

  /** Every slot of `cbs` holds a callback. */
  predicate AllOccupied(cbs: seq<Callback>) {
    forall k :: 0 <= k < |cbs| ==> cbs[k].fn.Some?
  }

  /** No occupied slot comes after a free one. */
  predicate Compact(cbs: seq<Callback>) {
    forall i, j :: 0 <= i < j < |cbs| && cbs[j].fn.Some? ==> cbs[i].fn.Some?
  }

  /**
   * The index of the first free slot, or `|cbs|` when none is free: the slot
   * registration scans for, and where dispatch stops.
   */
  function UsedCount(cbs: seq<Callback>): (n: nat)
    ensures n <= |cbs|
    ensures forall k :: 0 <= k < n ==> cbs[k].fn.Some?
    ensures n < |cbs| ==> cbs[n].fn.None?
  {
    if cbs == [] || cbs[0].fn.None? then 0 else 1 + UsedCount(cbs[1..])
  }

  /** The used part of the table: the slots before the first free one. */
  function ActivePrefix(cbs: seq<Callback>): (p: seq<Callback>)
    ensures AllOccupied(p) && p <= cbs
    ensures |p| == |cbs| || cbs[|p|].fn.None?
  {
    cbs[..UsedCount(cbs)]
  }

  /** A scan that saw only occupied slots below `i` and stops at `i` has found `UsedCount`. */
  lemma UsedCountIsFirstFree(cbs: seq<Callback>, i: nat)
    requires i <= |cbs|
    requires forall k :: 0 <= k < i ==> cbs[k].fn.Some?
    requires i == |cbs| || cbs[i].fn.None?
    ensures UsedCount(cbs) == i
  {
  }

  /** A scan that finds slot `i` occupied has seen one more occupied slot. */
  lemma AllOccupiedExtend(cbs: seq<Callback>, i: nat)
    requires i < |cbs| && AllOccupied(cbs[..i]) && cbs[i].fn.Some?
    ensures AllOccupied(cbs[..i + 1])
  {
    assert forall k :: 0 <= k < i ==> cbs[..i + 1][k] == cbs[..i][k];
  }

  /** In a compact table a slot is occupied exactly when it lies below `UsedCount`. */
  lemma OccupiedIffInPrefix(cbs: seq<Callback>, j: nat)
    requires Compact(cbs) && j < |cbs|
    ensures cbs[j].fn.Some? <==> j < UsedCount(cbs)
  {
  }

  /** The zero-initialised table is compact and has no used slot. */
  lemma InitialTableEmpty()
    ensures Compact(InitialTable())
    ensures UsedCount(InitialTable()) == 0 && ActivePrefix(InitialTable()) == []
  {
  }

  /**
   * Writing an entry into the first free slot of a compact table keeps it
   * compact; a non-NULL entry is appended to the used prefix, a NULL one
   * leaves the prefix as it was.
   */
  lemma {:induction false} InsertAtFirstFree(cbs: seq<Callback>, e: Callback)
    requires Compact(cbs) && UsedCount(cbs) < |cbs|
    ensures var cbs' := cbs[UsedCount(cbs) := e];
      && Compact(cbs')
      && (e.fn.Some? ==>
            UsedCount(cbs') == UsedCount(cbs) + 1 && ActivePrefix(cbs') == ActivePrefix(cbs) + [e])
      && (e.fn.None? ==>
            UsedCount(cbs') == UsedCount(cbs) && ActivePrefix(cbs') == ActivePrefix(cbs))
  {
    var n := UsedCount(cbs);
    var cbs' := cbs[n := e];
    forall j | n < j < |cbs|
      ensures cbs[j].fn.None?
    {
      OccupiedIffInPrefix(cbs, j);
    }
    if e.fn.Some? {
      UsedCountIsFirstFree(cbs', n + 1);
      assert cbs'[..n + 1] == cbs[..n] + [e];
    } else {
      UsedCountIsFirstFree(cbs', n);
      assert cbs'[..n] == cbs[..n];
    }
  }

  /**
   * What `log_add_callback` does to the table `before`: the entry goes into
   * the lowest free slot and the status is 0, or, with no slot free, the
   * table is returned unchanged with status -1.
   */
  function Register(before: seq<Callback>, e: Callback): (res: (seq<Callback>, int))
    ensures |res.0| == |before|
    ensures res.1 == 0 || res.1 == -1
    ensures res.1 == 0 <==> exists k :: 0 <= k < |before| && before[k].fn.None?
    ensures res.1 == 0 ==> res.0[UsedCount(before)] == e
    ensures forall k :: 0 <= k < |before| && k != UsedCount(before) ==> res.0[k] == before[k]
  {
    var n := UsedCount(before);
    if n < |before| then (before[n := e], 0) else (before, -1)
  }

  /**
   * Registration succeeds exactly when a slot is free, writes only the first
   * free slot, keeps the table compact, and appends a non-NULL entry to the
   * used prefix; a failed registration leaves the table as it was.
   */
  lemma RegistrationAppends(before: seq<Callback>, e: Callback)
    requires Compact(before)
    ensures var (after, r) := Register(before, e);
      && (r == 0 || r == -1)
      && (r == 0 <==> exists k :: 0 <= k < |before| && before[k].fn.None?)
      && Compact(after) && |after| == |before|
      && (r == 0 ==> after[UsedCount(before)] == e)
      && (r == 0 ==> forall k :: 0 <= k < |before| && k != UsedCount(before) ==> after[k] == before[k])
      && (r == 0 && e.fn.Some? ==> ActivePrefix(after) == ActivePrefix(before) + [e])
      && (r == 0 && e.fn.None? ==> ActivePrefix(after) == ActivePrefix(before))
      && (r == -1 ==> after == before)
  {
    if UsedCount(before) < |before| {
      InsertAtFirstFree(before, e);
    }
  }

  /** Registering the entries `es` one after the other: the final table and each call's status. */
  function RegisterAll(table: seq<Callback>, es: seq<Callback>): (seq<Callback>, seq<int>) {
    if es == [] then (table, [])
    else
      var (t, rs) := RegisterAll(table, es[..|es| - 1]);
      var (t', r) := Register(t, es[|es| - 1]);
      (t', rs + [r])
  }

  /**
   * Starting from the zeroed table, up to 32 non-NULL registrations all
   * succeed and the used prefix is exactly the registered entries, in
   * registration order; once 32 are in, every further registration fails
   * and leaves the table unchanged.
   */
  lemma {:induction false} FillFromEmpty(es: seq<Callback>)
    requires |es| <= MaxCallbacks && AllOccupied(es)
    ensures var (t, rs) := RegisterAll(InitialTable(), es);
      && Compact(t) && |t| == MaxCallbacks
      && ActivePrefix(t) == es
      && |rs| == |es| && (forall k :: 0 <= k < |rs| ==> rs[k] == 0)
      && (|es| == MaxCallbacks ==> forall e :: Register(t, e) == (t, -1))
  {
    if es == [] {
      InitialTableEmpty();
    } else {
      var n := |es| - 1;
      assert AllOccupied(es[..n]);
      FillFromEmpty(es[..n]);
      var (t, rs) := RegisterAll(InitialTable(), es[..n]);
      assert UsedCount(t) == n;
      InsertAtFirstFree(t, es[n]);
      assert es[..n] + [es[n]] == es;
    }
    var (t, rs) := RegisterAll(InitialTable(), es);
    if |es| == MaxCallbacks {
      assert UsedCount(t) == |t|;
    }
  }
}
