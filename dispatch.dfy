/**
 * What one `log_log` call does, as the sequence of observable actions it
 * performs: the lock hook call, the clock read, the console delivery and the
 * registered-sink deliveries, and the closing lock hook call. `Dispatch` is
 * the reference definition; the imperative loop in module Log is proved to
 * produce exactly this trace.
 */
module Dispatcher {
  import opened Wrappers
  import opened LogApi
  import opened Registry

  /** The logger state block `L` as a value. */
  datatype State = State(lockFn: Option<LockFn>, lockData: Handle, level: Level,
                         quiet: bool, callbacks: seq<Callback>)

  /** Where an event goes: the console renderer, or the callback in a slot. */
  datatype Sink = Console | Slot(index: nat, fn: LogFn)

  /** A sink together with the destination handle the event is bound to for it. */
  datatype Target = Target(sink: Sink, udata: Handle)

  /** One observable step of a dispatch. */
  datatype Action =
    | LockCall(hook: LockFn, acquire: bool, ctx: Handle)  // L.lock(acquire, L.udata)
    | TimeComputed                                         // the clock is read
    | Deliver(sink: Sink, ev: Event)                       // a sink receives the event

  /** The call to the lock hook made by `lock()` (acquire) or `unlock()` (release). */
  function LockStep(s: State, acquire: bool): (acts: seq<Action>)
    ensures |acts| <= 1
    ensures acts != [] <==> s.lockFn.Some?
    ensures forall k :: 0 <= k < |acts| ==>
      acts[k].LockCall? && acts[k].hook == s.lockFn.value && acts[k].acquire == acquire && acts[k].ctx == s.lockData
  {
    if s.lockFn.Some? then [LockCall(s.lockFn.value, acquire, s.lockData)] else []
  }

  /** The console target, present when not quiet and the level meets the console threshold. */
  function ConsoleTargets(s: State, level: Level): (ts: seq<Target>)
    ensures |ts| <= 1
    ensures forall k :: 0 <= k < |ts| ==> ts[k] == Target(Console, Stderr)
    ensures |ts| == 1 <==> !s.quiet && Ordinal(level) >= Ordinal(s.level)
  {
    if !s.quiet && AtLeast(level, s.level) then [Target(Console, Stderr)] else []
  }

  /** The registered entries among `cbs` whose threshold `level` meets, in slot order. */
  function SinkTargets(cbs: seq<Callback>, level: Level): (ts: seq<Target>)
    requires AllOccupied(cbs)
    ensures |ts| <= |cbs|
    ensures forall k :: 0 <= k < |ts| ==> IsEntryTarget(cbs, level, ts[k])
    ensures InSlotOrder(ts)
  {
    if cbs == [] then []
    else
      var n := |cbs| - 1;
      assert AllOccupied(cbs[..n]);
      SinkTargets(cbs[..n], level)
        + (if AtLeast(level, cbs[n].level) then [Target(Slot(n, cbs[n].fn.value), cbs[n].udata)] else [])
  }

  /** `t` is the delivery target of an entry of `cbs` admitted at `level`, bound to its context. */
  predicate IsEntryTarget(cbs: seq<Callback>, level: Level, t: Target) {
    && t.sink.Slot?
    && t.sink.index < |cbs|
    && cbs[t.sink.index].fn == Some(t.sink.fn)
    && t.udata == cbs[t.sink.index].udata
    && AtLeast(level, cbs[t.sink.index].level)
  }

  /** `ts` are registered-sink targets in strictly increasing slot order. */
  predicate InSlotOrder(ts: seq<Target>) {
    forall a, b :: 0 <= a < b < |ts| ==>
      ts[a].sink.Slot? && ts[b].sink.Slot? && ts[a].sink.index < ts[b].sink.index
  }

  /** Every sink the call reaches, in the order it reaches them. */
  function Targets(s: State, level: Level): seq<Target> {
    ConsoleTargets(s, level) + SinkTargets(ActivePrefix(s.callbacks), level)
  }

  /** The deliveries to `ts`, each with the shared timestamp and its own destination. */
  function Deliveries(ts: seq<Target>, shell: Event, now: Time): (acts: seq<Action>)
    ensures |acts| == |ts|
  {
    seq(|ts|, k requires 0 <= k < |ts| =>
      Deliver(ts[k].sink, shell.(time := Some(now), udata := ts[k].udata)))
  }

  /** The clock read that precedes the first delivery, if there is one. */
  function ClockRead(ts: seq<Target>): seq<Action> {
    if ts == [] then [] else [TimeComputed]
  }

  /** What happens between the lock calls: the clock read, then the deliveries to `ts`. */
  function Fanout(ts: seq<Target>, shell: Event, now: Time): seq<Action> {
    ClockRead(ts) + Deliveries(ts, shell, now)
  }

  /**
   * The full trace of `log_log(level, file, line, fmt, ...)` in state `s`,
   * when the clock, if read, reads `now`.
   */
  function Dispatch(s: State, level: Level, file: string, line: int, fmt: string, now: Time): (tr: seq<Action>)
    ensures |tr| <= |s.callbacks| + 4
    ensures tr == [] <==> s.lockFn.None? && Targets(s, level) == []
  {
    LockStep(s, true) + Fanout(Targets(s, level), EventShell(level, file, line, fmt), now) + LockStep(s, false)
  }

  /** Where the deliveries sit in the trace. */
  lemma DispatchLayout(s: State, level: Level, file: string, line: int, fmt: string, now: Time)
    ensures var tr := Dispatch(s, level, file, line, fmt, now);
            var ts := Targets(s, level);
            var pre := |LockStep(s, true)| + |ClockRead(ts)|;
            && |tr| == pre + |ts| + |LockStep(s, false)|
            && (forall k :: 0 <= k < pre ==> !tr[k].Deliver?)
            && (forall k :: pre + |ts| <= k < |tr| ==> tr[k].LockCall?)
            && (forall k :: 0 <= k < |ts| ==>
                  tr[pre + k] == Deliver(ts[k].sink, EventShell(level, file, line, fmt).(time := Some(now), udata := ts[k].udata)))
  {
  }

  /** Every entry of `cbs` that `level` admits appears among the targets. */
  lemma {:induction false} SinkTargetsComplete(cbs: seq<Callback>, level: Level, j: nat)
    requires AllOccupied(cbs) && j < |cbs| && AtLeast(level, cbs[j].level)
    ensures exists k :: 0 <= k < |SinkTargets(cbs, level)| && SinkTargets(cbs, level)[k].sink == Slot(j, cbs[j].fn.value)
  {
    var n := |cbs| - 1;
    assert AllOccupied(cbs[..n]);
    var ts := SinkTargets(cbs, level);
    if j == n {
      assert ts[|ts| - 1].sink == Slot(j, cbs[j].fn.value);
    } else {
      SinkTargetsComplete(cbs[..n], level, j);
      var k :| 0 <= k < |SinkTargets(cbs[..n], level)| && SinkTargets(cbs[..n], level)[k].sink == Slot(j, cbs[j].fn.value);
      assert ts[k] == SinkTargets(cbs[..n], level)[k];
    }
  }

  /** Action `a` delivers to the entry in slot `j`. */
  predicate IsSlotDelivery(a: Action, j: nat) {
    a.Deliver? && a.sink.Slot? && a.sink.index == j
  }

  /** Action `a` delivers to the console. */
  predicate IsConsoleDelivery(a: Action) {
    a.Deliver? && a.sink.Console?
  }

  /**
   * With a lock hook set, the trace opens with one acquire call and closes
   * with one release call, both with the hook's context, and nothing else in
   * between is a lock call; with no hook there is no lock call at all.
   */
  lemma LockBracketsDispatch(s: State, level: Level, file: string, line: int, fmt: string, now: Time)
    ensures var tr := Dispatch(s, level, file, line, fmt, now);
      && (s.lockFn.Some? ==>
            && |tr| >= 2
            && tr[0] == LockCall(s.lockFn.value, true, s.lockData)
            && tr[|tr| - 1] == LockCall(s.lockFn.value, false, s.lockData)
            && forall k :: 0 < k < |tr| - 1 ==> !tr[k].LockCall?)
      && (s.lockFn.None? ==> forall k :: 0 <= k < |tr| ==> !tr[k].LockCall?)
  {
    DispatchLayout(s, level, file, line, fmt, now);
  }

  /**
   * The console receives the event exactly when the logger is not quiet and
   * the level meets the console threshold.
   */
  lemma ConsolePathIff(s: State, level: Level, file: string, line: int, fmt: string, now: Time)
    ensures var tr := Dispatch(s, level, file, line, fmt, now);
      (exists k :: 0 <= k < |tr| && IsConsoleDelivery(tr[k])) <==> !s.quiet && AtLeast(level, s.level)
  {
    var tr := Dispatch(s, level, file, line, fmt, now);
    var ts := Targets(s, level);
    var pre := |LockStep(s, true)| + |ClockRead(ts)|;
    if !s.quiet && AtLeast(level, s.level) {
      TargetDelivered(s, level, file, line, fmt, now, 0);
      assert IsConsoleDelivery(tr[pre + 0]);
    }
    forall k | 0 <= k < |tr| && IsConsoleDelivery(tr[k])
      ensures !s.quiet && AtLeast(level, s.level)
    {
      DeliveryAt(s, level, file, line, fmt, now, k);
    }
  }

  /**
   * The console delivery is bound to standard error and comes before every
   * registered-sink delivery.
   */
  lemma ConsoleFirstOnStderr(s: State, level: Level, file: string, line: int, fmt: string, now: Time, a: nat)
    requires a < |Dispatch(s, level, file, line, fmt, now)|
    requires IsConsoleDelivery(Dispatch(s, level, file, line, fmt, now)[a])
    ensures var tr := Dispatch(s, level, file, line, fmt, now);
      && tr[a].ev.udata == Stderr
      && forall b :: 0 <= b < |tr| && tr[b].Deliver? && tr[b].sink.Slot? ==> a < b
  {
    var tr := Dispatch(s, level, file, line, fmt, now);
    var ts := Targets(s, level);
    var pre := |LockStep(s, true)| + |ClockRead(ts)|;
    DeliveryAt(s, level, file, line, fmt, now, a);
    forall b | 0 <= b < |tr| && tr[b].Deliver? && tr[b].sink.Slot?
      ensures a < b
    {
      DeliveryAt(s, level, file, line, fmt, now, b);
    }
  }

  /** Quiet mode suppresses the console path whatever the level. */
  lemma QuietSuppressesConsole(s: State, level: Level, file: string, line: int, fmt: string, now: Time)
    requires s.quiet
    ensures var tr := Dispatch(s, level, file, line, fmt, now);
      forall k :: 0 <= k < |tr| ==> !IsConsoleDelivery(tr[k])
  {
    ConsolePathIff(s, level, file, line, fmt, now);
  }

  /** Positions of the trace at which deliveries sit, each matched with its target. */
  lemma DeliveryAt(s: State, level: Level, file: string, line: int, fmt: string, now: Time, k: nat)
    requires k < |Dispatch(s, level, file, line, fmt, now)|
    requires Dispatch(s, level, file, line, fmt, now)[k].Deliver?
    ensures var ts := Targets(s, level);
            var pre := |LockStep(s, true)| + |ClockRead(ts)|;
            && pre <= k < pre + |ts|
            && Dispatch(s, level, file, line, fmt, now)[k]
               == Deliver(ts[k - pre].sink, EventShell(level, file, line, fmt).(time := Some(now), udata := ts[k - pre].udata))
  {
    DispatchLayout(s, level, file, line, fmt, now);
  }

  /** The `k`-th target receives the `k`-th delivery of the trace. */
  lemma TargetDelivered(s: State, level: Level, file: string, line: int, fmt: string, now: Time, k: nat)
    requires k < |Targets(s, level)|
    ensures var ts := Targets(s, level);
            var pre := |LockStep(s, true)| + |ClockRead(ts)|;
            && pre + k < |Dispatch(s, level, file, line, fmt, now)|
            && Dispatch(s, level, file, line, fmt, now)[pre + k]
               == Deliver(ts[k].sink, EventShell(level, file, line, fmt).(time := Some(now), udata := ts[k].udata))
  {
    DispatchLayout(s, level, file, line, fmt, now);
  }

  /** A registered-sink target of a dispatch is an admitted entry of the used prefix. */
  lemma SlotTargetIsEntry(s: State, level: Level, k: nat)
    requires k < |Targets(s, level)| && Targets(s, level)[k].sink.Slot?
    ensures IsEntryTarget(ActivePrefix(s.callbacks), level, Targets(s, level)[k])
  {
    var ct := ConsoleTargets(s, level);
    var st := SinkTargets(ActivePrefix(s.callbacks), level);
    assert Targets(s, level)[k] == st[k - |ct|];
  }

  /** Registered-sink targets of a dispatch are in strictly increasing slot order. */
  lemma SlotTargetsOrdered(s: State, level: Level, a: nat, b: nat)
    requires a < b < |Targets(s, level)|
    requires Targets(s, level)[a].sink.Slot? && Targets(s, level)[b].sink.Slot?
    ensures Targets(s, level)[a].sink.index < Targets(s, level)[b].sink.index
  {
    var ct := ConsoleTargets(s, level);
    var st := SinkTargets(ActivePrefix(s.callbacks), level);
    assert Targets(s, level)[a] == st[a - |ct|];
    assert Targets(s, level)[b] == st[b - |ct|];
  }

  /** An admitted entry of the used prefix is a target of the dispatch. */
  lemma AdmittedEntryIsTarget(s: State, level: Level, j: nat)
    requires j < UsedCount(s.callbacks) && AtLeast(level, s.callbacks[j].level)
    ensures exists k :: 0 <= k < |Targets(s, level)| && Targets(s, level)[k].sink.Slot? && Targets(s, level)[k].sink.index == j
  {
    var ct := ConsoleTargets(s, level);
    var p := ActivePrefix(s.callbacks);
    var st := SinkTargets(p, level);
    var ts := Targets(s, level);
    assert ts == ct + st;
    SinkTargetsComplete(p, level, j);
    var k :| 0 <= k < |st| && st[k].sink == Slot(j, p[j].fn.value);
    assert ts[|ct| + k] == st[k];
  }

  /**
   * The entry in slot `j` is invoked in a dispatch exactly when it lies in the
   * used prefix and the level meets its threshold; the console settings play
   * no part.
   */
  lemma EntryInvokedIff(s: State, level: Level, file: string, line: int, fmt: string, now: Time, j: nat)
    requires j < |s.callbacks|
    ensures var tr := Dispatch(s, level, file, line, fmt, now);
      (exists k :: 0 <= k < |tr| && IsSlotDelivery(tr[k], j))
        <==> j < UsedCount(s.callbacks) && AtLeast(level, s.callbacks[j].level)
  {
    var tr := Dispatch(s, level, file, line, fmt, now);
    var ts := Targets(s, level);
    var pre := |LockStep(s, true)| + |ClockRead(ts)|;
    if j < UsedCount(s.callbacks) && AtLeast(level, s.callbacks[j].level) {
      AdmittedEntryIsTarget(s, level, j);
      var k :| 0 <= k < |ts| && ts[k].sink.Slot? && ts[k].sink.index == j;
      TargetDelivered(s, level, file, line, fmt, now, k);
      assert IsSlotDelivery(tr[pre + k], j);
    }
    forall k | 0 <= k < |tr| && IsSlotDelivery(tr[k], j)
      ensures j < UsedCount(s.callbacks) && AtLeast(level, s.callbacks[j].level)
    {
      DeliveryAt(s, level, file, line, fmt, now, k);
      SlotTargetIsEntry(s, level, k - pre);
    }
  }

  /**
   * An invocation of the entry in slot `j` uses that entry's own callback and
   * binds the event to that entry's context.
   */
  lemma EntryInvokedWithOwnContext(s: State, level: Level, file: string, line: int, fmt: string, now: Time,
                                   j: nat, k: nat)
    requires j < |s.callbacks|
    requires k < |Dispatch(s, level, file, line, fmt, now)|
    requires IsSlotDelivery(Dispatch(s, level, file, line, fmt, now)[k], j)
    ensures var a := Dispatch(s, level, file, line, fmt, now)[k];
      Some(a.sink.fn) == s.callbacks[j].fn && a.ev.udata == s.callbacks[j].udata
  {
    var ts := Targets(s, level);
    var pre := |LockStep(s, true)| + |ClockRead(ts)|;
    DeliveryAt(s, level, file, line, fmt, now, k);
    SlotTargetIsEntry(s, level, k - pre);
  }

  /** No entry is invoked twice in one dispatch. */
  lemma EntryInvokedAtMostOnce(s: State, level: Level, file: string, line: int, fmt: string, now: Time,
                               j: nat, a: nat, b: nat)
    requires a < b < |Dispatch(s, level, file, line, fmt, now)|
    requires IsSlotDelivery(Dispatch(s, level, file, line, fmt, now)[a], j)
    ensures !IsSlotDelivery(Dispatch(s, level, file, line, fmt, now)[b], j)
  {
    var tr := Dispatch(s, level, file, line, fmt, now);
    var ts := Targets(s, level);
    var pre := |LockStep(s, true)| + |ClockRead(ts)|;
    if tr[b].Deliver? && tr[b].sink.Slot? {
      DeliveryAt(s, level, file, line, fmt, now, a);
      DeliveryAt(s, level, file, line, fmt, now, b);
      SlotTargetsOrdered(s, level, a - pre, b - pre);
    }
  }

  /** Only slots of the used prefix are reached. */
  lemma OnlyUsedSlotsReached(s: State, level: Level, file: string, line: int, fmt: string, now: Time, k: nat)
    requires k < |Dispatch(s, level, file, line, fmt, now)|
    requires Dispatch(s, level, file, line, fmt, now)[k].Deliver? && Dispatch(s, level, file, line, fmt, now)[k].sink.Slot?
    ensures Dispatch(s, level, file, line, fmt, now)[k].sink.index < UsedCount(s.callbacks)
  {
    var ts := Targets(s, level);
    var pre := |LockStep(s, true)| + |ClockRead(ts)|;
    DeliveryAt(s, level, file, line, fmt, now, k);
    SlotTargetIsEntry(s, level, k - pre);
  }

  /** Registered sinks are reached in increasing slot order. */
  lemma SlotsVisitedInOrder(s: State, level: Level, file: string, line: int, fmt: string, now: Time, a: nat, b: nat)
    requires a < b < |Dispatch(s, level, file, line, fmt, now)|
    requires Dispatch(s, level, file, line, fmt, now)[a].Deliver? && Dispatch(s, level, file, line, fmt, now)[a].sink.Slot?
    requires Dispatch(s, level, file, line, fmt, now)[b].Deliver? && Dispatch(s, level, file, line, fmt, now)[b].sink.Slot?
    ensures Dispatch(s, level, file, line, fmt, now)[a].sink.index < Dispatch(s, level, file, line, fmt, now)[b].sink.index
  {
    var ts := Targets(s, level);
    var pre := |LockStep(s, true)| + |ClockRead(ts)|;
    DeliveryAt(s, level, file, line, fmt, now, a);
    DeliveryAt(s, level, file, line, fmt, now, b);
    SlotTargetsOrdered(s, level, a - pre, b - pre);
  }

  /**
   * The clock is read at most once per dispatch, exactly when some sink
   * receives the event, and before the first delivery; every delivered event
   * carries that one timestamp and the caller's level, file, line and format.
   */
  lemma TimestampComputedOnce(s: State, level: Level, file: string, line: int, fmt: string, now: Time)
    ensures var tr := Dispatch(s, level, file, line, fmt, now);
      && (forall a, b :: 0 <= a < |tr| && 0 <= b < |tr| && tr[a].TimeComputed? && tr[b].TimeComputed? ==> a == b)
      && ((exists k :: 0 <= k < |tr| && tr[k].TimeComputed?) <==> (exists k :: 0 <= k < |tr| && tr[k].Deliver?))
      && (forall a, b :: 0 <= a < |tr| && 0 <= b < |tr| && tr[a].TimeComputed? && tr[b].Deliver? ==> a < b)
      && (forall k :: 0 <= k < |tr| && tr[k].Deliver? ==>
            tr[k].ev == EventShell(level, file, line, fmt).(time := Some(now), udata := tr[k].ev.udata))
  {
    var acq, rel := LockStep(s, true), LockStep(s, false);
    FanoutTimestamps(acq, Targets(s, level), EventShell(level, file, line, fmt), now, rel);
  }

  /** The timestamp facts for any fanout between two runs of lock calls. */
  lemma FanoutTimestamps(acq: seq<Action>, ts: seq<Target>, shell: Event, now: Time, rel: seq<Action>)
    requires forall k :: 0 <= k < |acq| ==> acq[k].LockCall?
    requires forall k :: 0 <= k < |rel| ==> rel[k].LockCall?
    ensures var tr := acq + Fanout(ts, shell, now) + rel;
      && (forall a, b :: 0 <= a < |tr| && 0 <= b < |tr| && tr[a].TimeComputed? && tr[b].TimeComputed? ==> a == b)
      && ((exists k :: 0 <= k < |tr| && tr[k].TimeComputed?) <==> (exists k :: 0 <= k < |tr| && tr[k].Deliver?))
      && (forall a, b :: 0 <= a < |tr| && 0 <= b < |tr| && tr[a].TimeComputed? && tr[b].Deliver? ==> a < b)
      && (forall k :: 0 <= k < |tr| && tr[k].Deliver? ==>
            tr[k].ev == shell.(time := Some(now), udata := tr[k].ev.udata))
  {
    var tr := acq + Fanout(ts, shell, now) + rel;
    var pre := |acq| + |ClockRead(ts)|;
    assert forall k :: 0 <= k < |acq| ==> tr[k] == acq[k];
    assert forall k :: pre + |ts| <= k < |tr| ==> tr[k] == rel[k - pre - |ts|];
    assert forall k :: 0 <= k < |ts| ==> tr[pre + k] == Deliveries(ts, shell, now)[k];
    if ts != [] {
      assert tr[|acq|] == TimeComputed;
      assert tr[pre].Deliver?;
    }
  }

  /** The registered-sink deliveries of a trace, in trace order. */
  function SlotDeliveries(tr: seq<Action>): (r: seq<Action>)
    ensures |r| <= |tr|
    ensures forall k :: 0 <= k < |r| ==> r[k].Deliver? && r[k].sink.Slot?
  {
    if tr == [] then []
    else SlotDeliveries(tr[..|tr| - 1]) + (if tr[|tr| - 1].Deliver? && tr[|tr| - 1].sink.Slot? then [tr[|tr| - 1]] else [])
  }

  lemma {:induction false} SlotDeliveriesAppend(a: seq<Action>, b: seq<Action>)
    ensures SlotDeliveries(a + b) == SlotDeliveries(a) + SlotDeliveries(b)
  {
    if b == [] {
      assert a + b == a;
    } else {
      var n := |b| - 1;
      assert (a + b)[..|a + b| - 1] == a + b[..n];
      SlotDeliveriesAppend(a, b[..n]);
    }
  }

  lemma {:induction false} SlotDeliveriesOfSlots(ts: seq<Target>, shell: Event, now: Time)
    requires forall k :: 0 <= k < |ts| ==> ts[k].sink.Slot?
    ensures SlotDeliveries(Deliveries(ts, shell, now)) == Deliveries(ts, shell, now)
  {
    if ts != [] {
      var n := |ts| - 1;
      assert Deliveries(ts, shell, now)[..n] == Deliveries(ts[..n], shell, now);
      SlotDeliveriesOfSlots(ts[..n], shell, now);
    }
  }

  lemma DeliveriesAppend(a: seq<Target>, b: seq<Target>, shell: Event, now: Time)
    ensures Deliveries(a + b, shell, now) == Deliveries(a, shell, now) + Deliveries(b, shell, now)
  {
  }

  /** Extending the scanned part of the table by one entry adds at most that entry's target. */
  lemma SinkTargetsExtend(cbs: seq<Callback>, level: Level, i: nat)
    requires i < |cbs| && AllOccupied(cbs[..i + 1])
    ensures AllOccupied(cbs[..i])
    ensures SinkTargets(cbs[..i + 1], level)
            == SinkTargets(cbs[..i], level)
               + (if AtLeast(level, cbs[i].level) then [Target(Slot(i, cbs[i].fn.value), cbs[i].udata)] else [])
  {
    assert cbs[..i + 1][..i] == cbs[..i];
  }

  /** One more delivery: the clock is read first if this is the first one. */
  lemma FanoutExtend(ts: seq<Target>, t: Target, shell: Event, now: Time)
    ensures Fanout(ts + [t], shell, now)
            == Fanout(ts, shell, now) + (if ts == [] then [TimeComputed] else [])
               + [Deliver(t.sink, shell.(time := Some(now), udata := t.udata))]
  {
    DeliveriesAppend(ts, [t], shell, now);
  }

  /**
   * The state of `log_log` after its console step and the visit of slots
   * `0 .. i-1`: `ts` are the targets met so far, `body` the actions taken
   * since the lock call, and `ev` the event as the last sink saw it.
   */
  ghost predicate Scanned(s: State, level: Level, shell: Event, now: Time,
                          i: nat, ts: seq<Target>, body: seq<Action>, ev: Event)
  {
    && i <= |s.callbacks| && AllOccupied(s.callbacks[..i])
    && ts == ConsoleTargets(s, level) + SinkTargets(s.callbacks[..i], level)
    && body == Fanout(ts, shell, now)
    && ev.level == shell.level && ev.file == shell.file && ev.line == shell.line && ev.fmt == shell.fmt
    && ev.time == (if ts == [] then None else Some(now))
  }

  /** What `init_event` promises: a first clock read, and a rebinding to `udata`. */
  predicate InitEventStep(ev: Event, udata: Handle, now: Time, ev': Event, acts: seq<Action>): (b: bool)
    ensures b ==> ev'.time.Some? && |acts| <= 1
    ensures b ==> (acts == [TimeComputed] <==> ev.time.None?)
    ensures b ==> ev' == ev.(time := ev'.time, udata := udata)
  {
    && (ev.time.None? ==> ev'.time == Some(now) && acts == [TimeComputed])
    && (ev.time.Some? ==> ev'.time == ev.time && acts == [])
    && ev'.udata == udata
    && ev'.level == ev.level && ev'.file == ev.file && ev'.line == ev.line && ev'.fmt == ev.fmt
  }

  /** Before the loop: the console step, if taken, is the only target met. */
  lemma ScanStart(s: State, level: Level, shell: Event, now: Time,
                  acts: seq<Action>, body: seq<Action>, ev0: Event, ev: Event)
    requires shell.time.None? && ev0 == shell
    requires ConsoleTargets(s, level) == [] ==> body == [] && ev == ev0
    requires ConsoleTargets(s, level) != [] ==>
      InitEventStep(ev0, Stderr, now, ev, acts) && body == acts + [Deliver(Console, ev)]
    ensures Scanned(s, level, shell, now, 0, ConsoleTargets(s, level), body, ev)
  {
    var ct := ConsoleTargets(s, level);
    assert s.callbacks[..0] == [];
    if ct != [] {
      assert ct == [Target(Console, Stderr)];
      FanoutExtend([], Target(Console, Stderr), shell, now);
      assert ev == shell.(time := Some(now), udata := Stderr);
    }
  }

  /** Visiting an occupied slot whose threshold is not met changes nothing. */
  lemma ScanSkip(s: State, level: Level, shell: Event, now: Time,
                 i: nat, ts: seq<Target>, body: seq<Action>, ev: Event)
    requires Scanned(s, level, shell, now, i, ts, body, ev)
    requires i < |s.callbacks| && s.callbacks[i].fn.Some? && !AtLeast(level, s.callbacks[i].level)
    ensures Scanned(s, level, shell, now, i + 1, ts, body, ev)
  {
    AllOccupiedExtend(s.callbacks, i);
    SinkTargetsExtend(s.callbacks, level, i);
    assert ts + [] == ts;
  }

  /** Visiting an occupied slot whose threshold is met delivers the event to it. */
  lemma ScanVisit(s: State, level: Level, shell: Event, now: Time,
                  i: nat, ts: seq<Target>, body: seq<Action>, ev: Event, ev': Event, acts: seq<Action>)
    requires Scanned(s, level, shell, now, i, ts, body, ev)
    requires i < |s.callbacks| && s.callbacks[i].fn.Some? && AtLeast(level, s.callbacks[i].level)
    requires InitEventStep(ev, s.callbacks[i].udata, now, ev', acts)
    ensures var t := Target(Slot(i, s.callbacks[i].fn.value), s.callbacks[i].udata);
      Scanned(s, level, shell, now, i + 1, ts + [t], body + acts + [Deliver(t.sink, ev')], ev')
  {
    var t := Target(Slot(i, s.callbacks[i].fn.value), s.callbacks[i].udata);
    AllOccupiedExtend(s.callbacks, i);
    SinkTargetsExtend(s.callbacks, level, i);
    FanoutExtend(ts, t, shell, now);
    assert ev' == shell.(time := Some(now), udata := t.udata);
    assert ConsoleTargets(s, level) + (SinkTargets(s.callbacks[..i], level) + [t]) == ts + [t];
  }

  /** The scan that stops at the first free slot has met every target: its body is the dispatch's. */
  lemma ScanComplete(s: State, level: Level, file: string, line: int, fmt: string, now: Time,
                     i: nat, ts: seq<Target>, body: seq<Action>, ev: Event)
    requires Scanned(s, level, EventShell(level, file, line, fmt), now, i, ts, body, ev)
    requires i == |s.callbacks| || s.callbacks[i].fn.None?
    ensures LockStep(s, true) + body + LockStep(s, false) == Dispatch(s, level, file, line, fmt, now)
  {
    assert forall k :: 0 <= k < i ==> s.callbacks[k] == s.callbacks[..i][k];
    UsedCountIsFirstFree(s.callbacks, i);
    assert ts == Targets(s, level);
  }

  /** Lock calls, the clock read and the console delivery contribute no registered-sink delivery. */
  lemma NoSlotDeliveriesOutsideSinks(s: State, level: Level, shell: Event, now: Time)
    ensures SlotDeliveries(LockStep(s, true)) == [] && SlotDeliveries(LockStep(s, false)) == []
    ensures SlotDeliveries(ClockRead(Targets(s, level))) == []
    ensures SlotDeliveries(Deliveries(ConsoleTargets(s, level), shell, now)) == []
  {
    var c := Deliveries(ConsoleTargets(s, level), shell, now);
    if c != [] {
      assert c[..0] == [];
    }
  }

  /** The registered-sink part of a dispatch trace: the admitted used entries in slot order. */
  lemma SlotDeliveriesOfDispatch(s: State, level: Level, file: string, line: int, fmt: string, now: Time)
    ensures SlotDeliveries(Dispatch(s, level, file, line, fmt, now))
            == Deliveries(SinkTargets(ActivePrefix(s.callbacks), level), EventShell(level, file, line, fmt), now)
  {
    var ct := ConsoleTargets(s, level);
    var st := SinkTargets(ActivePrefix(s.callbacks), level);
    var ts := Targets(s, level);
    var shell := EventShell(level, file, line, fmt);
    var acq, clk, dc, ds, rel := LockStep(s, true), ClockRead(ts), Deliveries(ct, shell, now),
                                 Deliveries(st, shell, now), LockStep(s, false);
    DeliveriesAppend(ct, st, shell, now);
    assert Dispatch(s, level, file, line, fmt, now) == (((acq + clk) + dc) + ds) + rel;
    NoSlotDeliveriesOutsideSinks(s, level, shell, now);
    SlotDeliveriesOfSlots(st, shell, now);
    SlotDeliveriesAmid(acq, clk, dc, ds, rel);
  }

  /** Filtering a trace whose only registered-sink deliveries form its fourth part yields that part. */
  lemma SlotDeliveriesAmid(acq: seq<Action>, clk: seq<Action>, dc: seq<Action>, ds: seq<Action>, rel: seq<Action>)
    requires SlotDeliveries(acq) == [] && SlotDeliveries(clk) == [] && SlotDeliveries(dc) == []
    requires SlotDeliveries(ds) == ds && SlotDeliveries(rel) == []
    ensures SlotDeliveries((((acq + clk) + dc) + ds) + rel) == ds
  {
    SlotDeliveriesAppend(acq, clk);
    SlotDeliveriesAppend(acq + clk, dc);
    SlotDeliveriesAppend((acq + clk) + dc, ds);
    SlotDeliveriesAppend(((acq + clk) + dc) + ds, rel);
  }

  /**
   * What the registered sinks receive does not depend on the console
   * threshold or the quiet flag.
   */
  lemma SinksIgnoreConsoleSettings(s: State, quiet: bool, consoleLevel: Level,
                                   level: Level, file: string, line: int, fmt: string, now: Time)
    ensures SlotDeliveries(Dispatch(s, level, file, line, fmt, now))
            == SlotDeliveries(Dispatch(s.(quiet := quiet, level := consoleLevel), level, file, line, fmt, now))
  {
    SlotDeliveriesOfDispatch(s, level, file, line, fmt, now);
    SlotDeliveriesOfDispatch(s.(quiet := quiet, level := consoleLevel), level, file, line, fmt, now);
  }
}
