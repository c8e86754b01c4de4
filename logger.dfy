/**
 * The logger proper: the process-wide state block, its setters, callback
 * registration and `log_log`, the dispatch entry point. A `Logger` object
 * stands for the static block `L`; `log_log` returns the trace of what it
 * does, and that trace is proved equal to `Dispatcher.Dispatch`.
 */
module Log {
  import opened Wrappers
  import opened LogApi
  import opened Registry
  import opened Dispatcher

  /** The labels of the levels, indexed by level value. */
  const LevelStrings: seq<string> := ["TRACE", "DEBUG", "INFO", "WARN", "ERROR", "FATAL"]

  /** `log_level_string`: the label at the level's index; upper case, and at most five wide. */
  function LevelString(level: Level): (s: string)
    ensures 4 <= |s| <= 5
    ensures forall i :: 0 <= i < |s| ==> 'A' <= s[i] <= 'Z'
  {
    LevelStrings[Ordinal(level)]
  }

  /** Different levels have different labels. */
  lemma LevelStringInjective(a: Level, b: Level)
    ensures LevelString(a) == LevelString(b) <==> a == b
  {
    if a != b {
      assert Ordinal(a) != Ordinal(b);
      assert LevelStrings[Ordinal(a)] != LevelStrings[Ordinal(b)];
    }
  }

  /** Each level's label, in the order the levels are declared. */
  lemma LevelLabels()
    ensures LevelString(Trace) == "TRACE" && LevelString(Debug) == "DEBUG"
    ensures LevelString(Info) == "INFO" && LevelString(Warn) == "WARN"
    ensures LevelString(Error) == "ERROR" && LevelString(Fatal) == "FATAL"
  {
  }

  /**
   * `init_event`: reads the clock only if the event has no timestamp yet, and
   * always rebinds the event to the destination `udata`. `acts` is the clock
   * read it performed, if any.
   */
  method InitEvent(ev: Event, udata: Handle, now: Time) returns (ev': Event, acts: seq<Action>)
    ensures InitEventStep(ev, udata, now, ev', acts)
  {
    ev' := ev;
    acts := [];
    if ev'.time.None? {
      ev' := ev'.(time := Some(now));
      acts := [TimeComputed];
    }
    ev' := ev'.(udata := udata);
  }

  /** The static state block `L`. */
  class Logger {
    var udata: Handle          // the lock hook's context
    var lock: Option<LockFn>   // the lock hook, NULL when unset
    var level: Level           // console threshold
    var quiet: bool            // console muted
    const callbacks: array<Callback>

    /** The table has its fixed capacity and its occupied slots form a prefix. */
    ghost predicate Valid()
      reads this, callbacks
    {
      callbacks.Length == MaxCallbacks && Compact(callbacks[..])
    }

    /** The whole block as a value. */
    function Snapshot(): State
      reads this, callbacks
    {
      State(lock, udata, level, quiet, callbacks[..])
    }

    /** The block as static storage starts: all zero. */
    constructor ()
      ensures Valid() && fresh(callbacks)
      ensures Snapshot() == State(None, Null, Trace, false, InitialTable())
    {
      udata := Null;
      lock := None;
      level := Trace;
      quiet := false;
      callbacks := new Callback[MaxCallbacks](_ => EmptySlot);
      new;
      assert callbacks[..] == InitialTable();
      InitialTableEmpty();
    }

    /** `log_set_lock`: installs (or, with `None`, removes) the lock hook and its context. */
    method SetLock(fn: Option<LockFn>, ctx: Handle)
      requires Valid()
      modifies this
      ensures Valid()
      ensures Snapshot() == old(Snapshot()).(lockFn := fn, lockData := ctx)
    {
      lock := fn;
      udata := ctx;
    }

    /** `log_set_level`: sets the console threshold. */
    method SetLevel(l: Level)
      requires Valid()
      modifies this
      ensures Valid()
      ensures Snapshot() == old(Snapshot()).(level := l)
    {
      level := l;
    }

    /** `log_set_quiet`: mutes or unmutes the console. */
    method SetQuiet(enable: bool)
      requires Valid()
      modifies this
      ensures Valid()
      ensures Snapshot() == old(Snapshot()).(quiet := enable)
    {
      quiet := enable;
    }

    /**
     * `log_add_callback`: scans for the first slot whose function is NULL and
     * fills it, returning 0, or returns -1 when every slot is taken.
     */
    method AddCallback(fn: Option<LogFn>, ctx: Handle, l: Level) returns (r: int)
      requires Valid()
      modifies callbacks
      ensures Valid()
      ensures (callbacks[..], r) == Register(old(callbacks[..]), Callback(fn, ctx, l))
    {
      ghost var before := callbacks[..];
      for i := 0 to MaxCallbacks
        invariant forall k :: 0 <= k < i ==> callbacks[k].fn.Some?
        invariant callbacks[..] == before
      {
        if callbacks[i].fn.None? {
          UsedCountIsFirstFree(before, i);
          callbacks[i] := Callback(fn, ctx, l);
          RegistrationAppends(before, Callback(fn, ctx, l));
          return 0;
        }
      }
      UsedCountIsFirstFree(before, MaxCallbacks);
      return -1;
    }

    /** `log_add_fp`: registers the built-in file renderer with stream `fp` as its context. */
    method AddFp(fp: Handle, l: Level) returns (r: int)
      requires Valid()
      modifies callbacks
      ensures Valid()
      ensures (callbacks[..], r) == Register(old(callbacks[..]), Callback(Some(FileCallback), fp, l))
    {
      r := AddCallback(Some(FileCallback), fp, l);
    }

    /** `lock()`: calls the hook with `true` and its context, if a hook is set. */
    method Lock() returns (acts: seq<Action>)
      ensures acts == LockStep(Snapshot(), true)
    {
      acts := [];
      if lock.Some? {
        acts := [LockCall(lock.value, true, udata)];
      }
    }

    /** `unlock()`: calls the hook with `false` and its context, if a hook is set. */
    method Unlock() returns (acts: seq<Action>)
      ensures acts == LockStep(Snapshot(), false)
    {
      acts := [];
      if lock.Some? {
        acts := [LockCall(lock.value, false, udata)];
      }
    }

    /**
     * `log_log`: under the lock hook, delivers the event to the console if it
     * is unmuted and its threshold is met, then to every used slot whose
     * threshold is met, reading the clock (as `now`) at most once.
     */
    method Log(l: Level, file: string, line: int, fmt: string, now: Time) returns (trace: seq<Action>)
      requires Valid()
      ensures trace == Dispatch(Snapshot(), l, file, line, fmt, now)
    {
      ghost var s := Snapshot();
      ghost var shell := EventShell(l, file, line, fmt);
      ghost var ts := ConsoleTargets(s, l);
      var ev := Event(l, file, line, fmt, None, Null);
      ghost var ev0 := ev;
      var acquire := Lock();
      var body := [];
      var consoleActs := [];
      if !quiet && AtLeast(l, level) {
        ev, consoleActs := InitEvent(ev, Stderr, now);
        body := body + consoleActs + [Deliver(Console, ev)];
      }
      ScanStart(s, l, shell, now, consoleActs, body, ev0, ev);
      var i := 0;
      while i < MaxCallbacks && callbacks[i].fn.Some?
        invariant Scanned(s, l, shell, now, i, ts, body, ev)
        decreases MaxCallbacks - i
      {
        var cb := callbacks[i];
        if AtLeast(l, cb.level) {
          var ev', acts := InitEvent(ev, cb.udata, now);
          ScanVisit(s, l, shell, now, i, ts, body, ev, ev', acts);
          ts := ts + [Target(Slot(i, cb.fn.value), cb.udata)];
          body := body + acts + [Deliver(Slot(i, cb.fn.value), ev')];
          ev := ev';
        } else {
          ScanSkip(s, l, shell, now, i, ts, body, ev);
        }
        i := i + 1;
      }
      ScanComplete(s, l, file, line, fmt, now, i, ts, body, ev);
      var release := Unlock();
      trace := acquire + body + release;
    }

    /** The `log_trace` macro: `log_log` at TRACE with the call site's file and line. */
    method LogTrace(file: string, line: int, fmt: string, now: Time) returns (trace: seq<Action>)
      requires Valid()
      ensures trace == Dispatch(Snapshot(), Trace, file, line, fmt, now)
    {
      trace := Log(Trace, file, line, fmt, now);
    }

    /** The `log_debug` macro. */
    method LogDebug(file: string, line: int, fmt: string, now: Time) returns (trace: seq<Action>)
      requires Valid()
      ensures trace == Dispatch(Snapshot(), Debug, file, line, fmt, now)
    {
      trace := Log(Debug, file, line, fmt, now);
    }

    /** The `log_info` macro. */
    method LogInfo(file: string, line: int, fmt: string, now: Time) returns (trace: seq<Action>)
      requires Valid()
      ensures trace == Dispatch(Snapshot(), Info, file, line, fmt, now)
    {
      trace := Log(Info, file, line, fmt, now);
    }

    /** The `log_warn` macro. */
    method LogWarn(file: string, line: int, fmt: string, now: Time) returns (trace: seq<Action>)
      requires Valid()
      ensures trace == Dispatch(Snapshot(), Warn, file, line, fmt, now)
    {
      trace := Log(Warn, file, line, fmt, now);
    }

    /** The `log_error` macro. */
    method LogError(file: string, line: int, fmt: string, now: Time) returns (trace: seq<Action>)
      requires Valid()
      ensures trace == Dispatch(Snapshot(), Error, file, line, fmt, now)
    {
      trace := Log(Error, file, line, fmt, now);
    }

    /** The `log_fatal` macro. */
    method LogFatal(file: string, line: int, fmt: string, now: Time) returns (trace: seq<Action>)
      requires Valid()
      ensures trace == Dispatch(Snapshot(), Fatal, file, line, fmt, now)
    {
      trace := Log(Fatal, file, line, fmt, now);
    }
  }
}
