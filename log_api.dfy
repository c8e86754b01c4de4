/**
 * The public types of the logger's header: the ordered severity levels,
 * the opaque handles and function identities that C passes as pointers,
 * and the per-call event record.
 */
module LogApi {
  import opened Wrappers

  /** The six severities, in declaration order. */
  datatype Level = Trace | Debug | Info | Warn | Error | Fatal

  const NumLevels: nat := 6

  /** The levels listed in declaration order. */
  const AllLevels: seq<Level> := [Trace, Debug, Info, Warn, Error, Fatal]

  /** The integer value C gives the enumerator (its declaration position). */
  function Ordinal(l: Level): (n: nat)
    ensures n < NumLevels
    ensures AllLevels[n] == l
  {
    match l
    case Trace => 0
    case Debug => 1
    case Info => 2
    case Warn => 3
    case Error => 4
    case Fatal => 5
  }

  /** The enumerator whose value is `n`. */
  function LevelAt(n: nat): (l: Level)
    requires n < NumLevels
    ensures Ordinal(l) == n
  {
    AllLevels[n]
  }

  /** `a >= b` on the enumeration, the only comparison the logger makes. */
  predicate AtLeast(a: Level, b: Level) {
    Ordinal(a) >= Ordinal(b)
  }

  /** There are exactly six levels, each listed once, in ascending order. */
  lemma ExactlySixLevels()
    ensures |AllLevels| == NumLevels
    ensures forall l: Level :: l in AllLevels
    ensures forall i :: 0 <= i < |AllLevels| ==> Ordinal(AllLevels[i]) == i
  {
    forall l: Level
      ensures l in AllLevels
    {
      assert AllLevels[Ordinal(l)] == l;
    }
  }

  /** Distinct enumerators have distinct values. */
  lemma OrdinalInjective(a: Level, b: Level)
    ensures Ordinal(a) == Ordinal(b) ==> a == b
  {
  }

  /** `AtLeast` is a total order whose strict part follows declaration order. */
  lemma AtLeastIsTotalOrder(a: Level, b: Level, c: Level)
    ensures AtLeast(a, a)
    ensures AtLeast(a, b) && AtLeast(b, a) ==> a == b
    ensures AtLeast(a, b) && AtLeast(b, c) ==> AtLeast(a, c)
    ensures AtLeast(a, b) || AtLeast(b, a)
    ensures !AtLeast(Trace, Debug) && !AtLeast(Debug, Info) && !AtLeast(Info, Warn)
    ensures !AtLeast(Warn, Error) && !AtLeast(Error, Fatal)
  {
    OrdinalInjective(a, b);
  }

  /** An opaque `void *` / `FILE *` value. `Stderr` is the standard error stream. */
  datatype Handle = Null | Stderr | Ptr(address: nat)

  /** Identity of a sink callback (`log_LogFn`); `FileCallback` is the built-in file renderer. */
  datatype LogFn = FileCallback | UserFn(id: nat)

  /** Identity of a lock hook (`log_LockFn`). */
  datatype LockFn = LockFn(id: nat)

  /** A reading of the wall clock (what `localtime(time(NULL))` yields). */
  type Time = nat

  /**
   * A `log_Event`: level, file, line, format, the timestamp (`None` while the
   * time pointer is still NULL) and the destination handle for the current sink.
   */
  datatype Event = Event(level: Level, file: string, line: int, fmt: string,
                         time: Option<Time>, udata: Handle)

  /** The event `log_log` builds before any sink runs: designated fields set, the rest zero. */
  function EventShell(level: Level, file: string, line: int, fmt: string): (ev: Event)
    ensures ev.time.None? && ev.udata == Null
    ensures ev.level == level && ev.file == file && ev.line == line && ev.fmt == fmt
  {
    Event(level, file, line, fmt, None, Null)
  }
}
