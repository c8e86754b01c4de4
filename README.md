# log.c — a verified model of the logger core

This project models the core of `log.c`, a small embeddable C logging
library. The library keeps one process-wide state block: a lock hook and
its context, a console threshold, a quiet flag, and a table of 32 callback
slots. `log_log` sends one leveled message through that block. It calls the
lock hook, writes to the console if that path is enabled, then calls every
registered callback whose threshold the level meets, and calls the lock hook
again.

The project has five modules:

- `Wrappers` (`wrappers.dfy`): `Option`, which stands for a nullable pointer.
- `LogApi` (`log_api.dfy`): the header's types. These are the six ordered
  levels, the opaque handles (`void *`, `FILE *`), the identities of
  callbacks and lock hooks, and the `log_Event` record.
- `Registry` (`registry.dfy`): the callback table. Registration fills the
  first slot whose function is NULL, so the occupied slots always form a
  prefix of the table.
- `Dispatcher` (`dispatch.dfy`): `Dispatch`, the reference definition of
  one `log_log` call. It gives the call as a trace of observable actions:
  `LockCall(hook, acquire, ctx)`, `TimeComputed` (the clock is read), and
  `Deliver(sink, event)`. The sink is `Console` or `Slot(index, fn)`. The
  module's lemmas prove the filtering, ordering, locking and timestamp
  properties about this trace.
- `Log` (`logger.dfy`): class `Logger`, which stands for the static block
  `L`. Its methods are the setters, registration, `lock`/`unlock`,
  `init_event`, `log_log` and the six per-level macros. `Logger.Log` is the
  imperative loop of the source. It returns the trace it performs, and that
  trace is proved equal to `Dispatcher.Dispatch` on the block's current
  value.

How the model handles what C does outside the program:

- The clock is a parameter. `now` is the reading that `localtime(time(NULL))`
  gives when `log_log` reads it.
- Callbacks and lock hooks are identifiers. Their bodies are not modelled.
- A delivery is recorded as the event value the sink receives: level, file,
  line, format, timestamp, and the destination handle bound for that sink.

Two behaviours of the source matter for the contracts:

- `log_add_callback` accepts a NULL function. It writes `{NULL, udata, level}`
  into the first free slot and returns 0, but the slot stays free. The model
  keeps this: `fn` is an `Option`, and `Registry.RegistrationAppends` proves
  that such a registration leaves the used prefix unchanged.
- A registered entry is invoked only if no free slot comes before it. The
  loop in `log_log` stops at the first NULL function. `Registry.Compact` is
  the invariant that no occupied slot comes after a free one. `Logger.Valid`
  keeps it, so dispatch reaches every registered entry.

Registration is usually described as appending a sink. The code also
accepts a NULL function and reports success for it without registering
anything. The model follows the code.

## Model

| member | source | states |
|---|---|---|
| LogApi.Ordinal | src/log.h:19 | each level's value is its declaration position, below six, and the list of levels in order has that level at that position |
| LogApi.LevelAt | src/log.h:19 | every value 0..5 is the value of exactly the level at that position (inverse of `Ordinal`) |
| LogApi.ExactlySixLevels | src/log.h:19 | there are exactly six levels, every level is in the list, and the list is in ascending value order |
| LogApi.OrdinalInjective | src/log.h:19 | distinct levels have distinct values |
| LogApi.AtLeastIsTotalOrder | src/log.h:19 | `>=` on levels is reflexive, antisymmetric, transitive and total, with TRACE < DEBUG < INFO < WARN < ERROR < FATAL |
| LogApi.EventShell | src/log.c:184-189 | the event `log_log` builds carries the caller's level, file, line and format, with no timestamp and no destination yet |
| Registry.InitialTable | src/log.c:44-50 | the zero-initialised table has 32 slots, all free |
| Registry.UsedCount | src/log.c:161-162 | the index of the lowest free slot (or the table size): every slot below it is occupied, and the slot at it is free |
| Registry.ActivePrefix | src/log.c:200 | the slots dispatch visits: all occupied, a prefix of the table, ending at a free slot or at the table's end |
| Registry.UsedCountIsFirstFree | src/log.c:161-162 | a scan that saw only occupied slots below `i` and stops at `i` has found `UsedCount` |
| Registry.OccupiedIffInPrefix | src/log.c:161-163 | in a compact table a slot is occupied exactly when it lies below `UsedCount` |
| Registry.InitialTableEmpty | src/log.c:44-50 | the zero-initialised table is compact and has an empty used prefix |
| Registry.InsertAtFirstFree | src/log.c:161-165 | writing into the first free slot keeps the table compact; a non-NULL entry is appended to the used prefix, and a NULL one leaves the prefix unchanged |
| Registry.Register | src/log.c:160-168 | the table and status `log_add_callback` leaves: the length is kept; the status is 0 or -1, and 0 exactly when some slot is free; on 0 the first free slot holds the new entry; every other slot is unchanged |
| Registry.RegistrationAppends | src/log.c:160-168 | registration returns 0 or -1; it returns 0 exactly when some slot is free; on 0 the first free slot now holds the entry and no other slot changes, compactness is kept, and a non-NULL entry is appended to the used prefix (a NULL one leaves it unchanged); on -1 the table is unchanged |
| Registry.FillFromEmpty | src/log.c:32 | from the zeroed table, up to 32 non-NULL registrations all return 0 and the used prefix is exactly those entries in registration order; after 32, every registration returns -1 and changes nothing |
| Dispatcher.LockStep | src/log.c:131-141 | at most one action; one exactly when a hook is set, and it is a call of that hook with the given direction and `L.udata` |
| Dispatcher.ConsoleTargets | src/log.c:193 | the console is the only possible target, bound to stderr, and it is present exactly when not quiet and the level's value is at least the console threshold's |
| Dispatcher.SinkTargets | src/log.c:200-203 | the targets are admitted entries of the scanned slots in strictly increasing slot order, each bound to its own callback and context |
| Dispatcher.SinkTargetsComplete | src/log.c:200-203 | every scanned entry whose threshold the level meets is among the targets |
| Dispatcher.Dispatch | src/log.c:182-211 | the trace of one call: the acquire step, then one clock read and one delivery per target (console first, then the admitted used slots in slot order), then the release step; it has at most four actions more than there are slots, and it is empty exactly when no hook is set and no sink is admitted |
| Dispatcher.LockBracketsDispatch | src/log.c:191-210 | with a hook set, the trace starts with one acquire call and ends with one release call, both with the hook's context, and has no other lock call; with no hook it has no lock call |
| Dispatcher.ConsolePathIff | src/log.c:193-198 | the console receives the event iff not quiet and level >= console threshold |
| Dispatcher.ConsoleFirstOnStderr | src/log.c:193-200 | the console delivery is bound to stderr and comes before every registered-sink delivery |
| Dispatcher.QuietSuppressesConsole | src/log.c:193 | in quiet mode the console never receives the event, whatever the level |
| Dispatcher.EntryInvokedIff | src/log.c:200-207 | slot `j` is invoked iff it is in the used prefix and level >= its threshold; the console settings play no part |
| Dispatcher.EntryInvokedWithOwnContext | src/log.c:201-205 | an invocation of slot `j` uses that slot's callback and binds the event to that slot's `udata` |
| Dispatcher.EntryInvokedAtMostOnce | src/log.c:200-208 | no slot is invoked twice in one call |
| Dispatcher.OnlyUsedSlotsReached | src/log.c:200 | a registered-sink delivery is always to a slot of the used prefix |
| Dispatcher.SlotsVisitedInOrder | src/log.c:200 | of two registered-sink deliveries, the earlier one is to the lower slot |
| Dispatcher.TimestampComputedOnce | src/log.c:174-178 | the clock is read at most once per call, exactly when some sink receives the event, and before the first delivery; every delivered event has that timestamp and the caller's level, file, line and format |
| Dispatcher.SlotDeliveriesOfDispatch | src/log.c:200-208 | the registered-sink deliveries of a call are the deliveries to the admitted entries of the used prefix, in slot order |
| Dispatcher.SinksIgnoreConsoleSettings | src/log.c:193-207 | what the registered sinks receive does not depend on the quiet flag or the console threshold |
| Dispatcher.InitEventStep | src/log.c:174-180 | an `init_event` step always leaves the event with a timestamp; it reads the clock (one action) exactly when there was no timestamp yet; only the timestamp and the destination, which becomes `udata`, change |
| Log.LevelString | src/log.c:143-145 | the label at the level's index in `level_strings`: upper-case letters, four or five characters long |
| Log.LevelStringInjective | src/log.c:52-53 | two levels have the same label iff they are the same level |
| Log.LevelLabels | src/log.c:52-53 | `level_strings` gives TRACE, DEBUG, INFO, WARN, ERROR and FATAL to the levels in their declaration order |
| Log.InitEvent | src/log.c:174-180 | the clock is read (and the timestamp set) only if the event has none yet; an existing timestamp is kept; the destination always becomes `udata`; the other fields are unchanged |
| Log.Logger.constructor | src/log.c:44-50 | the block starts zeroed: no hook, NULL context, level TRACE, not quiet, all 32 slots free |
| Log.Logger.SetLock | src/log.c:147-150 | only the hook and its context change, to the given values |
| Log.Logger.SetLevel | src/log.c:152-154 | only the console threshold changes |
| Log.Logger.SetQuiet | src/log.c:156-158 | only the quiet flag changes |
| Log.Logger.AddCallback | src/log.c:160-168 | the scanning loop leaves the table and returns the status that `Registry.Register` gives (first free slot written and 0, or unchanged and -1), and it keeps the table compact |
| Log.Logger.AddFp | src/log.c:170-172 | the same table and status as `Registry.Register` of the file callback with the stream as its context |
| Log.Logger.Lock | src/log.c:131-135 | calls the hook with `true` and its context iff a hook is set |
| Log.Logger.Unlock | src/log.c:137-141 | calls the hook with `false` and its context iff a hook is set |
| Log.Logger.Log | src/log.c:182-211 | the trace of the imperative dispatch loop equals `Dispatch` on the current block, so the lemmas above all hold of it |
| Log.Logger.LogTrace | src/log.h:34 | `log_log` at TRACE with the given file and line, and nothing else |
| Log.Logger.LogDebug | src/log.h:35 | `log_log` at DEBUG with the given file and line, and nothing else |
| Log.Logger.LogInfo | src/log.h:36 | `log_log` at INFO with the given file and line, and nothing else |
| Log.Logger.LogWarn | src/log.h:37 | `log_log` at WARN with the given file and line, and nothing else |
| Log.Logger.LogError | src/log.h:38 | `log_log` at ERROR with the given file and line, and nothing else |
| Log.Logger.LogFatal | src/log.h:39 | `log_log` at FATAL with the given file and line, and nothing else |

## Left out

- Text rendering by `stdout_callback` and `file_callback` (`strftime`, `fprintf`, `vfprintf`, `fflush`) is not modelled. It is formatted I/O, so a delivery is recorded only as `Deliver(sink, event)`.
- `file_loc` and the `LOG_LOC_ALIGN` location field are not modelled. They depend on `snprintf` truncation and on offset arithmetic.
- The colour tables and `LOG_USE_COLOR`, the PID field and `LOG_PID`/`getpid`, and `LOG_VERSION` are not modelled. They are build-time options that only change the rendered text.
- The clock is not modelled. `time`/`localtime` become the parameter `now` and the `TimeComputed` action.
- `va_list` handling (`va_start`/`va_end`) is not modelled. It is a calling-convention detail, and the message is the abstract `fmt` string.
- Real mutual exclusion and concurrent callers are not modelled. The lock hook appears only as its two recorded calls.
- Callback bodies are not modelled. In C a callback receives a pointer to the one event and may change it, or may re-enter the logger. The model treats callbacks as identifiers that receive the event value.
- Level values outside the enumeration are not modelled. C lets an int outside the enum reach `level_strings[level]`, which reads out of bounds. `Level` has exactly the six enumerators.
- Log.Logger.SetLock, SetLevel, SetQuiet, AddCallback, AddFp, Log and the six macro methods require `Valid()`, the block's invariant. The source has no such check. Every block built by the constructor and changed only by these methods satisfies it.
- Log.InitEvent does not update the event in place. `init_event` writes through a pointer to `log_log`'s local event; the model passes the event by value and returns the updated one, which `log_log` then uses.
