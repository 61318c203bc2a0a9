# NiLogging: an asynchronous level-filtered logger, modelled in Dafny

`NiLogging` (`src/ni/model/common/ni-logging.cc`) is the logger of the NI
ns-3 application example. A producer, `Write`, stamps each non-empty message
with the simulated time and the wall time elapsed since the first call, and
appends the record to a queue. A consumer thread, `writeThread`, takes
records from the front of that queue. It drops those whose level is not in
the mask and formats the rest as one line each, starting with a bracketed
level tag; an enabled level that is none of the seven defined levels is a
fatal error. Each line goes either straight to the log file ("instant" mode)
or into a fixed-size circular buffer of `NI_LOG__BUFFER_SIZE` slots. On
shutdown, `WriteToFile` flushes that buffer oldest first and closes the file.

This project models the sequential core under the threads. `NiLogging`
becomes a class with the source's fields:
- the queue is a `seq`;
- the circular buffer is an `array<string>` with its index;
- the output file is an append-only `seq<string>` of the chunks written to
  it, plus an open/closed flag.

Each public operation is one method, and one iteration of the consumer loop
is the method `ProcessOne`. Clocks are parameters. Ghost histories record
what was ever enqueued, what was consumed and what was ever committed into
the buffer. The class invariant ties the buffer array to a pure model of the
ring in module `LogRing`.

The main results:
- **FIFO**: consumption takes a prefix of what was enqueued.
- **The filter**: a record reaches the output iff its level shares a bit
  with the mask and is one of the seven defined levels; an enabled undefined
  level is the fatal outcome.
- **Line layout**: every line of a real level starts with its own tag and
  ends with the message.
- **The wrap law**: after `M >= N` ring commits, the flush writes exactly the
  last `N` committed lines, oldest first. Before the ring is full, the flush
  writes the unused blank slots and then every line.

Modules:
- `Decimal`: `std::to_string` of an unsigned value.
- `SysTime`: `timeval`, `timersub`, and the `uint64_t` conversion.
- `LogFormat`: levels, the queued record, and the consumer's per-level layout.
- `LogRing`: the circular buffer as a value, and its laws.
- `Logging`: the class `NiLogging`.

`ni-logging.h` is not part of this model. The bit values of `enum NiLogLevel`
are therefore assumed: `LOG__NONE` = 0 and FATAL, ERROR, WARN, INFO, DEBUG,
TRACE, CONSOLE_DEBUG = 1, 2, 4, … 64. Every property here depends only on
`LOG__NONE` being zero and the other levels being distinct. The buffer size
`NI_LOG__BUFFER_SIZE` becomes the constructor's parameter (any positive
value).

## Model

| member | source | states |
|---|---|---|
| Decimal.ToDecimal | src/ni/model/common/ni-logging.cc:163 | the printed form of a number is a non-empty string of digits with no leading zero unless the number is 0 |
| Decimal.ValueOfToDecimal | src/ni/model/common/ni-logging.cc:163 | reading the printed digits back gives the number again |
| Decimal.ToDecimalInjective | src/ni/model/common/ni-logging.cc:163 | two different times never print the same |
| SysTime.Wrap64 | src/ni/model/common/ni-logging.cc:242 | storing the signed microsecond count in a `uint64_t` reduces it modulo 2^64, which leaves every in-range value as it is |
| SysTime.TimerSub | src/ni/model/common/ni-logging.cc:241 | `timersub` yields a `timeval` whose microsecond value is the difference of the two instants, and it stays normalized when both inputs are |
| SysTime.ElapsedMicros | src/ni/model/common/ni-logging.cc:240-242 | the stored wall time is (now − epoch) in µs, reduced into `uint64_t`, and it is 0 when now is the epoch |
| LogFormat.Tag | src/ni/model/common/ni-logging.cc:170-189 | each real level has a seven-character bracketed tag |
| LogFormat.FormatLine | src/ni/model/common/ni-logging.cc:162-196 | the consumer's `switch` produces a line exactly for the levels it has a case for; every other level takes the fatal `default` path |
| LogFormat.LineShape | src/ni/model/common/ni-logging.cc:170-189 | a real level's line starts with that level's tag and ends with the message |
| LogFormat.LevelRecovered | src/ni/model/common/ni-logging.cc:170-189 | the tag at the head of a line names the record's level, so different levels never share a tag |
| LogFormat.FatalIgnoresSource | src/ni/model/common/ni-logging.cc:132-171 | a FATAL line uses the consumer's never-assigned `sourceInfo`, so it does not depend on the record's file, line or function |
| LogFormat.FunctionNamed | src/ni/model/common/ni-logging.cc:162-189 | an ERROR, WARN, INFO, DEBUG or CONSOLE_DEBUG line carries `, <func>()` right after the timing part |
| LogFormat.NothingPassesNone | src/ni/model/common/ni-logging.cc:165 | with mask `LOG__NONE` no record passes the filter, and a `LOG__NONE` record passes no mask |
| LogRing.Next | src/ni/model/common/ni-logging.cc:210 | the index advance stays below the capacity: one step forward, back to 0 after the last slot |
| LogRing.Commit | src/ni/model/common/ni-logging.cc:207-210 | one ring commit keeps the ring well formed (index below the capacity) and its capacity unchanged; its slot-by-slot effect is `CommitOverwritesOne` |
| LogRing.CommitAll | src/ni/model/common/ni-logging.cc:207-210 | any sequence of commits, oldest first, keeps the ring well formed and its capacity unchanged |
| LogRing.CommitOverwritesOne | src/ni/model/common/ni-logging.cc:207-210 | a ring commit overwrites only the slot under the index and leaves every other slot unchanged |
| LogRing.CommitRotates | src/ni/model/common/ni-logging.cc:207-210 | after one commit, the flush order loses its oldest slot and gains the new line at its end |
| LogRing.FreshRotation | src/ni/model/common/ni-logging.cc:305-313 | a buffer nothing was committed into flushes its blank slots |
| LogRing.CommitAllNewest | src/ni/model/common/ni-logging.cc:305-313 | after any commits, from any starting contents, the flush gives the newest N elements of the old flush order followed by the committed lines |
| LogRing.WrapLaw | src/ni/model/common/ni-logging.cc:305-313 | after M >= N commits, the flush gives exactly the last N committed lines, oldest first |
| LogRing.PartialFill | src/ni/model/common/ni-logging.cc:305-313 | with fewer than N commits into a fresh buffer, the flush gives the untouched blank slots and then every committed line in order |
| LogRing.FlushOfCommits | src/ni/model/common/ni-logging.cc:305-313 | the flush of a buffer that started blank, in both regimes (before and after it wraps) |
| LogRing.ThreeSlotExample | src/ni/model/common/ni-logging.cc:305-313 | three slots and five lines m1…m5 flush as m3, m4, m5 |
| Logging.NiLogging.constructor | src/ni/model/common/ni-logging.cc:46-55 | a new logger is disabled, has mask `LOG__NONE`, is in ring mode at index 0 with blank slots, has a pending first call and an empty queue |
| Logging.NiLogging.ConsumedIsPrefix | src/ni/model/common/ni-logging.cc:154-155 | FIFO (with the `push_back` at line 258): the records consumed are a prefix of those enqueued, and the queue holds exactly the rest |
| Logging.NiLogging.OpenFile | src/ni/model/common/ni-logging.cc:85-88 | opening the file starts it afresh, holding only the header |
| Logging.NiLogging.IsEnable | src/ni/model/common/ni-logging.cc:320-324 | under the mask invariant `MaskValid` (kept by the constructor, which sets both fields at lines 48 and 52, by `Initialize`, and by every other method, which writes neither field), logging is enabled iff the mask is not `LOG__NONE` |
| Logging.NiLogging.SetMask | src/ni/model/common/ni-logging.cc:74-83 | logging is enabled iff the mask is not `LOG__NONE`, and the mask is stored verbatim |
| Logging.NiLogging.StartWriteThread | src/ni/model/common/ni-logging.cc:127 | a newly started consumer counts CONSOLE_DEBUG lines from 0 (its thread start is at lines 95-96) |
| Logging.NiLogging.Initialize | src/ni/model/common/ni-logging.cc:63-97 | `IsEnable()` (lines 320-324) is false iff the mask is `LOG__NONE`; the mask is stored as given; the file is reopened with only the header; a first call is pending with the current time as provisional epoch; the stop flag is cleared; the new consumer's CONSOLE_DEBUG counter starts at 0; nothing else changes |
| Logging.NiLogging.DisableFirstCall | src/ni/model/common/ni-logging.cc:109-113 | the next `Write` keeps the current epoch; only the first-call flag changes |
| Logging.NiLogging.EnableSyncToFileInstant | src/ni/model/common/ni-logging.cc:327-331 | later commits go straight to the file; only the mode flag changes |
| Logging.NiLogging.TerminateWriteThread | src/ni/model/common/ni-logging.cc:289-299 | the stop flag is set and nothing else changes |
| Logging.NiLogging.ReadSlots | src/ni/model/common/ni-logging.cc:308-313 | the two index loops visit the slots from the index to the end and then from the start up to the index, which is the ring's flush order `Rotation` |
| Logging.NiLogging.WriteToFile | src/ni/model/common/ni-logging.cc:302-318 | in ring mode with the file open, the file gains slots from the index to the end and then from the start up to the index; this is the ring's flush order, i.e. the last N committed lines once N or more were committed, or the blank slots then all lines before that; in instant mode nothing is added; the file is closed afterwards |
| Logging.NiLogging.DeInitialize | src/ni/model/common/ni-logging.cc:100-106 | the stop flag is set, then the pending flush is appended and the file closed |
| Logging.NiLogging.PushBack | src/ni/model/common/ni-logging.cc:258 | the record goes to the back of the queue and of the enqueued history |
| Logging.NiLogging.Write | src/ni/model/common/ni-logging.cc:217-287 | an empty message changes nothing; otherwise the first call fixes the epoch (so its record has wall time 0) and clears the first-call flag, and exactly one record with the given level, source, message, simulated time and the elapsed wall time in µs is appended at the back; a FATAL record then de-initializes the logger (stop flag set, ring flushed, file closed) and reports the abort |
| Logging.NiLogging.PopFront | src/ni/model/common/ni-logging.cc:148-156 | the front record is removed from the queue and appended to the consumed history |
| Logging.NiLogging.CommitLine | src/ni/model/common/ni-logging.cc:199-211 | instant mode appends the line to the file (if open) and leaves the ring alone; ring mode performs exactly one ring commit and leaves the file alone |
| Logging.NiLogging.ProcessOne | src/ni/model/common/ni-logging.cc:128-213 | with the stop flag set, nothing changes; otherwise an empty queue is the fatal outcome with nothing changed; otherwise the front record is consumed; it is committed iff its level shares a bit with the mask and has a case in the `switch` (an enabled undefined level is the fatal outcome); the committed text is the record's formatted line plus a newline, written to the file in instant mode or as one ring commit otherwise; a record that is not committed leaves the ring, the index and the file unchanged; the CONSOLE_DEBUG counter counts modulo 2^32 |

## Left out

- Threads, the mutex, the semaphore, `SystemThread` creation and `Join`, and the thread priority: each method is one atomic step, and the caller chooses the interleaving between steps (within `Write`'s FATAL step there is no interleaving, see below). The failure paths of `pthread_mutex_*`, `sem_*` (lines 65–72, 134–137, 143–146, 157–160, 253–267, 294–297) are not modelled.
- `gettimeofday` and `Simulator::Now()` are method parameters (`sysNow`, `simNowUs`); `PrintHeader` (lines 334–343) is the opaque `header` parameter of `Initialize`.
- Logging.NiLogging.Write: the FATAL escalation is modelled as a call to `DeInitialize` and a returned `aborted` flag; the console print, `fflush`, `nanosleep`, the backtrace and the process-stopping `NS_FATAL_ERROR` (lines 272–285) are left out. `NiLoggingDeInit()` is defined in `ni-logging.h`, which is not part of this model; it is taken to be `DeInitialize` of this logger. The `push_back` and the de-initialization happen in one step, so the model never lets the consumer commit the FATAL record, or records still queued, before the stop flag is set; in the source, the consumer woken by `sem_post` (line 264) may commit them before `terminateWriteThread` sets the flag (line 292).
- Logging.NiLogging.ProcessOne: the two `NS_FATAL_ERROR` paths (empty queue, undefined level) end in a `Step` value that reports the fatal outcome instead of aborting the process. The consumer's console echo and `fflush` cadence for CONSOLE_DEBUG (lines 190–191) are stdout-only and left out; only the counter is kept.
- Logging.NiLogging.ProcessOne: `countMsgCnsl` is a local variable of `writeThread` in the source; it is a field here because one loop iteration is one method call.
- The `std::stringstream` / `std::ofstream` mechanics: a buffer slot holds the finished line including its `std::endl` newline, and the file is a sequence with one element per line, header or flushed slot (in instant mode the line and its `std::endl`, two insertions at line 203, form one element). Writes into a closed file are dropped, as a closed `ofstream` discards them.
- Logging.NiLogging.Initialize: it always starts the file afresh; re-opening an `ofstream` that is still open (a second `Initialize` without `DeInitialize`) fails in C++, and that failure is not modelled. Nor is an `open` at line 87 that fails (an unwritable path), which the source never checks: it leaves the stream closed so that every later write is dropped, while the model always ends `OpenFile` with the file open and holding the header.
- The constructor also sets the stop flag, the epoch and the console counter, which the C++ constructor leaves unset; `Initialize` sets the first two, and each new consumer thread starts its counter at 0 (modelled by `StartWriteThread`, called from `Initialize`).
- `sysTimeUs` is `tv_sec * 1000000 + tv_usec` converted to `uint64_t`, modelled as reduction modulo 2^64; a signed overflow of the product (for differences above about 292000 years) is not modelled separately.
- `g_logTraceStartSubframeTime` and the global `g_NiLogging` instance are not modelled.
