/** Severity levels, the queued record and the consumer's per-level line
    layout (the `switch` of `NiLogging::writeThread`). */
module LogFormat {
  import opened Decimal
  import opened SysTime

  datatype Option<T> = None | Some(value: T)

  /** `enum NiLogLevel`: `LOG__NONE` is zero and every other level is its own
      bit. A logger's mask is the bitwise OR of the levels it emits. */
  const LOG_NONE: bv32 := 0
  const LOG_FATAL: bv32 := 1
  const LOG_ERROR: bv32 := 2
  const LOG_WARN: bv32 := 4
  const LOG_INFO: bv32 := 8
  const LOG_DEBUG: bv32 := 16
  const LOG_TRACE: bv32 := 32
  const LOG_CONSOLE_DEBUG: bv32 := 64

  /** `niLogInfo`: one queued log call. */
  datatype LogInfo = LogInfo(
    logLevel: bv32,
    file: string,
    line: int,
    func: string,
    buffer: string,
    simTimeUs: uint64,
    sysTimeUs: uint64)

  /** The values the consumer's `switch` has a case for. */
  predicate IsDefinedLevel(level: bv32) {
    level == LOG_NONE || level == LOG_FATAL || level == LOG_ERROR || level == LOG_WARN
    || level == LOG_INFO || level == LOG_DEBUG || level == LOG_TRACE || level == LOG_CONSOLE_DEBUG
  }

  /** The consumer's filter: a record is formatted and committed iff its
      level shares a bit with the mask. */
  predicate Enabled(level: bv32, mask: bv32) {
    level & mask != 0
  }

  /** The bracketed label of a level that has a case in the `switch`. */
  function Tag(level: bv32): (t: string)
    requires IsDefinedLevel(level) && level != LOG_NONE
    ensures |t| == 7 && t[0] == '[' && t[6] == ']'
  {
    if level == LOG_FATAL then "[FATAL]"
    else if level == LOG_ERROR then "[ERROR]"
    else if level == LOG_WARN then "[WARN ]"
    else if level == LOG_INFO then "[INFO ]"
    else if level == LOG_DEBUG then "[DEBUG]"
    else if level == LOG_TRACE then "[TRACE]"
    else "[CNSL ]"
  }

  /** The level a line's first seven characters name, if any. */
  function LevelOfLine(line: string): Option<bv32> {
    if |line| < 7 then None
    else
      var t := line[..7];
      if t == "[FATAL]" then Some(LOG_FATAL)
      else if t == "[ERROR]" then Some(LOG_ERROR)
      else if t == "[WARN ]" then Some(LOG_WARN)
      else if t == "[INFO ]" then Some(LOG_INFO)
      else if t == "[DEBUG]" then Some(LOG_DEBUG)
      else if t == "[TRACE]" then Some(LOG_TRACE)
      else if t == "[CNSL ]" then Some(LOG_CONSOLE_DEBUG)
      else None
  }

  /** `timingInfo` of the consumer. */
  function TimingInfo(info: LogInfo): string {
    ", Sim(us)=" + ToDecimal(info.simTimeUs) + ", Sys(us)=" + ToDecimal(info.sysTimeUs)
  }

  /** `funcInfo` of the consumer. */
  function FuncInfo(info: LogInfo): string {
    ", " + info.func + "(), "
  }

  /** What the consumer puts between a level's tag and the message. FATAL
      uses the consumer's own `sourceInfo`, which is never assigned and so
      empty; TRACE prints the two times bare; the other levels print the
      timing and the function. */
  function Context(info: LogInfo): string {
    var sourceInfo := "";
    if info.logLevel == LOG_FATAL then TimingInfo(info) + sourceInfo + ", "
    else if info.logLevel == LOG_TRACE then
      ", " + ToDecimal(info.simTimeUs) + "," + ToDecimal(info.sysTimeUs) + ", "
    else TimingInfo(info) + FuncInfo(info)
  }

  /** The text the consumer builds for a record whose level passed the filter
      (without the line terminator), or `None` when the level has no case in
      the `switch`, the path that ends in a fatal error. The `LOG__NONE` case
      leaves the stream empty. */
  function FormatLine(info: LogInfo): (r: Option<string>)
    ensures r.Some? <==> IsDefinedLevel(info.logLevel)
  {
    var level := info.logLevel;
    if level == LOG_NONE then Some("")
    else if IsDefinedLevel(level) then Some(Tag(level) + Context(info) + info.buffer)
    else None
  }

  /** Every line of a real level starts with that level's tag and ends with
      the message. */
  lemma LineShape(info: LogInfo)
    requires IsDefinedLevel(info.logLevel) && info.logLevel != LOG_NONE
    ensures FormatLine(info).Some?
    ensures var l := FormatLine(info).value;
      |l| >= 7 + |info.buffer| && l[..7] == Tag(info.logLevel) && l[|l| - |info.buffer|..] == info.buffer
  {
    var l := FormatLine(info).value;
    var t := Tag(info.logLevel);
    assert l == t + Context(info) + info.buffer;
    assert l[..7] == t;
    assert l[|l| - |info.buffer|..] == info.buffer;
  }

  /** The tags are pairwise distinct: the level is recovered from a line. */
  lemma LevelRecovered(info: LogInfo)
    requires IsDefinedLevel(info.logLevel) && info.logLevel != LOG_NONE
    ensures FormatLine(info).Some? && LevelOfLine(FormatLine(info).value) == Some(info.logLevel)
  {
    LineShape(info);
  }

  /** A FATAL line carries no source file, line or function: two FATAL
      records that differ only there give the same line. */
  lemma FatalIgnoresSource(a: LogInfo, b: LogInfo)
    requires a.logLevel == LOG_FATAL && b.logLevel == LOG_FATAL
    requires a.buffer == b.buffer && a.simTimeUs == b.simTimeUs && a.sysTimeUs == b.sysTimeUs
    ensures FormatLine(a) == FormatLine(b)
  {
  }

  /** The consumer's line of a non-FATAL, non-TRACE level names the
      record's function, followed by `()`. */
  lemma FunctionNamed(info: LogInfo)
    requires IsDefinedLevel(info.logLevel)
    requires info.logLevel != LOG_NONE && info.logLevel != LOG_FATAL && info.logLevel != LOG_TRACE
    ensures FormatLine(info).Some?
    ensures var l := FormatLine(info).value;
      var k := 7 + |TimingInfo(info)|;
      k + |info.func| + 4 <= |l| && l[k..k + 2 + |info.func| + 2] == ", " + info.func + "()"
  {
    var t, ti := Tag(info.logLevel), TimingInfo(info);
    var f := ", " + info.func + "()";
    assert Context(info) == ti + (f + ", ");
    var l := FormatLine(info).value;
    assert l == t + Context(info) + info.buffer;
    assert l == (t + ti) + f + (", " + info.buffer);
  }

  /** With mask `LOG__NONE` nothing passes the filter, and a record of level
      `LOG__NONE` passes no mask. */
  lemma NothingPassesNone(level: bv32, mask: bv32)
    ensures !Enabled(level, LOG_NONE)
    ensures !Enabled(LOG_NONE, mask)
  {
  }
}
