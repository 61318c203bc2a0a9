/** The logger object `NiLogging`: its producer step `Write`, one iteration
    of the consumer loop `writeThread`, the ring flush `WriteToFile` and the
    lifecycle setters. The producer/consumer threads, the mutex and the
    semaphore are gone: each method is one atomic step on the object's
    state, and the caller interleaves them. */
module Logging {
  import opened SysTime
  import opened LogFormat
  import LogRing

  const TWO_32: int := 0x1_0000_0000

  /** What one consumer iteration did. In the source the two fatal
      outcomes abort the process. */
  datatype Step =
    | Stopped                         // stop flag seen: the loop returns
    | Filtered(info: LogInfo)         // dequeued, level not in the mask
    | Committed(info: LogInfo, text: string)  // dequeued, formatted, written
    | QueueEmptyFatal                 // woken without stop, but nothing queued
    | UndefinedLevelFatal(level: bv32)  // dequeued, enabled, no case in the switch

  class NiLogging {
    var logIsEnable: bool
    var fileOut: string
    var isFirstCall: bool
    var syncToFileInstant: bool
    var loglevelMask: bv32
    var flagStopWriteThread: bool
    var firstCallSysTime: TimeVal
    /** `m_msgQueue`, front first. */
    var msgQueue: seq<LogInfo>
    /** `m_logStringBuffer`, `NI_LOG__BUFFER_SIZE` slots of finished lines. */
    const logStringBuffer: array<string>
    var curLogBufferEntry: nat
    /** `countMsgCnsl`, the consumer's count of CONSOLE_DEBUG lines (`uint32_t`). */
    var countMsgCnsl: nat
    /** What was written into the output file since it was opened, one
        element per line, header or flushed slot. */
    var fileLines: seq<string>
    var fileIsOpen: bool

    /** Every record ever enqueued, and every record the consumer took. */
    ghost var enqueued: seq<LogInfo>
    ghost var consumed: seq<LogInfo>
    /** Every line ever committed into the ring, oldest first. */
    ghost var ringCommits: seq<string>

    /** The ring as a value. */
    function Ring(): LogRing.RingState
      reads this`curLogBufferEntry, logStringBuffer
    {
      LogRing.RingState(logStringBuffer[..], curLogBufferEntry)
    }

    /** The ring holds exactly what its commits made of the blank buffer. */
    ghost predicate RingValid()
      reads this`curLogBufferEntry, this`ringCommits, logStringBuffer
    {
      && logStringBuffer.Length > 0
      && curLogBufferEntry < logStringBuffer.Length
      && Ring() == LogRing.CommitAll(LogRing.Fresh(logStringBuffer.Length), ringCommits)
    }

    /** FIFO: the consumer took a prefix of what was enqueued, and the queue
        holds the rest. */
    ghost predicate QueueValid()
      reads this`consumed, this`msgQueue, this`enqueued
    {
      consumed + msgQueue == enqueued
    }

    /** Logging is enabled exactly when the mask is not `LOG__NONE`: the
        constructor and `Initialize` are the only writers of the two fields,
        and both set them together. */
    predicate MaskValid()
      reads this`logIsEnable, this`loglevelMask
    {
      logIsEnable <==> loglevelMask != LOG_NONE
    }

    ghost predicate Valid()
      reads this, logStringBuffer
    {
      RingValid() && QueueValid() && countMsgCnsl < TWO_32
    }

    /** FIFO: what the consumer has taken is a prefix of what was enqueued,
        and the queue holds exactly the records not yet taken. */
    lemma ConsumedIsPrefix()
      requires Valid()
      ensures |consumed| <= |enqueued| && consumed == enqueued[..|consumed|]
      ensures msgQueue == enqueued[|consumed|..]
    {
      assert enqueued == consumed + msgQueue;
    }

    /** What a flush would append to the file right now. */
    function PendingFlush(): (s: seq<string>)
      requires RingValid()
      reads this`syncToFileInstant, this`fileIsOpen, this`curLogBufferEntry, this`ringCommits, logStringBuffer
    {
      if !syncToFileInstant && fileIsOpen then LogRing.Rotation(Ring()) else []
    }

    /** `IsEnable`. */
    function IsEnable(): (enabled: bool)
      requires MaskValid()
      reads this`logIsEnable, this`loglevelMask
      ensures enabled <==> loglevelMask != LOG_NONE
    {
      logIsEnable
    }

    /** The constructor; `bufferSize` is `NI_LOG__BUFFER_SIZE`. */
    constructor (bufferSize: nat)
      requires bufferSize > 0
      ensures Valid() && MaskValid() && fresh(logStringBuffer)
      ensures logStringBuffer.Length == bufferSize && logStringBuffer[..] == LogRing.Blank(bufferSize)
      ensures !logIsEnable && fileOut == "" && isFirstCall && !syncToFileInstant
      ensures loglevelMask == LOG_NONE && curLogBufferEntry == 0 && !flagStopWriteThread
      ensures firstCallSysTime == TimeVal(0, 0) && msgQueue == [] && countMsgCnsl == 0
      ensures fileLines == [] && !fileIsOpen
      ensures enqueued == [] && consumed == [] && ringCommits == []
    {
      logIsEnable := false;
      fileOut := "";
      isFirstCall := true;
      syncToFileInstant := false;
      loglevelMask := LOG_NONE;
      curLogBufferEntry := 0;
      flagStopWriteThread := false;
      firstCallSysTime := TimeVal(0, 0);
      msgQueue := [];
      countMsgCnsl := 0;
      logStringBuffer := new string[bufferSize](_ => "");
      fileLines := [];
      fileIsOpen := false;
      enqueued, consumed, ringCommits := [], [], [];
      new;
      assert logStringBuffer[..] == LogRing.Blank(bufferSize);
    }

    /** `m_filePtr.open` of `fileName` for writing, followed by the header:
        the file starts afresh and holds only `header`. */
    method OpenFile(fileName: string, header: string)
      requires Valid()
      modifies this`fileOut, this`fileLines, this`fileIsOpen
      ensures Valid()
      ensures fileOut == fileName && fileIsOpen && fileLines == [header]
    {
      fileOut := fileName;
      fileLines, fileIsOpen := [header], true;
    }

    /** The mask half of `Initialize`: logging is enabled iff the mask is
        not `LOG__NONE`, and the mask is stored as given. */
    method SetMask(mask: bv32)
      requires Valid()
      modifies this`logIsEnable, this`loglevelMask
      ensures Valid() && MaskValid() && loglevelMask == mask
      ensures IsEnable() <==> mask != LOG_NONE
    {
      logIsEnable := mask != LOG_NONE;
      loglevelMask := mask;
    }

    /** `m_logThread->Start()`: a new consumer thread begins with its
        CONSOLE_DEBUG counter at zero. */
    method StartWriteThread()
      requires Valid()
      modifies this`countMsgCnsl
      ensures Valid() && countMsgCnsl == 0
    {
      countMsgCnsl := 0;
    }

    /** `Initialize`: store the mask, derive the enable flag from it, open
        the file afresh with its header, take the wall clock as the
        provisional epoch, clear the stop flag and start a consumer with a
        fresh CONSOLE_DEBUG counter. `header` is what
        `PrintHeader` returns and `sysNow` what `gettimeofday` returns. */
    method Initialize(loglevelMask: bv32, fileName: string, header: string, sysNow: TimeVal)
      requires Valid()
      modifies this`logIsEnable, this`loglevelMask, this`fileOut, this`isFirstCall
      modifies this`fileLines, this`fileIsOpen, this`firstCallSysTime, this`flagStopWriteThread
      modifies this`countMsgCnsl
      ensures Valid() && MaskValid()
      ensures IsEnable() <==> loglevelMask != LOG_NONE
      ensures this.loglevelMask == loglevelMask && fileOut == fileName
      ensures isFirstCall && firstCallSysTime == sysNow && !flagStopWriteThread
      ensures fileIsOpen && fileLines == [header]
      ensures countMsgCnsl == 0
    {
      SetMask(loglevelMask);
      isFirstCall := true;
      OpenFile(fileName, header);
      firstCallSysTime := sysNow;
      flagStopWriteThread := false;
      StartWriteThread();
    }

    /** `DisableFirstCall`: the next `Write` keeps the current epoch. */
    method DisableFirstCall()
      requires Valid()
      modifies this`isFirstCall
      ensures Valid() && !isFirstCall
    {
      isFirstCall := false;
    }

    /** `EnableSyncToFileInstant`: later commits go straight to the file. */
    method EnableSyncToFileInstant()
      requires Valid()
      modifies this`syncToFileInstant
      ensures Valid() && syncToFileInstant
    {
      syncToFileInstant := true;
    }

    /** `terminateWriteThread` without the wake-up and the join: set the stop
        flag, after which every consumer iteration returns `Stopped`. */
    method TerminateWriteThread()
      requires Valid()
      modifies this`flagStopWriteThread
      ensures Valid() && flagStopWriteThread
    {
      flagStopWriteThread := true;
    }

    /** The two index loops of `WriteToFile`: the slots from the index to
        the end, then from the start up to the index, in the ring's flush
        order. */
    method ReadSlots() returns (chunks: seq<string>)
      requires RingValid()
      ensures chunks == LogRing.Rotation(Ring())
    {
      var n := logStringBuffer.Length;
      var cur := curLogBufferEntry;
      chunks := [];
      for i := cur to n
        invariant chunks == logStringBuffer[cur..i]
      {
        chunks := chunks + [logStringBuffer[i]];
      }
      for i := 0 to cur
        invariant chunks == logStringBuffer[cur..] + logStringBuffer[..i]
      {
        chunks := chunks + [logStringBuffer[i]];
      }
    }

    /** `WriteToFile`: in ring mode append the slots from the index to the
        end and then from the start up to the index; then close the file.
        A closed file takes no more writes. */
    method WriteToFile()
      requires Valid()
      modifies this`fileLines, this`fileIsOpen
      ensures Valid() && !fileIsOpen
      ensures fileLines == old(fileLines) + old(PendingFlush())
      ensures !syncToFileInstant && old(fileIsOpen) ==>
        fileLines == old(fileLines)
          + LogRing.Newest(LogRing.Blank(logStringBuffer.Length) + ringCommits, logStringBuffer.Length)
      ensures !syncToFileInstant && old(fileIsOpen) && |ringCommits| >= logStringBuffer.Length ==>
        fileLines == old(fileLines) + LogRing.Newest(ringCommits, logStringBuffer.Length)
    {
      if !syncToFileInstant {
        var chunks := ReadSlots();
        var n := logStringBuffer.Length;
        assert chunks == LogRing.Rotation(LogRing.CommitAll(LogRing.Fresh(n), ringCommits));
        LogRing.FlushOfCommits(n, ringCommits);
        if fileIsOpen {
          assert chunks == PendingFlush();
          fileLines := fileLines + chunks;
        }
      }
      fileIsOpen := false;
    }

    /** `DeInitialize`: stop the consumer, then flush and close. */
    method DeInitialize()
      requires Valid()
      modifies this`flagStopWriteThread, this`fileLines, this`fileIsOpen
      ensures Valid() && flagStopWriteThread && !fileIsOpen
      ensures fileLines == old(fileLines) + old(PendingFlush())
    {
      TerminateWriteThread();
      WriteToFile();
    }

    /** `m_msgQueue.push_back`: the record goes to the back of the queue. */
    method PushBack(info: LogInfo)
      requires Valid()
      modifies this`msgQueue, this`enqueued
      ensures Valid()
      ensures msgQueue == old(msgQueue) + [info] && enqueued == old(enqueued) + [info]
    {
      msgQueue := msgQueue + [info];
      enqueued := enqueued + [info];
      assert consumed + msgQueue == (consumed + old(msgQueue)) + [info];
    }

    /** `Write`, the producer step. An empty message changes nothing.
        Otherwise the first call since `Initialize` fixes the epoch to
        `sysNow`, and a record with the elapsed wall time and the simulated
        time `simNowUs` goes to the back of the queue. A FATAL record then
        escalates: the logger is de-initialized and `aborted` reports that the
        process terminates. */
    method Write(logLevel: bv32, file: string, line: int, func: string, buffer: string,
                 sysNow: TimeVal, simNowUs: uint64)
      returns (aborted: bool)
      requires Valid()
      modifies this`isFirstCall, this`firstCallSysTime, this`msgQueue, this`enqueued
      modifies this`flagStopWriteThread, this`fileLines, this`fileIsOpen
      ensures Valid()
      ensures aborted <==> buffer != [] && logLevel == LOG_FATAL
      ensures buffer == [] ==> unchanged(this)
      ensures buffer != [] ==>
        && !isFirstCall
        && firstCallSysTime == (if old(isFirstCall) then sysNow else old(firstCallSysTime))
        && var info := LogInfo(logLevel, file, line, func, buffer, simNowUs,
                               Wrap64(sysNow.Micros() - firstCallSysTime.Micros()));
           msgQueue == old(msgQueue) + [info] && enqueued == old(enqueued) + [info]
      ensures buffer != [] && old(isFirstCall) ==> msgQueue[|msgQueue| - 1].sysTimeUs == 0
      ensures aborted ==>
        flagStopWriteThread && !fileIsOpen && fileLines == old(fileLines) + old(PendingFlush())
      ensures !aborted ==> unchanged(this`flagStopWriteThread, this`fileLines, this`fileIsOpen)
    {
      if |buffer| == 0 {
        return false;
      }
      ghost var pending := PendingFlush();
      if isFirstCall {
        isFirstCall := false;
        firstCallSysTime := sysNow;
      }
      var sysTimeUs := ElapsedMicros(sysNow, firstCallSysTime);
      var info := LogInfo(logLevel, file, line, func, buffer, simNowUs, sysTimeUs);
      PushBack(info);
      assert PendingFlush() == pending;
      aborted := logLevel == LOG_FATAL;
      if aborted {
        DeInitialize();
      }
    }

    /** `m_msgQueue.front()` followed by `pop_front()`. */
    method PopFront() returns (info: LogInfo)
      requires Valid() && msgQueue != []
      modifies this`msgQueue, this`consumed
      ensures Valid()
      ensures info == old(msgQueue)[0] && msgQueue == old(msgQueue)[1..]
      ensures consumed == old(consumed) + [info]
    {
      info := msgQueue[0];
      msgQueue := msgQueue[1..];
      consumed := consumed + [info];
      assert consumed + msgQueue == enqueued by {
        assert old(msgQueue) == [info] + msgQueue;
      }
    }

    /** The consumer's commit of a finished line: straight to the file in
        instant mode (dropped when the file is closed), otherwise into the
        ring slot under the index, which then advances modulo the capacity. */
    method CommitLine(line: string)
      requires Valid()
      modifies logStringBuffer, this`curLogBufferEntry, this`ringCommits, this`fileLines
      ensures Valid()
      ensures syncToFileInstant ==>
        && fileLines == old(fileLines) + (if fileIsOpen then [line] else [])
        && unchanged(logStringBuffer) && unchanged(this`curLogBufferEntry, this`ringCommits)
      ensures !syncToFileInstant ==>
        && Ring() == LogRing.Commit(old(Ring()), line)
        && ringCommits == old(ringCommits) + [line]
        && unchanged(this`fileLines)
    {
      if syncToFileInstant {
        if fileIsOpen {
          fileLines := fileLines + [line];
        }
      } else {
        ghost var before := Ring();
        logStringBuffer[curLogBufferEntry] := line;
        curLogBufferEntry := LogRing.Next(curLogBufferEntry, logStringBuffer.Length);
        ghost var lines := ringCommits + [line];
        assert lines[..|lines| - 1] == ringCommits;
        ringCommits := lines;
        assert Ring() == LogRing.Commit(before, line);
      }
    }

    /** One iteration of the consumer loop `writeThread`, after its wake-up.
        With the stop flag set it returns without touching anything. Else
        it pops the front record (an empty queue is fatal), drops it when
        its level is not in the mask, and otherwise formats it (an undefined
        level is fatal) and commits the line, terminated by a newline, to
        the file in instant mode or to the ring slot under the index, which
        then advances modulo the capacity. */
    method ProcessOne() returns (step: Step)
      requires Valid()
      modifies this`msgQueue, this`consumed, this`countMsgCnsl
      modifies logStringBuffer, this`curLogBufferEntry, this`ringCommits, this`fileLines
      ensures Valid()
      // stop, or nothing to take: no change at all
      ensures old(flagStopWriteThread) ==> step == Stopped && unchanged(this) && unchanged(logStringBuffer)
      ensures !old(flagStopWriteThread) && old(msgQueue) == [] ==>
        step == QueueEmptyFatal && unchanged(this) && unchanged(logStringBuffer)
      // otherwise the front record is taken, whatever happens to it
      ensures !old(flagStopWriteThread) && old(msgQueue) != [] ==>
        && msgQueue == old(msgQueue)[1..] && consumed == old(consumed) + [old(msgQueue)[0]]
        && (step.Filtered? || step.UndefinedLevelFatal? || step.Committed?)
        && (step.Filtered? || step.Committed? ==> step.info == old(msgQueue)[0])
      // the filter: output iff the level shares a bit with the mask
      ensures step.Filtered? <==>
        !old(flagStopWriteThread) && old(msgQueue) != [] && !Enabled(old(msgQueue)[0].logLevel, loglevelMask)
      ensures step.UndefinedLevelFatal? <==>
        && !old(flagStopWriteThread) && old(msgQueue) != []
        && Enabled(old(msgQueue)[0].logLevel, loglevelMask) && !IsDefinedLevel(old(msgQueue)[0].logLevel)
      ensures step.UndefinedLevelFatal? ==> step.level == old(msgQueue)[0].logLevel
      // a committed line is the record's formatted line
      ensures step.Committed? ==> FormatLine(step.info) == Some(step.text) && step.info.logLevel != LOG_NONE
      // nothing but a commit touches the ring or the file
      ensures !step.Committed? ==>
        unchanged(logStringBuffer) && unchanged(this`curLogBufferEntry, this`ringCommits, this`fileLines)
      ensures step.Committed? && syncToFileInstant ==>
        && fileLines == old(fileLines) + (if fileIsOpen then [step.text + "\n"] else [])
        && unchanged(logStringBuffer) && unchanged(this`curLogBufferEntry, this`ringCommits)
      ensures step.Committed? && !syncToFileInstant ==>
        && Ring() == LogRing.Commit(old(Ring()), step.text + "\n")
        && ringCommits == old(ringCommits) + [step.text + "\n"]
        && unchanged(this`fileLines)
      ensures countMsgCnsl ==
        if step.Committed? && step.info.logLevel == LOG_CONSOLE_DEBUG
        then (old(countMsgCnsl) + 1) % TWO_32 else old(countMsgCnsl)
    {
      if flagStopWriteThread {
        return Stopped;
      }
      if |msgQueue| == 0 {
        return QueueEmptyFatal;
      }
      var info := PopFront();
      if !Enabled(info.logLevel, loglevelMask) {
        return Filtered(info);
      }
      var formatted := FormatLine(info);
      if formatted.None? {
        return UndefinedLevelFatal(info.logLevel);
      }
      var text := formatted.value;
      if info.logLevel == LOG_CONSOLE_DEBUG {
        countMsgCnsl := (countMsgCnsl + 1) % TWO_32;
      }
      CommitLine(text + "\n");
      step := Committed(info, text);
    }
  }
}
