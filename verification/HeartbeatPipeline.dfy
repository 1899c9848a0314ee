/**
 The heartbeat tailer of server/integration/heartbeat-pipeline.ts: the log tailer without
 inode tracking. On a file that only grows the two emit the same signals. Over any run it
 reports the lines of the file that is there as long as no look meets another file, or a
 rewritten one, that is as long as what was read; the last sections say exactly when a look
 that does comes out right, and give runs in which it does not.
 */
module HeartbeatPipelines {
  import opened LogPipelines
  import opened Octets
  import opened Splitting
  import opened Tailing
  import opened Wrappers

  datatype Beat = Beat(offset: nat, buffer: Bytes, fileExists: bool)

  /** The outcome of a call; `lines` are the lines split off, `restarted` tells that it began at byte 0 again. */
  datatype BeatStep = BeatStep(beat: Beat, signals: seq<Signal>, restarted: bool, lines: seq<Bytes>)

  const NO_FILE := Beat(0, [], false)

  function StartBeat(t: Beat, disk: Disk): Beat {
    if disk.Present? then Beat(|disk.file.bytes|, t.buffer, true) else Beat(0, t.buffer, false)
  }

  /** Truncation detection, by size alone. */
  function Shortened(t: Beat, file: File): Beat {
    if |file.bytes| < t.offset then t.(offset := 0, buffer := []) else t
  }

  function ReadOn(judge: Bytes -> Verdict, t: Beat, file: File, readable: bool): BeatStep
    requires t.offset <= |file.bytes|
  {
    if |file.bytes| == t.offset then BeatStep(t, [], false, [])
    else if !readable then BeatStep(t, [Error(WatcherError)], false, [])
    else
      var parts := Split(t.buffer + file.bytes[t.offset..], NEWLINE);
      var lines := parts[..|parts| - 1];
      BeatStep(t.(offset := |file.bytes|, buffer := parts[|parts| - 1]), LineSignals(judge, lines), false, lines)
  }

  function ReadBeats(judge: Bytes -> Verdict, t: Beat, disk: Disk): BeatStep {
    match disk
    case Missing => BeatStep(NO_FILE, [Error(WatcherEnoent)], true, [])
    case StatFails => BeatStep(t, [Error(WatcherError)], false, [])
    case Present(file, readable) => ReadOn(judge, Shortened(t, file), file, readable).(restarted := |file.bytes| < t.offset)
  }

  function HandleBeat(judge: Bytes -> Verdict, t: Beat, event: EventType, disk: Disk): BeatStep {
    match event
    case Failure => BeatStep(t, [Error(WatcherError)], false, [])
    case Delete => BeatStep(NO_FILE, [Error(WatcherEnoent)], true, [])
    case Change => ReadBeats(judge, t, disk)
    case Create =>
      if t.fileExists then ReadBeats(judge, t, disk)
      else
        var r := ReadBeats(judge, Beat(0, [], true), disk);
        r.(signals := [Recovered(0, [])] + r.signals, restarted := true)
  }

  class HeartbeatPipeline {
    const judge: Bytes -> Verdict
    var offset: nat
    var buffer: Bytes
    var fileExists: bool
    var started: bool
    /** Everything emitted so far. */
    var emitted: seq<Signal>

    function Fields(): Beat reads this { Beat(offset, buffer, fileExists) }

    constructor (judge: Bytes -> Verdict)
      ensures Fields() == Beat(0, [], true) && !started && emitted == [] && this.judge == judge
    {
      this.judge := judge;
      offset, buffer, fileExists, started, emitted := 0, [], true, false, [];
    }

    method Start(disk: Disk)
      modifies this
      ensures started && emitted == old(emitted)
      ensures Fields() == if old(started) then old(Fields()) else StartBeat(old(Fields()), disk)
    {
      if started { return; }
      started := true;
      match disk {
        case Present(file, _) => offset, fileExists := |file.bytes|, true;
        case _ => offset, fileExists := 0, false;
      }
    }

    method Stop()
      modifies this`started
      ensures !started
    {
      started := false;
    }

    method Handle(event: EventType, disk: Disk)
      modifies this
      ensures started == old(started)
      ensures var r := HandleBeat(judge, old(Fields()), event, disk);
              Fields() == r.beat && emitted == old(emitted) + r.signals
    {
      if event.Failure? {
        emitted := emitted + [Error(WatcherError)];
        return;
      }
      if event.Delete? {
        fileExists, offset, buffer := false, 0, [];
        emitted := emitted + [Error(WatcherEnoent)];
        return;
      }
      if event.Create? && !fileExists {
        fileExists, offset, buffer := true, 0, [];
        emitted := emitted + [Recovered(offset, buffer)];
        ReadLines(disk);
        ConcatFacts(old(emitted), [Recovered(0, [])], ReadBeats(judge, Beat(0, [], true), disk).signals);
      } else {
        ReadLines(disk);
      }
    }

    method ReadLines(disk: Disk)
      modifies this
      ensures started == old(started)
      ensures var r := ReadBeats(judge, old(Fields()), disk);
              Fields() == r.beat && emitted == old(emitted) + r.signals
    {
      if disk.Missing? {
        fileExists, offset, buffer := false, 0, [];
        emitted := emitted + [Error(WatcherEnoent)];
        return;
      }
      if disk.StatFails? {
        emitted := emitted + [Error(WatcherError)];
        return;
      }
      var size := |disk.file.bytes|;
      if size < offset {
        offset, buffer := 0, [];
      }
      if size == offset {
        ConcatFacts(emitted, [], []);
        return;
      }
      if !disk.readable {
        emitted := emitted + [Error(WatcherError)];
        return;
      }
      var raw := disk.file.bytes[offset..];
      offset := size;
      var parts := Split(buffer + raw, NEWLINE);
      buffer := parts[|parts| - 1];
      ProcessLines(parts[..|parts| - 1]);
    }

    method ProcessLines(lines: seq<Bytes>)
      modifies this`emitted
      ensures emitted == old(emitted) + LineSignals(judge, lines)
    {
      for i := 0 to |lines|
        invariant emitted == old(emitted) + LineSignals(judge, lines[..i])
      {
        LineSignalsSnoc(judge, lines, i);
        if lines[i] != [] {
          emitted := emitted + [SignalOf(judge, lines[i])];
        }
      }
      assert lines[..|lines|] == lines;
    }
  }

  /** Which signals but those of lines a call emits: each exactly on its occasion. */
  lemma BeatSignalsTell(judge: Bytes -> Verdict, t: Beat, event: EventType, disk: Disk)
    ensures var s := HandleBeat(judge, t, event, disk).signals;
            var anew := event.Create? && !t.fileExists;
            && Error(RotationDetected) !in s && Error(TruncationDetected) !in s
            && (Recovered(0, []) in s <==> anew)
            && (Error(WatcherEnoent) in s <==> event.Delete? || (Looks(event) && disk.Missing?))
            && (Error(WatcherError) in s <==>
                  || event.Failure? || (Looks(event) && disk.StatFails?)
                  || (Looks(event) && disk.Present? && !disk.readable
                      && |disk.file.bytes| != if anew || |disk.file.bytes| < t.offset then 0 else t.offset))
  {
    if Looks(event) && disk.Present? {
      var u := if event.Create? && !t.fileExists then Beat(0, [], true) else t;
      LinesTellOfLines(judge, ReadOn(judge, Shortened(u, disk.file), disk.file, disk.readable).lines);
    }
  }

  // ---------------------------------------------------------------- against the log tailer

  function BeatOf(t: Tail): Beat { Beat(t.offset, t.buffer, t.fileExists) }

  /**
   One call, where the log tailer sees no rotation: the same fields, and the same signals
   but for the pair that announces a truncation. A change after a delete is the other
   difference: only a create lets this tailer recover, so a change is read as if by a tailer
   without a file, and as if by an empty one exactly if no partial line was kept, or no file is there.
   */
  lemma SameStep(judge: Bytes -> Verdict, t: Tail, event: EventType, disk: Disk)
    requires !t.fileExists ==> t.offset == 0
    requires disk.Present? ==> Prepared(t).0.inode == 0 || Prepared(t).0.inode == disk.file.inode
    ensures var s, h := HandleEvent(judge, t, event, disk), HandleBeat(judge, BeatOf(t), event, disk);
            if event.Change? && !t.fileExists then
              var clean := HandleBeat(judge, NO_FILE, event, disk);
              && clean.beat == BeatOf(s.tail).(fileExists := false) && s.signals == [Recovered(0, [])] + clean.signals
              && (h == clean <==> t.buffer == [] || disk.Missing?)
            else
              && h.beat == BeatOf(s.tail)
              && (s.signals == h.signals || exists before, after ::
                    s.signals == before + [Error(TruncationDetected), Recovered(0, [])] + after && h.signals == before + after)
  {
    if event.Change? && !t.fileExists {
      SameChange(judge, t, disk);
    } else if (event.Create? || event.Change?) && disk.Present? {
      SameRead(judge, Prepared(t).0, disk.file, disk.readable);
      SameLook(judge, t, event, disk.file, disk.readable);
    }
  }

  /** A change without a file. */
  lemma SameChange(judge: Bytes -> Verdict, t: Tail, disk: Disk)
    requires !t.fileExists && t.offset == 0
    ensures var s, h := HandleEvent(judge, t, Change, disk), HandleBeat(judge, BeatOf(t), Change, disk);
            var clean := HandleBeat(judge, NO_FILE, Change, disk);
            && clean.beat == BeatOf(s.tail).(fileExists := false) && s.signals == [Recovered(0, [])] + clean.signals
            && (h == clean <==> t.buffer == [] || disk.Missing?)
  {
    if disk.Present? { SameRead(judge, Prepared(t).0, disk.file, disk.readable); }
    KeptBytes(judge, BeatOf(t), disk);
  }

  /** Without a file, bytes kept from before show in what a look leaves behind. */
  lemma KeptBytes(judge: Bytes -> Verdict, t: Beat, disk: Disk)
    requires t.offset == 0 && !t.fileExists
    ensures ReadBeats(judge, t, disk) == ReadBeats(judge, NO_FILE, disk) <==> t.buffer == [] || disk.Missing?
  {
    if disk.Present? && disk.readable && disk.file.bytes != [] {
      KeptBytesRead(judge, t.buffer, disk.file);
      assert t.(buffer := []) == NO_FILE;
    }
  }

  lemma KeptBytesRead(judge: Bytes -> Verdict, kept: Bytes, file: File)
    requires file.bytes != []
    ensures ReadOn(judge, Beat(0, kept, false), file, true) == ReadOn(judge, NO_FILE, file, true) <==> kept == []
  {
    var bytes := file.bytes;
    assert bytes[0..] == bytes && [] + bytes == bytes;
    PiecesOf(kept + bytes);
    PiecesOf(bytes);
    SplitInjective(kept + bytes, bytes);
    SameHead(kept, [], bytes);
  }

  lemma PiecesOf(bytes: Bytes)
    ensures var parts := Split(bytes, NEWLINE); parts == parts[..|parts| - 1] + [parts[|parts| - 1]]
  {
  }

  /** Reading, where no rotation is seen. */
  lemma SameRead(judge: Bytes -> Verdict, t: Tail, file: File, readable: bool)
    requires t.inode == 0 || t.inode == file.inode
    ensures var a := AfterStat(t, file);
            var r, h := ReadNewLines(judge, t, Present(file, readable)), ReadBeats(judge, BeatOf(t), Present(file, readable));
            && h.beat == BeatOf(r.tail) && h.lines == r.lines && r.signals == a.signals + h.signals
            && (a.signals == [] || a.signals == [Error(TruncationDetected), Recovered(0, [])])
            && (t.offset == 0 ==> a.signals == [])
  {
    ConcatFacts([], ReadBeats(judge, BeatOf(t), Present(file, readable)).signals, []);
  }

  lemma SameLook(judge: Bytes -> Verdict, t: Tail, event: EventType, file: File, readable: bool)
    requires event.Create? || (event.Change? && t.fileExists)
    requires Prepared(t).0.inode == 0 || Prepared(t).0.inode == file.inode
    ensures var disk := Present(file, readable);
            var s, h := HandleEvent(judge, t, event, disk), HandleBeat(judge, BeatOf(t), event, disk);
            && h.beat == BeatOf(s.tail)
            && (s.signals == h.signals || exists before, after ::
                  s.signals == before + [Error(TruncationDetected), Recovered(0, [])] + after && h.signals == before + after)
  {
    var p := Prepared(t);
    var a, h := AfterStat(p.0, file), ReadBeats(judge, BeatOf(p.0), Present(file, readable));
    SameRead(judge, p.0, file, readable);
    ConcatFacts(p.1, a.signals, h.signals);
    ConcatFacts(p.1, [], []);
    var s := HandleEvent(judge, t, event, Present(file, readable));
    assert s.signals == p.1 + a.signals + h.signals;
    assert HandleBeat(judge, BeatOf(t), event, Present(file, readable)).signals == p.1 + h.signals;
  }

  // ---------------------------------------------------------------- runs

  /**
   The file, the tailer, and its history: the byte where reading (re)started, the lines split
   off since, everything emitted to the listeners there are, and how much of it came before the
   last restart. `foreign` says that the file is not the one that was read from, or was written anew.
   */
  datatype BeatWorld = BeatWorld(
    file: Option<File>, beat: Beat, started: bool, start: nat, lines: seq<Bytes>, foreign: bool,
    trace: seq<Signal>, mark: nat, restarted: bool)

  function Begin(w: BeatWorld, disk: Disk): BeatWorld {
    w.(beat := StartBeat(w.beat, disk), started := true, start := if disk.Present? then |disk.file.bytes| else 0,
       lines := [], foreign := false, trace := [], mark := 0, restarted := false)
  }

  function BeatAttach(file: Option<File>): BeatWorld {
    Begin(BeatWorld(file, Beat(0, [], true), false, 0, [], false, [], 0, false), DiskOf(file, false, true))
  }

  function BeatAfter(w: BeatWorld, s: BeatStep): BeatWorld {
    if s.restarted then
      w.(beat := s.beat, start := 0, lines := s.lines, foreign := false, trace := w.trace + s.signals, mark := |w.trace|,
         restarted := true)
    else
      w.(beat := s.beat, lines := w.lines + s.lines, trace := w.trace + s.signals)
  }

  function BeatNext(judge: Bytes -> Verdict, w: BeatWorld, a: Act): BeatWorld {
    match a
    case Append(more) =>
      if w.file.None? then w else w.(file := Some(w.file.value.(bytes := w.file.value.bytes + more)))
    case Rewrite(content) =>
      if w.file.None? then w else w.(file := Some(w.file.value.(bytes := content)), foreign := w.foreign || w.beat.offset > 0)
    case Replace(inode, content) => w.(file := Some(File(inode, content)), foreign := w.foreign || w.beat.offset > 0)
    case Remove => w.(file := None)
    case Notify(event, statFails, readable) =>
      if !w.started then w else BeatAfter(w, HandleBeat(judge, w.beat, event, DiskOf(w.file, statFails, readable)))
    case Stop => w.(started := false)
    case Start(statFails, readable) => if w.started then w else Begin(w, DiskOf(w.file, statFails, true))
  }

  function BeatRun(judge: Bytes -> Verdict, w: BeatWorld, acts: seq<Act>): BeatWorld
    decreases acts
  {
    if acts == [] then w else BeatRun(judge, BeatNext(judge, w, acts[0]), acts[1..])
  }

  /** A look at another or a rewritten file that `stat` does not give away: it is as long as what was read. */
  predicate Unnoticed(t: Beat, file: File) { |file.bytes| >= t.offset }

  /** The schedules in which the tailer keeps to the file: a check of sizes at every look, an empty buffer at every start. */
  predicate BeatPossible(w: BeatWorld, a: Act) {
    match a
    case Notify(event, statFails, _) =>
      w.started && w.foreign && !statFails && w.file.Some? && (event.Change? || (event.Create? && w.beat.fileExists)) ==>
        !Unnoticed(w.beat, w.file.value)
    case Start(_, _) => !w.started ==> w.beat.buffer == []
    case _ => true
  }

  predicate BeatPossibleRun(judge: Bytes -> Verdict, w: BeatWorld, acts: seq<Act>)
    decreases acts
  {
    acts == [] || (BeatPossible(w, acts[0]) && BeatPossibleRun(judge, BeatNext(judge, w, acts[0]), acts[1..]))
  }

  /** The lines split off since the start, and the open piece, are those of what was read. */
  ghost predicate BeatReads(file: File, start: nat, t: Beat, lines: seq<Bytes>) {
    start <= t.offset <= |file.bytes| && Split(file.bytes[start..t.offset], NEWLINE) == lines + [t.buffer]
  }

  ghost predicate BeatFits(w: BeatWorld) {
    && (w.beat.offset == 0 ==> w.start == 0 && w.lines == [] && w.beat.buffer == [] && !w.foreign)
    && (w.restarted ==> w.start == 0)
    && (w.file.Some? && !w.foreign && w.beat.offset > 0 ==> BeatReads(w.file.value, w.start, w.beat, w.lines))
  }

  ghost predicate BeatReported(judge: Bytes -> Verdict, w: BeatWorld) {
    w.mark <= |w.trace| && OnlyLines(w.trace[w.mark..]) == LineSignals(judge, w.lines) && CleanRecoveries(w.trace)
  }

  ghost predicate BeatInv(judge: Bytes -> Verdict, w: BeatWorld) { BeatFits(w) && BeatReported(judge, w) }

  lemma ReadOnReads(judge: Bytes -> Verdict, file: File, start: nat, t: Beat, lines: seq<Bytes>, readable: bool)
    requires BeatReads(file, start, t, lines)
    ensures var r := ReadOn(judge, t, file, readable);
            && BeatReads(file, start, r.beat, lines + r.lines) && t.offset <= r.beat.offset
            && (readable ==> r.beat.offset == |file.bytes|)
            && (r.beat.offset == 0 ==> r.lines == [] && r.beat == t)
  {
    if readable && |file.bytes| != t.offset {
      LinesInChunks(file.bytes[start..t.offset], file.bytes[t.offset..], lines, t.buffer);
      SliceFacts(file.bytes, [], start, t.offset);
    } else {
      ConcatFacts(lines, [], []);
    }
  }

  lemma FromByteZero(file: File, t: Beat)
    requires t.offset == 0 && t.buffer == []
    ensures BeatReads(file, 0, t, [])
  {
    assert file.bytes[0..0] == [];
  }

  /** Where a look at the file that is there reads on from. */
  function LookFrom(t: Beat, event: EventType, file: File): Beat {
    if event.Create? && !t.fileExists then Beat(0, [], true) else Shortened(t, file)
  }

  lemma LookReadsOn(judge: Bytes -> Verdict, w: BeatWorld, event: EventType, readable: bool)
    requires w.started && w.file.Some? && (event.Create? || event.Change?)
    ensures LookFrom(w.beat, event, w.file.value).offset <= |w.file.value.bytes|
    ensures var r, t := HandleBeat(judge, w.beat, event, Present(w.file.value, readable)), LookFrom(w.beat, event, w.file.value);
            var c := ReadOn(judge, t, w.file.value, readable);
            && BeatNext(judge, w, Notify(event, false, readable)) == BeatAfter(w, r)
            && r.beat == c.beat && r.lines == c.lines
            && (if r.restarted then t.offset == 0 && t.buffer == [] else t == w.beat)
  {
  }

  /** A look at the file that is there. */
  lemma LookFitsBeat(judge: Bytes -> Verdict, w: BeatWorld, event: EventType, readable: bool)
    requires BeatFits(w) && w.started && w.file.Some? && BeatPossible(w, Notify(event, false, readable))
    requires event.Create? || event.Change?
    ensures var n := BeatNext(judge, w, Notify(event, false, readable));
            && BeatFits(n) && !n.foreign && BeatReads(w.file.value, n.start, n.beat, n.lines)
            && (readable ==> n.beat.offset == |w.file.value.bytes|)
  {
    var file, r := w.file.value, HandleBeat(judge, w.beat, event, Present(w.file.value, readable));
    var t := LookFrom(w.beat, event, file);
    LookReadsOn(judge, w, event, readable);
    if r.restarted || w.beat.offset == 0 {
      FromByteZero(file, t);
      ReadOnReads(judge, file, 0, t, [], readable);
      ConcatFacts([], r.lines, []);
    } else {
      ReadOnReads(judge, file, w.start, t, w.lines, readable);
    }
  }

  lemma NoLookFitsBeat(judge: Bytes -> Verdict, w: BeatWorld, event: EventType, statFails: bool, readable: bool)
    requires BeatFits(w) && w.started && (event.Failure? || event.Delete? || statFails || w.file.None?)
    ensures BeatFits(BeatNext(judge, w, Notify(event, statFails, readable)))
  {
    ConcatFacts(w.lines, [], []);
  }

  lemma ReadOnReported(judge: Bytes -> Verdict, t: Beat, file: File, readable: bool)
    requires t.offset <= |file.bytes|
    ensures var r := ReadOn(judge, t, file, readable);
            OnlyLines(r.signals) == LineSignals(judge, r.lines) && CleanRecoveries(r.signals)
  {
    if readable {
      OnlyLinesOfLines(judge, ReadOn(judge, t, file, readable).lines);
      LinesDoNotRestart(judge, ReadOn(judge, t, file, readable).lines);
    } else {
      OneSignal(Error(WatcherError));
    }
  }

  /** A call reports the lines it splits off, and recovers cleanly. */
  lemma BeatStepReported(judge: Bytes -> Verdict, t: Beat, event: EventType, disk: Disk)
    ensures var r := HandleBeat(judge, t, event, disk);
            OnlyLines(r.signals) == LineSignals(judge, r.lines) && CleanRecoveries(r.signals)
  {
    OneSignal(Error(WatcherError));
    OneSignal(Error(WatcherEnoent));
    var u := if event.Create? && !t.fileExists then Beat(0, [], true) else t;
    ReadBeatsReported(judge, u, disk);
    if event.Create? && !t.fileExists { AfterRecovered(ReadBeats(judge, u, disk).signals); }
  }

  lemma ReadBeatsReported(judge: Bytes -> Verdict, t: Beat, disk: Disk)
    ensures var r := ReadBeats(judge, t, disk);
            OnlyLines(r.signals) == LineSignals(judge, r.lines) && CleanRecoveries(r.signals)
  {
    match disk
    case Present(file, readable) => ReadOnReported(judge, Shortened(t, file), file, readable);
    case StatFails => OneSignal(Error(WatcherError));
    case Missing => OneSignal(Error(WatcherEnoent));
  }

  lemma AfterRecovered(signals: seq<Signal>)
    ensures OnlyLines([Recovered(0, [])] + signals) == OnlyLines(signals)
    ensures CleanRecoveries([Recovered(0, [])] + signals) <==> CleanRecoveries(signals)
  {
    OneSignal(Recovered(0, []));
    OnlyLinesConcat([Recovered(0, [])], signals);
    TraceConcat([Recovered(0, [])], signals);
    ConcatFacts([], OnlyLines(signals), []);
  }

  lemma BeatAfterReports(judge: Bytes -> Verdict, w: BeatWorld, s: BeatStep)
    requires BeatReported(judge, w) && OnlyLines(s.signals) == LineSignals(judge, s.lines) && CleanRecoveries(s.signals)
    ensures BeatReported(judge, BeatAfter(w, s))
  {
    TraceConcat(w.trace, s.signals);
    SuffixFacts(w.trace, s.signals, w.mark);
    OnlyLinesConcat(w.trace[w.mark..], s.signals);
    LineSignalsConcat(judge, w.lines, s.lines);
  }

  lemma SuffixFacts(a: seq<Signal>, b: seq<Signal>, mark: nat)
    requires mark <= |a|
    ensures (a + b)[|a|..] == b && (a + b)[mark..] == a[mark..] + b
  {
  }

  lemma BeatInvStep(judge: Bytes -> Verdict, w: BeatWorld, a: Act)
    requires BeatInv(judge, w) && BeatPossible(w, a)
    ensures BeatInv(judge, BeatNext(judge, w, a))
  {
    match a
    case Append(more) =>
      if w.file.Some? && !w.foreign && w.beat.offset > 0 { SliceFacts(w.file.value.bytes, more, w.start, w.beat.offset); }
    case Notify(event, statFails, readable) =>
      if w.started { BeatInvNotify(judge, w, event, statFails, readable); }
    case Start(statFails, _) => if !w.started { BeatInvBegin(judge, w, DiskOf(w.file, statFails, true)); }
    case _ =>
  }

  lemma BeatInvNotify(judge: Bytes -> Verdict, w: BeatWorld, event: EventType, statFails: bool, readable: bool)
    requires BeatInv(judge, w) && w.started && BeatPossible(w, Notify(event, statFails, readable))
    ensures BeatInv(judge, BeatNext(judge, w, Notify(event, statFails, readable)))
  {
    var disk := DiskOf(w.file, statFails, readable);
    BeatStepReported(judge, w.beat, event, disk);
    BeatAfterReports(judge, w, HandleBeat(judge, w.beat, event, disk));
    if (event.Create? || event.Change?) && !statFails && w.file.Some? {
      LookFitsBeat(judge, w, event, readable);
    } else {
      NoLookFitsBeat(judge, w, event, statFails, readable);
    }
  }

  lemma BeatInvBegin(judge: Bytes -> Verdict, w: BeatWorld, disk: Disk)
    requires w.beat.buffer == [] && (disk.Present? ==> w.file == Some(disk.file))
    ensures BeatInv(judge, Begin(w, disk))
  {
    EmptyTrace(judge);
    var n := Begin(w, disk);
    assert n.trace[n.mark..] == [];
    if disk.Present? { assert disk.file.bytes[n.start..n.beat.offset] == []; }
  }

  lemma {:induction false} BeatInvRun(judge: Bytes -> Verdict, w: BeatWorld, acts: seq<Act>)
    requires BeatInv(judge, w) && BeatPossibleRun(judge, w, acts)
    ensures BeatInv(judge, BeatRun(judge, w, acts))
    decreases acts
  {
    if acts != [] {
      BeatInvStep(judge, w, acts[0]);
      BeatInvRun(judge, BeatNext(judge, w, acts[0]), acts[1..]);
    }
  }

  /**
   Heartbeat refinement, over every run of appends, rewrites, rotations, removals, watcher events,
   stops and starts in which no look meets a replaced or rewritten file as long as what was read.
   After a look that read the file, the lines reported since the last restart are exactly those
   of the file's complete lines, and reading began at byte 0 if there was a restart.
   */
  lemma HeartbeatRefinement(judge: Bytes -> Verdict, file: Option<File>, acts: seq<Act>, event: EventType)
    requires BeatPossibleRun(judge, BeatAttach(file), acts) && (event.Create? || event.Change?)
    ensures var w := BeatRun(judge, BeatAttach(file), acts);
            w.started && w.file.Some? && BeatPossible(w, Notify(event, false, true)) ==>
              var n := BeatNext(judge, w, Notify(event, false, true));
              var bytes := w.file.value.bytes;
              && n.beat.offset == |bytes| && n.start <= |bytes| && n.mark <= |n.trace|
              && Told(judge, OnlyLines(n.trace[n.mark..]), NonEmpty(CompleteLines(bytes[n.start..])))
              && Payloads(n.trace[n.mark..]) == ValidPayloads(judge, NonEmpty(CompleteLines(bytes[n.start..])))
              && bytes[n.start..] == Terminated(CompleteLines(bytes[n.start..]), NEWLINE) + n.beat.buffer
              && (n.restarted ==> n.start == 0) && CleanRecoveries(n.trace)
  {
    var w0 := BeatAttach(file);
    BeatInvBegin(judge, w0, DiskOf(file, false, true));
    BeatInvRun(judge, w0, acts);
    var w := BeatRun(judge, w0, acts);
    if w.started && w.file.Some? && BeatPossible(w, Notify(event, false, true)) {
      var n := BeatNext(judge, w, Notify(event, false, true));
      BeatInvNotify(judge, w, event, false, true);
      LookFitsBeat(judge, w, event, true);
      AllRead(w.file.value, n.start, n.beat, n.lines);
      ReportsTell(judge, n.trace[n.mark..], n.lines);
    }
  }

  lemma AllRead(file: File, start: nat, t: Beat, lines: seq<Bytes>)
    requires BeatReads(file, start, t, lines) && t.offset == |file.bytes|
    ensures CompleteLines(file.bytes[start..]) == lines && file.bytes[start..] == Terminated(lines, NEWLINE) + t.buffer
  {
    assert file.bytes[start..t.offset] == file.bytes[start..];
    assert (lines + [t.buffer])[..|lines|] == lines;
    SplitIsTerminated(file.bytes[start..], NEWLINE);
  }

  // ---------------------------------------------------------------- on a file that only grows

  /** The heartbeat tailer beside a log tailer that has not restarted. */
  ghost predicate Alike(w: World, b: BeatWorld) {
    && b.file == w.file && b.beat == BeatOf(w.tail) && b.started == w.started && b.start == w.start && b.lines == w.lines
    && b.trace == w.trace && !b.restarted && b.mark == 0
  }

  lemma {:induction false} SameQuietRun(judge: Bytes -> Verdict, w: World, b: BeatWorld, acts: seq<Act>)
    requires Settled(judge, w) && Alike(w, b) && forall a :: a in acts ==> Quiet(a)
    ensures Alike(Run(judge, w, acts), BeatRun(judge, b, acts))
    decreases acts
  {
    if acts != [] {
      assert Quiet(acts[0]);
      QuietStep(judge, w, acts[0]);
      SameQuietStep(judge, w, b, acts[0]);
      SameQuietRun(judge, Next(judge, w, acts[0]), BeatNext(judge, b, acts[0]), acts[1..]);
    }
  }

  lemma SameQuietStep(judge: Bytes -> Verdict, w: World, b: BeatWorld, a: Act)
    requires Settled(judge, w) && Alike(w, b) && Quiet(a)
    ensures Alike(Next(judge, w, a), BeatNext(judge, b, a))
  {
    if a.Notify? && !a.event.Failure? && !a.statFails {
      SettledLook(judge, w, a.event, a.readable);
    }
  }

  /** On a file that only grows, the heartbeat tailer emits what a log tailer would. */
  lemma HeartbeatFollowsLog(judge: Bytes -> Verdict, file: File, acts: seq<Act>)
    requires file.inode != 0 && forall a :: a in acts ==> Quiet(a)
    ensures var b, n := BeatRun(judge, BeatAttach(Some(file)), acts), Run(judge, Attach(Some(file), false), acts);
            b.trace == n.trace && b.beat == BeatOf(n.tail)
  {
    InvAttach(judge, Some(file), false);
    SameQuietRun(judge, Attach(Some(file), false), BeatAttach(Some(file)), acts);
  }

  // ---------------------------------------------------------------- the excluded schedules

  /**
   A look at a file that is not the one read from, when nothing tells it: the lines and the open
   piece it is left with are the file's exactly if it shrank below the offset, or the bytes not yet
   reported are the very ones the file holds before the offset.
   */
  lemma ForeignLookIff(judge: Bytes -> Verdict, t: Beat, event: EventType, file: File)
    requires event.Change? || (event.Create? && t.fileExists)
    requires NEWLINE !in t.buffer
    ensures var r := HandleBeat(judge, t, event, Present(file, true));
            Split(file.bytes, NEWLINE) == r.lines + [r.beat.buffer]
            <==> |file.bytes| < t.offset || t.buffer == file.bytes[..t.offset]
  {
    assert HandleBeat(judge, t, event, Present(file, true)) == ReadBeats(judge, t, Present(file, true));
    if |file.bytes| < t.offset {
      ReadFromZero(judge, file, t.(offset := 0, buffer := []));
    } else {
      ReadForeign(judge, file, t);
    }
  }

  lemma ReadForeign(judge: Bytes -> Verdict, file: File, t: Beat)
    requires NEWLINE !in t.buffer && t.offset <= |file.bytes|
    ensures var r := ReadOn(judge, t, file, true);
            Split(file.bytes, NEWLINE) == r.lines + [r.beat.buffer] <==> t.buffer == file.bytes[..t.offset]
  {
    var bytes := file.bytes;
    var r := ReadOn(judge, t, file, true);
    SplitWithout(t.buffer, NEWLINE);
    ConcatFacts([], [t.buffer], []);
    if |bytes| == t.offset {
      SplitInjective(bytes, t.buffer);
      assert bytes[..t.offset] == bytes;
    } else {
      GoingOn(t.buffer, bytes, 0, t.offset, [], t.buffer);
      assert bytes[0..] == bytes && bytes[0..t.offset] == bytes[..t.offset];
      ConcatFacts([], r.lines, []);
    }
  }

  /** A start is clean, the lines and the open piece being those of no bytes at all, exactly if the buffer is empty. */
  lemma CleanBeginIff(w: BeatWorld, disk: Disk)
    ensures var n := Begin(w, disk); Split([], NEWLINE) == n.lines + [n.beat.buffer] <==> w.beat.buffer == []
  {
    assert [] + [w.beat.buffer] == [w.beat.buffer];
  }

  lemma ReadFromZero(judge: Bytes -> Verdict, file: File, t: Beat)
    requires t.offset == 0 && t.buffer == []
    ensures var r := ReadOn(judge, t, file, true); Split(file.bytes, NEWLINE) == r.lines + [r.beat.buffer]
  {
    assert [] + file.bytes[0..] == file.bytes;
    assert [] + [t.buffer] == [t.buffer];
  }

  /**
   A rotation it cannot see: `ab` of the old file was read, the new file holds `cde` and a
   newline, and the line reported starts with the old bytes and skips two of the new ones.
   The log tailer, on the same schedule, reports the rotation and then `cde`.
   */
  lemma RotationJoinsFiles(judge: Bytes -> Verdict)
    ensures var file, acts := Some(File(7, [])), [Append([97, 98]), LOOK] + [Replace(8, [99, 100, 101, NEWLINE]), LOOK];
            var b, w := BeatRun(judge, BeatAttach(file), acts), Run(judge, Attach(file, false), acts);
            && b.trace == [SignalOf(judge, [97, 98, 101])] && !BeatPossibleRun(judge, BeatAttach(file), acts)
            && w.trace == [Error(RotationDetected), Recovered(0, []), SignalOf(judge, [99, 100, 101])]
  {
    var file := Some(File(7, []));
    var first, bytes: Bytes := [Append([97, 98]), LOOK], [99, 100, 101, NEWLINE];
    var second := [Replace(8, bytes), LOOK];
    var w0, b0 := Attach(file, false), BeatAttach(file);
    TwoBytesRead(judge, 97, 98);
    InvAttach(judge, file, false);
    SameQuietRun(judge, w0, b0, first);
    RunConcat(judge, w0, first, second);
    BeatRunConcat(judge, b0, first, second);
    var w2, b2 := Run(judge, w0, first), BeatRun(judge, b0, first);
    RunTwo(judge, w2, Replace(8, bytes), LOOK);
    BeatRunTwo(judge, b2, Replace(8, bytes), LOOK);
    LogAfterRotation(judge, w2, bytes);
    BeatAfterRotation(judge, b2, bytes);
    BeatPossibleConcat(judge, b0, first, second);
    assert second[1..] == [LOOK];
  }

  lemma LogAfterRotation(judge: Bytes -> Verdict, w: World, bytes: Bytes)
    requires w == Reading([97, 98], Tail(2, 7, [97, 98], true)) && bytes == [99, 100, 101, NEWLINE]
    ensures Next(judge, Next(judge, w, Replace(8, bytes)), LOOK).trace
            == [Error(RotationDetected), Recovered(0, []), SignalOf(judge, [99, 100, 101])]
  {
    var n := Next(judge, w, Replace(8, bytes));
    assert n.tail == Tail(2, 7, [97, 98], true) && n.file == Some(File(8, bytes)) && n.trace == [];
    OneLine(judge, [99, 100, 101]);
    assert [] + bytes[0..] == [99, 100, 101] + [NEWLINE];
    var r := ReadNewLines(judge, n.tail, Present(File(8, bytes), true));
    assert r.lines == [[99, 100, 101]];
    assert r.signals == [Error(RotationDetected), Recovered(0, [])] + [SignalOf(judge, [99, 100, 101])];
  }

  lemma BeatAfterRotation(judge: Bytes -> Verdict, b: BeatWorld, bytes: Bytes)
    requires b.beat == Beat(2, [97, 98], true) && b.trace == [] && b.started && b.file.Some? && bytes == [99, 100, 101, NEWLINE]
    ensures var n := BeatNext(judge, b, Replace(8, bytes));
            BeatNext(judge, n, LOOK).trace == [SignalOf(judge, [97, 98, 101])] && !BeatPossible(n, LOOK)
  {
    OneLine(judge, [97, 98, 101]);
    assert [97, 98] + bytes[2..] == [97, 98, 101] + [NEWLINE];
    var r := HandleBeat(judge, b.beat, Change, Present(File(8, bytes), true));
    assert r.lines == [[97, 98, 101]];
  }

  lemma {:induction false} BeatRunConcat(judge: Bytes -> Verdict, w: BeatWorld, acts: seq<Act>, more: seq<Act>)
    ensures BeatRun(judge, w, acts + more) == BeatRun(judge, BeatRun(judge, w, acts), more)
    decreases acts
  {
    if acts == [] {
      assert acts + more == more;
    } else {
      assert (acts + more)[0] == acts[0] && (acts + more)[1..] == acts[1..] + more;
      BeatRunConcat(judge, BeatNext(judge, w, acts[0]), acts[1..], more);
    }
  }

  lemma BeatRunTwo(judge: Bytes -> Verdict, w: BeatWorld, a: Act, b: Act)
    ensures BeatRun(judge, w, [a, b]) == BeatNext(judge, BeatNext(judge, w, a), b)
  {
    var acts := [a, b];
    assert acts[0] == a && acts[1..] == [b] && acts[1..][1..] == [];
    var n := BeatNext(judge, w, a);
    assert BeatRun(judge, n, [b]) == BeatRun(judge, BeatNext(judge, n, b), [b][1..]);
  }

  lemma {:induction false} BeatPossibleConcat(judge: Bytes -> Verdict, w: BeatWorld, acts: seq<Act>, more: seq<Act>)
    ensures BeatPossibleRun(judge, w, acts + more) <==>
      BeatPossibleRun(judge, w, acts) && BeatPossibleRun(judge, BeatRun(judge, w, acts), more)
    decreases acts
  {
    if acts == [] {
      assert acts + more == more;
    } else {
      assert (acts + more)[0] == acts[0] && (acts + more)[1..] == acts[1..] + more;
      BeatPossibleConcat(judge, BeatNext(judge, w, acts[0]), acts[1..], more);
    }
  }
}
