/**
 The log tailer of server/integration/log-pipeline.ts.

 `HandleEvent` and `ReadNewLines` say what one handler call does to the tailer's fields;
 the class carries the fields and its methods are proved to do exactly that. Runs mix
 handler calls with appends, rewrites, rotations and removals of the watched file.
 */
module LogPipelines {
  import opened Octets
  import opened Splitting
  import opened Tailing
  import opened Wrappers

  datatype File = File(inode: int, bytes: Bytes)

  /** What `fs.stat` and `fs.open` report during one handler call. */
  datatype Disk = Missing | StatFails | Present(file: File, readable: bool)

  datatype Tail = Tail(offset: nat, inode: int, buffer: Bytes, fileExists: bool)

  /** The outcome of a handler call; `lines` are the lines split off, `restarted` tells a reset. */
  datatype Step = Step(tail: Tail, signals: seq<Signal>, restarted: bool, lines: seq<Bytes>)

  const GONE := Tail(0, 0, [], false)

  function StartTail(t: Tail, disk: Disk, fromBeginning: bool): Tail {
    match disk
    case Present(file, _) => Tail(if fromBeginning then 0 else |file.bytes|, file.inode, t.buffer, true)
    case _ => Tail(0, 0, t.buffer, false)
  }

  /** Rotation and truncation detection. */
  function AfterStat(t: Tail, file: File): Step {
    if t.inode != 0 && file.inode != 0 && file.inode != t.inode then
      Step(t.(offset := 0, inode := file.inode, buffer := []),
           [Error(RotationDetected), Recovered(0, [])], true, [])
    else
      var t1 := if t.inode == 0 then t.(inode := file.inode) else t;
      if |file.bytes| < t1.offset then
        Step(t1.(offset := 0, buffer := []), [Error(TruncationDetected), Recovered(0, [])], true, [])
      else
        Step(t1, [], false, [])
  }

  /** Reading from the offset to the end of the file. */
  function Consume(judge: Bytes -> Verdict, t: Tail, file: File, readable: bool): Step
    requires t.offset <= |file.bytes|
  {
    if |file.bytes| == t.offset then Step(t, [], false, [])
    else if !readable then Step(t, [Error(WatcherError)], false, [])
    else
      var parts := Split(t.buffer + file.bytes[t.offset..], NEWLINE);
      var lines := parts[..|parts| - 1];
      Step(t.(offset := |file.bytes|, buffer := parts[|parts| - 1]), LineSignals(judge, lines), false, lines)
  }

  function ReadNewLines(judge: Bytes -> Verdict, t: Tail, disk: Disk): Step {
    match disk
    case Missing => Step(GONE, [Error(WatcherEnoent)], true, [])
    case StatFails => Step(t, [Error(WatcherError)], false, [])
    case Present(file, readable) =>
      var a := AfterStat(t, file);
      var c := Consume(judge, a.tail, file, readable);
      Step(c.tail, a.signals + c.signals, a.restarted, c.lines)
  }

  /** The fields when `fs.stat` is reached: a create or change after a delete starts over. */
  function Prepared(t: Tail): (Tail, seq<Signal>, bool) {
    if t.fileExists then (t, [], false) else (Tail(0, 0, [], true), [Recovered(0, [])], true)
  }

  function HandleEvent(judge: Bytes -> Verdict, t: Tail, event: EventType, disk: Disk): Step {
    match event
    case Failure => Step(t, [Error(WatcherError)], false, [])
    case Delete => Step(GONE, [Error(WatcherEnoent)], true, [])
    case _ =>
      var (p, signals, restarted) := Prepared(t);
      var r := ReadNewLines(judge, p, disk);
      Step(r.tail, signals + r.signals, restarted || r.restarted, r.lines)
  }

  class LogPipeline {
    const judge: Bytes -> Verdict
    const fromBeginning: bool
    var offset: nat
    var inode: int
    var buffer: Bytes
    var fileExists: bool
    var started: bool
    /** Everything emitted so far. */
    var emitted: seq<Signal>

    function Fields(): Tail reads this { Tail(offset, inode, buffer, fileExists) }

    constructor (judge: Bytes -> Verdict, fromBeginning: bool)
      ensures Fields() == Tail(0, 0, [], true) && !started && emitted == []
      ensures this.judge == judge && this.fromBeginning == fromBeginning
    {
      this.judge, this.fromBeginning := judge, fromBeginning;
      offset, inode, buffer, fileExists, started, emitted := 0, 0, [], true, false, [];
    }

    method Start(disk: Disk)
      modifies this
      ensures started
      ensures old(started) ==> Fields() == old(Fields()) && emitted == old(emitted)
      ensures !old(started) ==>
        var t := StartTail(old(Fields()), disk, fromBeginning);
        var r := if fromBeginning && t.fileExists then ReadNewLines(judge, t, disk) else Step(t, [], false, []);
        Fields() == r.tail && emitted == old(emitted) + r.signals
    {
      if started { return; }
      started := true;
      match disk {
        case Present(file, _) =>
          inode := file.inode;
          offset := if fromBeginning then 0 else |file.bytes|;
          fileExists := true;
        case _ =>
          inode, offset, fileExists := 0, 0, false;
      }
      if fromBeginning && fileExists {
        ReadLines(disk);
      }
    }

    method Stop()
      modifies this`started
      ensures !started
    {
      started := false;
    }

    method Handle(event: EventType, disk: Disk)
      modifies this
      ensures started == old(started)
      ensures var r := HandleEvent(judge, old(Fields()), event, disk);
              Fields() == r.tail && emitted == old(emitted) + r.signals
    {
      if event.Failure? {
        emitted := emitted + [Error(WatcherError)];
        return;
      }
      if event.Delete? {
        Forget();
        return;
      }
      Prepare();
      ReadLines(disk);
      ghost var p := Prepared(old(Fields()));
      ghost var r := ReadNewLines(judge, p.0, disk);
      ConcatFacts(old(emitted), p.1, r.signals);
    }

    /** Lines 136-150 of the source. */
    method Prepare()
      modifies this
      ensures started == old(started)
      ensures Fields() == Prepared(old(Fields())).0 && emitted == old(emitted) + Prepared(old(Fields())).1
    {
      if !fileExists {
        fileExists, offset, inode, buffer := true, 0, 0, [];
        emitted := emitted + [Recovered(offset, buffer)];
      }
    }

    method Forget()
      modifies this
      ensures Fields() == GONE && emitted == old(emitted) + [Error(WatcherEnoent)] && started == old(started)
    {
      fileExists, offset, inode, buffer := false, 0, 0, [];
      emitted := emitted + [Error(WatcherEnoent)];
    }

    method ReadLines(disk: Disk)
      modifies this
      ensures started == old(started)
      ensures var r := ReadNewLines(judge, old(Fields()), disk);
              Fields() == r.tail && emitted == old(emitted) + r.signals
    {
      if disk.Missing? {
        Forget();
        return;
      }
      if disk.StatFails? {
        emitted := emitted + [Error(WatcherError)];
        return;
      }
      DetectReset(disk.file);
      Drain(disk.file, disk.readable);
      ghost var a := AfterStat(old(Fields()), disk.file);
      ghost var c := Consume(judge, a.tail, disk.file, disk.readable);
      ConcatFacts(old(emitted), a.signals, c.signals);
    }

    /** Lines 176-193 of the source. */
    method DetectReset(file: File)
      modifies this
      ensures started == old(started)
      ensures var a := AfterStat(old(Fields()), file);
              Fields() == a.tail && emitted == old(emitted) + a.signals
    {
      if inode != 0 && file.inode != 0 && file.inode != inode {
        emitted := emitted + [Error(RotationDetected)];
        offset, inode, buffer := 0, file.inode, [];
        emitted := emitted + [Recovered(offset, buffer)];
      } else if inode == 0 {
        inode := file.inode;
      }
      if |file.bytes| < offset {
        emitted := emitted + [Error(TruncationDetected)];
        offset, buffer := 0, [];
        emitted := emitted + [Recovered(offset, buffer)];
      }
    }

    /** Lines 195-223 of the source. */
    method Drain(file: File, readable: bool)
      requires offset <= |file.bytes|
      modifies this
      ensures started == old(started)
      ensures var c := Consume(judge, old(Fields()), file, readable);
              Fields() == c.tail && emitted == old(emitted) + c.signals
    {
      if |file.bytes| == offset {
        return;
      }
      if !readable {
        emitted := emitted + [Error(WatcherError)];
        return;
      }
      var raw := file.bytes[offset..];
      offset := |file.bytes|;
      var parts := Split(buffer + raw, NEWLINE);
      buffer := parts[|parts| - 1];
      ProcessLines(parts[..|parts| - 1]);
    }

    method ProcessLines(lines: seq<Bytes>)
      modifies this`emitted
      ensures emitted == old(emitted) + LineSignals(judge, lines)
    {
      for i := 0 to |lines|
        invariant emitted == old(emitted) + LineSignals(judge, lines[..i])
      {
        LineSignalsSnoc(judge, lines, i);
        if lines[i] != [] {
          emitted := emitted + [SignalOf(judge, lines[i])];
        }
      }
      assert lines[..|lines|] == lines;
    }
  }

  // ---------------------------------------------------------------- runs

  /** What can happen: to the file (the first four) or to the pipeline. */
  datatype Act =
    | Append(more: Bytes)
    | Rewrite(content: Bytes)
    | Replace(inode: int, content: Bytes)
    | Remove
    | Notify(event: EventType, statFails: bool, readable: bool)
    | Stop
    | Start(statFails: bool, readable: bool)

  /**
   The file, the tailer, and the history a reader of the log would want: the byte where
   reading (re)started, the lines split off since, and everything emitted to the listeners
   there have been since the pipeline was last started. `rewritten` says that the tailed file
   was truncated and written again since it was last looked at.
   */
  datatype World = World(
    file: Option<File>, used: set<int>, tail: Tail, started: bool, fromBeginning: bool,
    start: nat, lines: seq<Bytes>, rewritten: bool, trace: seq<Signal>)

  function DiskOf(file: Option<File>, statFails: bool, readable: bool): Disk {
    if statFails then StatFails
    else match file case None => Missing case Some(f) => Present(f, readable)
  }

  function Attach(file: Option<File>, fromBeginning: bool): World {
    World(file, if file.Some? then {file.value.inode} else {},
          StartTail(Tail(0, 0, [], true), DiskOf(file, false, true), fromBeginning), true, fromBeginning,
          if file.Some? && !fromBeginning then |file.value.bytes| else 0, [], false, [])
  }

  /** The world after a call of the pipeline. */
  function After(w: World, s: Step): World {
    if s.restarted then
      w.(tail := s.tail, start := 0, lines := s.lines, rewritten := false, trace := w.trace + s.signals)
    else
      w.(tail := s.tail, lines := w.lines + s.lines, trace := w.trace + s.signals)
  }

  /** `start` before it drains the file: new listeners, the fields of `StartTail`. */
  function Begun(w: World, statFails: bool): World {
    var disk := DiskOf(w.file, statFails, true);
    w.(tail := StartTail(w.tail, disk, w.fromBeginning), started := true, lines := [], rewritten := false, trace := [],
       start := if disk.Present? && !w.fromBeginning then |disk.file.bytes| else 0)
  }

  function Next(judge: Bytes -> Verdict, w: World, a: Act): World {
    match a
    case Append(more) =>
      if w.file.None? then w else w.(file := Some(w.file.value.(bytes := w.file.value.bytes + more)))
    case Rewrite(content) =>
      if w.file.None? then w else
      w.(file := Some(w.file.value.(bytes := content)),
         rewritten := w.rewritten || (w.file.value.inode == w.tail.inode && w.tail.offset > 0))
    case Replace(inode, content) => w.(file := Some(File(inode, content)), used := w.used + {inode})
    case Remove => w.(file := None)
    case Notify(event, statFails, readable) =>
      if !w.started then w else After(w, HandleEvent(judge, w.tail, event, DiskOf(w.file, statFails, readable)))
    case Stop => w.(started := false)
    case Start(statFails, readable) =>
      if w.started then w
      else
        var b := Begun(w, statFails);
        if b.fromBeginning && b.tail.fileExists then After(b, ReadNewLines(judge, b.tail, DiskOf(w.file, false, readable)))
        else b
  }

  function Run(judge: Bytes -> Verdict, w: World, acts: seq<Act>): World
    decreases acts
  {
    if acts == [] then w else Run(judge, Next(judge, w, acts[0]), acts[1..])
  }

  /**
   What the file system promises, and the two schedules that must be excluded: a new file
   never has an inode seen before; a handler call does not look at a rewritten file that has
   already grown back to the offset (nothing in `stat` gives that away); and a pipeline that is
   started again on a file holds no open piece from before it was stopped.
   */
  predicate Possible(w: World, a: Act) {
    match a
    case Replace(inode, _) => inode != 0 && inode !in w.used
    case Notify(event, statFails, _) =>
      w.started && (event.Create? || event.Change?) && !statFails && w.file.Some? ==>
        !Blind(Prepared(w.tail).0, w.file.value, w.rewritten)
    case Start(statFails, _) => !w.started && !statFails && w.file.Some? ==> w.tail.buffer == []
    case _ => true
  }

  predicate Blind(t: Tail, file: File, rewritten: bool) {
    rewritten && file.inode == t.inode && |file.bytes| >= t.offset
  }

  predicate PossibleRun(judge: Bytes -> Verdict, w: World, acts: seq<Act>)
    decreases acts
  {
    acts == [] || (Possible(w, acts[0]) && PossibleRun(judge, Next(judge, w, acts[0]), acts[1..]))
  }

  // ---------------------------------------------------------------- the trace

  predicate RestartSignal(s: Signal) { s.Recovered? || s == Error(WatcherEnoent) }

  /** The line signals after the last `recovered` or file-gone error of a trace. */
  function SinceRestart(trace: seq<Signal>): seq<Signal> {
    if trace == [] then []
    else
      var last := trace[|trace| - 1];
      if RestartSignal(last) then []
      else SinceRestart(trace[..|trace| - 1]) + (if IsLineSignal(last) then [last] else [])
  }

  predicate HasRestart(trace: seq<Signal>) {
    trace != [] && (RestartSignal(trace[|trace| - 1]) || HasRestart(trace[..|trace| - 1]))
  }

  /** Every `recovered` was emitted with the offset at 0 and the buffer empty. */
  predicate CleanRecoveries(trace: seq<Signal>) {
    trace == [] || ((trace[|trace| - 1].Recovered? ==> trace[|trace| - 1] == Recovered(0, []))
                    && CleanRecoveries(trace[..|trace| - 1]))
  }

  lemma {:induction false} TraceConcat(a: seq<Signal>, b: seq<Signal>)
    ensures SinceRestart(a + b) == if HasRestart(b) then SinceRestart(b) else SinceRestart(a) + OnlyLines(b)
    ensures HasRestart(a + b) <==> HasRestart(a) || HasRestart(b)
    ensures CleanRecoveries(a + b) <==> CleanRecoveries(a) && CleanRecoveries(b)
  {
    if b == [] {
      assert a + b == a;
    } else {
      var last, init := b[|b| - 1], b[..|b| - 1];
      LastOfConcat(a, b);
      TraceConcat(a, init);
      TraceSnoc(a + init, last);
      TraceSnoc(init, last);
      OnlyLinesSnoc(init, last);
      ConcatFacts(SinceRestart(a), OnlyLines(init), if IsLineSignal(last) then [last] else []);
    }
  }

  lemma LastOfConcat(a: seq<Signal>, b: seq<Signal>)
    requires b != []
    ensures a + b == a + b[..|b| - 1] + [b[|b| - 1]]
    ensures b == b[..|b| - 1] + [b[|b| - 1]]
  {
  }

  lemma TraceSnoc(t: seq<Signal>, x: Signal)
    ensures SinceRestart(t + [x])
            == if RestartSignal(x) then [] else SinceRestart(t) + (if IsLineSignal(x) then [x] else [])
    ensures HasRestart(t + [x]) <==> RestartSignal(x) || HasRestart(t)
    ensures CleanRecoveries(t + [x]) <==> (x.Recovered? ==> x == Recovered(0, [])) && CleanRecoveries(t)
  {
    var more := t + [x];
    assert more[..|more| - 1] == t;
  }

  lemma OneSignal(x: Signal)
    ensures SinceRestart([x]) == if IsLineSignal(x) then [x] else []
    ensures OnlyLines([x]) == if IsLineSignal(x) then [x] else []
    ensures HasRestart([x]) <==> RestartSignal(x)
    ensures CleanRecoveries([x]) <==> (x.Recovered? ==> x == Recovered(0, []))
  {
    var none: seq<Signal> := [];
    assert [x][..0] == none && [x][1..] == none;
  }

  lemma ResetSignals(code: ErrorCode)
    requires code != JsonParse && code != SchemaValidation
    ensures var both := [Error(code), Recovered(0, [])];
            OnlyLines(both) == [] && SinceRestart(both) == [] && HasRestart(both) && CleanRecoveries(both)
  {
    var x, y := Error(code), Recovered(0, []);
    OneSignal(x);
    OneSignal(y);
    TraceConcat([x], [y]);
    OnlyLinesSnoc([x], y);
    assert [x] + [y] == [x, y];
  }

  lemma {:induction false} LinesDoNotRestart(judge: Bytes -> Verdict, lines: seq<Bytes>)
    ensures !HasRestart(LineSignals(judge, lines)) && CleanRecoveries(LineSignals(judge, lines))
  {
    if lines != [] {
      LinesDoNotRestart(judge, lines[1..]);
      var head := if lines[0] == [] then [] else [SignalOf(judge, lines[0])];
      OneSignal(SignalOf(judge, lines[0]));
      TraceConcat(head, LineSignals(judge, lines[1..]));
    }
  }

  /** A handler call reports its lines after its restart signals, and says if it restarted. */
  predicate WellReported(judge: Bytes -> Verdict, s: Step) {
    && OnlyLines(s.signals) == LineSignals(judge, s.lines)
    && (s.restarted <==> HasRestart(s.signals))
    && (s.restarted ==> SinceRestart(s.signals) == LineSignals(judge, s.lines))
    && CleanRecoveries(s.signals)
  }

  /** Reset signals in front of a well-reported step. */
  lemma WellReportedAfter(judge: Bytes -> Verdict, before: seq<Signal>, s: Step)
    requires WellReported(judge, s) && OnlyLines(before) == SinceRestart(before) == [] && CleanRecoveries(before)
    ensures WellReported(judge, Step(s.tail, before + s.signals, s.restarted || HasRestart(before), s.lines))
  {
    OnlyLinesConcat(before, s.signals);
    TraceConcat(before, s.signals);
    assert [] + OnlyLines(s.signals) == OnlyLines(s.signals);
  }

  lemma ConsumeReported(judge: Bytes -> Verdict, t: Tail, file: File, readable: bool)
    requires t.offset <= |file.bytes|
    ensures WellReported(judge, Consume(judge, t, file, readable))
  {
    var c := Consume(judge, t, file, readable);
    if readable {
      OnlyLinesOfLines(judge, c.lines);
      LinesDoNotRestart(judge, c.lines);
    } else {
      OneSignal(Error(WatcherError));
    }
  }

  lemma AfterStatReported(t: Tail, file: File)
    ensures var a := AfterStat(t, file);
            && OnlyLines(a.signals) == SinceRestart(a.signals) == []
            && CleanRecoveries(a.signals) && (HasRestart(a.signals) <==> a.restarted)
  {
    if t.inode != 0 && file.inode != 0 && file.inode != t.inode {
      ResetSignals(RotationDetected);
    } else if |file.bytes| < t.offset {
      ResetSignals(TruncationDetected);
    }
  }

  lemma ReadReported(judge: Bytes -> Verdict, t: Tail, disk: Disk)
    ensures WellReported(judge, ReadNewLines(judge, t, disk))
  {
    match disk
    case Present(file, readable) =>
      var a := AfterStat(t, file);
      AfterStatReported(t, file);
      ConsumeReported(judge, a.tail, file, readable);
      WellReportedAfter(judge, a.signals, Consume(judge, a.tail, file, readable));
    case StatFails => OneSignal(Error(WatcherError));
    case Missing => OneSignal(Error(WatcherEnoent));
  }

  lemma StepReported(judge: Bytes -> Verdict, t: Tail, event: EventType, disk: Disk)
    ensures WellReported(judge, HandleEvent(judge, t, event, disk))
  {
    match event
    case Failure => OneSignal(Error(WatcherError));
    case Delete => OneSignal(Error(WatcherEnoent));
    case _ =>
      var p := Prepared(t);
      OneSignal(Recovered(0, []));
      ReadReported(judge, p.0, disk);
      WellReportedAfter(judge, p.1, ReadNewLines(judge, p.0, disk));
  }

  /** A look: a create or change event. */
  predicate Looks(event: EventType) { event.Create? || event.Change? }

  /** A look finds another file than the one looked at before. */
  predicate Rotated(t: Tail, event: EventType, disk: Disk) {
    Looks(event) && t.fileExists && disk.Present? && t.inode != 0 && disk.file.inode != 0 && t.inode != disk.file.inode
  }

  /** A look finds less than was read. */
  predicate Shrunk(t: Tail, event: EventType, disk: Disk) {
    Looks(event) && t.fileExists && disk.Present? && !Rotated(t, event, disk) && |disk.file.bytes| < t.offset
  }

  /** Which signals but those of lines a call emits: each exactly on its occasion. */
  lemma SignalsTell(judge: Bytes -> Verdict, t: Tail, event: EventType, disk: Disk)
    ensures var s := HandleEvent(judge, t, event, disk).signals;
            var again := Looks(event) && (!t.fileExists || Rotated(t, event, disk) || Shrunk(t, event, disk));
            && (Error(RotationDetected) in s <==> Rotated(t, event, disk))
            && (Error(TruncationDetected) in s <==> Shrunk(t, event, disk))
            && (Recovered(0, []) in s <==> again)
            && (Error(WatcherEnoent) in s <==> event.Delete? || (Looks(event) && disk.Missing?))
            && (Error(WatcherError) in s <==>
                  || event.Failure? || (Looks(event) && disk.StatFails?)
                  || (Looks(event) && disk.Present? && !disk.readable && |disk.file.bytes| != if again then 0 else t.offset))
  {
    if Looks(event) && disk.Present? { LookTells(judge, t, event, disk); }
  }

  lemma LookTells(judge: Bytes -> Verdict, t: Tail, event: EventType, disk: Disk)
    requires Looks(event) && disk.Present?
    ensures var s := HandleEvent(judge, t, event, disk).signals;
            var again := !t.fileExists || Rotated(t, event, disk) || Shrunk(t, event, disk);
            && (Error(RotationDetected) in s <==> Rotated(t, event, disk))
            && (Error(TruncationDetected) in s <==> Shrunk(t, event, disk))
            && (Recovered(0, []) in s <==> again) && Error(WatcherEnoent) !in s
            && (Error(WatcherError) in s <==> !disk.readable && |disk.file.bytes| != if again then 0 else t.offset)
  {
    var a := AfterStat(Prepared(t).0, disk.file);
    var c := Consume(judge, a.tail, disk.file, disk.readable);
    ConsumeTells(judge, a.tail, disk.file, disk.readable);
    LookSignals(judge, t, event, disk);
    StatTells(t, event, disk);
    Together(Prepared(t).1, a.signals, c.signals, !t.fileExists, Rotated(t, event, disk), Shrunk(t, event, disk));
  }

  /** The signals of the three parts of a look. */
  lemma Together(before: seq<Signal>, stat: seq<Signal>, read: seq<Signal>, anew: bool, rotated: bool, shrunk: bool)
    requires forall x :: x in before <==> anew && x == Recovered(0, [])
    requires forall x :: x in stat <==>
               || (rotated && (x == Error(RotationDetected) || x == Recovered(0, [])))
               || (shrunk && (x == Error(TruncationDetected) || x == Recovered(0, [])))
    requires forall x :: x in read ==> x.Data? || x == Error(JsonParse) || x == Error(SchemaValidation) || x == Error(WatcherError)
    ensures var s := before + (stat + read);
            && (Error(RotationDetected) in s <==> rotated) && (Error(TruncationDetected) in s <==> shrunk)
            && (Recovered(0, []) in s <==> anew || rotated || shrunk) && Error(WatcherEnoent) !in s
            && (Error(WatcherError) in s <==> Error(WatcherError) in read)
  {
    InConcat(before, stat, read);
  }

  lemma LookSignals(judge: Bytes -> Verdict, t: Tail, event: EventType, disk: Disk)
    requires Looks(event) && disk.Present?
    ensures var a := AfterStat(Prepared(t).0, disk.file);
            HandleEvent(judge, t, event, disk).signals
            == Prepared(t).1 + (a.signals + Consume(judge, a.tail, disk.file, disk.readable).signals)
  {
  }

  lemma InConcat(a: seq<Signal>, b: seq<Signal>, c: seq<Signal>)
    ensures forall x :: x in a + (b + c) <==> x in a || x in b || x in c
  {
  }

  lemma StatTells(t: Tail, event: EventType, disk: Disk)
    requires Looks(event) && disk.Present?
    ensures var before, a := Prepared(t).1, AfterStat(Prepared(t).0, disk.file);
            && (forall x :: x in before <==> !t.fileExists && x == Recovered(0, []))
            && (forall x :: x in a.signals <==>
                  || (Rotated(t, event, disk) && (x == Error(RotationDetected) || x == Recovered(0, [])))
                  || (Shrunk(t, event, disk) && (x == Error(TruncationDetected) || x == Recovered(0, []))))
            && a.tail.offset == (if !t.fileExists || Rotated(t, event, disk) || Shrunk(t, event, disk) then 0 else t.offset)
  {
  }

  lemma ConsumeTells(judge: Bytes -> Verdict, t: Tail, file: File, readable: bool)
    requires t.offset <= |file.bytes|
    ensures var s := Consume(judge, t, file, readable).signals;
            && (Error(WatcherError) in s <==> !readable && |file.bytes| != t.offset)
            && forall x :: x in s ==> x.Data? || x == Error(JsonParse) || x == Error(SchemaValidation) || x == Error(WatcherError)
  {
    LinesTellOfLines(judge, Consume(judge, t, file, readable).lines);
  }

  /** The invariant of every run: the fields fit the file, and the signals fit the lines. */
  ghost predicate Inv(judge: Bytes -> Verdict, w: World) { Fits(w) && Reported(judge, w) }

  ghost predicate Fits(w: World) {
    && (w.file.Some? ==> w.file.value.inode != 0 && w.file.value.inode in w.used)
    && (w.tail.inode != 0 ==> w.tail.inode in w.used)
    && 0 !in w.used
    && (w.tail.inode == 0 ==> w.start == w.tail.offset == 0 && w.lines == [] && !w.rewritten)
    && (w.tail.inode == 0 && w.tail.fileExists ==> w.tail.buffer == [])
    && (Current(w) ==>
          w.start <= w.tail.offset <= |w.file.value.bytes|
          && Split(w.file.value.bytes[w.start..w.tail.offset], NEWLINE) == w.lines + [w.tail.buffer])
  }

  /** What has been emitted since the last restart reports the lines split off since, nothing else. */
  ghost predicate Reported(judge: Bytes -> Verdict, w: World) {
    && SinceRestart(w.trace) == LineSignals(judge, w.lines)
    && CleanRecoveries(w.trace) && (HasRestart(w.trace) ==> w.start == 0)
  }

  /** The tailer is on the file that is there, and that file has only grown since. */
  predicate Current(w: World) {
    w.file.Some? && w.file.value.inode == w.tail.inode && !w.rewritten
  }

  /** What has been read, as lines and an open piece. */
  ghost predicate Reads(file: File, start: nat, t: Tail, lines: seq<Bytes>) {
    start <= t.offset <= |file.bytes| && Split(file.bytes[start..t.offset], NEWLINE) == lines + [t.buffer]
  }

  lemma ConsumeReads(judge: Bytes -> Verdict, file: File, start: nat, t: Tail, lines: seq<Bytes>, readable: bool)
    requires Reads(file, start, t, lines)
    ensures var c := Consume(judge, t, file, readable);
            Reads(file, start, c.tail, lines + c.lines)
            && c.tail.inode == t.inode && (readable ==> c.tail.offset == |file.bytes|)
  {
    var c := Consume(judge, t, file, readable);
    if readable && |file.bytes| != t.offset {
      LinesInChunks(file.bytes[start..t.offset], file.bytes[t.offset..], lines, t.buffer);
      SliceFacts(file.bytes, [], start, t.offset);
    } else {
      ConcatFacts(lines, [], []);
    }
  }

  lemma FromZero(file: File, t: Tail)
    requires t.offset == 0 && t.buffer == []
    ensures Reads(file, 0, t, [])
  {
    assert file.bytes[0..0] == [];
  }

  /** One look at a file: where reading goes on from, or from byte 0 after a restart. */
  lemma LookReads(judge: Bytes -> Verdict, file: File, start: nat, t: Tail, lines: seq<Bytes>, readable: bool, rewritten: bool)
    requires file.inode != 0
    requires t.inode == 0 ==> start == t.offset == 0 && t.buffer == [] && lines == []
    requires t.inode == file.inode && !rewritten ==> Reads(file, start, t, lines)
    requires !Blind(t, file, rewritten)
    ensures var r := ReadNewLines(judge, t, Present(file, readable));
            && r.tail.inode == file.inode
            && (readable ==> r.tail.offset == |file.bytes|)
            && (t.inode == file.inode && rewritten ==> r.restarted)
            && Reads(file, if r.restarted then 0 else start, r.tail, if r.restarted then r.lines else lines + r.lines)
  {
    var a := AfterStat(t, file);
    var r := ReadNewLines(judge, t, Present(file, readable));
    var c := Consume(judge, a.tail, file, readable);
    assert r.tail == c.tail && r.lines == c.lines && r.restarted == a.restarted;
    if a.restarted || t.inode == 0 {
      FromZero(file, a.tail);
      ConsumeReads(judge, file, 0, a.tail, [], readable);
      ConcatFacts(c.lines, [], []);
    } else {
      ConsumeReads(judge, file, start, a.tail, lines, readable);
    }
  }

  /** A handler call on the file that is there. */
  lemma NotifyReads(judge: Bytes -> Verdict, w: World, event: EventType, readable: bool)
    requires Inv(judge, w) && w.started && w.file.Some? && Possible(w, Notify(event, false, readable))
    requires event.Create? || event.Change?
    ensures var n := Next(judge, w, Notify(event, false, readable));
            && Current(n) && Reads(w.file.value, n.start, n.tail, n.lines)
            && (readable ==> n.tail.offset == |w.file.value.bytes|)
  {
    var p := Prepared(w.tail);
    var start, lines := if p.2 then 0 else w.start, if p.2 then [] else w.lines;
    var r := ReadNewLines(judge, p.0, Present(w.file.value, readable));
    var n := Next(judge, w, Notify(event, false, readable));
    assert n.tail == r.tail && n.file == w.file && n.start == if r.restarted then 0 else start;
    assert n.lines == if r.restarted || p.2 then r.lines else lines + r.lines;
    assert n.rewritten == (w.rewritten && !p.2 && !r.restarted);
    LookReads(judge, w.file.value, start, p.0, lines, readable, w.rewritten);
    ConcatFacts(r.lines, [], []);
  }

  /** The trace keeps reporting exactly the lines split off since the last restart. */
  lemma ReportsAfter(judge: Bytes -> Verdict, trace: seq<Signal>, lines: seq<Bytes>, s: Step)
    requires WellReported(judge, s)
    requires SinceRestart(trace) == LineSignals(judge, lines) && CleanRecoveries(trace)
    ensures SinceRestart(trace + s.signals) == LineSignals(judge, if s.restarted then s.lines else lines + s.lines)
    ensures CleanRecoveries(trace + s.signals)
    ensures HasRestart(trace + s.signals) <==> HasRestart(trace) || s.restarted
  {
    TraceConcat(trace, s.signals);
    LineSignalsConcat(judge, lines, s.lines);
  }

  lemma AfterReports(judge: Bytes -> Verdict, w: World, s: Step)
    requires Reported(judge, w) && WellReported(judge, s)
    ensures Reported(judge, After(w, s))
  {
    ReportsAfter(judge, w.trace, w.lines, s);
  }

  lemma InvNotify(judge: Bytes -> Verdict, w: World, event: EventType, statFails: bool, readable: bool)
    requires Inv(judge, w) && w.started && Possible(w, Notify(event, statFails, readable))
    ensures Inv(judge, Next(judge, w, Notify(event, statFails, readable)))
  {
    var disk := DiskOf(w.file, statFails, readable);
    StepReported(judge, w.tail, event, disk);
    AfterReports(judge, w, HandleEvent(judge, w.tail, event, disk));
    if (event.Create? || event.Change?) && !statFails && w.file.Some? {
      LookFits(judge, w, event, readable);
    } else {
      NoLookFits(judge, w, event, statFails, readable);
    }
  }

  lemma LookFits(judge: Bytes -> Verdict, w: World, event: EventType, readable: bool)
    requires Inv(judge, w) && w.started && w.file.Some? && Possible(w, Notify(event, false, readable))
    requires event.Create? || event.Change?
    ensures Fits(Next(judge, w, Notify(event, false, readable)))
  {
    NotifyReads(judge, w, event, readable);
  }

  lemma NoLookFits(judge: Bytes -> Verdict, w: World, event: EventType, statFails: bool, readable: bool)
    requires Fits(w) && (event.Failure? || event.Delete? || statFails || w.file.None?)
    ensures Fits(After(w, HandleEvent(judge, w.tail, event, DiskOf(w.file, statFails, readable))))
  {
    NotLooked(judge, w, event, statFails, readable);
  }

  /** A call that sees no file keeps the fields or clears them. */
  lemma NotLooked(judge: Bytes -> Verdict, w: World, event: EventType, statFails: bool, readable: bool)
    requires event.Failure? || event.Delete? || statFails || w.file.None?
    ensures var s := HandleEvent(judge, w.tail, event, DiskOf(w.file, statFails, readable));
            && s.lines == [] && After(w, s).lines == (if s.restarted then [] else w.lines)
            && (s.tail == w.tail || (s.restarted && (s.tail == GONE || s.tail == Tail(0, 0, [], true))))
  {
    ConcatFacts(w.lines, [], []);
  }

  lemma EmptyTrace(judge: Bytes -> Verdict)
    ensures SinceRestart([]) == LineSignals(judge, []) && CleanRecoveries([]) && !HasRestart([])
  {
  }

  lemma InvBegun(judge: Bytes -> Verdict, w: World, statFails: bool)
    requires Inv(judge, w) && (!statFails && w.file.Some? ==> w.tail.buffer == [])
    ensures Inv(judge, Begun(w, statFails))
  {
    var b := Begun(w, statFails);
    EmptyTrace(judge);
    if !statFails && w.file.Some? {
      assert w.file.value.bytes[b.start..b.tail.offset] == [];
    }
  }

  /** Draining the file that is there, at the start. */
  lemma InvDrain(judge: Bytes -> Verdict, w: World, readable: bool)
    requires Inv(judge, w) && Current(w) && w.tail.offset == w.start == 0
    ensures Inv(judge, After(w, ReadNewLines(judge, w.tail, DiskOf(w.file, false, readable))))
  {
    var r := ReadNewLines(judge, w.tail, Present(w.file.value, readable));
    ReadReported(judge, w.tail, Present(w.file.value, readable));
    AfterReports(judge, w, r);
    LookReads(judge, w.file.value, 0, w.tail, w.lines, readable, false);
  }

  lemma InvStep(judge: Bytes -> Verdict, w: World, a: Act)
    requires Inv(judge, w) && Possible(w, a)
    ensures Inv(judge, Next(judge, w, a))
  {
    match a
    case Append(more) =>
      if Current(w) {
        SliceFacts(w.file.value.bytes, more, w.start, w.tail.offset);
      }
    case Rewrite(content) =>
      if Current(w) && w.tail.offset == 0 {
        assert content[0..0] == w.file.value.bytes[0..0];
      }
    case Notify(event, statFails, readable) => if w.started { InvNotify(judge, w, event, statFails, readable); }
    case Start(statFails, readable) =>
      if !w.started {
        InvBegun(judge, w, statFails);
        var b := Begun(w, statFails);
        if b.fromBeginning && b.tail.fileExists { InvDrain(judge, b, readable); }
      }
    case _ =>
  }

  lemma {:induction false} InvRun(judge: Bytes -> Verdict, w: World, acts: seq<Act>)
    requires Inv(judge, w) && PossibleRun(judge, w, acts)
    ensures Inv(judge, Run(judge, w, acts))
    decreases acts
  {
    if acts != [] {
      InvStep(judge, w, acts[0]);
      InvRun(judge, Next(judge, w, acts[0]), acts[1..]);
    }
  }

  lemma InvAttach(judge: Bytes -> Verdict, file: Option<File>, fromBeginning: bool)
    requires file.Some? ==> file.value.inode != 0
    ensures Inv(judge, Attach(file, fromBeginning))
  {
    var w := Attach(file, fromBeginning);
    if file.Some? {
      assert file.value.bytes[w.start..w.tail.offset] == [];
    }
  }

  // ---------------------------------------------------------------- main results

  /**
   Tail refinement and reset safety, over every possible run, stops and starts included. After
   a call that reached and read the file, the line signals since the last restart are
   exactly those of the file's complete lines, each non-empty line once and in order; the
   buffer is the open piece, and after any restart reading began at byte 0. Every
   `recovered` found the offset at 0 and the buffer empty.
   */
  lemma TailRefinement(
    judge: Bytes -> Verdict, file: Option<File>, fromBeginning: bool, acts: seq<Act>, event: EventType)
    requires file.Some? ==> file.value.inode != 0
    requires PossibleRun(judge, Attach(file, fromBeginning), acts)
    requires event.Create? || event.Change?
    ensures var w := Run(judge, Attach(file, fromBeginning), acts);
            w.started && w.file.Some? && Possible(w, Notify(event, false, true)) ==>
              var n := Next(judge, w, Notify(event, false, true));
              var bytes := w.file.value.bytes;
              && n.tail.offset == |bytes| && n.start <= |bytes|
              && Told(judge, SinceRestart(n.trace), NonEmpty(CompleteLines(bytes[n.start..])))
              && Payloads(SinceRestart(n.trace)) == ValidPayloads(judge, NonEmpty(CompleteLines(bytes[n.start..])))
              && bytes[n.start..] == Terminated(CompleteLines(bytes[n.start..]), NEWLINE) + n.tail.buffer
              && (HasRestart(n.trace) ==> n.start == 0)
              && CleanRecoveries(n.trace)
  {
    var w0 := Attach(file, fromBeginning);
    var w := Run(judge, w0, acts);
    InvAttach(judge, file, fromBeginning);
    InvRun(judge, w0, acts);
    if w.started && w.file.Some? && Possible(w, Notify(event, false, true)) {
      var n := Next(judge, w, Notify(event, false, true));
      InvNotify(judge, w, event, false, true);
      NotifyReads(judge, w, event, true);
      var bytes := w.file.value.bytes;
      assert bytes[n.start..n.tail.offset] == bytes[n.start..];
      assert (n.lines + [n.tail.buffer])[..|n.lines|] == n.lines;
      SplitIsTerminated(bytes[n.start..], NEWLINE);
      LinesAreTold(judge, n.lines);
      PayloadsAreTold(judge, SinceRestart(n.trace), NonEmpty(n.lines));
    }
  }

  /** Between looks the same holds of what has been read, as long as the file only grew. */
  lemma TailRefinementBetween(judge: Bytes -> Verdict, file: Option<File>, fromBeginning: bool, acts: seq<Act>)
    requires file.Some? ==> file.value.inode != 0
    requires PossibleRun(judge, Attach(file, fromBeginning), acts)
    ensures var w := Run(judge, Attach(file, fromBeginning), acts);
            Current(w) ==>
              && w.start <= w.tail.offset <= |w.file.value.bytes|
              && var read := w.file.value.bytes[w.start..w.tail.offset];
              && Told(judge, SinceRestart(w.trace), NonEmpty(CompleteLines(read)))
              && read == Terminated(CompleteLines(read), NEWLINE) + w.tail.buffer
  {
    var w0 := Attach(file, fromBeginning);
    InvAttach(judge, file, fromBeginning);
    InvRun(judge, w0, acts);
    var w := Run(judge, w0, acts);
    if Current(w) {
      assert (w.lines + [w.tail.buffer])[..|w.lines|] == w.lines;
      SplitIsTerminated(w.file.value.bytes[w.start..w.tail.offset], NEWLINE);
      LinesAreTold(judge, w.lines);
    }
  }

  // ---------------------------------------------------------------- append-only runs

  /** Appends, and handler calls that may fail to look or to read. */
  predicate Quiet(a: Act) {
    a.Append? || (a.Notify? && (a.event.Change? || a.event.Create? || a.event.Failure?))
  }

  /** Everything appended, in order. */
  function Appended(acts: seq<Act>): Bytes {
    if acts == [] then [] else (if acts[0].Append? then acts[0].more else []) + Appended(acts[1..])
  }

  /** A tailer that is on the file and has not restarted. */
  ghost predicate Settled(judge: Bytes -> Verdict, w: World) {
    Inv(judge, w) && w.started && Current(w) && w.tail.fileExists && !HasRestart(w.trace)
  }

  /** On a settled tailer a look is a plain read. */
  lemma SettledLook(judge: Bytes -> Verdict, w: World, event: EventType, readable: bool)
    requires Settled(judge, w) && (event.Create? || event.Change?)
    ensures HandleEvent(judge, w.tail, event, Present(w.file.value, readable))
            == Consume(judge, w.tail, w.file.value, readable)
  {
    ConcatFacts([], [], Consume(judge, w.tail, w.file.value, readable).signals);
  }

  lemma QuietStep(judge: Bytes -> Verdict, w: World, a: Act)
    requires Settled(judge, w) && Quiet(a)
    ensures Possible(w, a)
    ensures var n := Next(judge, w, a);
            Settled(judge, n) && n.start == w.start
            && n.file.value.bytes == w.file.value.bytes + if a.Append? then a.more else []
  {
    InvStep(judge, w, a);
    ConcatFacts(w.file.value.bytes, [], []);
    if a.Notify? { QuietLook(judge, w, a.event, a.statFails, a.readable); }
  }

  lemma QuietLook(judge: Bytes -> Verdict, w: World, event: EventType, statFails: bool, readable: bool)
    requires Settled(judge, w) && (event.Change? || event.Create? || event.Failure?)
    ensures var s := HandleEvent(judge, w.tail, event, DiskOf(w.file, statFails, readable));
            !s.restarted && !HasRestart(w.trace + s.signals) && s.tail.inode == w.tail.inode && s.tail.fileExists
  {
    var s := HandleEvent(judge, w.tail, event, DiskOf(w.file, statFails, readable));
    StepReported(judge, w.tail, event, DiskOf(w.file, statFails, readable));
    TraceConcat(w.trace, s.signals);
  }

  lemma {:induction false} QuietRun(judge: Bytes -> Verdict, w: World, acts: seq<Act>)
    requires Settled(judge, w) && forall a :: a in acts ==> Quiet(a)
    ensures var n := Run(judge, w, acts);
            Settled(judge, n) && n.start == w.start && n.file.value.bytes == w.file.value.bytes + Appended(acts)
    decreases acts
  {
    if acts == [] {
      ConcatFacts(w.file.value.bytes, [], []);
    } else {
      var a, bytes := acts[0], w.file.value.bytes;
      var piece := if a.Append? then a.more else [];
      assert Quiet(a);
      QuietStep(judge, w, a);
      QuietRun(judge, Next(judge, w, a), acts[1..]);
      ConcatFacts(bytes, piece, Appended(acts[1..]));
    }
  }

  lemma {:induction false} QuietPossible(judge: Bytes -> Verdict, w: World, acts: seq<Act>)
    requires Settled(judge, w) && forall a :: a in acts ==> Quiet(a)
    ensures PossibleRun(judge, w, acts)
    decreases acts
  {
    if acts != [] {
      assert Quiet(acts[0]);
      QuietStep(judge, w, acts[0]);
      QuietPossible(judge, Next(judge, w, acts[0]), acts[1..]);
    }
  }

  /**
   However the appends are chunked and the calls fall between them: a final successful read
   leaves the line signals of everything that followed the starting offset, and nothing else.
   */
  lemma ChunkingDoesNotMatter(judge: Bytes -> Verdict, file: File, fromBeginning: bool, acts: seq<Act>)
    requires file.inode != 0 && forall a :: a in acts ==> Quiet(a)
    ensures var w := Run(judge, Attach(Some(file), fromBeginning), acts);
            var n := Next(judge, w, Notify(Change, false, true));
            var seen := (if fromBeginning then file.bytes else []) + Appended(acts);
            && Told(judge, OnlyLines(n.trace), NonEmpty(CompleteLines(seen)))
            && Payloads(n.trace) == ValidPayloads(judge, NonEmpty(CompleteLines(seen)))
            && seen == Terminated(CompleteLines(seen), NEWLINE) + n.tail.buffer
  {
    var w0 := Attach(Some(file), fromBeginning);
    InvAttach(judge, Some(file), fromBeginning);
    QuietPossible(judge, w0, acts);
    QuietRun(judge, w0, acts);
    var w := Run(judge, w0, acts);
    QuietStep(judge, w, Notify(Change, false, true));
    var n := Next(judge, w, Notify(Change, false, true));
    TailRefinement(judge, Some(file), fromBeginning, acts, Change);
    WithoutRestart(n.trace);
    PayloadsInLines(n.trace);
    assert w.file.value.bytes[n.start..] == (if fromBeginning then file.bytes else []) + Appended(acts);
  }

  // ---------------------------------------------------------------- the excluded schedules

  /**
   A blind look: it reads on as in the file it knows. Lines and buffer are then the file's from
   the start, exactly if the file holds, up to the offset, the bytes that were read.
   */
  lemma BlindLookIff(judge: Bytes -> Verdict, w: World, event: EventType, readable: bool, was: Bytes)
    requires w.started && w.tail.fileExists && w.file.Some? && w.file.value.inode == w.tail.inode != 0
    requires event.Create? || event.Change?
    requires w.start <= w.tail.offset <= |w.file.value.bytes| && Split(was, NEWLINE) == w.lines + [w.tail.buffer]
    ensures var n := Next(judge, w, Notify(event, false, readable));
            Reads(w.file.value, n.start, n.tail, n.lines) <==> w.file.value.bytes[w.start..w.tail.offset] == was
  {
    var t, file := w.tail, w.file.value;
    BlindLook(judge, w, event, readable);
    ReadsOnIff(judge, t, file, readable, w.start, w.lines, was);
  }

  lemma ReadsOnIff(judge: Bytes -> Verdict, t: Tail, file: File, readable: bool, start: nat, lines: seq<Bytes>, was: Bytes)
    requires start <= t.offset <= |file.bytes| && Split(was, NEWLINE) == lines + [t.buffer]
    ensures var c := Consume(judge, t, file, readable);
            Reads(file, start, c.tail, lines + c.lines) <==> file.bytes[start..t.offset] == was
  {
    if readable && |file.bytes| != t.offset {
      GoingOn(was, file.bytes, start, t.offset, lines, t.buffer);
      assert file.bytes[start..|file.bytes|] == file.bytes[start..];
    } else {
      SplitInjective(file.bytes[start..t.offset], was);
      ConcatFacts(lines, [], []);
    }
  }

  lemma BlindLook(judge: Bytes -> Verdict, w: World, event: EventType, readable: bool)
    requires w.started && w.tail.fileExists && w.file.Some? && w.file.value.inode == w.tail.inode != 0
    requires (event.Create? || event.Change?) && w.tail.offset <= |w.file.value.bytes|
    ensures var n, c := Next(judge, w, Notify(event, false, readable)), Consume(judge, w.tail, w.file.value, readable);
            n.tail == c.tail && n.lines == w.lines + c.lines && n.start == w.start
  {
    assert ReadNewLines(judge, w.tail, Present(w.file.value, readable)).lines
        == Consume(judge, w.tail, w.file.value, readable).lines;
  }

  /** Running two acts after a run. */
  lemma {:induction false} RunConcat(judge: Bytes -> Verdict, w: World, acts: seq<Act>, more: seq<Act>)
    ensures Run(judge, w, acts + more) == Run(judge, Run(judge, w, acts), more)
    decreases acts
  {
    if acts == [] {
      assert acts + more == more;
    } else {
      assert (acts + more)[0] == acts[0] && (acts + more)[1..] == acts[1..] + more;
      RunConcat(judge, Next(judge, w, acts[0]), acts[1..], more);
    }
  }

  lemma RunTwo(judge: Bytes -> Verdict, w: World, a: Act, b: Act)
    ensures Run(judge, w, [a, b]) == Next(judge, Next(judge, w, a), b)
  {
    var acts := [a, b];
    assert acts[0] == a && acts[1..] == [b] && acts[1..][1..] == [];
    var n := Next(judge, w, a);
    assert Run(judge, n, [b]) == Run(judge, Next(judge, n, b), [b][1..]);
  }

  const LOOK := Notify(Change, false, true)

  /** A look at the file it is on, with something to read. */
  lemma PlainLook(judge: Bytes -> Verdict, t: Tail, file: File)
    requires t.fileExists && t.inode == file.inode != 0 && t.offset < |file.bytes|
    ensures HandleEvent(judge, t, Change, Present(file, true)) == Consume(judge, t, file, true)
  {
    var c := Consume(judge, t, file, true);
    ConcatFacts([], c.signals, []);
  }

  /** A world in which a tailer that started on an empty file has read what the file held. */
  function Reading(bytes: Bytes, t: Tail): World {
    Attach(Some(File(7, [])), false).(file := Some(File(7, bytes)), tail := t)
  }

  /** A pipeline on an empty file that then read two bytes without a newline. */
  lemma TwoBytesRead(judge: Bytes -> Verdict, a: Byte, b: Byte)
    requires a != NEWLINE && b != NEWLINE
    ensures Run(judge, Attach(Some(File(7, [])), false), [Append([a, b]), LOOK]) == Reading([a, b], Tail(2, 7, [a, b], true))
    ensures PossibleRun(judge, Attach(Some(File(7, [])), false), [Append([a, b]), LOOK])
  {
    var w0, t := Attach(Some(File(7, [])), false), Tail(0, 7, [], true);
    var read: Bytes := [a, b];
    RunTwo(judge, w0, Append(read), LOOK);
    ConcatFacts([], read, []);
    assert Next(judge, w0, Append(read)) == Reading(read, t);
    PlainLook(judge, t, File(7, read));
    assert read[0..] == read;
    SplitWithout(read, NEWLINE);
    assert Consume(judge, t, File(7, read), true) == Step(Tail(2, 7, read, true), [], false, []);
    assert [Append(read), LOOK][1..] == [LOOK] && [LOOK][1..] == [];
  }

  /** A look that completes one line. */
  lemma OneLineLook(judge: Bytes -> Verdict, w: World, line: Bytes)
    requires w.started && w.tail.fileExists && w.file.Some? && w.file.value.inode == w.tail.inode != 0 && w.tail.offset < |w.file.value.bytes|
    requires w.tail.buffer + w.file.value.bytes[w.tail.offset..] == line + [NEWLINE] && NEWLINE !in line && line != []
    ensures Next(judge, w, LOOK)
            == w.(tail := w.tail.(offset := |w.file.value.bytes|, buffer := []), lines := w.lines + [line],
                  trace := w.trace + [SignalOf(judge, line)])
  {
    PlainLook(judge, w.tail, w.file.value);
    OneLine(judge, line);
  }

  lemma OneLine(judge: Bytes -> Verdict, line: Bytes)
    requires NEWLINE !in line
    ensures Split(line + [NEWLINE], NEWLINE) == [line] + [[]] && CompleteLines(line + [NEWLINE]) == [line]
    ensures line != [] ==> LineSignals(judge, [line]) == [SignalOf(judge, line)]
  {
    SplitStep(line, NEWLINE, []);
    ConcatFacts(line + [NEWLINE], [], []);
    LineSignalsCons(judge, line, []);
  }

  /**
   Why blind looks are excluded: `ab` was read, the file was written again as `cd` and a
   newline before the next look, and the line reported is one the file never held.
   */
  lemma BlindLookMixesFiles(judge: Bytes -> Verdict)
    ensures var w0, acts := Attach(Some(File(7, [])), false), [Append([97, 98]), LOOK] + [Rewrite([99, 100, NEWLINE]), LOOK];
            var w := Run(judge, w0, acts);
            && w.trace == [SignalOf(judge, [97, 98])] && !PossibleRun(judge, w0, acts)
            && w.file == Some(File(7, [99, 100, NEWLINE])) && CompleteLines([99, 100, NEWLINE]) == [[99, 100]]
  {
    var w0, first := Attach(Some(File(7, [])), false), [Append([97, 98]), LOOK];
    var bytes: Bytes := [99, 100, NEWLINE];
    TwoBytesRead(judge, 97, 98);
    RunConcat(judge, w0, first, [Rewrite(bytes), LOOK]);
    PossiblePrefix(judge, w0, first, [Rewrite(bytes), LOOK]);
    var w2 := Reading([97, 98], Tail(2, 7, [97, 98], true));
    RunTwo(judge, w2, Rewrite(bytes), LOOK);
    MixedLine(judge, w2, bytes);
    OneLine(judge, [99, 100]);
    assert [99, 100] + [NEWLINE] == bytes;
    assert [Rewrite(bytes), LOOK][1..] == [LOOK];
  }

  /** After the rewrite the look reports the old bytes with the new line end, and is one of the excluded ones. */
  lemma MixedLine(judge: Bytes -> Verdict, w: World, bytes: Bytes)
    requires w == Reading([97, 98], Tail(2, 7, [97, 98], true)) && bytes == [99, 100, NEWLINE]
    ensures var w3 := Next(judge, w, Rewrite(bytes));
            && !Possible(w3, LOOK)
            && Next(judge, w3, LOOK).trace == [SignalOf(judge, [97, 98])] && Next(judge, w3, LOOK).file == Some(File(7, bytes))
  {
    var w3 := Next(judge, w, Rewrite(bytes));
    assert [97, 98] + bytes[2..] == [97, 98] + [NEWLINE];
    OneLineLook(judge, w3, [97, 98]);
  }

  lemma {:induction false} PossiblePrefix(judge: Bytes -> Verdict, w: World, acts: seq<Act>, more: seq<Act>)
    ensures PossibleRun(judge, w, acts + more) <==>
      PossibleRun(judge, w, acts) && PossibleRun(judge, Run(judge, w, acts), more)
    decreases acts
  {
    if acts == [] {
      assert acts + more == more;
    } else {
      assert (acts + more)[0] == acts[0] && (acts + more)[1..] == acts[1..] + more;
      PossiblePrefix(judge, Next(judge, w, acts[0]), acts[1..], more);
    }
  }

  /** A start on a file is clean, lines and buffer being those of what is read from then on, exactly if the buffer is empty. */
  lemma CleanStartIff(judge: Bytes -> Verdict, w: World, readable: bool)
    requires !w.started && w.file.Some? && w.file.value.inode != 0
    ensures var n := Next(judge, w, Start(false, readable));
            Reads(w.file.value, n.start, n.tail, n.lines) <==> w.tail.buffer == []
  {
    var b := Begun(w, false);
    NothingRead(w.file.value, b.start, b.tail.buffer);
    if w.fromBeginning { CleanDrainIff(judge, b, readable); }
  }

  lemma CleanDrainIff(judge: Bytes -> Verdict, b: World, readable: bool)
    requires b.file.Some? && b.file.value.inode == b.tail.inode != 0 && b.tail.offset == b.start == 0 && b.lines == []
    ensures var n := After(b, ReadNewLines(judge, b.tail, Present(b.file.value, readable)));
            Reads(b.file.value, n.start, n.tail, n.lines) <==> b.tail.buffer == []
  {
    var r, c := ReadNewLines(judge, b.tail, Present(b.file.value, readable)), Consume(judge, b.tail, b.file.value, readable);
    assert r.tail == c.tail && r.lines == c.lines && !r.restarted;
    ConcatFacts([], c.lines, []);
    CleanReadIff(judge, b.file.value, b.tail, readable);
  }

  lemma CleanReadIff(judge: Bytes -> Verdict, file: File, t: Tail, readable: bool)
    requires t.offset == 0
    ensures var c := Consume(judge, t, file, readable); Reads(file, 0, c.tail, c.lines) <==> t.buffer == []
  {
    NothingRead(file, 0, t.buffer);
    if readable && file.bytes != [] { CleanBytesIff(file.bytes, t.buffer, Split(t.buffer + file.bytes[0..], NEWLINE)); }
  }

  lemma CleanBytesIff(bytes: Bytes, buffer: Bytes, parts: seq<Bytes>)
    requires parts == Split(buffer + bytes[0..], NEWLINE)
    ensures Split(bytes[0..|bytes|], NEWLINE) == parts[..|parts| - 1] + [parts[|parts| - 1]] <==> buffer == []
  {
    assert bytes[0..] == bytes == bytes[0..|bytes|] && parts == parts[..|parts| - 1] + [parts[|parts| - 1]];
    SplitInjective(buffer + bytes, bytes);
    SameHead(buffer, [], bytes);
    assert [] + bytes == bytes;
  }

  lemma NothingRead(file: File, at: nat, buffer: Bytes)
    requires at <= |file.bytes|
    ensures Split(file.bytes[at..at], NEWLINE) == [] + [buffer] <==> buffer == []
  {
    assert file.bytes[at..at] == [];
    assert [] + [buffer] == [buffer];
  }

  /** Why: `ab` was read, `d` was appended while the pipeline was stopped, and `c` and a newline after; `abc` is reported. */
  lemma StopKeepsOldBytes(judge: Bytes -> Verdict)
    ensures var acts := [Append([97, 98]), LOOK] + ([Stop, Append([100])] + ([Start(false, true), Append([99, NEWLINE])] + [LOOK]));
            var w := Run(judge, Attach(Some(File(7, [])), false), acts);
            && w.trace == [SignalOf(judge, [97, 98, 99])]
            && w.file == Some(File(7, [97, 98, 100, 99, NEWLINE]))
            && CompleteLines([97, 98, 100, 99, NEWLINE]) == [[97, 98, 100, 99]]
  {
    var w0, first := Attach(Some(File(7, [])), false), [Append([97, 98]), LOOK];
    var second, third := [Stop, Append([100])], [Start(false, true), Append([99, NEWLINE])];
    TwoBytesRead(judge, 97, 98);
    var w2 := Reading([97, 98], Tail(2, 7, [97, 98], true));
    RunConcat(judge, w0, first, second + (third + [LOOK]));
    RunConcat(judge, w2, second, third + [LOOK]);
    RunConcat(judge, Run(judge, w2, second), third, [LOOK]);
    var w6 := Run(judge, Run(judge, w2, second), third);
    StoppedAndStarted(judge, w2);
    RunOne(judge, w6, LOOK);
    LookAfterStart(judge, w6);
  }

  lemma RunOne(judge: Bytes -> Verdict, w: World, a: Act)
    ensures Run(judge, w, [a]) == Next(judge, w, a)
  {
    assert [a][1..] == [];
  }

  lemma LookAfterStart(judge: Bytes -> Verdict, w: World)
    requires w == Reading([97, 98, 100, 99, NEWLINE], Tail(3, 7, [97, 98], true)).(start := 3)
    ensures Next(judge, w, LOOK).trace == [SignalOf(judge, [97, 98, 99])] && Next(judge, w, LOOK).file == w.file
    ensures CompleteLines([97, 98, 100, 99, NEWLINE]) == [[97, 98, 100, 99]]
  {
    assert [97, 98] + w.file.value.bytes[3..] == [97, 98, 99] + [NEWLINE];
    OneLineLook(judge, w, [97, 98, 99]);
    OneLine(judge, [97, 98, 100, 99]);
    assert [97, 98, 100, 99] + [NEWLINE] == [97, 98, 100, 99, NEWLINE];
  }

  lemma StoppedAndStarted(judge: Bytes -> Verdict, w: World)
    requires w == Reading([97, 98], Tail(2, 7, [97, 98], true))
    ensures var n := Run(judge, Run(judge, w, [Stop, Append([100])]), [Start(false, true), Append([99, NEWLINE])]);
            n == Reading([97, 98, 100, 99, NEWLINE], Tail(3, 7, [97, 98], true)).(start := 3)
  {
    RunTwo(judge, w, Stop, Append([100]));
    assert [97, 98] + [100] == [97, 98, 100] && [97, 98, 100] + [99, NEWLINE] == [97, 98, 100, 99, NEWLINE];
    var w4 := Run(judge, w, [Stop, Append([100])]);
    assert w4 == Reading([97, 98, 100], Tail(2, 7, [97, 98], true)).(started := false);
    RunTwo(judge, w4, Start(false, true), Append([99, NEWLINE]));
  }

  lemma {:induction false} WithoutRestart(trace: seq<Signal>)
    requires !HasRestart(trace)
    ensures SinceRestart(trace) == OnlyLines(trace)
  {
    if trace != [] {
      var last, init := trace[|trace| - 1], trace[..|trace| - 1];
      assert trace == init + [last];
      WithoutRestart(init);
      OnlyLinesSnoc(init, last);
    }
  }
}
