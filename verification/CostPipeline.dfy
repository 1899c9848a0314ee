/**
 The coalescing reader of server/integration/cost-pipeline.ts: watcher events start reads
 of the whole file, at most one at a time, with at most one more to follow.

 A read in flight is known by the callback that waits for it: the callback of a first read
 looks at `rerunPending`, the callback of a rerun does not.
 */
module CostPipelines {
  import opened Octets
  import opened Splitting
  import opened Tailing
  import opened Wrappers

  datatype ReadKind = First | Rerun

  /** What `fs.readFile` gives a read. */
  datatype FileRead = Enoent | ReadFails | Content(text: Bytes)

  datatype CostSignal = CostData(payload: Bytes) | CostError(code: CostErrorCode) | CostRecovered

  datatype CostErrorCode = CostWatcherError | CostEnoent | EmptyFile | CostJsonParse | CostSchemaValidation

  datatype Pipe = Pipe(inflight: Option<ReadKind>, rerunPending: bool, fileExists: bool)

  /** What a call leaves behind: the fields, the signals, and the read it started if any. */
  datatype Step = Step(pipe: Pipe, signals: seq<CostSignal>, started: Option<ReadKind>)

  function ScheduleRead(p: Pipe, event: EventType): Step {
    match event
    case Failure => Step(p, [CostError(CostWatcherError)], None)
    case Delete => Step(p.(fileExists := false), [CostError(CostEnoent)], None)
    case _ =>
      var signals := if event.Create? && !p.fileExists then [CostRecovered] else [];
      if p.inflight.Some? then Step(p.(fileExists := true, rerunPending := true), signals, None)
      else Step(p.(fileExists := true, inflight := Some(First)), signals, Some(First))
  }

  /** The outcome `runRead` reports. */
  function Report(judge: Bytes -> Verdict, f: FileRead): CostSignal {
    match f
    case Enoent => CostError(CostEnoent)
    case ReadFails => CostError(CostWatcherError)
    case Content(text) =>
      if text == [] then CostError(EmptyFile)
      else
        match judge(text)
        case Valid(payload) => CostData(payload)
        case BadJson => CostError(CostJsonParse)
        case BadSchema => CostError(CostSchemaValidation)
  }

  /** A read of the given kind ends: its report, then its callback. */
  function ReadEnds(judge: Bytes -> Verdict, p: Pipe, kind: ReadKind, f: FileRead): Step {
    var exists_ := if f.Enoent? then false else p.fileExists;
    if kind == First && p.rerunPending then
      Step(Pipe(Some(Rerun), false, exists_), [Report(judge, f)], Some(Rerun))
    else
      Step(Pipe(None, p.rerunPending, exists_), [Report(judge, f)], None)
  }

  class CostPipeline {
    const judge: Bytes -> Verdict
    var inflight: Option<ReadKind>
    var rerunPending: bool
    var fileExists: bool
    var emitted: seq<CostSignal>

    function Fields(): Pipe reads this { Pipe(inflight, rerunPending, fileExists) }

    constructor (judge: Bytes -> Verdict)
      ensures Fields() == Pipe(None, false, true) && emitted == [] && this.judge == judge
    {
      this.judge := judge;
      inflight, rerunPending, fileExists, emitted := None, false, true, [];
    }

    /** Returns the read started, if any. */
    method Schedule(event: EventType) returns (started: Option<ReadKind>)
      modifies this
      ensures var s := ScheduleRead(old(Fields()), event);
              Fields() == s.pipe && started == s.started && emitted == old(emitted) + s.signals
    {
      started := None;
      if event.Failure? {
        emitted := emitted + [CostError(CostWatcherError)];
        return;
      }
      if event.Delete? {
        fileExists := false;
        emitted := emitted + [CostError(CostEnoent)];
        return;
      }
      if event.Create? && !fileExists {
        fileExists := true;
        emitted := emitted + [CostRecovered];
      } else {
        fileExists := true;
      }
      if inflight.Some? {
        rerunPending := true;
        return;
      }
      inflight := Some(First);
      started := Some(First);
    }

    /** `runRead` of a read of this kind, and the callback attached to it. */
    method FinishRead(kind: ReadKind, f: FileRead) returns (started: Option<ReadKind>)
      modifies this
      ensures var s := ReadEnds(judge, old(Fields()), kind, f);
              Fields() == s.pipe && started == s.started && emitted == old(emitted) + s.signals
    {
      if f.Enoent? { fileExists := false; }
      emitted := emitted + [Report(judge, f)];
      started := None;
      inflight := None;
      if kind.First? && rerunPending {
        rerunPending := false;
        inflight := Some(Rerun);
        started := Some(Rerun);
      }
    }
  }

  // ---------------------------------------------------------------- runs

  /** An event arrives, or the i-th of the reads in flight ends. */
  datatype Act = Arrives(event: EventType) | Ends(i: nat, f: FileRead)

  /**
   The pipeline with the reads that are really in flight, how many were started, how many
   create or change events came, how many of those came since the last read was started,
   and the kind of that read.
   */
  datatype World = World(
    pipe: Pipe, running: seq<ReadKind>, started: nat, events: nat, unseen: nat, last: Option<ReadKind>)

  const INITIAL := World(Pipe(None, false, true), [], 0, 0, 0, None)

  predicate Wakes(event: EventType) { event.Create? || event.Change? }

  predicate Possible(w: World, a: Act) { a.Ends? ==> a.i < |w.running| }

  function StartIn(w: World, s: Step, unseen: nat): World {
    match s.started
    case Some(kind) =>
      w.(pipe := s.pipe, running := w.running + [kind], started := w.started + 1, unseen := 0, last := Some(kind))
    case None => w.(pipe := s.pipe, unseen := unseen)
  }

  function Next(judge: Bytes -> Verdict, w: World, a: Act): World
    requires Possible(w, a)
  {
    match a
    case Arrives(event) =>
      var s := ScheduleRead(w.pipe, event);
      if Wakes(event) then StartIn(w.(events := w.events + 1), s, w.unseen + 1) else StartIn(w, s, w.unseen)
    case Ends(i, f) =>
      var s := ReadEnds(judge, w.pipe, w.running[i], f);
      StartIn(w.(running := w.running[..i] + w.running[i + 1..]), s, w.unseen)
  }

  predicate PossibleRun(judge: Bytes -> Verdict, w: World, acts: seq<Act>)
    decreases acts
  {
    acts == [] || (Possible(w, acts[0]) && PossibleRun(judge, Next(judge, w, acts[0]), acts[1..]))
  }

  function Run(judge: Bytes -> Verdict, w: World, acts: seq<Act>): World
    requires PossibleRun(judge, w, acts)
    decreases acts
  {
    if acts == [] then w else Run(judge, Next(judge, w, acts[0]), acts[1..])
  }

  // ---------------------------------------------------------------- what a run emits

  /** What one act emits. */
  function Emits(judge: Bytes -> Verdict, w: World, a: Act): seq<CostSignal>
    requires Possible(w, a)
  {
    match a
    case Arrives(event) => ScheduleRead(w.pipe, event).signals
    case Ends(i, f) => ReadEnds(judge, w.pipe, w.running[i], f).signals
  }

  function Trace(judge: Bytes -> Verdict, w: World, acts: seq<Act>): seq<CostSignal>
    requires PossibleRun(judge, w, acts)
    decreases acts
  {
    if acts == [] then [] else Emits(judge, w, acts[0]) + Trace(judge, Next(judge, w, acts[0]), acts[1..])
  }

  function DataIn(signals: seq<CostSignal>): seq<Bytes> {
    if signals == [] then []
    else (if signals[0].CostData? then [signals[0].payload] else []) + DataIn(signals[1..])
  }

  /** The payloads of the reads that found a valid file, in the order in which they ended. */
  function ValidReads(judge: Bytes -> Verdict, acts: seq<Act>): seq<Bytes> {
    if acts == [] then [] else ValidRead(judge, acts[0]) + ValidReads(judge, acts[1..])
  }

  function ValidRead(judge: Bytes -> Verdict, a: Act): seq<Bytes> {
    if a.Ends? && a.f.Content? && a.f.text != [] && judge(a.f.text).Valid? then [judge(a.f.text).payload] else []
  }

  function Count(signals: seq<CostSignal>, s: CostSignal): nat {
    if signals == [] then 0 else (if signals[0] == s then 1 else 0) + Count(signals[1..], s)
  }

  /** How many acts call for an error of this kind. */
  function Occasions(judge: Bytes -> Verdict, acts: seq<Act>, code: CostErrorCode): nat {
    if acts == [] then 0 else (if CallsFor(judge, acts[0], code) then 1 else 0) + Occasions(judge, acts[1..], code)
  }

  predicate CallsFor(judge: Bytes -> Verdict, a: Act, code: CostErrorCode) {
    match code
    case CostWatcherError => a == Arrives(Failure) || (a.Ends? && a.f == ReadFails)
    case CostEnoent => a == Arrives(Delete) || (a.Ends? && a.f == Enoent)
    case EmptyFile => a.Ends? && a.f == Content([])
    case CostJsonParse => a.Ends? && a.f.Content? && a.f.text != [] && judge(a.f.text) == BadJson
    case CostSchemaValidation => a.Ends? && a.f.Content? && a.f.text != [] && judge(a.f.text) == BadSchema
  }

  /**
   Over any run the listeners get the payload of every read that found a valid file, in order and
   nothing else, and one error of its kind for every act that calls for it.
   */
  lemma {:induction false} ReadsAreReported(judge: Bytes -> Verdict, w: World, acts: seq<Act>, code: CostErrorCode)
    requires PossibleRun(judge, w, acts)
    ensures DataIn(Trace(judge, w, acts)) == ValidReads(judge, acts)
    ensures Count(Trace(judge, w, acts), CostError(code)) == Occasions(judge, acts, code)
    decreases acts
  {
    if acts != [] {
      var n := Next(judge, w, acts[0]);
      ReadsAreReported(judge, n, acts[1..], code);
      ActIsReported(judge, w, acts[0], code);
      InBoth(Emits(judge, w, acts[0]), Trace(judge, n, acts[1..]), CostError(code));
    }
  }

  /** Whether the file counts as missing after an act: since a delete event or a read that did not find it. */
  predicate MissingAfter(missing: bool, a: Act) {
    if a == Arrives(Delete) || (a.Ends? && a.f == Enoent) then true
    else if a == Arrives(Create) || a == Arrives(Change) then false
    else missing
  }

  /** How many create events find the file missing. */
  function Returns(acts: seq<Act>, missing: bool): nat {
    if acts == [] then 0
    else (if missing && acts[0] == Arrives(Create) then 1 else 0) + Returns(acts[1..], MissingAfter(missing, acts[0]))
  }

  /** Over any run every return of a missing file is reported, once. */
  lemma {:induction false} ReturnsAreReported(judge: Bytes -> Verdict, w: World, acts: seq<Act>)
    requires PossibleRun(judge, w, acts)
    ensures Count(Trace(judge, w, acts), CostRecovered) == Returns(acts, !w.pipe.fileExists)
    decreases acts
  {
    if acts != [] {
      var n, s := Next(judge, w, acts[0]), Emits(judge, w, acts[0]);
      ReturnsAreReported(judge, n, acts[1..]);
      InBoth(s, Trace(judge, n, acts[1..]), CostRecovered);
      ActReturns(judge, w, acts[0]);
    }
  }

  lemma ActReturns(judge: Bytes -> Verdict, w: World, a: Act)
    requires Possible(w, a)
    ensures !Next(judge, w, a).pipe.fileExists == MissingAfter(!w.pipe.fileExists, a)
    ensures Count(Emits(judge, w, a), CostRecovered) == if !w.pipe.fileExists && a == Arrives(Create) then 1 else 0
  {
    var s := Emits(judge, w, a);
    if s != [] { assert s[1..] == []; }
  }

  lemma ActIsReported(judge: Bytes -> Verdict, w: World, a: Act, code: CostErrorCode)
    requires Possible(w, a)
    ensures var s := Emits(judge, w, a);
            && DataIn(s) == ValidRead(judge, a)
            && Count(s, CostError(code)) == if CallsFor(judge, a, code) then 1 else 0
  {
    var s := Emits(judge, w, a);
    if s != [] { assert s[1..] == []; }
  }

  lemma {:induction false} InBoth(a: seq<CostSignal>, b: seq<CostSignal>, s: CostSignal)
    ensures DataIn(a + b) == DataIn(a) + DataIn(b) && Count(a + b, s) == Count(a, s) + Count(b, s)
  {
    if a == [] {
      assert a + b == b;
    } else {
      var head := if a[0].CostData? then [a[0].payload] else [];
      InBoth(a[1..], b, s);
      assert (a + b)[1..] == a[1..] + b;
      ConcatFacts(head, DataIn(a[1..]), DataIn(b));
    }
  }

  predicate Inv(w: World) {
    && w.running == (match w.pipe.inflight case None => [] case Some(kind) => [kind])
    && w.started + (if w.pipe.rerunPending then 1 else 0) <= w.events
    && (w.running != [] ==> w.last == Some(w.running[0]))
    && (w.unseen > 0 ==> w.pipe.rerunPending)
    && (w.last != Some(First) && w.pipe.rerunPending ==> w.unseen > 0)
    && (w.last == Some(First) && w.running == [] ==> !w.pipe.rerunPending)
    && (w.last == None ==> w.events == 0)
  }

  lemma InvStep(judge: Bytes -> Verdict, w: World, a: Act)
    requires Inv(w) && Possible(w, a)
    ensures Inv(Next(judge, w, a))
  {
    if a.Ends? { assert w.running[..0] + w.running[1..] == []; }
  }

  lemma {:induction false} InvRun(judge: Bytes -> Verdict, w: World, acts: seq<Act>)
    requires Inv(w) && PossibleRun(judge, w, acts)
    ensures Inv(Run(judge, w, acts))
    decreases acts
  {
    if acts != [] {
      InvStep(judge, w, acts[0]);
      InvRun(judge, Next(judge, w, acts[0]), acts[1..]);
    }
  }

  /**
   Coalescing safety, over all interleavings of events and endings: at most one read in
   flight; no more reads than create or change events; with the flag down no such event has
   come since the last read was started. At rest an event is unserved exactly when the flag
   is up, and then the last read was a rerun.
   */
  lemma CoalescingSafety(judge: Bytes -> Verdict, acts: seq<Act>)
    requires PossibleRun(judge, INITIAL, acts)
    ensures var w := Run(judge, INITIAL, acts);
            && |w.running| <= 1
            && w.started <= w.events
            && (!w.pipe.rerunPending ==> w.unseen == 0)
            && (w.running == [] ==> (w.unseen > 0 <==> w.pipe.rerunPending))
            && (w.running == [] && w.unseen > 0 ==> w.last == Some(Rerun))
  {
    InvRun(judge, INITIAL, acts);
    var last := Run(judge, INITIAL, acts).last;
    assert last.None? || last.value.First? || last.value.Rerun?;
  }

  /** An event during a rerun stays unserved: the run that shows it. */
  lemma EventDuringRerunWaits(judge: Bytes -> Verdict, f: FileRead)
    ensures var acts := [Arrives(Change), Arrives(Change), Ends(0, f), Arrives(Change), Ends(0, f)];
            && PossibleRun(judge, INITIAL, acts)
            && Run(judge, INITIAL, acts).running == []
            && Run(judge, INITIAL, acts).unseen == 1
  {
    var e, d := Arrives(Change), Ends(0, f);
    var w1 := Next(judge, INITIAL, e);
    var w2 := Next(judge, w1, e);
    assert w2.running == [First];
    var w3 := Next(judge, w2, d);
    assert w3.running == [Rerun];
    var w4 := Next(judge, w3, e);
    var w5 := Next(judge, w4, d);
    assert w5.running == [] && w5.unseen == 1;
    RunStep(judge, w4, d, []);
    RunStep(judge, w3, e, [d]);
    RunStep(judge, w2, d, [e, d]);
    RunStep(judge, w1, e, [d, e, d]);
    RunStep(judge, INITIAL, e, [e, d, e, d]);
  }

  lemma RunStep(judge: Bytes -> Verdict, w: World, a: Act, rest: seq<Act>)
    requires Possible(w, a) && PossibleRun(judge, Next(judge, w, a), rest)
    ensures PossibleRun(judge, w, [a] + rest) && Run(judge, w, [a] + rest) == Run(judge, Next(judge, w, a), rest)
  {
    assert ([a] + rest)[1..] == rest;
  }
}
