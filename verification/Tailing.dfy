/**
 What the two live-file tailers share: bytes, the signals they emit, and the way a line
 becomes a signal. Parsing, schema validation and redaction of a line are one
 uninterpreted judgement of its bytes.
 */
module Tailing {
  import opened Octets
  import opened Splitting

  const NEWLINE: Byte := 10

  /** What `processLine` finds in a line. */
  datatype Verdict = Valid(payload: Bytes) | BadJson | BadSchema

  datatype ErrorCode =
    WatcherError | WatcherEnoent | RotationDetected | TruncationDetected | JsonParse | SchemaValidation

  /** One call of `emitter.emit`. `Recovered` records the fields at the moment of the call. */
  datatype Signal = Data(payload: Bytes) | Error(code: ErrorCode) | Recovered(offset: nat, buffer: Bytes)

  datatype EventType = Create | Change | Delete | Failure

  function SignalOf(judge: Bytes -> Verdict, line: Bytes): Signal {
    match judge(line)
    case Valid(payload) => Data(payload)
    case BadJson => Error(JsonParse)
    case BadSchema => Error(SchemaValidation)
  }

  /** One signal for each non-empty line, in order. */
  function LineSignals(judge: Bytes -> Verdict, lines: seq<Bytes>): seq<Signal> {
    if lines == [] then []
    else (if lines[0] == [] then [] else [SignalOf(judge, lines[0])]) + LineSignals(judge, lines[1..])
  }

  lemma LineSignalsCons(judge: Bytes -> Verdict, line: Bytes, lines: seq<Bytes>)
    ensures LineSignals(judge, [line] + lines)
            == (if line == [] then [] else [SignalOf(judge, line)]) + LineSignals(judge, lines)
  {
    assert ([line] + lines)[1..] == lines;
  }

  lemma {:induction false} LineSignalsConcat(judge: Bytes -> Verdict, a: seq<Bytes>, b: seq<Bytes>)
    ensures LineSignals(judge, a + b) == LineSignals(judge, a) + LineSignals(judge, b)
  {
    if a == [] {
      assert a + b == b;
    } else {
      var head := if a[0] == [] then [] else [SignalOf(judge, a[0])];
      LineSignalsConcat(judge, a[1..], b);
      LineSignalsCons(judge, a[0], a[1..] + b);
      assert a + b == [a[0]] + (a[1..] + b);
      ConcatFacts(head, LineSignals(judge, a[1..]), LineSignals(judge, b));
    }
  }

  lemma {:induction false} LineSignalsSnoc(judge: Bytes -> Verdict, lines: seq<Bytes>, i: nat)
    requires i < |lines|
    ensures LineSignals(judge, lines[..i + 1])
            == LineSignals(judge, lines[..i]) + if lines[i] == [] then [] else [SignalOf(judge, lines[i])]
  {
    var last := lines[i..i + 1];
    LineSignalsConcat(judge, lines[..i], last);
    assert lines[..i + 1] == lines[..i] + last;
    assert last[1..] == lines[i + 1..i + 1];
  }

  // ---------------------------------------------------------------- what listeners are told

  function NonEmpty(lines: seq<Bytes>): seq<Bytes> {
    if lines == [] then [] else (if lines[0] == [] then [] else [lines[0]]) + NonEmpty(lines[1..])
  }

  /** One signal a line, in order: its payload to the data listeners, or what is wrong with it to the error listeners. */
  predicate Told(judge: Bytes -> Verdict, signals: seq<Signal>, lines: seq<Bytes>) {
    && |signals| == |lines|
    && forall i :: 0 <= i < |lines| ==>
         match judge(lines[i])
         case Valid(payload) => signals[i] == Data(payload)
         case BadJson => signals[i] == Error(JsonParse)
         case BadSchema => signals[i] == Error(SchemaValidation)
  }

  lemma {:induction false} LinesAreTold(judge: Bytes -> Verdict, lines: seq<Bytes>)
    ensures Told(judge, LineSignals(judge, lines), NonEmpty(lines))
  {
    if lines != [] {
      LinesAreTold(judge, lines[1..]);
      if lines[0] != [] {
        ToldCons(judge, lines[0], LineSignals(judge, lines[1..]), NonEmpty(lines[1..]));
      } else {
        ConcatFacts(LineSignals(judge, lines[1..]), [], []);
        ConcatFacts(NonEmpty(lines[1..]), [], []);
      }
    }
  }

  lemma ToldCons(judge: Bytes -> Verdict, line: Bytes, signals: seq<Signal>, lines: seq<Bytes>)
    requires Told(judge, signals, lines)
    ensures Told(judge, [SignalOf(judge, line)] + signals, [line] + lines)
  {
    assert forall i :: 0 < i <= |lines| ==> ([line] + lines)[i] == lines[i - 1] && ([SignalOf(judge, line)] + signals)[i] == signals[i - 1];
  }

  /** What the data listeners get. */
  function Payloads(signals: seq<Signal>): seq<Bytes> {
    if signals == [] then []
    else (if signals[0].Data? then [signals[0].payload] else []) + Payloads(signals[1..])
  }

  /** The payloads of the lines judged valid. */
  function ValidPayloads(judge: Bytes -> Verdict, lines: seq<Bytes>): seq<Bytes> {
    if lines == [] then []
    else (match judge(lines[0]) case Valid(p) => [p] case _ => []) + ValidPayloads(judge, lines[1..])
  }

  lemma {:induction false} PayloadsAreTold(judge: Bytes -> Verdict, signals: seq<Signal>, lines: seq<Bytes>)
    requires Told(judge, signals, lines)
    ensures Payloads(signals) == ValidPayloads(judge, lines)
    decreases lines
  {
    if lines != [] {
      assert forall i :: 0 <= i < |lines| - 1 ==> lines[1..][i] == lines[i + 1] && signals[1..][i] == signals[i + 1];
      PayloadsAreTold(judge, signals[1..], lines[1..]);
    }
  }

  predicate IsLineSignal(s: Signal) {
    s.Data? || s == Error(JsonParse) || s == Error(SchemaValidation)
  }

  /** The signals that report on a line. */
  function OnlyLines(signals: seq<Signal>): seq<Signal> {
    if signals == [] then []
    else (if IsLineSignal(signals[0]) then [signals[0]] else []) + OnlyLines(signals[1..])
  }

  lemma {:induction false} OnlyLinesCons(x: Signal, s: seq<Signal>)
    ensures OnlyLines([x] + s) == (if IsLineSignal(x) then [x] else []) + OnlyLines(s)
  {
    assert ([x] + s)[1..] == s;
  }

  /** Payloads are in line signals only. */
  lemma {:induction false} PayloadsInLines(signals: seq<Signal>)
    ensures Payloads(OnlyLines(signals)) == Payloads(signals)
  {
    if signals != [] {
      PayloadsInLines(signals[1..]);
      if IsLineSignal(signals[0]) { PayloadsCons(signals[0], OnlyLines(signals[1..])); }
      ConcatFacts(OnlyLines(signals[1..]), [], []);
    }
  }

  lemma PayloadsCons(x: Signal, s: seq<Signal>)
    ensures Payloads([x] + s) == (if x.Data? then [x.payload] else []) + Payloads(s)
  {
    assert ([x] + s)[1..] == s;
  }

  /** What line signals tell of the non-empty lines. */
  lemma ReportsTell(judge: Bytes -> Verdict, signals: seq<Signal>, lines: seq<Bytes>)
    requires OnlyLines(signals) == LineSignals(judge, lines)
    ensures Told(judge, OnlyLines(signals), NonEmpty(lines))
    ensures Payloads(signals) == ValidPayloads(judge, NonEmpty(lines))
  {
    LinesAreTold(judge, lines);
    PayloadsAreTold(judge, OnlyLines(signals), NonEmpty(lines));
    PayloadsInLines(signals);
  }

  lemma {:induction false} OnlyLinesConcat(a: seq<Signal>, b: seq<Signal>)
    ensures OnlyLines(a + b) == OnlyLines(a) + OnlyLines(b)
  {
    if a == [] {
      assert a + b == b;
    } else {
      OnlyLinesConcat(a[1..], b);
      OnlyLinesCons(a[0], a[1..] + b);
      assert a + b == [a[0]] + (a[1..] + b);
      ConcatFacts(if IsLineSignal(a[0]) then [a[0]] else [], OnlyLines(a[1..]), OnlyLines(b));
    }
  }

  lemma OnlyLinesSnoc(init: seq<Signal>, last: Signal)
    ensures OnlyLines(init + [last]) == OnlyLines(init) + if IsLineSignal(last) then [last] else []
  {
    OnlyLinesConcat(init, [last]);
    assert [last][1..] == init[..0];
  }

  lemma {:induction false} OnlyLinesOfLines(judge: Bytes -> Verdict, lines: seq<Bytes>)
    ensures OnlyLines(LineSignals(judge, lines)) == LineSignals(judge, lines)
    ensures forall s :: s in LineSignals(judge, lines) ==> !s.Recovered?
  {
    if lines != [] {
      OnlyLinesOfLines(judge, lines[1..]);
      var head := if lines[0] == [] then [] else [SignalOf(judge, lines[0])];
      OnlyLinesConcat(head, LineSignals(judge, lines[1..]));
      assert OnlyLines(head) == head;
    }
  }

  lemma {:induction false} LinesTellOfLines(judge: Bytes -> Verdict, lines: seq<Bytes>)
    ensures forall s :: s in LineSignals(judge, lines) ==> s.Data? || s == Error(JsonParse) || s == Error(SchemaValidation)
  {
    if lines != [] { LinesTellOfLines(judge, lines[1..]); }
  }

  /** The complete lines of a stretch of bytes: all pieces but the open last one. */
  function CompleteLines(bytes: Bytes): seq<Bytes> {
    var parts := Split(bytes, NEWLINE);
    parts[..|parts| - 1]
  }

  /** Reading a stretch in two chunks, the open piece of the first carried over as a buffer. */
  lemma LinesInChunks(read: Bytes, more: Bytes, lines: seq<Bytes>, buffer: Bytes)
    requires Split(read, NEWLINE) == lines + [buffer]
    ensures var parts := Split(buffer + more, NEWLINE);
            Split(read + more, NEWLINE) == lines + parts[..|parts| - 1] + [parts[|parts| - 1]]
  {
    SplitConcat(read, more, NEWLINE);
    SnocFacts(lines, buffer, Split(buffer + more, NEWLINE));
  }

  /** Bytes are their lines and open piece. */
  lemma SplitInjective(a: Bytes, b: Bytes)
    ensures Split(a, NEWLINE) == Split(b, NEWLINE) <==> a == b
  {
    JoinOfSplit(a, NEWLINE);
    JoinOfSplit(b, NEWLINE);
  }

  /**
   `was` has been read; a look goes on at the offset, in a file that may be another one. Lines
   and open piece are then those of what the file holds, exactly if it holds `was` before the offset.
   */
  lemma GoingOn(was: Bytes, bytes: Bytes, start: nat, offset: nat, lines: seq<Bytes>, buffer: Bytes)
    requires Split(was, NEWLINE) == lines + [buffer] && start <= offset <= |bytes|
    ensures var parts := Split(buffer + bytes[offset..], NEWLINE);
            lines + parts[..|parts| - 1] + [parts[|parts| - 1]] == Split(bytes[start..], NEWLINE) <==> bytes[start..offset] == was
  {
    LinesInChunks(was, bytes[offset..], lines, buffer);
    SplitInjective(was + bytes[offset..], bytes[start..]);
    SameHead(was, bytes[start..offset], bytes[offset..]);
    assert bytes[start..] == bytes[start..offset] + bytes[offset..];
  }

  lemma SameHead(a: Bytes, b: Bytes, rest: Bytes)
    ensures a + rest == b + rest <==> a == b
  {
    if a + rest == b + rest {
      assert |a| == |b|;
      assert a == (a + rest)[..|a|] && b == (b + rest)[..|b|];
    }
  }
}
