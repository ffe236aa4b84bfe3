/** The incremental server-sent-events reader of the web transport: a buffer that
    grows by arbitrary chunks, frames cut out at the first blank line, and a limit
    on the frame and on what is left in the buffer.

    Fetching, UTF-8 decoding and abort signals are outside the model: the reader is
    given the decoded pieces, the last of which is the decoder's final flush.  JSON
    decoding, the shape check of an event and the shape check of a close payload are
    parameters. */
module EventStream {
  import opened Options
  import opened CodeUnits

  const FRAME_LIMIT: nat := 262144

  const DATA_FIELD: Text := [0x64, 0x61, 0x74, 0x61, 0x3A]  // data:
  const EVENT_FIELD: Text := [0x65, 0x76, 0x65, 0x6E, 0x74, 0x3A]  // event:
  // harness.close
  const CLOSE_EVENT: Text := [0x68, 0x61, 0x72, 0x6E, 0x65, 0x73, 0x73, 0x2E, 0x63, 0x6C, 0x6F, 0x73, 0x65]

  /** What the reader does with a decoded payload.  `closeCode` is None when the payload
      is not a record of this session. */
  datatype Codec<!J, !E> = Codec(
    parse: Text -> Option<J>,
    closeCode: J -> Option<string>,
    accept: J -> Option<E>)

  datatype Ending = Returned | InvalidEvent | Closed(code: string)

  datatype Outcome<+E> = Outcome(events: seq<E>, ending: Ending)

  datatype Verdict<+E> = Skip | Emit(event: E) | Stop(ending: Ending)

  // ----- lines and frames -----

  /** Length of the match of `\r?\n` at position i, zero when there is none. */
  function LineBreakAt(s: Text, i: nat): nat {
    if i < |s| && s[i] == LF then 1
    else if i + 1 < |s| && s[i] == CR && s[i + 1] == LF then 2
    else 0
  }

  /** Length of the match of `\r?\n\r?\n` at position i, zero when there is none. */
  function BoundaryAt(s: Text, i: nat): nat {
    var first := LineBreakAt(s, i);
    if first == 0 then 0
    else
      var second := LineBreakAt(s, i + first);
      if second == 0 then 0 else first + second
  }

  /** The leftmost frame boundary at or after `from`, or the length of the text. */
  function FindBoundary(s: Text, from: nat): (i: nat)
    requires from <= |s|
    ensures from <= i <= |s| && i + BoundaryAt(s, i) <= |s|
    decreases |s| - from
  {
    if from == |s| || BoundaryAt(s, from) > 0 then from else FindBoundary(s, from + 1)
  }

  /** A text cut at its first boundary. */
  datatype Cut = Cut(frame: Text, boundary: Text, rest: Text)

  function FirstFrame(s: Text): (r: Option<Cut>)
    ensures r.Some? ==> r.value.boundary != [] && s == r.value.frame + r.value.boundary + r.value.rest
  {
    var i := FindBoundary(s, 0);
    if i == |s| then None
    else
      var n := BoundaryAt(s, i);
      BoundaryFound(s, 0);
      Some(Cut(s[..i], s[i..i + n], s[i + n..]))
  }

  lemma {:induction false} BoundaryFound(s: Text, from: nat)
    requires from <= |s|
    ensures var i := FindBoundary(s, from);
            (i < |s| ==> BoundaryAt(s, i) > 0) && forall j | from <= j < i :: BoundaryAt(s, j) == 0
    decreases |s| - from
  {
    if from != |s| && BoundaryAt(s, from) == 0 {
      BoundaryFound(s, from + 1);
    }
  }

  function FindLineBreak(s: Text, from: nat): (r: Option<nat>)
    ensures r.Some? ==> from <= r.value && LineBreakAt(s, r.value) > 0 && r.value + LineBreakAt(s, r.value) <= |s|
    ensures r.Some? ==> forall j | from <= j < r.value :: LineBreakAt(s, j) == 0
    ensures r.None? ==> forall j | from <= j :: LineBreakAt(s, j) == 0
    decreases |s| - from
  {
    if from >= |s| then None
    else if LineBreakAt(s, from) > 0 then Some(from)
    else FindLineBreak(s, from + 1)
  }

  /** `frame.split(/\r?\n/)`. */
  function Lines(frame: Text): seq<Text>
    decreases |frame|
  {
    match FindLineBreak(frame, 0)
    case None => [frame]
    case Some(i) => [frame[..i]] + Lines(frame[i + LineBreakAt(frame, i)..])
  }

  /** The value of a `data:` line: one leading space is dropped. */
  function DataValue(line: Text): Text
    requires DATA_FIELD <= line
  {
    var value := line[5..];
    if value != [] && value[0] == SPACE then value[1..] else value
  }

  /** The values of the `data:` lines, in order. */
  function DataOf(lines: seq<Text>): seq<Text> {
    if lines == [] then []
    else
      var last := lines[|lines| - 1];
      DataOf(lines[..|lines| - 1]) + if DATA_FIELD <= last then [DataValue(last)] else []
  }

  /** The name on the last `event:` line, or the empty text. */
  function EventNameOf(lines: seq<Text>): Text {
    if lines == [] then []
    else
      var last := lines[|lines| - 1];
      if EVENT_FIELD <= last then Trim(last[6..]) else EventNameOf(lines[..|lines| - 1])
  }

  /** `data.join("\n")`. */
  function JoinLines(data: seq<Text>): Text {
    if data == [] then []
    else if |data| == 1 then data[0]
    else data[0] + [LF] + JoinLines(data[1..])
  }

  function Decode<J, E>(codec: Codec<J, E>, name: Text, payload: Text): Verdict<E> {
    match codec.parse(payload)
    case None => Stop(InvalidEvent)
    case Some(value) =>
      if name == CLOSE_EVENT then
        match codec.closeCode(value)
        case None => Stop(InvalidEvent)
        case Some(code) => Stop(Closed(code))
      else
        match codec.accept(value)
        case None => Stop(InvalidEvent)
        case Some(event) => Emit(event)
  }

  /** What one frame, without its boundary, leads to. */
  function Judge<J, E>(codec: Codec<J, E>, frame: Text): Verdict<E> {
    var data := DataOf(Lines(frame));
    if data == [] then Skip else Decode(codec, EventNameOf(Lines(frame)), JoinLines(data))
  }

  // ----- the reader as a function of the pieces read -----

  /** Any judgement of frames.  Chunk independence holds whatever frames mean. */
  type Judgement<!E> = Text -> Verdict<E>

  function Judging<J, E>(codec: Codec<J, E>): Judgement<E> {
    frame => Judge(codec, frame)
  }

  function Weigh<E>(judge: Judgement<E>, frame: Text): Verdict<E> {
    if |frame| > FRAME_LIMIT then Stop(InvalidEvent) else judge(frame)
  }

  /** The result of draining all complete frames from the buffer. */
  datatype Pumped<+E> = Pumped(events: seq<E>, ending: Option<Ending>, residue: Text)

  function Prefixed<E>(events: seq<E>, p: Pumped<E>): Pumped<E> {
    p.(events := events + p.events)
  }

  function Pump<E>(judge: Judgement<E>, buffer: Text): Pumped<E>
    decreases |buffer|
  {
    match FirstFrame(buffer)
    case None => Pumped([], None, buffer)
    case Some(cut) =>
      match Weigh(judge, cut.frame)
      case Skip => Pump(judge, cut.rest)
      case Emit(event) => Prefixed([event], Pump(judge, cut.rest))
      case Stop(ending) => Pumped([], Some(ending), cut.rest)
  }

  function After<E>(events: seq<E>, o: Outcome<E>): Outcome<E> {
    Outcome(events + o.events, o.ending)
  }

  /** What follows a drained buffer when `rest` is still to be read. */
  function Settle<E>(judge: Judgement<E>, p: Pumped<E>, rest: seq<Text>): Outcome<E>
    decreases |rest|
  {
    if p.ending.Some? then Outcome(p.events, p.ending.value)
    else if |p.residue| > FRAME_LIMIT then Outcome(p.events, InvalidEvent)
    else if rest == [] then Outcome(p.events, if Blank(p.residue) then Returned else InvalidEvent)
    else After(p.events, Settle(judge, Pump(judge, p.residue + rest[0]), rest[1..]))
  }

  /** The reader on a list of pieces, of which the last is the final flush. */
  function Run<E>(judge: Judgement<E>, pieces: seq<Text>): Outcome<E>
    requires pieces != []
  {
    Settle(judge, Pump(judge, pieces[0]), pieces[1..])
  }

  /** The reader on the same text in one piece. */
  function Whole<E>(judge: Judgement<E>, text: Text): Outcome<E> {
    Run(judge, [text])
  }

  function Concat(pieces: seq<Text>): Text {
    if pieces == [] then [] else pieces[0] + Concat(pieces[1..])
  }

  // ----- the reader as the loop it is -----

  method JudgeFrame<J, E>(codec: Codec<J, E>, frame: Text) returns (v: Verdict<E>)
    ensures v == Judge(codec, frame)
  {
    var eventName: Text, data: seq<Text> := [], [];
    var lines := Lines(frame);
    for k := 0 to |lines|
      invariant eventName == EventNameOf(lines[..k]) && data == DataOf(lines[..k])
    {
      var line := lines[k];
      assert lines[..k + 1][..k] == lines[..k];
      if DATA_FIELD <= line { data := data + [DataValue(line)]; }
      if EVENT_FIELD <= line { eventName := Trim(line[6..]); }
    }
    assert lines[..|lines|] == lines;
    if data == [] { return Skip; }
    v := Decode(codec, eventName, JoinLines(data));
  }

  method ReadEvents<J, E>(codec: Codec<J, E>, pieces: seq<Text>) returns (events: seq<E>, ending: Ending)
    requires pieces != []
    ensures Outcome(events, ending) == Run(Judging(codec), pieces)
  {
    ghost var judge := Judging(codec);
    ghost var target := Run(judge, pieces);
    events := [];
    var buffer: Text := [];
    var k := 0;
    RunIsPending(judge, pieces);
    while true
      invariant 0 <= k < |pieces|
      invariant target == Pending(judge, events, buffer + pieces[k], pieces[k + 1..])
      decreases |pieces| - k
    {
      buffer := buffer + pieces[k];
      var done := k == |pieces| - 1;
      var next := FirstFrame(buffer);
      while next.Some?
        invariant next == FirstFrame(buffer)
        invariant target == Pending(judge, events, buffer, pieces[k + 1..])
        decreases |buffer|
      {
        PendingFrame(judge, events, buffer, pieces[k + 1..]);
        var frame := next.value.frame;
        buffer := next.value.rest;
        next := FirstFrame(buffer);
        if |frame| > FRAME_LIMIT { return events, InvalidEvent; }
        var verdict := JudgeFrame(codec, frame);
        assert judge(frame) == verdict;
        match verdict {
          case Skip =>
          case Emit(event) => events := events + [event];
          case Stop(reason) => return events, reason;
        }
      }
      PendingRead(judge, events, buffer, pieces[k + 1..]);
      if |buffer| > FRAME_LIMIT { return events, InvalidEvent; }
      if done {
        return events, if Blank(buffer) then Returned else InvalidEvent;
      }
      assert pieces[k + 1..][1..] == pieces[k + 2..];
      k := k + 1;
    }
  }

  /** The outcome still to be reached from a buffer, with some events already yielded. */
  ghost function Pending<E>(judge: Judgement<E>, events: seq<E>, buffer: Text, rest: seq<Text>): Outcome<E> {
    After(events, Settle(judge, Pump(judge, buffer), rest))
  }

  lemma RunIsPending<E>(judge: Judgement<E>, pieces: seq<Text>)
    requires pieces != []
    ensures Run(judge, pieces) == Pending(judge, [], [] + pieces[0], pieces[1..])
  {
    assert [] + pieces[0] == pieces[0];
    var outcome := Settle(judge, Pump(judge, pieces[0]), pieces[1..]);
    assert Run(judge, pieces) == outcome;
    assert Pending(judge, [], [] + pieces[0], pieces[1..]) == After([], outcome);
    hide *;
    AfterNothing(outcome);
  }

  lemma AfterNothing<E>(outcome: Outcome<E>)
    ensures After([], outcome) == outcome
  {
    assert [] + outcome.events == outcome.events;
  }

  lemma PendingFrame<E>(judge: Judgement<E>, events: seq<E>, buffer: Text, rest: seq<Text>)
    requires FirstFrame(buffer).Some?
    ensures var cut := FirstFrame(buffer).value;
            Pending(judge, events, buffer, rest) ==
            match Weigh(judge, cut.frame)
            case Skip => Pending(judge, events, cut.rest, rest)
            case Emit(event) => Pending(judge, events + [event], cut.rest, rest)
            case Stop(ending) => Outcome(events, ending)
  {
    var cut := FirstFrame(buffer).value;
    match Weigh(judge, cut.frame)
    case Skip =>
    case Emit(event) =>
      SettlePrefixed(judge, [event], Pump(judge, cut.rest), rest);
      AfterAfter(events, [event], Settle(judge, Pump(judge, cut.rest), rest));
    case Stop(_) =>
  }

  lemma PendingRead<E>(judge: Judgement<E>, events: seq<E>, buffer: Text, rest: seq<Text>)
    requires FirstFrame(buffer).None?
    ensures Pending(judge, events, buffer, rest) ==
            if |buffer| > FRAME_LIMIT then Outcome(events, InvalidEvent)
            else if rest == [] then Outcome(events, if Blank(buffer) then Returned else InvalidEvent)
            else Pending(judge, events, buffer + rest[0], rest[1..])
  {
    assert events + [] == events;
    if |buffer| <= FRAME_LIMIT && rest != [] {
      ReadOn(judge, buffer, rest, Pump(judge, buffer + rest[0]));
    }
  }

  /** With no complete frame in the buffer the reader just reads on. */
  lemma ReadOn<E>(judge: Judgement<E>, residue: Text, rest: seq<Text>, next: Pumped<E>)
    requires |residue| <= FRAME_LIMIT && rest != [] && next == Pump(judge, residue + rest[0])
    ensures Settle(judge, Pumped([], None, residue), rest) == Settle(judge, next, rest[1..])
  {
    var o := Settle(judge, next, rest[1..]);
    assert After([], o) == o;
  }

  lemma AfterAfter<E>(a: seq<E>, b: seq<E>, o: Outcome<E>)
    ensures After(a, After(b, o)) == After(a + b, o)
  {
    assert a + (b + o.events) == a + b + o.events;
  }

  lemma SettlePrefixed<E>(judge: Judgement<E>, events: seq<E>, p: Pumped<E>, rest: seq<Text>)
    ensures Settle(judge, Prefixed(events, p), rest) == After(events, Settle(judge, p, rest))
  {
    if p.ending.None? && |p.residue| <= FRAME_LIMIT && rest != [] {
      AfterAfter(events, p.events, Settle(judge, Pump(judge, p.residue + rest[0]), rest[1..]));
    }
  }

  // ----- chunk independence -----

  /** A boundary that no earlier position precedes is the one found. */
  lemma {:induction false} BoundaryUnique(s: Text, from: nat, i: nat)
    requires from <= i < |s| && BoundaryAt(s, i) > 0 && forall j | from <= j < i :: BoundaryAt(s, j) == 0
    ensures FindBoundary(s, from) == i
    decreases i - from
  {
    if from < i {
      assert BoundaryAt(s, from) == 0;
      BoundaryUnique(s, from + 1, i);
    }
  }

  lemma BoundaryExtends(s: Text, t: Text, i: nat)
    requires s <= t && BoundaryAt(s, i) > 0
    ensures BoundaryAt(t, i) == BoundaryAt(s, i)
  {
  }

  /** No earlier boundary can appear by reading on: it would end inside what was read. */
  lemma NoEarlierBoundary(s: Text, t: Text, i: nat, j: nat)
    requires s <= t && BoundaryAt(s, i) > 0 && j < i && BoundaryAt(s, j) == 0
    ensures BoundaryAt(t, j) == 0
  {
  }

  /** The leftmost boundary of a prefix is the leftmost boundary of the whole. */
  lemma LeftmostExtends(s: Text, t: Text)
    requires s <= t && FindBoundary(s, 0) < |s|
    ensures FindBoundary(t, 0) == FindBoundary(s, 0)
    ensures BoundaryAt(t, FindBoundary(s, 0)) == BoundaryAt(s, FindBoundary(s, 0))
  {
    var i := FindBoundary(s, 0);
    BoundaryFound(s, 0);
    BoundaryExtends(s, t, i);
    forall j | 0 <= j < i ensures BoundaryAt(t, j) == 0 {
      NoEarlierBoundary(s, t, i, j);
    }
    BoundaryUnique(t, 0, i);
  }

  lemma FirstFrameExtends(s: Text, more: Text)
    requires FirstFrame(s).Some?
    ensures FirstFrame(s + more) == Some(FirstFrame(s).value.(rest := FirstFrame(s).value.rest + more))
  {
    LeftmostExtends(s, s + more);
    var i := FindBoundary(s, 0);
    SlicesOfPrefix(s, more, i, i + BoundaryAt(s, i));
  }

  lemma SlicesOfHead(s: Text, at: nat, i: nat, n: nat)
    requires i <= n <= at <= |s|
    ensures s[..at][..i] == s[..i] && s[..at][i..n] == s[i..n] && s[..at][n..] == s[n..][..at - n]
  {
  }

  lemma SlicesOfPrefix(s: Text, more: Text, i: nat, n: nat)
    requires i <= n <= |s|
    ensures (s + more)[..i] == s[..i] && (s + more)[i..n] == s[i..n] && (s + more)[n..] == s[n..] + more
  {
  }

  /** The first boundary is found in every prefix that holds all of it. */
  lemma BoundaryInPrefix(s: Text, at: nat)
    requires FindBoundary(s, 0) < |s|
    requires FindBoundary(s, 0) + BoundaryAt(s, FindBoundary(s, 0)) <= at <= |s|
    ensures FindBoundary(s[..at], 0) == FindBoundary(s, 0)
  {
    var i := FindBoundary(s, 0);
    BoundaryFound(s, 0);
    assert BoundaryAt(s[..at], i) == BoundaryAt(s, i);
    forall j | 0 <= j < i ensures BoundaryAt(s[..at], j) == 0 {
      assert BoundaryAt(s, j) == 0;
      if BoundaryAt(s[..at], j) > 0 {
        BoundaryExtends(s[..at], s, j);
        assert false;
      }
    }
    BoundaryUnique(s[..at], 0, i);
  }

  lemma FirstFrameInPrefix(s: Text, at: nat)
    requires FirstFrame(s).Some?
    requires |FirstFrame(s).value.frame + FirstFrame(s).value.boundary| <= at <= |s|
    ensures var cut := FirstFrame(s).value;
            FirstFrame(s[..at]) == Some(cut.(rest := cut.rest[..at - |cut.frame + cut.boundary|]))
  {
    hide FindBoundary;
    hide BoundaryAt;
    BoundaryInPrefix(s, at);
    LeftmostExtends(s[..at], s);
    var i := FindBoundary(s, 0);
    SlicesOfHead(s, at, i, i + BoundaryAt(s, i));
  }

  /** Without its last code unit the first boundary is no boundary. */
  lemma PartialBoundary(s: Text)
    requires FirstFrame(s).Some?
    ensures var cut := FirstFrame(s).value;
            FirstFrame(s[..|cut.frame + cut.boundary| - 1]).None?
  {
    var cut := FirstFrame(s).value;
    var at := |cut.frame + cut.boundary| - 1;
    assert s == s[..at] + s[at..];
    if FirstFrame(s[..at]).Some? {
      FirstFrameExtends(s[..at], s[at..]);
      assert false;
    }
  }

  /** Where there is no boundary yet, the first one ends beyond. */
  lemma FirstFrameBeyond(s: Text, more: Text)
    requires FirstFrame(s).None? && FirstFrame(s + more).Some?
    ensures var cut := FirstFrame(s + more).value;
            |cut.frame| + |cut.boundary| > |s|
  {
    var cut := FirstFrame(s + more).value;
    if |cut.frame + cut.boundary| <= |s| {
      assert (s + more)[..|s|] == s;
      FirstFrameInPrefix(s + more, |s|);
      assert false;
    }
  }

  /** Draining a longer buffer first drains the shorter one. */
  ghost predicate PumpSplits<E>(judge: Judgement<E>, buffer: Text, more: Text) {
    var p := Pump(judge, buffer);
    if p.ending.Some? then
      Pump(judge, buffer + more) == p.(residue := p.residue + more)
    else
      FirstFrame(p.residue).None? &&
      Pump(judge, buffer + more) == Prefixed(p.events, Pump(judge, p.residue + more))
  }

  lemma PrefixedTwice<E>(a: seq<E>, b: seq<E>, p: Pumped<E>)
    ensures Prefixed(a, Prefixed(b, p)) == Prefixed(a + b, p)
  {
    assert a + (b + p.events) == a + b + p.events;
  }

  lemma {:induction false} PumpExtends<E>(judge: Judgement<E>, buffer: Text, more: Text)
    ensures PumpSplits(judge, buffer, more)
    decreases |buffer|
  {
    hide Weigh, FirstFrame;
    match FirstFrame(buffer)
    case None =>
      assert Prefixed([], Pump(judge, buffer + more)) == Pump(judge, buffer + more);
    case Some(cut) =>
      FirstFrameExtends(buffer, more);
      match Weigh(judge, cut.frame) {
        case Skip =>
          PumpExtends(judge, cut.rest, more);
        case Emit(event) =>
          PumpExtends(judge, cut.rest, more);
          var p := Pump(judge, cut.rest);
          if p.ending.None? {
            PrefixedTwice([event], p.events, Pump(judge, p.residue + more));
          }
        case Stop(_) =>
      }
  }

  /** A frame within the limit whose boundary reaches past it: cut one code unit before its end,
      the buffer left over is too long. */
  predicate Tight(cut: Cut) {
    |cut.frame| <= FRAME_LIMIT < |cut.frame| + |cut.boundary| - 1
  }

  /** The frames of the text lead to no event and then to one that is invalid, or to the end with something
      left over. */
  predicate Doomed<E>(judge: Judgement<E>, text: Text)
    decreases |text|
  {
    match FirstFrame(text)
    case None => |text| > FRAME_LIMIT || !Blank(text)
    case Some(cut) =>
      match Weigh(judge, cut.frame)
      case Skip => Doomed(judge, cut.rest)
      case Emit(_) => false
      case Stop(ending) => ending.InvalidEvent?
  }

  lemma {:induction false} DoomedIsInvalid<E>(judge: Judgement<E>, text: Text)
    ensures Doomed(judge, text) <==> Whole(judge, text) == Outcome([], InvalidEvent)
    decreases |text|
  {
    hide Blank;
    if FirstFrame(text).Some? {
      WholeStep(judge, text);
      DoomedIsInvalid(judge, FirstFrame(text).value.rest);
      hide FirstFrame, Whole, Weigh;
    }
  }

  /** Every tight frame that the one-piece run reaches is one from which the rest is doomed anyway. */
  predicate Fits<E>(judge: Judgement<E>, text: Text)
    decreases |text|
  {
    match FirstFrame(text)
    case None => true
    case Some(cut) =>
      && (Tight(cut) ==> Doomed(judge, text))
      && (!Weigh(judge, cut.frame).Stop? ==> Fits(judge, cut.rest))
  }

  /** A residue that is already too long dooms the whole text too, when the text fits. */
  lemma OverlongResidue<E>(judge: Judgement<E>, residue: Text, more: Text)
    requires |residue| > FRAME_LIMIT && FirstFrame(residue).None?
    requires Fits(judge, residue + more)
    ensures Whole(judge, residue + more) == Outcome([], InvalidEvent)
  {
    DoomedIsInvalid(judge, residue + more);
    if FirstFrame(residue + more).Some? {
      FirstFrameBeyond(residue, more);
    }
  }

  /** What remains after draining a prefix of a text that fits, fits. */
  lemma {:induction false} FitsAfterPump<E>(judge: Judgement<E>, buffer: Text, more: Text)
    requires Fits(judge, buffer + more) && Pump(judge, buffer).ending.None?
    ensures Fits(judge, Pump(judge, buffer).residue + more)
    decreases |buffer|
  {
    if FirstFrame(buffer).Some? {
      FirstFrameExtends(buffer, more);
      FitsAfterPump(judge, FirstFrame(buffer).value.rest, more);
    }
  }

  lemma {:induction false} SettleIsWhole<E>(judge: Judgement<E>, buffer: Text, rest: seq<Text>)
    requires Fits(judge, buffer + Concat(rest))
    ensures Settle(judge, Pump(judge, buffer), rest) == Whole(judge, buffer + Concat(rest))
    decreases |rest|
  {
    hide Fits, Doomed, FirstFrame, Weigh, Blank, Pump;
    var more := Concat(rest);
    var p := Pump(judge, buffer);
    PumpExtends(judge, buffer, more);
    if p.ending.None? {
      var tail := p.residue + more;
      SettlePrefixed(judge, p.events, Pump(judge, tail), []);
      assert Whole(judge, buffer + more) == After(p.events, Whole(judge, tail));
      FitsAfterPump(judge, buffer, more);
      if |p.residue| > FRAME_LIMIT {
        OverlongResidue(judge, p.residue, more);
      } else if rest == [] {
        assert buffer + more == buffer;
      } else {
        assert tail == (p.residue + rest[0]) + Concat(rest[1..]);
        SettleIsWhole(judge, p.residue + rest[0], rest[1..]);
      }
    }
  }

  /** A verdict, then what the reader makes of the rest. */
  function Then<E>(v: Verdict<E>, o: Outcome<E>): Outcome<E> {
    match v
    case Skip => o
    case Emit(event) => After([event], o)
    case Stop(ending) => Outcome([], ending)
  }

  lemma ThenInjective<E>(v: Verdict<E>, a: Outcome<E>, b: Outcome<E>, x: Outcome<E>, y: Outcome<E>)
    requires !v.Stop? && a != b && x == Then(v, a) && y == Then(v, b)
    ensures x != y
  {
    if v.Emit? {
      assert ([v.event] + a.events)[1..] == a.events;
      assert ([v.event] + b.events)[1..] == b.events;
    }
  }

  /** Judging the first frame, then reading on: the step both the cut and the uncut run take. */
  lemma RunStep<E>(judge: Judgement<E>, first: Text, rest: seq<Text>)
    requires FirstFrame(first).Some?
    ensures var cut := FirstFrame(first).value;
            Run(judge, [first] + rest) == Then(Weigh(judge, cut.frame), Run(judge, [cut.rest] + rest))
  {
    var cut := FirstFrame(first).value;
    assert ([first] + rest)[1..] == rest && ([cut.rest] + rest)[1..] == rest;
    match Weigh(judge, cut.frame)
    case Emit(event) => SettlePrefixed(judge, [event], Pump(judge, cut.rest), rest);
    case Skip =>
    case Stop(_) =>
  }

  /** A cut after the first frame only defers the cut: the frame is judged alike. */
  lemma CutAfterFirst<E>(judge: Judgement<E>, text: Text, m: nat)
    requires FirstFrame(text).Some? && m <= |FirstFrame(text).value.rest|
    ensures var cut := FirstFrame(text).value;
            var at := |cut.frame + cut.boundary| + m;
            at <= |text| &&
            Run(judge, [text[..at], text[at..]]) ==
            Then(Weigh(judge, cut.frame), Run(judge, [cut.rest[..m], cut.rest[m..]]))
  {
    hide *;
    var cut := FirstFrame(text).value;
    var at := |cut.frame + cut.boundary| + m;
    assert text[at..] == cut.rest[m..];
    FirstFrameInPrefix(text, at);
    RunStep(judge, text[..at], [text[at..]]);
    assert [text[..at]] + [text[at..]] == [text[..at], text[at..]];
    assert [cut.rest[..m]] + [text[at..]] == [cut.rest[..m], cut.rest[m..]];
  }

  lemma WholeStep<E>(judge: Judgement<E>, text: Text)
    requires FirstFrame(text).Some?
    ensures var cut := FirstFrame(text).value;
            Whole(judge, text) == Then(Weigh(judge, cut.frame), Whole(judge, cut.rest))
  {
    RunStep(judge, text, []);
    var cut := FirstFrame(text).value;
    assert [text] + [] == [text] && [cut.rest] + [] == [cut.rest];
  }

  /** Cut inside the boundary of a tight frame, the reader rejects the stream at once. */
  lemma TightCut<E>(judge: Judgement<E>, text: Text) returns (at: nat)
    requires FirstFrame(text).Some? && Tight(FirstFrame(text).value)
    ensures at <= |text| && Run(judge, [text[..at], text[at..]]) == Outcome([], InvalidEvent)
  {
    hide FirstFrame;
    var cut := FirstFrame(text).value;
    at := |cut.frame + cut.boundary| - 1;
    PartialBoundary(text);
    OverlongHead(judge, text[..at], text[at..]);
  }

  lemma OverlongHead<E>(judge: Judgement<E>, head: Text, tail: Text)
    requires FirstFrame(head).None? && |head| > FRAME_LIMIT
    ensures Run(judge, [head, tail]) == Outcome([], InvalidEvent)
  {
    hide FirstFrame;
    assert Pump(judge, head) == Pumped([], None, head);
  }

  lemma LaterBadCut<E>(judge: Judgement<E>, text: Text, cut: Cut, m: nat)
    requires FirstFrame(text) == Some(cut) && m <= |cut.rest| && !Weigh(judge, cut.frame).Stop?
    requires Run(judge, [cut.rest[..m], cut.rest[m..]]) != Whole(judge, cut.rest)
    ensures var at := |cut.frame + cut.boundary| + m;
            at <= |text| && Run(judge, [text[..at], text[at..]]) != Whole(judge, text)
  {
    hide *;
    var at := |cut.frame + cut.boundary| + m;
    CutAfterFirst(judge, text, m);
    WholeStep(judge, text);
    ThenInjective(
      Weigh(judge, cut.frame),
      Run(judge, [cut.rest[..m], cut.rest[m..]]), Whole(judge, cut.rest),
      Run(judge, [text[..at], text[at..]]), Whole(judge, text));
  }

  /** A text that does not fit can be cut in two so that the reader ends differently. */
  lemma {:induction false} BadCut<E>(judge: Judgement<E>, text: Text) returns (at: nat)
    requires !Fits(judge, text)
    ensures at <= |text|
    ensures Run(judge, [text[..at], text[at..]]) != Whole(judge, text)
    decreases |text|
  {
    hide FirstFrame;
    hide Run;
    hide Whole;
    hide Doomed;
    var cut := FirstFrame(text).value;
    DoomedIsInvalid(judge, text);
    if Tight(cut) && !Doomed(judge, text) {
      at := TightCut(judge, text);
    } else {
      var m := BadCut(judge, cut.rest);
      at := |cut.frame + cut.boundary| + m;
      LaterBadCut(judge, text, cut, m);
    }
  }

  ghost predicate CutIndependent<E(!new)>(judge: Judgement<E>, text: Text) {
    forall pieces: seq<Text> | pieces != [] && Concat(pieces) == text :: Run(judge, pieces) == Whole(judge, text)
  }

  lemma CutRunIsWhole<E>(judge: Judgement<E>, pieces: seq<Text>)
    requires pieces != [] && Fits(judge, Concat(pieces))
    ensures Run(judge, pieces) == Whole(judge, Concat(pieces))
  {
    hide Settle;
    hide Whole;
    hide Fits;
    SettleIsWhole(judge, pieces[0], pieces[1..]);
  }

  lemma ConcatOfCut(text: Text, at: nat)
    requires at <= |text|
    ensures Concat([text[..at], text[at..]]) == text
  {
    assert [text[..at], text[at..]][1..] == [text[at..]];
    assert Concat([text[at..]]) == text[at..] + Concat([]);
    assert text[..at] + text[at..] == text;
  }

  /** Every way of cutting the text gives the events and the ending of the text in one piece,
      exactly when the text fits. */
  lemma ChunkIndependence<E(!new)>(judge: Judgement<E>, text: Text)
    ensures CutIndependent(judge, text) <==> Fits(judge, text)
  {
    hide Run;
    hide Whole;
    hide Fits;
    if Fits(judge, text) {
      forall pieces: seq<Text> | pieces != [] && Concat(pieces) == text
        ensures Run(judge, pieces) == Whole(judge, text)
      {
        CutRunIsWhole(judge, pieces);
      }
    } else {
      var at := BadCut(judge, text);
      ConcatOfCut(text, at);
      assert Run(judge, [text[..at], text[at..]]) != Whole(judge, text);
    }
  }

  // ----- when a text fits -----

  /** No frame of the text is 262142 to 262144 code units long. */
  predicate NoNearLimitFrame(text: Text)
    decreases |text|
  {
    match FirstFrame(text)
    case None => true
    case Some(cut) => !(FRAME_LIMIT - 2 <= |cut.frame| <= FRAME_LIMIT) && NoNearLimitFrame(cut.rest)
  }

  lemma BoundaryLength(text: Text)
    requires FirstFrame(text).Some?
    ensures 2 <= |FirstFrame(text).value.boundary| <= 4
  {
    BoundaryFound(text, 0);
  }

  lemma {:induction false} FarFromLimitFits<E>(judge: Judgement<E>, text: Text)
    requires NoNearLimitFrame(text)
    ensures Fits(judge, text)
    decreases |text|
  {
    hide FirstFrame;
    hide Whole;
    if FirstFrame(text).Some? {
      BoundaryLength(text);
      FarFromLimitFits(judge, FirstFrame(text).value.rest);
    }
  }

  /** No frame of the text is tight, up to the first one over the limit. */
  predicate NoTightFrame(text: Text)
    decreases |text|
  {
    match FirstFrame(text)
    case None => true
    case Some(cut) => !Tight(cut) && (|cut.frame| <= FRAME_LIMIT ==> NoTightFrame(cut.rest))
  }

  lemma {:induction false} NoTightFits<E>(judge: Judgement<E>, text: Text)
    requires NoTightFrame(text)
    ensures Fits(judge, text)
    decreases |text|
  {
    hide FirstFrame, Doomed;
    if FirstFrame(text).Some? && |FirstFrame(text).value.frame| <= FRAME_LIMIT {
      NoTightFits(judge, FirstFrame(text).value.rest);
    }
  }

  /** A reader that yields an event for every frame. */
  function EmitAlways<E>(event: E): Judgement<E> {
    _ => Emit(event)
  }

  lemma {:induction false} TightMisfits<E>(event: E, text: Text)
    requires !NoTightFrame(text)
    ensures !Fits(EmitAlways(event), text)
    decreases |text|
  {
    hide FirstFrame;
    var cut := FirstFrame(text).value;
    assert |cut.frame| <= FRAME_LIMIT ==> Weigh(EmitAlways(event), cut.frame) == Emit(event);
    if !Tight(cut) {
      TightMisfits(event, cut.rest);
    }
  }

  /** Every reader, whatever it makes of frames, gives the same on every cut, exactly when no tight frame
      comes before the first one over the limit. */
  lemma EveryReaderExactly<E(!new)>(event: E, text: Text)
    ensures (forall judge: Judgement<E> :: CutIndependent(judge, text)) <==> NoTightFrame(text)
  {
    hide CutIndependent, Fits, NoTightFrame;
    if NoTightFrame(text) {
      forall judge: Judgement<E> ensures CutIndependent(judge, text) {
        NoTightFits(judge, text);
        ChunkIndependence(judge, text);
      }
    } else {
      TightMisfits(event, text);
      ChunkIndependence(EmitAlways(event), text);
    }
  }

  /** The limit on the residue does make cutting visible: a comment of 262142 code units is
      skipped in one piece and rejected when the last code unit of its boundary comes late. */
  lemma NearLimitCounterexample<E>(judge: Judgement<E>, comment: Text)
    requires |comment| == FRAME_LIMIT - 2 && judge(comment) == Skip
    requires forall c <- comment :: c != LF && c != CR
    ensures var text := comment + [CR, LF, CR, LF];
            Whole(judge, text) == Outcome([], Returned) &&
            Run(judge, [comment + [CR, LF, CR], [LF]]) == Outcome([], InvalidEvent)
  {
    var text := comment + [CR, LF, CR, LF];
    CommentFrame(comment);
    hide FirstFrame;
    WholeStep(judge, text);
    assert Whole(judge, []) == Outcome([], Returned) by {
      EmptyStream(judge);
    }
    OverlongHead(judge, comment + [CR, LF, CR], [LF]) by {
      PartialBoundary(text);
      assert text[..|comment| + 3] == comment + [CR, LF, CR];
    }
  }

  lemma CommentFrame(comment: Text)
    requires forall c <- comment :: c != LF && c != CR
    ensures FirstFrame(comment + [CR, LF, CR, LF]) == Some(Cut(comment, [CR, LF, CR, LF], []))
  {
    var text := comment + [CR, LF, CR, LF];
    forall j | 0 <= j < |comment| ensures BoundaryAt(text, j) == 0 {
      assert text[j] == comment[j] && comment[j] in comment;
    }
    var n := |comment|;
    assert text[n] == CR && text[n + 1] == LF && text[n + 2] == CR && text[n + 3] == LF;
    BoundaryUnique(text, 0, n);
    assert text[..n] == comment && text[n..n + 4] == [CR, LF, CR, LF] && text[n + 4..] == [];
  }

  lemma EmptyStream<E>(judge: Judgement<E>)
    ensures Whole(judge, []) == Outcome([], Returned)
    ensures Fits(judge, [])
  {
    assert FirstFrame([]).None?;
  }

  // ----- what the bridge writes is what the reader yields -----

  /** Text without line breaks, as `JSON.stringify` produces. */
  predicate OneLine(t: Text) {
    forall c <- t :: c != LF && c != CR
  }

  /** The frame the bridge writes for an event, without its boundary. */
  function EventFrame(json: Text): Text {
    DATA_FIELD + [SPACE] + json
  }

  /** The frame the bridge writes before it ends the stream, without its boundary. */
  function CloseFrame(json: Text): Text {
    EVENT_FIELD + [SPACE] + CLOSE_EVENT + [LF] + EventFrame(json)
  }

  /** The stream the bridge writes for a list of events and a final close. */
  function BridgeStream(events: seq<Text>, close: Option<Text>): Text {
    if events == [] then
      if close.Some? then CloseFrame(close.value) + [LF, LF] else []
    else
      EventFrame(events[0]) + [LF, LF] + BridgeStream(events[1..], close)
  }

  /** Not a line break, or a single one inside the frame. */
  predicate NoBoundaryFrom(frame: Text, j: nat)
    requires j < |frame|
  {
    frame[j] != CR && (frame[j] == LF ==> j + 1 < |frame| && frame[j + 1] != LF && frame[j + 1] != CR)
  }

  /** A frame whose line breaks are single is cut off where the bridge ended it. */
  lemma WrittenFrame(frame: Text, rest: Text)
    requires forall j | 0 <= j < |frame| :: NoBoundaryFrom(frame, j)
    ensures FirstFrame(frame + [LF, LF] + rest) == Some(Cut(frame, [LF, LF], rest))
  {
    var s := frame + [LF, LF] + rest;
    assert s[..|frame|] == frame;
    forall j | 0 <= j < |frame| ensures BoundaryAt(s, j) == 0 {
      assert s[j] == frame[j] && NoBoundaryFrom(frame, j);
      if frame[j] == LF {
        assert s[j + 1] == frame[j + 1];
        assert LineBreakAt(s, j + 1) == 0;
      } else {
        assert LineBreakAt(s, j) == 0;
      }
    }
    BoundaryUnique(s, 0, |frame|);
    assert s[|frame|..|frame| + 2] == [LF, LF] && s[|frame| + 2..] == rest;
  }

  lemma {:induction false} LineBreakUnique(s: Text, from: nat, i: nat)
    requires from <= i < |s| && LineBreakAt(s, i) > 0 && forall j | from <= j < i :: LineBreakAt(s, j) == 0
    ensures FindLineBreak(s, from) == Some(i)
    decreases i - from
  {
    if from < i {
      LineBreakUnique(s, from + 1, i);
    }
  }

  lemma OneLineIsOneLine(line: Text)
    requires OneLine(line)
    ensures Lines(line) == [line]
  {
    forall j: nat ensures LineBreakAt(line, j) == 0 {
      assert j < |line| ==> line[j] in line;
    }
  }

  lemma EventFrameFields(json: Text)
    requires OneLine(json)
    ensures var frame := EventFrame(json);
            OneLine(frame) && DATA_FIELD <= frame && DataValue(frame) == json && !(EVENT_FIELD <= frame)
  {
    var frame := EventFrame(json);
    assert frame[5..] == [SPACE] + json;
    assert ([SPACE] + json)[1..] == json;
    assert frame[0] == 0x64 && EVENT_FIELD[0] == 0x65;
  }

  lemma JudgeEventFrame<J, E>(codec: Codec<J, E>, json: Text)
    requires OneLine(json)
    ensures Judge(codec, EventFrame(json)) == Decode(codec, [], json)
  {
    var frame := EventFrame(json);
    EventFrameFields(json);
    OneLineIsOneLine(frame);
    hide EventFrame;
    var none: seq<Text> := [];
    assert [frame][..0] == none;
    assert DataOf([frame]) == DataOf([]) + [DataValue(frame)];
    assert EventNameOf([frame]) == EventNameOf([]);
  }

  // ----- what the lines of a frame mean -----

  /** A line as written: a name, a data value with or without a space before it, or any other line. */
  datatype Field = Named(name: Text) | Data(value: Text, spaced: bool) | Unread(line: Text)

  /** A line and the line break after it, if another line follows. */
  datatype Line = Line(field: Field, crlf: bool)

  function FieldText(f: Field): Text {
    match f
    case Named(name) => EVENT_FIELD + name
    case Data(value, spaced) => DATA_FIELD + (if spaced then [SPACE] else []) + value
    case Unread(line) => line
  }

  predicate WellWritten(f: Field) {
    OneLine(FieldText(f)) &&
    match f
    case Named(_) => true
    case Data(value, spaced) => !spaced && value != [] ==> value[0] != SPACE
    case Unread(line) => !(DATA_FIELD <= line) && !(EVENT_FIELD <= line)
  }

  function Written(lines: seq<Line>): Text
    requires lines != []
  {
    if |lines| == 1 then FieldText(lines[0].field)
    else FieldText(lines[0].field) + (if lines[0].crlf then [CR, LF] else [LF]) + Written(lines[1..])
  }

  function FieldTexts(lines: seq<Line>): seq<Text> {
    seq(|lines|, i requires 0 <= i < |lines| => FieldText(lines[i].field))
  }

  /** The data values, in order. */
  function DataValues(lines: seq<Line>): seq<Text> {
    if lines == [] then []
    else (if lines[0].field.Data? then [lines[0].field.value] else []) + DataValues(lines[1..])
  }

  /** The name given last. */
  function LastName(lines: seq<Line>): Option<Text> {
    if lines == [] then None
    else
      var later := LastName(lines[1..]);
      if later.Some? then later
      else if lines[0].field.Named? then Some(Trim(lines[0].field.name))
      else None
  }

  /** Splitting at a line break. */
  lemma LinesSplit(first: Text, crlf: bool, rest: Text)
    requires OneLine(first)
    ensures Lines(first + (if crlf then [CR, LF] else [LF]) + rest) == [first] + Lines(rest)
  {
    var s := first + (if crlf then [CR, LF] else [LF]) + rest;
    forall j | 0 <= j < |first| ensures LineBreakAt(s, j) == 0 {
      assert s[j] == first[j] && first[j] in first;
    }
    LineBreakUnique(s, 0, |first|);
    assert s[..|first|] == first;
    assert s[|first| + LineBreakAt(s, |first|)..] == rest;
  }

  lemma {:induction false} LinesOfWritten(lines: seq<Line>)
    requires lines != [] && forall l <- lines :: WellWritten(l.field)
    ensures Lines(Written(lines)) == FieldTexts(lines)
    decreases |lines|
  {
    assert lines[0] in lines;
    var first := FieldText(lines[0].field);
    assert OneLine(first);
    if |lines| == 1 {
      OneLineIsOneLine(first);
      hide Lines;
      assert FieldTexts(lines) == [first];
    } else {
      var rest := Written(lines[1..]);
      assert Written(lines) == first + (if lines[0].crlf then [CR, LF] else [LF]) + rest;
      hide FieldText, Lines, Written, WellWritten, OneLine;
      LinesOfWritten(lines[1..]);
      LinesSplit(first, lines[0].crlf, rest);
      assert FieldTexts(lines) == [first] + FieldTexts(lines[1..]);
    }
  }

  lemma {:induction false} DataOfFront(first: Text, rest: seq<Text>)
    ensures DataOf([first] + rest) == (if DATA_FIELD <= first then [DataValue(first)] else []) + DataOf(rest)
    decreases |rest|
  {
    var all := [first] + rest;
    if rest == [] {
      assert all[..0] == rest;
    } else {
      DataOfFront(first, rest[..|rest| - 1]);
      assert all[..|all| - 1] == [first] + rest[..|rest| - 1];
    }
  }

  predicate AnyName(lines: seq<Text>) {
    lines != [] && (EVENT_FIELD <= lines[|lines| - 1] || AnyName(lines[..|lines| - 1]))
  }

  lemma {:induction false} EventNameFront(first: Text, rest: seq<Text>)
    ensures AnyName([first] + rest) <==> EVENT_FIELD <= first || AnyName(rest)
    ensures EventNameOf([first] + rest) ==
            if AnyName(rest) then EventNameOf(rest)
            else if EVENT_FIELD <= first then Trim(first[6..]) else []
    decreases |rest|
  {
    hide Trim;
    var all := [first] + rest;
    if rest == [] {
      assert all[..0] == rest;
    } else {
      EventNameFront(first, rest[..|rest| - 1]);
      assert all[..|all| - 1] == [first] + rest[..|rest| - 1];
    }
  }

  lemma DataTextRead(value: Text, spaced: bool)
    requires !spaced && value != [] ==> value[0] != SPACE
    ensures var text := FieldText(Data(value, spaced));
            DATA_FIELD <= text && !(EVENT_FIELD <= text) && DataValue(text) == value
  {
    var text := FieldText(Data(value, spaced));
    var tail := (if spaced then [SPACE] else []) + value;
    assert text == DATA_FIELD + tail;
    assert text[0] == DATA_FIELD[0] != EVENT_FIELD[0];
    assert text[5..] == tail;
    if spaced {
      assert tail[1..] == value;
    } else {
      assert tail == value;
    }
    hide FieldText;
  }

  lemma NameTextRead(name: Text)
    ensures var text := FieldText(Named(name));
            EVENT_FIELD <= text && !(DATA_FIELD <= text) && text[6..] == name
  {
    assert FieldText(Named(name))[0] == EVENT_FIELD[0] != DATA_FIELD[0];
  }

  lemma FieldTextRead(f: Field)
    requires WellWritten(f)
    ensures DATA_FIELD <= FieldText(f) <==> f.Data?
    ensures EVENT_FIELD <= FieldText(f) <==> f.Named?
    ensures f.Data? ==> DataValue(FieldText(f)) == f.value
    ensures f.Named? ==> FieldText(f)[6..] == f.name
  {
    match f
    case Named(name) =>
      hide FieldText, DataValue;
      NameTextRead(name);
    case Data(value, spaced) =>
      hide FieldText, DataValue;
      DataTextRead(value, spaced);
    case Unread(_) =>
  }

  lemma {:induction false} FieldsOfTexts(lines: seq<Line>)
    requires forall l <- lines :: WellWritten(l.field)
    ensures DataOf(FieldTexts(lines)) == DataValues(lines)
    ensures AnyName(FieldTexts(lines)) <==> LastName(lines).Some?
    ensures EventNameOf(FieldTexts(lines)) == if LastName(lines).Some? then LastName(lines).value else []
    decreases |lines|
  {
    if lines != [] {
      var first, rest := FieldText(lines[0].field), FieldTexts(lines[1..]);
      assert FieldTexts(lines) == [first] + rest;
      assert lines[0] in lines;
      FieldTextRead(lines[0].field);
      FieldsOfTexts(lines[1..]);
      DataOfFront(first, rest);
      EventNameFront(first, rest);
      hide FieldText, DataOf, EventNameOf, AnyName, Trim, FieldTexts, DataValue;
    }
  }

  /** Joined values, each a line, are told apart again by splitting. */
  lemma {:induction false} JoinSplits(data: seq<Text>)
    requires data != [] && forall d <- data :: OneLine(d)
    ensures Lines(JoinLines(data)) == data
    decreases |data|
  {
    assert data[0] in data;
    if |data| == 1 {
      OneLineIsOneLine(data[0]);
    } else {
      JoinSplits(data[1..]);
      LinesSplit(data[0], false, JoinLines(data[1..]));
      assert data == [data[0]] + data[1..];
    }
  }

  /** What a frame means, from the fields it was written with: the data values joined are the payload, the
      name given last tells a close from an event, and other lines do not matter. */
  lemma FieldsRead<J, E>(codec: Codec<J, E>, lines: seq<Line>)
    requires lines != [] && forall l <- lines :: WellWritten(l.field)
    ensures var verdict := Judge(codec, Written(lines));
            var payload := codec.parse(JoinLines(DataValues(lines)));
            var closes := LastName(lines) == Some(CLOSE_EVENT);
            if DataValues(lines) == [] then verdict == Skip
            else if payload.None? then verdict == Stop(InvalidEvent)
            else if closes then
              match codec.closeCode(payload.value)
              case None => verdict == Stop(InvalidEvent)
              case Some(code) => verdict == Stop(Closed(code))
            else
              match codec.accept(payload.value)
              case None => verdict == Stop(InvalidEvent)
              case Some(event) => verdict == Emit(event)
  {
    LinesOfWritten(lines);
    FieldsOfTexts(lines);
    assert CLOSE_EVENT != [];
    hide Lines, DataOf, EventNameOf, JoinLines, FieldText, Written;
  }

  lemma CloseFrameLines(json: Text)
    requires OneLine(json)
    ensures Lines(CloseFrame(json)) == [EVENT_FIELD + [SPACE] + CLOSE_EVENT, EventFrame(json)]
  {
    var first := EVENT_FIELD + [SPACE] + CLOSE_EVENT;
    var frame := CloseFrame(json);
    EventFrameFields(json);
    assert frame == first + [LF] + EventFrame(json);
    hide EventFrame;
    hide CloseFrame;
    forall j | 0 <= j < |first| ensures LineBreakAt(frame, j) == 0 {
      assert frame[j] == first[j];
    }
    LineBreakUnique(frame, 0, |first|);
    assert frame[..|first|] == first && frame[|first| + 1..] == EventFrame(json);
    OneLineIsOneLine(EventFrame(json));
  }

  lemma JudgeCloseFrame<J, E>(codec: Codec<J, E>, json: Text)
    requires OneLine(json)
    ensures Judge(codec, CloseFrame(json)) == Decode(codec, CLOSE_EVENT, json)
  {
    var first := EVENT_FIELD + [SPACE] + CLOSE_EVENT;
    CloseFrameLines(json);
    EventFrameFields(json);
    var last := EventFrame(json);
    hide EventFrame;
    hide CloseFrame;
    assert first[6..] == [SPACE] + CLOSE_EVENT;
    assert ([SPACE] + CLOSE_EVENT)[1..] == CLOSE_EVENT;
    assert TrimStart([SPACE] + CLOSE_EVENT) == TrimStart(CLOSE_EVENT) == CLOSE_EVENT;
    assert TrimEnd(CLOSE_EVENT) == CLOSE_EVENT;
    assert Trim(first[6..]) == CLOSE_EVENT;
    var none: seq<Text> := [];
    assert [first, last][..1] == [first] && [first][..0] == none;
    assert EventNameOf([first]) == CLOSE_EVENT;
    assert EventNameOf([first, last]) == EventNameOf([first]);
    assert first[0] == 0x65 && DATA_FIELD[0] == 0x64;
    assert DataOf([first]) == DataOf([]) + [];
    assert DataOf([first, last]) == DataOf([first]) + [DataValue(last)];
  }

  /** The payloads decode to values that pass for these events. */
  ghost predicate Accepts<J, E>(codec: Codec<J, E>, jsons: seq<Text>, events: seq<E>) {
    && |jsons| == |events|
    && forall i | 0 <= i < |jsons| ::
         && OneLine(jsons[i]) && codec.parse(jsons[i]).Some?
         && codec.accept(codec.parse(jsons[i]).value) == Some(events[i])
  }

  /** The stream ends without a close frame, or with one whose payload carries the code. */
  ghost predicate Closes<J, E>(codec: Codec<J, E>, close: Option<Text>, ending: Ending) {
    match close
    case None => ending == Returned
    case Some(json) =>
      OneLine(json) && codec.parse(json).Some? && codec.closeCode(codec.parse(json).value).Some?
      && ending == Closed(codec.closeCode(codec.parse(json).value).value)
  }

  /** Every frame written is shorter than the limit. */
  predicate ShortFrames(jsons: seq<Text>, close: Option<Text>) {
    && (forall json <- jsons :: |EventFrame(json)| < FRAME_LIMIT)
    && (close.Some? ==> |CloseFrame(close.value)| < FRAME_LIMIT)
  }

  lemma EventFrameWritten(json: Text, rest: Text)
    requires OneLine(json)
    ensures FirstFrame(EventFrame(json) + [LF, LF] + rest) == Some(Cut(EventFrame(json), [LF, LF], rest))
  {
    var frame := EventFrame(json);
    EventFrameFields(json);
    forall j | 0 <= j < |frame| ensures NoBoundaryFrom(frame, j) {
      assert frame[j] in frame;
    }
    WrittenFrame(frame, rest);
  }

  /** One written frame in front of the rest of the stream. */
  lemma FrameInFront<E>(judge: Judgement<E>, text: Text, frame: Text, rest: Text)
    requires FirstFrame(text) == Some(Cut(frame, [LF, LF], rest))
    ensures Whole(judge, text) == Then(Weigh(judge, frame), Whole(judge, rest))
    ensures Fits(judge, text) <==>
            (|frame| == FRAME_LIMIT ==> Whole(judge, text) == Outcome([], InvalidEvent))
            && (!Weigh(judge, frame).Stop? ==> Fits(judge, rest))
  {
    DoomedIsInvalid(judge, text);
    WholeStep(judge, text);
    hide FirstFrame, Whole, Doomed, Weigh;
  }

  /** The end of the stream is read as written, in one piece and however cut, exactly when the close frame
      is shorter than the limit. */
  lemma BridgeEnd<J, E>(codec: Codec<J, E>, close: Option<Text>, ending: Ending)
    requires Closes(codec, close, ending)
    ensures Whole(Judging(codec), BridgeStream([], close)) == Outcome([], ending)
            && Fits(Judging(codec), BridgeStream([], close))
            <==> ShortFrames([], close)
  {
    var judge := Judging(codec);
    match close
    case None =>
      EmptyStream(judge);
    case Some(json) =>
      var frame := CloseFrame(json);
      CloseFrameShape(json);
      WrittenFrame(frame, []);
      JudgeCloseFrame(codec, json);
      EmptyStream(judge);
      assert BridgeStream([], close) == frame + [LF, LF] + [];
      assert judge(frame) == Judge(codec, frame);
      hide FirstFrame, CloseFrame, Judge, Whole, Fits;
      FrameInFront(judge, frame + [LF, LF] + [], frame, []);
  }

  lemma CloseFrameShape(json: Text)
    requires OneLine(json)
    ensures var frame := CloseFrame(json);
            |frame| == |json| + 27 &&
            forall j | 0 <= j < |frame| :: NoBoundaryFrom(frame, j)
  {
    var first, last := EVENT_FIELD + [SPACE] + CLOSE_EVENT, EventFrame(json);
    EventFrameFields(json);
    var frame := CloseFrame(json);
    assert frame == first + [LF] + last;
    assert |first| == 20 && |last| == |json| + 6 && last[0] == 0x64;
    forall j | 0 <= j < |frame| ensures NoBoundaryFrom(frame, j) {
      if j > 20 {
        assert frame[j] == last[j - 21] && last[j - 21] in last;
      } else if j == 20 {
        assert frame[21] == last[0];
      } else {
        assert frame[j] == first[j];
      }
    }
  }

  /** What the bridge writes is read as written, in one piece and however cut, exactly when every frame is
      shorter than the limit. */
  lemma {:induction false} BridgeStreamWhole<J, E>(
    codec: Codec<J, E>, jsons: seq<Text>, events: seq<E>, close: Option<Text>, ending: Ending)
    requires Accepts(codec, jsons, events) && Closes(codec, close, ending)
    ensures Whole(Judging(codec), BridgeStream(jsons, close)) == Outcome(events, ending)
            && Fits(Judging(codec), BridgeStream(jsons, close))
            <==> ShortFrames(jsons, close)
    decreases |jsons|
  {
    if jsons == [] {
      BridgeEnd(codec, close, ending);
    } else {
      var judge := Judging(codec);
      var frame := EventFrame(jsons[0]);
      var rest := BridgeStream(jsons[1..], close);
      BridgeStreamWhole(codec, jsons[1..], events[1..], close, ending);
      EventFrameWritten(jsons[0], rest);
      JudgeEventFrame(codec, jsons[0]);
      assert judge(frame) == Judge(codec, frame) == Emit(events[0]);
      assert BridgeStream(jsons, close) == frame + [LF, LF] + rest;
      ShortFramesStep(jsons, close);
      assert ending != InvalidEvent;
      BridgeStreamStep(judge, frame + [LF, LF] + rest, frame, rest, events, ending);
    }
  }

  lemma ShortFramesStep(jsons: seq<Text>, close: Option<Text>)
    requires jsons != []
    ensures ShortFrames(jsons, close) <==> |EventFrame(jsons[0])| < FRAME_LIMIT && ShortFrames(jsons[1..], close)
  {
    assert jsons == [jsons[0]] + jsons[1..];
    hide EventFrame, CloseFrame;
  }

  lemma BridgeStreamStep<E>(judge: Judgement<E>, text: Text, frame: Text, rest: Text, events: seq<E>, ending: Ending)
    requires events != [] && judge(frame) == Emit(events[0]) && ending != InvalidEvent
    requires FirstFrame(text) == Some(Cut(frame, [LF, LF], rest))
    ensures Whole(judge, text) == Outcome(events, ending) && Fits(judge, text) <==>
            |frame| < FRAME_LIMIT && Whole(judge, rest) == Outcome(events[1..], ending) && Fits(judge, rest)
  {
    hide FirstFrame, Whole, Fits;
    FrameInFront(judge, text, frame, rest);
    assert [events[0]] + events[1..] == events;
    if |frame| <= FRAME_LIMIT {
      var o := Whole(judge, rest);
      assert ([events[0]] + o.events)[1..] == o.events;
    }
  }

  /** Whatever way the network cuts the bridge's stream, the reader yields exactly the events the bridge
      wrote, in order, and ends with the bridge's close code, or returns when there is none. */
  ghost predicate RoundTrips<J, E(!new)>(
    codec: Codec<J, E>, jsons: seq<Text>, events: seq<E>, close: Option<Text>, ending: Ending)
  {
    forall pieces: seq<Text> | pieces != [] && Concat(pieces) == BridgeStream(jsons, close) ::
      Run(Judging(codec), pieces) == Outcome(events, ending)
  }

  /** The round trip holds exactly when every frame written is shorter than the limit. */
  lemma BridgeRoundTrip<J, E(!new)>(
    codec: Codec<J, E>, jsons: seq<Text>, events: seq<E>, close: Option<Text>, ending: Ending)
    requires Accepts(codec, jsons, events) && Closes(codec, close, ending)
    ensures RoundTrips(codec, jsons, events, close, ending) <==> ShortFrames(jsons, close)
  {
    var judge, text := Judging(codec), BridgeStream(jsons, close);
    hide Run, Fits, BridgeStream, ShortFrames, Accepts, Closes;
    BridgeStreamWhole(codec, jsons, events, close, ending);
    ChunkIndependence(judge, text);
    assert Concat([text]) == text by {
      var none: seq<Text> := [];
      assert [text][1..] == none && text + Concat(none) == text;
    }
    assert RoundTrips(codec, jsons, events, close, ending) ==> Run(judge, [text]) == Outcome(events, ending);
  }
}
