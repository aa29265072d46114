/**
 The streaming call as a whole (`agent/src/llm.rs`): lines in, live events out, and the
 response built when the stream ends.
 */
module ChatStream {
  import opened Wrappers
  import opened Text
  import opened Sse
  import opened Stream

  // ----- The response -------------------------------------------------------------------------------

  function InsertByIndex(sorted: seq<PartialToolCall>, c: PartialToolCall): seq<PartialToolCall> {
    if sorted == [] || sorted[|sorted| - 1].index <= c.index then sorted + [c]
    else InsertByIndex(sorted[..|sorted| - 1], c) + [sorted[|sorted| - 1]]
  }

  /** A stable sort by index. */
  function SortByIndex(calls: seq<PartialToolCall>): seq<PartialToolCall> {
    if calls == [] then [] else InsertByIndex(SortByIndex(calls[..|calls| - 1]), calls[|calls| - 1])
  }

  /** A slot that got a name or arguments. */
  predicate Told(c: PartialToolCall) { c.name.Some? || c.args != "" }

  function Kept(calls: seq<PartialToolCall>): seq<PartialToolCall> {
    if calls == [] then []
    else
      var last := calls[|calls| - 1];
      Kept(calls[..|calls| - 1]) + if Told(last) then [last] else []
  }

  function ToolCallOf(c: PartialToolCall): ToolCall {
    ToolCall(if c.id.Some? then c.id.value else "call-" + NatText(c.index), OrEmpty(c.name), c.args)
  }

  function ToolCallsOf(calls: seq<PartialToolCall>): (r: seq<ToolCall>)
    ensures |r| == |calls| && forall k :: 0 <= k < |r| ==> r[k] == ToolCallOf(calls[k])
  {
    seq(|calls|, k requires 0 <= k < |calls| => ToolCallOf(calls[k]))
  }

  function BuildStreamResponse(content: string, calls: seq<PartialToolCall>): ChatResponse {
    var toolCalls := ToolCallsOf(Kept(SortByIndex(calls)));
    ChatResponse(if content == "" then None else Some(content), if toolCalls == [] then None else Some(toolCalls))
  }

  predicate IndexesAscend(calls: seq<PartialToolCall>) {
    forall i, j :: 0 <= i < j < |calls| ==> calls[i].index < calls[j].index
  }

  lemma {:induction false} InsertAscends(sorted: seq<PartialToolCall>, c: PartialToolCall)
    requires IndexesAscend(sorted) && forall k :: 0 <= k < |sorted| ==> sorted[k].index != c.index
    ensures IndexesAscend(InsertByIndex(sorted, c))
    ensures forall x :: x in InsertByIndex(sorted, c) <==> x in sorted || x == c
  {
    if sorted != [] && sorted[|sorted| - 1].index > c.index {
      var front, last := sorted[..|sorted| - 1], sorted[|sorted| - 1];
      InsertAscends(front, c);
      assert sorted == front + [last];
      var inner := InsertByIndex(front, c);
      forall k | 0 <= k < |inner| ensures inner[k].index < last.index {
        assert inner[k] in inner;
      }
    }
  }

  lemma {:induction false} SortAscends(calls: seq<PartialToolCall>)
    requires DistinctIndexes(calls)
    ensures IndexesAscend(SortByIndex(calls))
    ensures forall x :: x in SortByIndex(calls) <==> x in calls
  {
    if calls != [] {
      var front, last := calls[..|calls| - 1], calls[|calls| - 1];
      SortAscends(front);
      var sorted := SortByIndex(front);
      forall k | 0 <= k < |sorted| ensures sorted[k].index != last.index {
        assert sorted[k] in front;
      }
      InsertAscends(sorted, last);
      assert calls == front + [last];
    }
  }

  lemma {:induction false} KeptAscends(calls: seq<PartialToolCall>)
    requires IndexesAscend(calls)
    ensures IndexesAscend(Kept(calls))
    ensures forall x :: x in Kept(calls) <==> x in calls && Told(x)
  {
    if calls != [] {
      var front, last := calls[..|calls| - 1], calls[|calls| - 1];
      KeptAscends(front);
      var kept := Kept(front);
      assert calls == front + [last];
      forall k | 0 <= k < |kept| ensures kept[k].index < last.index {
        assert kept[k] in front;
      }
    }
  }

  // ----- The response and the events -------------------------------------------------------------------

  predicate Ascending(at: seq<nat>) { forall i, j :: 0 <= i < j < |at| ==> at[i] < at[j] }

  /** The indexes of the calls a subscriber would list: those shown with a name or arguments. */
  ghost predicate ShownAt(events: seq<StreamEvent>, at: seq<nat>) {
    Ascending(at) && forall i :: i in at <==> Mentioned(events, i) && Told(ShownCall(events, i))
  }

  function CallsAt(events: seq<StreamEvent>, at: seq<nat>): (r: seq<ToolCall>)
    ensures |r| == |at| && forall k :: 0 <= k < |r| ==> r[k] == ToolCallOf(ShownCall(events, at[k]))
  {
    seq(|at|, k requires 0 <= k < |at| => ToolCallOf(ShownCall(events, at[k])))
  }

  /** The response a subscriber would put together from the events alone. */
  ghost predicate Shows(events: seq<StreamEvent>, r: ChatResponse) {
    && r.content == (if ShownText(events) == "" then None else Some(ShownText(events)))
    && exists at :: ShownAt(events, at) &&
         r.toolCalls == if at == [] then None else Some(CallsAt(events, at))
  }

  function IndexesOf(calls: seq<PartialToolCall>): (at: seq<nat>)
    ensures |at| == |calls| && forall k :: 0 <= k < |at| ==> at[k] == calls[k].index
  {
    seq(|calls|, k requires 0 <= k < |calls| => calls[k].index)
  }

  /** The response built from the buffer is the one the events show. */
  lemma ResponseIsWhatWasShown(b: Buffer)
    requires Faithful(b)
    ensures Shows(b.events, BuildStreamResponse(b.content, b.calls))
  {
    hide ShownCall, ShownText, Mentioned, ToolCallOf, SortByIndex, Kept;
    var kept := Kept(SortByIndex(b.calls));
    SortAscends(b.calls);
    KeptAscends(SortByIndex(b.calls));
    var at := IndexesOf(kept);
    forall k | 0 <= k < |kept|
      ensures kept[k] == ShownCall(b.events, at[k]) && Mentioned(b.events, at[k]) && Told(kept[k])
    {
      assert kept[k] in kept;
    }
    forall i: nat ensures i in at <==> Mentioned(b.events, i) && Told(ShownCall(b.events, i)) {
      if Mentioned(b.events, i) && Told(ShownCall(b.events, i)) {
        var k :| 0 <= k < |b.calls| && b.calls[k].index == i;
        assert b.calls[k] in kept;
      }
    }
    assert ShownAt(b.events, at);
    assert ToolCallsOf(kept) == CallsAt(b.events, at);
  }

  lemma {:induction false} AscendingIsUnique(xs: seq<nat>, ys: seq<nat>)
    requires Ascending(xs) && Ascending(ys) && forall i :: i in xs <==> i in ys
    ensures xs == ys
  {
    assert (xs != [] ==> xs[0] in xs) && (ys != [] ==> ys[0] in ys);
    if xs != [] && ys != [] {
      var x, y := xs[|xs| - 1], ys[|ys| - 1];
      var xf, yf := xs[..|xs| - 1], ys[..|ys| - 1];
      assert x in ys && y in xs;
      LastIsLargest(xs, y);
      LastIsLargest(ys, x);
      FrontOf(xs, xf);
      FrontOf(ys, yf);
      AscendingIsUnique(xf, yf);
    }
  }

  lemma LastIsLargest(xs: seq<nat>, y: nat)
    requires Ascending(xs) && y in xs
    ensures y <= xs[|xs| - 1]
  {
  }

  lemma FrontOf(xs: seq<nat>, front: seq<nat>)
    requires Ascending(xs) && xs != [] && front == xs[..|xs| - 1]
    ensures forall i :: i in front <==> i in xs && i != xs[|xs| - 1]
  {
    assert xs == front + [xs[|xs| - 1]];
  }

  /** The events leave no choice of response. */
  lemma ShowsOnlyOne(events: seq<StreamEvent>, r: ChatResponse, q: ChatResponse)
    requires Shows(events, r) && Shows(events, q)
    ensures r == q
  {
    hide ShownCall, ShownText, Mentioned, ToolCallOf;
    var at :| ShownAt(events, at) && r.toolCalls == if at == [] then None else Some(CallsAt(events, at));
    var bt :| ShownAt(events, bt) && q.toolCalls == if bt == [] then None else Some(CallsAt(events, bt));
    AscendingIsUnique(at, bt);
  }

  // ----- The whole call --------------------------------------------------------------------------------

  /** A line, or the reader failing. */
  type Line = Option<string>

  datatype Outcome = Outcome(events: seq<StreamEvent>, result: Result<ChatResponse, StreamError>)

  function Finish(decode: Decoder, parts: seq<string>, b: Buffer): Outcome {
    var (after, ok) := HandleAll(decode, b, Flushed(parts));
    if ok then Outcome(after.events + [Finished], Ok(BuildStreamResponse(after.content, after.calls)))
    else Outcome(after.events, Err(BadPayload))
  }

  function Run(decode: Decoder, parts: seq<string>, b: Buffer, lines: seq<Line>): Outcome
    decreases |lines|
  {
    if lines == [] then Finish(decode, parts, b)
    else match lines[0]
      case None => Outcome(b.events, Err(ReadFailed))
      case Some(line) =>
        match ParseSseLine(line)
        case Done => Finish(decode, parts, b)
        case Data(p) => Run(decode, parts + [p], b, lines[1..])
        case Ignore =>
          var (after, ok) := HandleAll(decode, b, Flushed(parts));
          if ok then Run(decode, [], after, lines[1..]) else Outcome(after.events, Err(BadPayload))
  }

  function AllRead(lines: seq<string>): (r: seq<Line>)
    ensures |r| == |lines| && forall k :: 0 <= k < |r| ==> r[k] == Some(lines[k])
  {
    seq(|lines|, k requires 0 <= k < |lines| => Some(lines[k]))
  }

  lemma {:induction false} HandleConcat(decode: Decoder, b: Buffer, xs: seq<string>, ys: seq<string>)
    ensures HandleAll(decode, b, xs + ys) ==
      if HandleAll(decode, b, xs).1 then HandleAll(decode, HandleAll(decode, b, xs).0, ys)
      else HandleAll(decode, b, xs)
    decreases |xs|
  {
    hide TakeAll, Fragments, Decoded;
    if xs == [] {
      assert xs + ys == ys;
    } else {
      var first := Decoded(decode, xs[0]);
      assert (xs + ys)[1..] == xs[1..] + ys;
      if first.Some? {
        HandleConcat(decode, TakeAll(b, Fragments(first.value)), xs[1..], ys);
      }
    }
  }

  /** Handling payloads as they complete is handling the stream's payloads in order. */
  lemma {:induction false} RunHandlesPayloads(decode: Decoder, parts: seq<string>, b: Buffer, lines: seq<string>)
    ensures var (after, ok) := HandleAll(decode, b, Payloads(parts, lines));
      Run(decode, parts, b, AllRead(lines)) ==
      if ok then Outcome(after.events + [Finished], Ok(BuildStreamResponse(after.content, after.calls)))
      else Outcome(after.events, Err(BadPayload))
    decreases |lines|
  {
    hide ParseSseLine, HandleAll, BuildStreamResponse, Flushed;
    if lines != [] {
      assert AllRead(lines)[1..] == AllRead(lines[1..]);
      match ParseSseLine(lines[0])
      case Done =>
      case Data(p) => RunHandlesPayloads(decode, parts + [p], b, lines[1..]);
      case Ignore =>
        HandleConcat(decode, b, Flushed(parts), Payloads([], lines[1..]));
        var (after, ok) := HandleAll(decode, b, Flushed(parts));
        if ok {
          RunHandlesPayloads(decode, [], after, lines[1..]);
        }
    }
  }

  predicate NoneFinished(events: seq<StreamEvent>) {
    forall k :: 0 <= k < |events| ==> !events[k].Finished?
  }

  /** The end is announced once, last, exactly when there is a response; and then subscribers saw it all. */
  ghost predicate WellEnded(o: Outcome) {
    if o.result.Ok? then
      && o.events != [] && o.events[|o.events| - 1] == Finished
      && NoneFinished(o.events[..|o.events| - 1]) && Shows(o.events[..|o.events| - 1], o.result.value)
    else NoneFinished(o.events)
  }

  lemma TakeIsUnfinished(b: Buffer, f: Fragment)
    requires NoneFinished(b.events)
    ensures NoneFinished(Take(b, f).events)
  {
  }

  lemma {:induction false} TakeAllIsUnfinished(b: Buffer, fs: seq<Fragment>)
    requires NoneFinished(b.events)
    ensures NoneFinished(TakeAll(b, fs).events)
  {
    hide Take, NoneFinished;
    if fs != [] {
      TakeAllIsUnfinished(b, fs[..|fs| - 1]);
      TakeIsUnfinished(TakeAll(b, fs[..|fs| - 1]), fs[|fs| - 1]);
    }
  }

  lemma {:induction false} HandleKeeps(decode: Decoder, b: Buffer, payloads: seq<string>)
    requires Faithful(b) && NoneFinished(b.events)
    ensures var after := HandleAll(decode, b, payloads).0; Faithful(after) && NoneFinished(after.events)
    decreases |payloads|
  {
    hide Faithful, NoneFinished, TakeAll, Fragments, Decoded;
    if payloads != [] {
      var first := Decoded(decode, payloads[0]);
      if first.Some? {
        TakeKeepsFaithful(b, Fragments(first.value));
        TakeAllIsUnfinished(b, Fragments(first.value));
        HandleKeeps(decode, TakeAll(b, Fragments(first.value)), payloads[1..]);
      }
    }
  }

  lemma FinishEndsWell(decode: Decoder, parts: seq<string>, b: Buffer)
    requires Faithful(b) && NoneFinished(b.events)
    ensures WellEnded(Finish(decode, parts, b))
  {
    hide Faithful, Shows, BuildStreamResponse, HandleAll, Flushed;
    HandleKeeps(decode, b, Flushed(parts));
    var (after, ok) := HandleAll(decode, b, Flushed(parts));
    if ok {
      assert (after.events + [Finished])[..|after.events|] == after.events;
      ResponseIsWhatWasShown(after);
    }
  }

  /** Over every stream, including broken ones: live subscribers saw exactly the response that was built. */
  lemma {:induction false} StreamEndsWell(decode: Decoder, parts: seq<string>, b: Buffer, lines: seq<Line>)
    requires Faithful(b) && NoneFinished(b.events)
    ensures WellEnded(Run(decode, parts, b, lines))
    decreases |lines|
  {
    hide ParseSseLine, HandleAll, Faithful, NoneFinished, Finish, Flushed, Shows;
    if lines == [] {
      FinishEndsWell(decode, parts, b);
    } else if lines[0].Some? {
      match ParseSseLine(lines[0].value)
      case Done => FinishEndsWell(decode, parts, b);
      case Data(p) => StreamEndsWell(decode, parts + [p], b, lines[1..]);
      case Ignore =>
        HandleKeeps(decode, b, Flushed(parts));
        var (after, ok) := HandleAll(decode, b, Flushed(parts));
        if ok {
          StreamEndsWell(decode, [], after, lines[1..]);
        }
    }
  }

  /** A server that prints printable payloads gets what their fragments build, wherever they were cut. */
  lemma {:induction false} PrintedStreamBuilds(decode: Decoder, payloads: seq<string>)
    requires forall p :: p in payloads ==> Printable(p)
    ensures var fragments := StreamFragments(decode, payloads);
      var o := Run(decode, [], NOTHING, AllRead(Printed(payloads)));
      && (fragments.None? <==> o.result.Err?)
      && (fragments.Some? ==>
            var b := TakeAll(NOTHING, fragments.value);
            o == Outcome(b.events + [Finished], Ok(BuildStreamResponse(b.content, b.calls))))
  {
    hide Printable, Run, Printed, HandleAll, StreamFragments, TakeAll, BuildStreamResponse, Payloads;
    PrintedReadsBack(payloads);
    RunHandlesPayloads(decode, [], NOTHING, Printed(payloads));
    CutsDoNotMatter(decode, NOTHING, payloads);
  }

  /** Leaving out the last blank line, or ending with the terminator and more, changes nothing. */
  lemma CutShortIsTheSame(decode: Decoder, payloads: seq<string>, last: string, tail: seq<string>)
    requires forall p :: p in payloads ==> Printable(p)
    requires Printable(last) && EndsStream(tail)
    ensures Run(decode, [], NOTHING, AllRead(Printed(payloads) + (DataLines(Split(last, '\n')) + tail))) ==
            Run(decode, [], NOTHING, AllRead(Printed(payloads + [last])))
  {
    hide Printable, Run, Printed, HandleAll, BuildStreamResponse, Payloads, DataLines, EndsStream, ParseSseLine;
    LastBlankMayBeMissing(payloads, last, tail);
    PrintedReadsBack(payloads + [last]);
    RunHandlesPayloads(decode, [], NOTHING, Printed(payloads) + (DataLines(Split(last, '\n')) + tail));
    RunHandlesPayloads(decode, [], NOTHING, Printed(payloads + [last]));
  }

  /** A reader that fails before the terminator makes the call fail, whatever came before. */
  lemma {:induction false} FailedReadIsReported(
      decode: Decoder, parts: seq<string>, b: Buffer, lines: seq<Line>, k: nat)
    requires k < |lines| && lines[k].None?
    requires forall j :: 0 <= j < k ==> lines[j].Some? && !ParseSseLine(lines[j].value).Done?
    ensures Run(decode, parts, b, lines).result.Err?
    decreases |lines|
  {
    hide ParseSseLine, HandleAll, Finish, Flushed;
    if k > 0 {
      match ParseSseLine(lines[0].value)
      case Done =>
      case Data(p) => FailedReadIsReported(decode, parts + [p], b, lines[1..], k - 1);
      case Ignore =>
        var (after, ok) := HandleAll(decode, b, Flushed(parts));
        if ok {
          FailedReadIsReported(decode, [], after, lines[1..], k - 1);
        }
    }
  }

  // ----- The response and what the model said --------------------------------------------------------------

  /** The calls that were given a name or arguments. */
  ghost predicate SaidAt(calls: seq<StreamToolCall>, at: seq<nat>) {
    Ascending(at) &&
    forall i :: i in at <==> Called(calls, i) && (SaidName(calls, i).Some? || SaidArgs(calls, i) != "")
  }

  /** A call as the response gives it: an id is made up if none was given, a missing name is empty. */
  predicate IsCall(r: ToolCall, calls: seq<StreamToolCall>, index: nat) {
    && r.arguments == SaidArgs(calls, index)
    && r.name == (match SaidName(calls, index) { case Some(name) => name case None => "" })
    && r.id == (match SaidId(calls, index) { case Some(id) => id case None => "call-" + NatText(index) })
  }

  ghost predicate CallsSaid(r: Option<seq<ToolCall>>, calls: seq<StreamToolCall>, at: seq<nat>) {
    match r
    case None => at == []
    case Some(rs) => at != [] && |rs| == |at| && forall k :: 0 <= k < |at| ==> IsCall(rs[k], calls, at[k])
  }

  /** The response holds what the choices say. */
  ghost predicate Repeats(choices: seq<StreamChoice>, r: ChatResponse) {
    && (match r.content case None => SaidText(choices) == "" case Some(t) => t != "" && t == SaidText(choices))
    && exists at :: SaidAt(SaidCalls(choices), at) && CallsSaid(r.toolCalls, SaidCalls(choices), at)
  }

  lemma ShownIsSaid(choices: seq<StreamChoice>, b: Buffer, r: ChatResponse)
    requires Tells(b, SaidText(choices), SaidCalls(choices)) && Shows(b.events, r)
    ensures Repeats(choices, r)
  {
    hide SaidText, SaidCalls, SaidArgs, SaidName, SaidId, ShownText, ShownCall, Mentioned, Called, Faithful;
    var calls := SaidCalls(choices);
    var at :| ShownAt(b.events, at) && r.toolCalls == if at == [] then None else Some(CallsAt(b.events, at));
    assert SaidAt(calls, at);
    assert CallsSaid(r.toolCalls, calls, at);
  }

  /**
   Over every stream that is read to its end: there is a response exactly when every payload
   decodes, and then it holds what the payloads say, however they were cut.
   */
  lemma ResponseIsWhatWasSaid(decode: Decoder, lines: seq<string>)
    ensures var choices := StreamChoices(decode, Payloads([], lines));
      var o := Run(decode, [], NOTHING, AllRead(lines));
      && (o.result.Ok? <==> choices.Some?)
      && (choices.Some? ==> Repeats(choices.value, o.result.value))
  {
    hide Run, HandleAll, StreamFragments, StreamChoices, TakeAll, BuildStreamResponse, Payloads, Tells, Shows,
      Repeats, Fragments;
    var payloads := Payloads([], lines);
    RunHandlesPayloads(decode, [], NOTHING, lines);
    CutsDoNotMatter(decode, NOTHING, payloads);
    FragmentsOfStream(decode, payloads);
    var choices := StreamChoices(decode, payloads);
    if choices.Some? {
      ChoicesAreTold(choices.value);
      var b := TakeAll(NOTHING, Fragments(choices.value));
      TellsIsFaithful(b, SaidText(choices.value), SaidCalls(choices.value));
      ResponseIsWhatWasShown(b);
      ShownIsSaid(choices.value, b, BuildStreamResponse(b.content, b.calls));
    }
  }

  lemma TellsIsFaithful(b: Buffer, text: string, calls: seq<StreamToolCall>)
    requires Tells(b, text, calls)
    ensures Faithful(b)
  {
  }

  /** What was said leaves no choice of response. */
  lemma RepeatsOnlyOne(choices: seq<StreamChoice>, r: ChatResponse, q: ChatResponse)
    requires Repeats(choices, r) && Repeats(choices, q)
    ensures r == q
  {
    hide SaidText, SaidCalls, SaidArgs, SaidName, SaidId, Called, IsCall;
    var calls := SaidCalls(choices);
    var at :| SaidAt(calls, at) && CallsSaid(r.toolCalls, calls, at);
    var bt :| SaidAt(calls, bt) && CallsSaid(q.toolCalls, calls, bt);
    AscendingIsUnique(at, bt);
    if r.toolCalls.Some? && q.toolCalls.Some? {
      SameCalls(r.toolCalls.value, q.toolCalls.value, calls, at);
    }
  }

  lemma SameCalls(rs: seq<ToolCall>, qs: seq<ToolCall>, calls: seq<StreamToolCall>, at: seq<nat>)
    requires CallsSaid(Some(rs), calls, at) && CallsSaid(Some(qs), calls, at)
    ensures rs == qs
  {
    hide SaidArgs, SaidName, SaidId;
    forall k | 0 <= k < |at| ensures rs[k] == qs[k] {
      assert IsCall(rs[k], calls, at[k]) && IsCall(qs[k], calls, at[k]);
    }
  }

  // ----- In place ------------------------------------------------------------------------------------------

  /** What a streaming call updates as payloads arrive; `events` is what subscribers have been sent. */
  class StreamState {
    var content: string
    var calls: seq<PartialToolCall>
    var events: seq<StreamEvent>

    constructor ()
      ensures Now() == NOTHING
    {
      content := "";
      calls := [];
      events := [];
    }

    function Now(): Buffer
      reads this
    {
      Buffer(content, calls, events)
    }

    method HandleToolCall(c: StreamToolCall)
      modifies this
      ensures Now() == Take(old(Now()), Call(c))
    {
      var slot := SlotOf(calls, c.index);
      if slot == |calls| {
        calls := calls + [PartialToolCall(c.index, None, None, "")];
      }
      var entry := calls[slot];
      if c.id.Some? && c.id.value != "" {
        entry := entry.(id := c.id);
      }
      var nameDelta: Option<string> := None;
      var argsDelta := "";
      if c.function_.Some? {
        var f := c.function_.value;
        if f.name.Some? && f.name.value != "" {
          entry := entry.(name := f.name);
          nameDelta := f.name;
        }
        if f.arguments.Some? && f.arguments.value != "" {
          entry := entry.(args := entry.args + f.arguments.value);
          argsDelta := f.arguments.value;
        }
      }
      assert argsDelta == ArgsIn(c) && entry.args == calls[slot].args + ArgsIn(c);
      calls := calls[slot := entry];
      events := events + [ToolCallDelta(c.index, entry.id, nameDelta, argsDelta)];
    }

    /** One payload; a payload that does not decode changes nothing. */
    method HandleStreamPayload(payload: string, decode: Decoder) returns (ok: bool)
      modifies this
      ensures ok == Decoded(decode, payload).Some?
      ensures Now() == if ok then TakeAll(old(Now()), Fragments(Decoded(decode, payload).value)) else old(Now())
    {
      hide Take;
      if Trim(payload) == "" {
        return true;
      }
      var chunk := decode(payload);
      if chunk.None? {
        return false;
      }
      var choices := chunk.value;
      for i := 0 to |choices|
        invariant Now() == TakeAll(old(Now()), Fragments(choices[..i]))
      {
        var choice := choices[i];
        ghost var before := Now();
        if choice.content.Some? {
          var text := choice.content.value;
          TakeOne(before, [], Text_(text));
          if text != "" {
            content := content + text;
            events := events + [Delta(text)];
          }
          TextTaken(before, text);
        }
        ghost var mid := Now();
        for j := 0 to |choice.toolCalls|
          invariant Now() == TakeAll(mid, CallFragments(choice.toolCalls[..j]))
        {
          HandleToolCall(choice.toolCalls[j]);
          assert choice.toolCalls[..j + 1][..j] == choice.toolCalls[..j];
          TakeOne(mid, CallFragments(choice.toolCalls[..j]), Call(choice.toolCalls[j]));
        }
        assert choice.toolCalls[..|choice.toolCalls|] == choice.toolCalls;
        ChoiceTaken(before, mid, choice);
        assert choices[..i + 1][..i] == choices[..i];
        TakeAllConcat(old(Now()), Fragments(choices[..i]), ChoiceFragments(choice));
      }
      assert choices[..|choices|] == choices;
      return true;
    }
  }

  lemma TakeOne(b: Buffer, fs: seq<Fragment>, f: Fragment)
    ensures TakeAll(b, fs + [f]) == Take(TakeAll(b, fs), f)
  {
    assert (fs + [f])[..|fs|] == fs;
  }

  lemma TextTaken(b: Buffer, text: string)
    ensures Take(b, Text_(text)) ==
      if text == "" then b else Buffer(b.content + text, b.calls, b.events + [Delta(text)])
  {
  }

  lemma ChoiceTaken(before: Buffer, mid: Buffer, choice: StreamChoice)
    requires mid == if choice.content.Some? then Take(before, Text_(choice.content.value)) else before
    ensures TakeAll(mid, CallFragments(choice.toolCalls)) == TakeAll(before, ChoiceFragments(choice))
  {
    hide Take;
    var head := if choice.content.Some? then [Text_(choice.content.value)] else [];
    TakeAllConcat(before, head, CallFragments(choice.toolCalls));
    if choice.content.Some? {
      TakeOne(before, [], Text_(choice.content.value));
    }
  }

  /** The line loop of `chat_stream`. */
  method ReadStream(lines: seq<Line>, decode: Decoder) returns (o: Outcome)
    ensures o == Run(decode, [], NOTHING, lines)
  {
    hide ParseSseLine, BuildStreamResponse, Decoded, Fragments, TakeAll;
    var acc := new SseAccumulator();
    var state := new StreamState();
    ghost var whole := Run(decode, [], NOTHING, lines);
    var i := 0;
    while i < |lines| && !acc.done
      invariant i <= |lines| && (!acc.done ==> whole == Run(decode, acc.parts, state.Now(), lines[i..]))
      invariant acc.done ==> whole == Finish(decode, acc.parts, state.Now())
      decreases |lines| - i
    {
      if lines[i].None? {
        return Outcome(state.events, Err(ReadFailed));
      }
      ghost var parts := acc.parts;
      var payload := acc.Feed(lines[i].value);
      if payload.Some? {
        OnePayload(decode, state.Now(), payload.value);
        var ok := state.HandleStreamPayload(payload.value, decode);
        if !ok {
          return Outcome(state.events, Err(BadPayload));
        }
      }
      assert lines[i..][1..] == lines[i + 1..];
      i := i + 1;
    }
    var payload := acc.Flush();
    if payload.Some? {
      OnePayload(decode, state.Now(), payload.value);
      var ok := state.HandleStreamPayload(payload.value, decode);
      if !ok {
        return Outcome(state.events, Err(BadPayload));
      }
    }
    return Outcome(state.events + [Finished], Ok(BuildStreamResponse(state.content, state.calls)));
  }

  lemma OnePayload(decode: Decoder, b: Buffer, payload: string)
    ensures HandleAll(decode, b, [payload]) == match Decoded(decode, payload)
      case Some(choices) => (TakeAll(b, Fragments(choices)), true)
      case None => (b, false)
    ensures HandleAll(decode, b, []) == (b, true)
  {
    hide Decoded, Fragments, TakeAll;
    if Decoded(decode, payload).Some? {
      assert [payload][1..] == [];
    }
  }
}
