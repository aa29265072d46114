/**
 One user turn of the agent (`agent/src/agent.rs`). Beside the messages the loop holds, the
 model keeps the history nothing was cut from and every request that was sent.
 */
module AgentTurn {
  import opened Wrappers
  import opened Stream
  import opened Truncate

  const MAX_MESSAGE_BYTES := 8192
  const CONTEXT_MAX := 40
  const CONTEXT_KEEP := 30
  const U32_MAX := 0xFFFF_FFFF

  datatype Message = Message(
    role: string, content: Option<string>, toolCalls: Option<seq<ToolCall>>, toolCallId: Option<string>)

  function TextMessage(role: string, content: string): Message { Message(role, Some(content), None, None) }

  function ToolResult(id: string, content: string): Message { Message("tool", Some(content), None, Some(id)) }

  function Assistant(content: Option<string>, calls: seq<ToolCall>): Message {
    Message("assistant", content, if calls == [] then None else Some(calls), None)
  }

  const TRUNCATED := TextMessage("system", "[context truncated: earlier messages omitted, most recent 30 kept]")

  datatype Outcome =
    | Final(content: string, iterations: nat)
    | MaxIterations(lastContent: string, iterations: nat)
    | Failed(reason: string, iterations: nat)

  /** What the model answers, and what a tool gives back; `None` is a poisoned machine slot. */
  datatype Reply = Broken(reason: string) | NoChoices | Says(content: Option<string>, calls: seq<ToolCall>)

  datatype TurnIo = TurnIo(ready: Option<string>, reply: nat -> Reply, tool: (nat, nat) -> Option<string>)

  const NO_CHOICES := "model returned no choices"

  // ----- The loop as a function ----------------------------------------------------------------------

  function TrimContext(ms: seq<Message>): seq<Message> {
    if |ms| <= CONTEXT_MAX then ms
    else (if ms[0].role == "system" then [ms[0]] else []) + [TRUNCATED] + ms[|ms| - CONTEXT_KEEP..]
  }

  /** A request, and how long the history was when it was sent. */
  datatype Request = Request(messages: seq<Message>, at: nat)

  /** The messages held, the history they are cut from, and the requests sent so far. */
  datatype Chat = Chat(messages: seq<Message>, full: seq<Message>, requests: seq<Request>)

  function Say(c: Chat, ms: seq<Message>): Chat { c.(messages := c.messages + ms, full := c.full + ms) }

  function Ask(c: Chat): Chat {
    var trimmed := TrimContext(c.messages);
    c.(messages := trimmed, requests := c.requests + [Request(trimmed, |c.full|)])
  }

  function ToolsAt(io: TurnIo, n: nat): nat -> Option<string> { (j: nat) => io.tool(n, j) }

  /** The results of the calls from the first on, until one cannot run. */
  function Results(calls: seq<ToolCall>, tool: nat -> Option<string>, n: nat): seq<Message>
    requires n <= |calls|
  {
    if n == 0 then []
    else
      var before := Results(calls, tool, n - 1);
      if |before| == n - 1 && tool(n - 1).Some?
      then before + [ToolResult(calls[n - 1].id, Truncated(tool(n - 1).value, MAX_MESSAGE_BYTES))]
      else before
  }

  /** The newest assistant's content. */
  function LastContent(ms: seq<Message>): string {
    if ms == [] then ""
    else if ms[|ms| - 1].role == "assistant" then OrEmpty(ms[|ms| - 1].content)
    else LastContent(ms[..|ms| - 1])
  }

  /** A turn from its `n`-th iteration on; an `Err` is the poisoned slot. */
  function Loop(c: Chat, io: TurnIo, n: nat, max: nat): (Chat, Result<Outcome, ()>)
    decreases if max > n then max - n else 0
  {
    var asked := Ask(c);
    match io.reply(n)
    case Broken(reason) => (asked, Ok(Failed(reason, n + 1)))
    case NoChoices => (asked, Ok(Failed(NO_CHOICES, n + 1)))
    case Says(content, calls) =>
      var said := Say(asked, [Assistant(content, calls)]);
      if calls == [] then (said, Ok(Final(OrEmpty(content), n + 1)))
      else
        var results := Results(calls, ToolsAt(io, n), |calls|);
        var done := Say(said, results);
        if |results| < |calls| then (done, Err(()))
        else if n + 1 >= max then (done, Ok(MaxIterations(LastContent(done.messages), n + 1)))
        else Loop(done, io, n + 1, max)
  }

  function Turn(c: Chat, input: string, io: TurnIo, max: nat): (Chat, Result<Outcome, ()>) {
    if io.ready.Some? then (c, Ok(Failed(io.ready.value, 0)))
    else Loop(Say(c, [TextMessage("user", Truncated(input, MAX_MESSAGE_BYTES))]), io, 0, max)
  }

  // ----- What a request contains ---------------------------------------------------------------------

  /** The whole history, or its first message, the marker, and at least the last thirty. */
  predicate Excerpt(ms: seq<Message>, full: seq<Message>) {
    ms == full ||
    (|full| > CONTEXT_KEEP && |ms| >= CONTEXT_KEEP + 2 && |ms| - 2 < |full| &&
     ms == [full[0], TRUNCATED] + full[|full| - (|ms| - 2)..])
  }

  predicate Proper(request: seq<Message>, full: seq<Message>) {
    full != [] && request != [] && |request| <= CONTEXT_MAX && request[0] == full[0] && Excerpt(request, full)
  }

  /** The request holds the history as it stood when it was sent. */
  predicate TakenFrom(request: Request, full: seq<Message>) {
    request.at <= |full| && Proper(request.messages, full[..request.at])
  }

  ghost predicate Sound(c: Chat) {
    && c.full != [] && c.full[0].role == "system" && c.full[0].toolCalls.None?
    && Excerpt(c.messages, c.full)
    && forall k :: 0 <= k < |c.requests| ==> TakenFrom(c.requests[k], c.full)
  }

  lemma ExcerptGrows(ms: seq<Message>, full: seq<Message>, more: seq<Message>)
    requires full != [] && Excerpt(ms, full)
    ensures Excerpt(ms + more, full + more)
  {
    if ms != full {
      var k := |ms| - 2;
      assert (full + more)[|full| - k..] == full[|full| - k..] + more;
      assert ms + more == [full[0], TRUNCATED] + (full[|full| - k..] + more);
    }
  }

  lemma SayKeepsSound(c: Chat, ms: seq<Message>)
    requires Sound(c)
    ensures Sound(Say(c, ms))
  {
    hide Excerpt;
    ExcerptGrows(c.messages, c.full, ms);
    forall k | 0 <= k < |c.requests| ensures TakenFrom(c.requests[k], c.full + ms) {
      var n := c.requests[k].at;
      assert (c.full + ms)[..n] == c.full[..n];
    }
  }

  lemma TrimIsExcerpt(ms: seq<Message>, full: seq<Message>)
    requires full != [] && full[0].role == "system" && Excerpt(ms, full)
    ensures Proper(TrimContext(ms), full)
  {
    hide Excerpt;
    FirstIsKept(ms, full);
    if |ms| > CONTEXT_MAX {
      LastOnesAgree(ms, full);
      LastThirtyAreExcerpt(full);
      TrimmedText(ms, full[|full| - CONTEXT_KEEP..]);
    }
  }

  /** Nothing is cut up to forty messages; beyond, exactly the last thirty stay, after system and marker. */
  lemma TrimsBeyondForty(ms: seq<Message>)
    ensures |ms| <= 40 ==> TrimContext(ms) == ms
    ensures |ms| > 40 && ms[0].role == "system" ==>
      |TrimContext(ms)| == 32 && TrimContext(ms)[0] == ms[0] && TrimContext(ms)[2..] == ms[|ms| - 30..]
  {
  }

  lemma FirstIsKept(ms: seq<Message>, full: seq<Message>)
    requires full != [] && Excerpt(ms, full)
    ensures ms != [] && ms[0] == full[0]
  {
  }

  lemma TrimmedText(ms: seq<Message>, tail: seq<Message>)
    requires |ms| > CONTEXT_MAX && ms[0].role == "system" && tail == ms[|ms| - CONTEXT_KEEP..]
    ensures TrimContext(ms) == [ms[0], TRUNCATED] + tail
  {
  }

  lemma LastThirtyAreExcerpt(full: seq<Message>)
    requires |full| > CONTEXT_KEEP
    ensures Excerpt([full[0], TRUNCATED] + full[|full| - CONTEXT_KEEP..], full)
  {
  }

  lemma LastOnesAgree(ms: seq<Message>, full: seq<Message>)
    requires full != [] && Excerpt(ms, full) && |ms| > CONTEXT_MAX
    ensures ms[0] == full[0] && |full| > CONTEXT_KEEP
    ensures ms[|ms| - CONTEXT_KEEP..] == full[|full| - CONTEXT_KEEP..]
  {
    if ms != full {
      var kept := full[|full| - (|ms| - 2)..];
      assert ms[|ms| - CONTEXT_KEEP..] == kept[|kept| - CONTEXT_KEEP..];
    }
  }

  lemma AskKeepsSound(c: Chat)
    requires Sound(c)
    ensures Sound(Ask(c))
  {
    hide Excerpt, TrimContext;
    TrimIsExcerpt(c.messages, c.full);
    assert c.full[..|c.full|] == c.full;
    assert TakenFrom(Request(TrimContext(c.messages), |c.full|), c.full);
    assert Excerpt(TrimContext(c.messages), c.full);
  }

  // ----- Calls and their results --------------------------------------------------------------------

  predicate ResultOf(m: Message, call: ToolCall) {
    m.role == "tool" && m.toolCalls.None? && m.toolCallId == Some(call.id)
  }

  /** The message at `i` is followed by the results of its calls, in order. */
  predicate Answered(ms: seq<Message>, i: nat)
    requires i < |ms| && ms[i].toolCalls.Some?
  {
    var calls := ms[i].toolCalls.value;
    && i + |calls| < |ms| && ms[i].role != "tool"
    && forall j :: 0 <= j < |calls| ==> ResultOf(ms[i + 1 + j], calls[j])
  }

  /** Some message with calls covers the result at `k`. */
  predicate Covered(ms: seq<Message>, k: nat) {
    exists i :: 0 <= i < k && i < |ms| && ms[i].toolCalls.Some? && k <= i + |ms[i].toolCalls.value|
  }

  /** Every call has its result and every result its call. */
  ghost predicate Paired(ms: seq<Message>) {
    && (forall i :: 0 <= i < |ms| && ms[i].toolCalls.Some? ==> Answered(ms, i))
    && (forall k :: 0 <= k < |ms| && ms[k].role == "tool" ==> Covered(ms, k))
  }

  lemma PairedConcat(xs: seq<Message>, ys: seq<Message>)
    requires Paired(xs) && Paired(ys)
    ensures Paired(xs + ys)
  {
    var all := xs + ys;
    forall i | 0 <= i < |all| && all[i].toolCalls.Some? ensures Answered(all, i) {
      if i < |xs| {
        assert Answered(xs, i);
      } else {
        assert Answered(ys, i - |xs|);
        forall j | 0 <= j < |all[i].toolCalls.value| ensures ResultOf(all[i + 1 + j], all[i].toolCalls.value[j]) {
          assert all[i + 1 + j] == ys[i - |xs| + 1 + j];
        }
      }
    }
    forall k | 0 <= k < |all| && all[k].role == "tool" ensures Covered(all, k) {
      if k < |xs| {
        assert Covered(xs, k);
        var i :| 0 <= i < k && i < |xs| && xs[i].toolCalls.Some? && k <= i + |xs[i].toolCalls.value|;
        assert all[i] == xs[i];
      } else {
        assert Covered(ys, k - |xs|);
        var i :| 0 <= i < k - |xs| && i < |ys| && ys[i].toolCalls.Some? && k - |xs| <= i + |ys[i].toolCalls.value|;
        assert all[|xs| + i] == ys[i];
      }
    }
  }

  lemma {:induction false} ResultsAnswer(calls: seq<ToolCall>, tool: nat -> Option<string>, n: nat)
    requires n <= |calls|
    ensures |Results(calls, tool, n)| <= n
    ensures forall j :: 0 <= j < |Results(calls, tool, n)| ==> ResultOf(Results(calls, tool, n)[j], calls[j])
  {
    hide Truncated;
    if n > 0 {
      ResultsAnswer(calls, tool, n - 1);
    }
  }

  lemma BlockIsPaired(content: Option<string>, calls: seq<ToolCall>, results: seq<Message>)
    requires |results| == |calls| && forall j :: 0 <= j < |calls| ==> ResultOf(results[j], calls[j])
    ensures Paired([Assistant(content, calls)] + results)
  {
    var block := [Assistant(content, calls)] + results;
    forall k | 0 <= k < |block| && block[k].role == "tool" ensures Covered(block, k) {
      assert block[0].toolCalls == Some(calls);
    }
  }

  lemma InsideBlock(ms: seq<Message>, i: nat, at: nat)
    requires Paired(ms) && i < at < |ms| && ms[i].toolCalls.Some? && at <= i + |ms[i].toolCalls.value|
    ensures ms[at].role == "tool"
  {
    assert Answered(ms, i);
    var j := at - i - 1;
    assert ResultOf(ms[i + 1 + j], ms[i].toolCalls.value[j]);
  }

  /**
   Cutting a paired history keeps it paired exactly when the cut does not fall on a tool
   result: a trimmed request may open with results whose call was cut away.
   */
  lemma CutKeepsPairsExactly(ms: seq<Message>, at: nat)
    requires Paired(ms) && at <= |ms|
    ensures Paired(ms[at..]) <==> at == |ms| || ms[at].role != "tool"
  {
    var tail := ms[at..];
    if at < |ms| && ms[at].role != "tool" {
      forall i | 0 <= i < |tail| && tail[i].toolCalls.Some? ensures Answered(tail, i) {
        assert Answered(ms, at + i);
        forall j | 0 <= j < |tail[i].toolCalls.value| ensures ResultOf(tail[i + 1 + j], tail[i].toolCalls.value[j]) {
          assert tail[i + 1 + j] == ms[at + i + 1 + j];
        }
      }
      forall k | 0 <= k < |tail| && tail[k].role == "tool" ensures Covered(tail, k) {
        assert Covered(ms, at + k);
        var i :| 0 <= i < at + k && i < |ms| && ms[i].toolCalls.Some? && at + k <= i + |ms[i].toolCalls.value|;
        if i < at {
          InsideBlock(ms, i, at);
        } else {
          assert tail[i - at] == ms[i];
        }
      }
    }
    if at < |ms| && ms[at].role == "tool" {
      assert tail[0].role == "tool" && !Covered(tail, 0);
    }
  }

  /** A trimmed request keeps calls and results together exactly when the cut spares the results. */
  lemma TrimmedRequestPairsExactly(c: Chat)
    requires Sound(c) && Paired(c.full) && |c.messages| > CONTEXT_MAX
    ensures |c.full| > CONTEXT_KEEP
    ensures Paired(TrimContext(c.messages)) <==> c.full[|c.full| - CONTEXT_KEEP].role != "tool"
  {
    LastOnesAgree(c.messages, c.full);
    var at := |c.full| - CONTEXT_KEEP;
    var head, tail := [c.full[0], TRUNCATED], c.full[at..];
    var request := TrimContext(c.messages);
    assert request == head + tail;
    CutKeepsPairsExactly(c.full, at);
    if c.full[at].role == "tool" {
      assert request[2].role == "tool" && !Covered(request, 2);
    } else {
      PairedConcat(head, tail);
    }
  }

  /** One answer with thirty-eight calls is enough to lose them: the next request opens with orphaned results. */
  lemma OrphansArePossible(prompt: string, input: string, calls: seq<ToolCall>, results: seq<Message>)
    requires |calls| >= 38 && |results| == |calls|
    requires forall j :: 0 <= j < |calls| ==> ResultOf(results[j], calls[j])
    ensures
      var head := [TextMessage("system", prompt), TextMessage("user", input)];
      var full := head + ([Assistant(None, calls)] + results);
      Paired(full) && !Paired(TrimContext(full))
  {
    var head := [TextMessage("system", prompt), TextMessage("user", input)];
    var full := head + ([Assistant(None, calls)] + results);
    BlockIsPaired(None, calls, results);
    PairedConcat(head, [Assistant(None, calls)] + results);
    assert full[|full| - CONTEXT_KEEP] == results[|results| - CONTEXT_KEEP];
    TrimmedRequestPairsExactly(Chat(full, full, []));
  }

  // ----- A whole turn -----------------------------------------------------------------------------------

  /** The history ends inside the results of a call. */
  ghost predicate Dangling(ms: seq<Message>) {
    exists i :: 0 <= i < |ms| && ms[i].toolCalls.Some? && |ms| <= i + |ms[i].toolCalls.value|
  }

  /** Such a history is not paired, and nothing said after it, short of the missing results, mends it. */
  lemma DanglingStaysUnpaired(ms: seq<Message>, more: seq<Message>)
    requires Dangling(ms) && (more == [] || more[0].role != "tool")
    ensures !Paired(ms + more)
  {
    var i :| 0 <= i < |ms| && ms[i].toolCalls.Some? && |ms| <= i + |ms[i].toolCalls.value|;
    var all := ms + more;
    assert all[i] == ms[i];
    var j := |ms| - i - 1;
    assert more != [] ==> !ResultOf(all[i + 1 + j], all[i].toolCalls.value[j]);
    assert !Answered(all, i);
  }

  lemma PoisonLeavesDangling(full: seq<Message>, content: Option<string>, calls: seq<ToolCall>, results: seq<Message>)
    requires |results| < |calls|
    ensures Dangling(full + [Assistant(content, calls)] + results)
    ensures !Paired(full + [Assistant(content, calls)] + results)
  {
    var all := full + [Assistant(content, calls)] + results;
    assert all[|full|] == Assistant(content, calls);
    assert all + [] == all;
    DanglingStaysUnpaired(all, []);
  }

  /** What a turn from its `n`-th iteration on does, whatever model and tools answer. */
  ghost predicate LoopMeans(c: Chat, io: TurnIo, n: nat, max: nat, after: Chat, r: Result<Outcome, ()>) {
    && Sound(after) && c.full <= after.full && c.requests <= after.requests
    && |after.requests| - |c.requests| <= (if max > n then max - n else 1)
    && (r.Ok? ==> r.value.iterations == n + (|after.requests| - |c.requests|))
    && (r.Ok? && r.value.MaxIterations? ==> r.value.iterations == if max > n then max else n + 1)
    && (Paired(c.full) ==> (r.Ok? <==> Paired(after.full)))
    && (r.Err? ==> Dangling(after.full))
  }

  lemma {:induction false} LoopIsSound(c: Chat, io: TurnIo, n: nat, max: nat)
    requires Sound(c)
    ensures LoopMeans(c, io, n, max, Loop(c, io, n, max).0, Loop(c, io, n, max).1)
    decreases if max > n then max - n else 0
  {
    hide Sound, Paired, Dangling, Results;
    AskKeepsSound(c);
    var asked := Ask(c);
    if io.reply(n).Says? {
      var content, calls := io.reply(n).content, io.reply(n).calls;
      var tool := ToolsAt(io, n);
      var said := Say(asked, [Assistant(content, calls)]);
      SayKeepsSound(asked, [Assistant(content, calls)]);
      if calls == [] {
        PlainIsPaired(content);
        if Paired(c.full) {
          PairedConcat(c.full, [Assistant(content, [])]);
        }
      } else {
        var results := Results(calls, tool, |calls|);
        ResultsAnswer(calls, tool, |calls|);
        SayKeepsSound(said, results);
        var done := Say(said, results);
        if |results| == |calls| {
          BlockKeepsPaired(c.full, content, calls, results);
          assert done.full == c.full + ([Assistant(content, calls)] + results);
          if n + 1 < max {
            LoopIsSound(done, io, n + 1, max);
          }
        } else {
          PoisonLeavesDangling(c.full, content, calls, results);
        }
      }
    }
  }

  lemma PlainIsPaired(content: Option<string>)
    ensures Paired([Assistant(content, [])])
  {
  }

  lemma BlockKeepsPaired(full: seq<Message>, content: Option<string>, calls: seq<ToolCall>, results: seq<Message>)
    requires |results| == |calls| && forall j :: 0 <= j < |calls| ==> ResultOf(results[j], calls[j])
    ensures Paired(full) ==> Paired(full + ([Assistant(content, calls)] + results))
  {
    hide Paired;
    BlockIsPaired(content, calls, results);
    if Paired(full) {
      PairedConcat(full, [Assistant(content, calls)] + results);
    }
  }

  /**
   Over every turn: each request is the whole history or system, marker and at least the last
   thirty messages, at most forty in all; requests sent are the iterations reported, at most
   `max(1, max_iterations)`; and the uncut history keeps every call with its results exactly
   when the turn does not end at a poisoned slot, which leaves the last calls without theirs.
   */
  lemma TurnIsSound(c: Chat, input: string, io: TurnIo, max: nat)
    requires Sound(c)
    ensures var (after, r) := Turn(c, input, io, max);
      && Sound(after) && c.full <= after.full && c.requests <= after.requests
      && |after.requests| - |c.requests| <= (if max > 1 then max else 1)
      && (r.Ok? ==> r.value.iterations == |after.requests| - |c.requests|)
      && (Paired(c.full) ==> (r.Ok? <==> Paired(after.full)))
      && (r.Err? ==> Dangling(after.full))
  {
    hide Sound, Paired, Dangling;
    if io.ready.None? {
      var user := TextMessage("user", Truncated(input, MAX_MESSAGE_BYTES));
      SayKeepsSound(c, [user]);
      UserIsPaired(user);
      if Paired(c.full) {
        PairedConcat(c.full, [user]);
      }
      LoopIsSound(Say(c, [user]), io, 0, max);
    }
  }

  lemma UserIsPaired(m: Message)
    requires m.role != "tool" && m.toolCalls.None?
    ensures Paired([m])
  {
  }

  /** A turn cut off by the iteration cap reports what the model said last. */
  lemma {:induction false} CapReportsLastAnswer(c: Chat, io: TurnIo, n: nat, max: nat)
    requires Loop(c, io, n, max).1.Ok? && Loop(c, io, n, max).1.value.MaxIterations?
    ensures var o := Loop(c, io, n, max).1.value;
      && o.iterations >= 1 && io.reply(o.iterations - 1).Says?
      && o.lastContent == OrEmpty(io.reply(o.iterations - 1).content)
    decreases if max > n then max - n else 0
  {
    hide Results, TrimContext;
    var content, calls := io.reply(n).content, io.reply(n).calls;
    var tool := ToolsAt(io, n);
    var said := Say(Ask(c), [Assistant(content, calls)]);
    var results := Results(calls, tool, |calls|);
    ResultsAnswer(calls, tool, |calls|);
    if n + 1 >= max {
      ResultsAreSkipped(Ask(c).messages + [Assistant(content, calls)], results);
    } else {
      CapReportsLastAnswer(Say(said, results), io, n + 1, max);
    }
  }

  lemma {:induction false} ResultsAreSkipped(ms: seq<Message>, results: seq<Message>)
    requires forall j :: 0 <= j < |results| ==> results[j].role == "tool"
    ensures LastContent(ms + results) == LastContent(ms)
  {
    if results == [] {
      assert ms + results == ms;
    } else {
      var n := |results| - 1;
      assert (ms + results)[..|ms + results| - 1] == ms + results[..n];
      ResultsAreSkipped(ms, results[..n]);
    }
  }

  // ----- What a turn says and answers --------------------------------------------------------------------

  /** The result of a call: the tool's text, cut to the limit, under the call's id. */
  ghost predicate IsResult(m: Message, call: ToolCall, text: string) {
    && m.role == "tool" && m.toolCalls.None? && m.toolCallId == Some(call.id)
    && m.content.Some? && IsCut(text, 8192, m.content.value)
  }

  /** The messages of iteration `k`: the model's answer, then its calls' results until one cannot run. */
  ghost predicate IsBlock(io: TurnIo, k: nat, block: seq<Message>) {
    && io.reply(k).Says? && block != []
    && var calls := io.reply(k).calls;
    && block[0] == Message("assistant", io.reply(k).content, if calls == [] then None else Some(calls), None)
    && |block| - 1 <= |calls|
    && (forall j :: 0 <= j < |block| - 1 ==>
          io.tool(k, j).Some? && IsResult(block[j + 1], calls[j], io.tool(k, j).value))
    && (|block| - 1 < |calls| ==> io.tool(k, |block| - 1).None?)
  }

  predicate Complete(io: TurnIo, k: nat, block: seq<Message>) {
    io.reply(k).Says? && io.reply(k).calls != [] && |block| == 1 + |io.reply(k).calls|
  }

  function Flat(blocks: seq<seq<Message>>): seq<Message> {
    if blocks == [] then [] else blocks[0] + Flat(blocks[1..])
  }

  ghost predicate AreBlocks(io: TurnIo, n: nat, blocks: seq<seq<Message>>) {
    forall i :: 0 <= i < |blocks| ==> IsBlock(io, n + i, blocks[i])
  }

  /** The first `b` iterations went on: all calls ran and the cap was not reached. */
  predicate WentOn(io: TurnIo, n: nat, max: nat, blocks: seq<seq<Message>>, b: nat)
    requires b <= |blocks|
  {
    forall i :: 0 <= i < b ==> OneMore(io, n, max, blocks, i)
  }

  predicate OneMore(io: TurnIo, n: nat, max: nat, blocks: seq<seq<Message>>, i: nat)
    requires i < |blocks|
  {
    Complete(io, n + i, blocks[i]) && n + i + 1 < max
  }

  predicate IsContent(text: string, content: Option<string>) {
    match content case Some(t) => text == t case None => text == ""
  }

  /** The answer of a turn whose iterations from `n` on said these blocks. */
  predicate Answers(io: TurnIo, n: nat, max: nat, blocks: seq<seq<Message>>, r: Result<Outcome, ()>) {
    var b := |blocks|;
    match r
    case Ok(Failed(reason, iterations)) =>
      && WentOn(io, n, max, blocks, b) && iterations == n + b + 1
      && (io.reply(n + b) == Broken(reason) ||
          (io.reply(n + b).NoChoices? && reason == "model returned no choices"))
    case Ok(Final(content, iterations)) =>
      && b >= 1 && WentOn(io, n, max, blocks, b - 1) && iterations == n + b
      && io.reply(n + b - 1).Says? && io.reply(n + b - 1).calls == []
      && IsContent(content, io.reply(n + b - 1).content)
    case Ok(MaxIterations(content, iterations)) =>
      && b >= 1 && WentOn(io, n, max, blocks, b - 1) && iterations == n + b >= max
      && Complete(io, n + b - 1, blocks[b - 1]) && IsContent(content, io.reply(n + b - 1).content)
    case Err(_) =>
      && b >= 1 && WentOn(io, n, max, blocks, b - 1)
      && io.reply(n + b - 1).Says? && |blocks[b - 1]| - 1 < |io.reply(n + b - 1).calls|
  }

  ghost predicate Unfolds(
      io: TurnIo, n: nat, max: nat, before: seq<Message>, after: seq<Message>, r: Result<Outcome, ()>)
  {
    exists blocks :: AreBlocks(io, n, blocks) && after == before + Flat(blocks) && Answers(io, n, max, blocks, r)
  }

  lemma {:induction false} ResultsAreBlock(calls: seq<ToolCall>, tool: nat -> Option<string>, n: nat)
    requires n <= |calls|
    ensures var rs := Results(calls, tool, n);
      && |rs| <= n && (|rs| < n ==> tool(|rs|).None?)
      && forall j :: 0 <= j < |rs| ==> tool(j).Some? && IsResult(rs[j], calls[j], tool(j).value)
  {
    hide IsCut, Truncated;
    if n > 0 {
      ResultsAreBlock(calls, tool, n - 1);
      if tool(n - 1).Some? {
        TruncatedIsCut(tool(n - 1).value, 8192);
      }
    }
  }

  lemma OneBlock(io: TurnIo, n: nat, results: seq<Message>)
    requires io.reply(n).Says?
    requires results == Results(io.reply(n).calls, ToolsAt(io, n), |io.reply(n).calls|)
    ensures IsBlock(io, n, [Assistant(io.reply(n).content, io.reply(n).calls)] + results)
  {
    hide IsResult, Results;
    var calls := io.reply(n).calls;
    var block := [Assistant(io.reply(n).content, calls)] + results;
    ResultsAreBlock(calls, ToolsAt(io, n), |calls|);
    forall j | 0 <= j < |block| - 1
      ensures io.tool(n, j).Some? && IsResult(block[j + 1], calls[j], io.tool(n, j).value)
    {
      assert ToolsAt(io, n)(j) == io.tool(n, j) && block[j + 1] == results[j];
    }
    assert ToolsAt(io, n)(|results|) == io.tool(n, |block| - 1);
  }

  lemma FlatOfOne(block: seq<Message>, rest: seq<seq<Message>>)
    ensures Flat([block] + rest) == block + Flat(rest) && Flat([block]) == block
  {
    assert ([block] + rest)[1..] == rest && [block][1..] == [];
  }

  lemma {:induction false} LoopUnfolds(c: Chat, io: TurnIo, n: nat, max: nat)
    ensures Unfolds(io, n, max, c.full, Loop(c, io, n, max).0.full, Loop(c, io, n, max).1)
    decreases if max > n then max - n else 0
  {
    hide Results, TrimContext, IsBlock, LastContent, Unfolds;
    if !io.reply(n).Says? {
      NoBlock(io, n, max, c.full, Loop(c, io, n, max).1);
    } else {
      var content, calls := io.reply(n).content, io.reply(n).calls;
      var results := Results(calls, ToolsAt(io, n), |calls|);
      var block := [Assistant(content, calls)] + results;
      OneBlock(io, n, results);
      ResultsAnswer(calls, ToolsAt(io, n), |calls|);
      NoCallsNoResults(ToolsAt(io, n));
      var done := Say(Say(Ask(c), [Assistant(content, calls)]), results);
      assert done.full == c.full + block;
      assert calls == [] ==> block == [Assistant(content, calls)];
      if calls != [] && |results| == |calls| && n + 1 < max {
        LoopUnfolds(done, io, n + 1, max);
        MoreUnfolds(io, n, max, c.full, block, Loop(c, io, n, max).0.full, Loop(c, io, n, max).1);
      } else {
        LastIsThis(Ask(c).messages, content, calls, results);
        LastBlock(io, n, max, c.full, block, Loop(c, io, n, max).1);
      }
    }
  }

  lemma NoBlock(io: TurnIo, n: nat, max: nat, full: seq<Message>, r: Result<Outcome, ()>)
    requires r.Ok? && r.value.Failed? && r.value.iterations == n + 1
    requires match io.reply(n)
      case Broken(reason) => r.value.reason == reason
      case NoChoices => r.value.reason == NO_CHOICES
      case Says(_, _) => false
    ensures Unfolds(io, n, max, full, full, r)
  {
    assert AreBlocks(io, n, []) && full == full + Flat([]) && Answers(io, n, max, [], r);
  }

  /** The turn ends with this block. */
  lemma LastBlock(
      io: TurnIo, n: nat, max: nat, full: seq<Message>, block: seq<Message>, r: Result<Outcome, ()>)
    requires IsBlock(io, n, block) && Answers(io, n, max, [block], r)
    ensures Unfolds(io, n, max, full, full + block, r)
  {
    hide IsBlock, Answers;
    FlatOfOne(block, []);
    assert AreBlocks(io, n, [block]);
  }

  lemma NoCallsNoResults(tool: nat -> Option<string>)
    ensures Results([], tool, 0) == []
  {
  }

  lemma LastIsThis(ms: seq<Message>, content: Option<string>, calls: seq<ToolCall>, results: seq<Message>)
    requires forall j :: 0 <= j < |results| ==> results[j].role == "tool"
    ensures IsContent(LastContent(ms + [Assistant(content, calls)] + results), content)
  {
    ResultsAreSkipped(ms + [Assistant(content, calls)], results);
  }

  lemma MoreUnfolds(
      io: TurnIo, n: nat, max: nat, before: seq<Message>, block: seq<Message>, after: seq<Message>,
      r: Result<Outcome, ()>)
    requires IsBlock(io, n, block) && Complete(io, n, block) && n + 1 < max
    requires Unfolds(io, n + 1, max, before + block, after, r)
    ensures Unfolds(io, n, max, before, after, r)
  {
    hide IsBlock, Complete, Answers, Flat;
    var rest :|
      AreBlocks(io, n + 1, rest) && after == before + block + Flat(rest) && Answers(io, n + 1, max, rest, r);
    FlatOfOne(block, rest);
    BlocksGoOn(io, n, block, rest);
    AnswersGoOn(io, n, max, block, rest, r);
    assert after == before + Flat([block] + rest);
  }

  lemma BlocksGoOn(io: TurnIo, n: nat, block: seq<Message>, rest: seq<seq<Message>>)
    requires IsBlock(io, n, block) && AreBlocks(io, n + 1, rest)
    ensures AreBlocks(io, n, [block] + rest)
  {
    hide IsBlock;
    var blocks := [block] + rest;
    forall i | 0 <= i < |blocks| ensures IsBlock(io, n + i, blocks[i]) {
      if i > 0 {
        var k := i - 1;
        assert blocks[i] == rest[k] && IsBlock(io, n + 1 + k, rest[k]) && n + 1 + k == n + i;
      }
    }
  }

  lemma AnswersGoOn(
      io: TurnIo, n: nat, max: nat, block: seq<Message>, rest: seq<seq<Message>>, r: Result<Outcome, ()>)
    requires Complete(io, n, block) && n + 1 < max && Answers(io, n + 1, max, rest, r)
    ensures Answers(io, n, max, [block] + rest, r)
  {
    hide Complete, WentOn;
    var blocks := [block] + rest;
    GoesOn(io, n, max, block, rest, |rest|);
    if rest != [] {
      GoesOn(io, n, max, block, rest, |rest| - 1);
      assert blocks[|blocks| - 1] == rest[|rest| - 1];
    }
  }

  lemma GoesOn(io: TurnIo, n: nat, max: nat, block: seq<Message>, rest: seq<seq<Message>>, b: nat)
    requires Complete(io, n, block) && n + 1 < max && b <= |rest|
    ensures WentOn(io, n + 1, max, rest, b) ==> WentOn(io, n, max, [block] + rest, b + 1)
  {
    hide Complete;
    var blocks := [block] + rest;
    if WentOn(io, n + 1, max, rest, b) {
      forall i | 0 <= i < b + 1 ensures OneMore(io, n, max, blocks, i) {
        if i == 0 {
          assert blocks[i] == block && n + i == n;
        } else {
          assert OneMore(io, n + 1, max, rest, i - 1) && blocks[i] == rest[i - 1] && n + 1 + (i - 1) == n + i;
        }
      }
    }
  }

  /** The user's message, then the iterations. */
  ghost predicate UnfoldsFrom(
      text: string, io: TurnIo, max: nat, before: seq<Message>, after: seq<Message>, r: Result<Outcome, ()>)
  {
    Unfolds(io, 0, max, before + [Message("user", Some(text), None, None)], after, r)
  }

  /**
   What every turn adds to the history and answers, read off the replies and the tools: the
   user's message, then each reply with its results; Final with what the model said when it
   called nothing, the cap with what it said last, Failed with its reason, or a poisoned slot.
   */
  lemma TurnUnfolds(c: Chat, input: string, io: TurnIo, max: nat)
    ensures var (after, r) := Turn(c, input, io, max);
      if io.ready.Some? then after == c && r == Ok(Failed(io.ready.value, 0))
      else exists text :: IsCut(input, 8192, text) && UnfoldsFrom(text, io, max, c.full, after.full, r)
  {
    hide Unfolds, IsCut, Truncated, Loop;
    if io.ready.None? {
      var text := Truncated(input, 8192);
      TruncatedIsCut(input, 8192);
      LoopUnfolds(Say(c, [TextMessage("user", text)]), io, 0, max);
      assert UnfoldsFrom(text, io, max, c.full, Turn(c, input, io, max).0.full, Turn(c, input, io, max).1);
    }
  }

  // ----- In place ----------------------------------------------------------------------------------------

  class AgentLoop {
    var messages: seq<Message>
    ghost var full: seq<Message>
    ghost var requests: seq<Request>

    ghost function Now(): Chat
      reads this
    {
      Chat(messages, full, requests)
    }

    constructor (prompt: string)
      ensures Sound(Now()) && Paired(full) && full == [TextMessage("system", prompt)] && requests == []
    {
      messages := [TextMessage("system", prompt)];
      full := [TextMessage("system", prompt)];
      requests := [];
    }

    method Push(m: Message)
      modifies this`messages, this`full
      ensures Now() == Say(old(Now()), [m])
    {
      messages := messages + [m];
      full := full + [m];
    }

    /** Restore a persisted session. */
    method PushHistory(history: seq<Message>)
      requires Sound(Now())
      modifies this`messages, this`full
      ensures Now() == Say(old(Now()), history) && Sound(Now())
    {
      SayKeepsSound(Now(), history);
      messages := messages + history;
      full := full + history;
    }

    method TrimMessages()
      modifies this`messages
      ensures messages == TrimContext(old(messages))
    {
      if |messages| <= CONTEXT_MAX {
        return;
      }
      var trimmed := [];
      if messages[0].role == "system" {
        trimmed := [messages[0]];
      }
      trimmed := trimmed + [TRUNCATED];
      messages := trimmed + messages[|messages| - CONTEXT_KEEP..];
    }

    /** Run the calls in order, pushing each result; stop if the machine slot is poisoned. */
    method RunTools(calls: seq<ToolCall>, tool: nat -> Option<string>) returns (ok: bool)
      modifies this`messages, this`full
      ensures Now() == Say(old(Now()), Results(calls, tool, |calls|))
      ensures ok <==> |Results(calls, tool, |calls|)| == |calls|
    {
      hide Results, Truncated;
      NoResults(calls, tool);
      for j := 0 to |calls|
        invariant Now() == Say(old(Now()), Results(calls, tool, j)) && |Results(calls, tool, j)| == j
      {
        ResultsStep(calls, tool, j);
        var text := tool(j);
        if text.None? {
          StopsThere(calls, tool, j, |calls|);
          return false;
        }
        var cut := TruncateText(text.value, MAX_MESSAGE_BYTES);
        Push(ToolResult(calls[j].id, cut));
      }
      return true;
    }

    /** Run one user turn to completion. */
    method Run(input: string, io: TurnIo, max: nat) returns (r: Result<Outcome, ()>)
      requires max <= U32_MAX
      modifies this
      ensures (Now(), r) == Turn(old(Now()), input, io, max)
    {
      hide Results, TrimContext, Truncated;
      if io.ready.Some? {
        return Ok(Failed(io.ready.value, 0));
      }
      var user := TruncateText(input, MAX_MESSAGE_BYTES);
      Push(TextMessage("user", user));
      var iterations := 0;
      ghost var start := Now();
      while true
        invariant 0 <= iterations && (iterations > 0 ==> iterations < max)
        invariant Loop(start, io, 0, max) == Loop(Now(), io, iterations, max)
        decreases max - iterations
      {
        TrimMessages();
        requests := requests + [Request(messages, |full|)];
        var reply := io.reply(iterations);
        iterations := iterations + 1;
        if reply.Broken? {
          return Ok(Failed(reply.reason, iterations));
        }
        if reply.NoChoices? {
          return Ok(Failed(NO_CHOICES, iterations));
        }
        Push(Assistant(reply.content, reply.calls));
        if reply.calls == [] {
          return Ok(Final(OrEmpty(reply.content), iterations));
        }
        ghost var said := Now();
        var ok := RunTools(reply.calls, ToolsAt(io, iterations - 1));
        ResultsAnswer(reply.calls, ToolsAt(io, iterations - 1), |reply.calls|);
        if !ok {
          return Err(());
        }
        if iterations >= max {
          return Ok(MaxIterations(LastContent(messages), iterations));
        }
      }
    }
  }

  lemma NoResults(calls: seq<ToolCall>, tool: nat -> Option<string>)
    ensures Results(calls, tool, 0) == []
  {
  }

  lemma ResultsStep(calls: seq<ToolCall>, tool: nat -> Option<string>, j: nat)
    requires j < |calls| && |Results(calls, tool, j)| == j
    ensures tool(j).Some? ==>
      Results(calls, tool, j + 1) ==
        Results(calls, tool, j) + [ToolResult(calls[j].id, Truncated(tool(j).value, MAX_MESSAGE_BYTES))]
  {
  }

  lemma {:induction false} StopsThere(calls: seq<ToolCall>, tool: nat -> Option<string>, j: nat, n: nat)
    requires j < n <= |calls| && |Results(calls, tool, j)| == j && tool(j).None?
    ensures Results(calls, tool, n) == Results(calls, tool, j)
  {
    hide Truncated;
    if n > j + 1 {
      StopsThere(calls, tool, j, n - 1);
    }
  }
}
