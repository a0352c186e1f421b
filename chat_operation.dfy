/** The miner's chat operation: the route from a chat request to a text
    worker, and the ASGI send loop that forwards the frames of the stream. */
module ChatOperation {
  import opened Wrappers
  import opened Core
  import opened UtilityModels
  import opened Tasks
  import ChatLogic

  /** The two text-worker URLs of the miner configuration. */
  datatype WorkerUrls = WorkerUrls(llama8b: string, llama70b: string)

  /** Where a chat request is streamed from, and the task it accounts to. */
  datatype ChatRoute = ChatRoute(url: string, task: Option<Task>)

  /** The start of ChatOperation.forward: the worker URL by model, the
      NotImplementedError for any other model, then the task. */
  function ChatForwardRoute(model: string, urls: WorkerUrls): (r: Result<ChatRoute, string>)
    ensures r.Failure? <==> model != ChatModelValue(Llama3_1_8b) && model != ChatModelValue(Llama3_1_70b)
    ensures r.Failure? ==> r.error == "Model " + model + " not implemented for chat operation"
    ensures model == ChatModelValue(Llama3_1_8b) ==> r == Success(ChatRoute(urls.llama8b, Some(ChatLlama3_1_8b)))
    ensures model == ChatModelValue(Llama3_1_70b) ==> r == Success(ChatRoute(urls.llama70b, Some(ChatLlama3_1_70b)))
  {
    var url :=
      if model == ChatModelValue(Llama3_1_8b) then Some(urls.llama8b)
      else if model == ChatModelValue(Llama3_1_70b) then Some(urls.llama70b)
      else None;
    match url
    case None => Failure("Model " + model + " not implemented for chat operation")
    case Some(u) =>
      EnumValuesDistinct();
      Success(ChatRoute(u, GetTaskFromSynapse(Chat(model))))
  }

  /** A routed chat request always accounts to a known streamed chat task, the
      one the task table maps its model to. */
  lemma RoutedChatIsStreamed(model: string, urls: WorkerUrls)
    requires ChatForwardRoute(model, urls).Success?
    ensures var route := ChatForwardRoute(model, urls).value;
            route.task.Some? && route.task.value.IsChat()
            && route.task.value in TaskIsStream && TaskIsStream[route.task.value]
            && route.task == GetTaskFromSynapse(Chat(model))
  {
    EnumValuesDistinct();
  }

  /** An ASGI message of the streamed response body. */
  datatype Message = Message(msgType: string, body: string, moreBody: bool)

  const BodyType: string := "http.response.body"

  /** The message that closes the response body. */
  const FinalMessage: Message := Message(BodyType, "", false)

  /** The ASGI `send` callable, reduced to the messages sent through it. A
      client that disconnects takes `accepts` messages in all, after which
      every send raises; None is a client that stays. */
  class ResponseChannel {
    const accepts: Option<nat>
    var sent: seq<Message>

    constructor(accepts: Option<nat>)
      ensures this.accepts == accepts && sent == []
    {
      this.accepts := accepts;
      sent := [];
    }

    /** Whether the client still takes messages. */
    predicate Open()
      reads this
    {
      accepts.None? || |sent| < accepts.value
    }

    /** send: delivers the message, or raises (ok false) once the client is
        gone. */
    method Send(m: Message) returns (ok: bool)
      modifies this
      ensures ok == old(Open())
      ensures sent == if ok then old(sent) + [m] else old(sent)
    {
      ok := Open();
      if ok {
        sent := sent + [m];
      }
    }
  }

  /** How many of `count` further messages reach a client that takes
      `accepts` messages in all and has been sent `before` already. */
  function Room(accepts: Option<nat>, before: nat, count: nat): (k: nat)
    ensures k <= count
    ensures accepts.None? || before + count <= accepts.value ==> k == count
    ensures accepts.Some? && before + count > accepts.value ==> before + k == accepts.value || (before >= accepts.value && k == 0)
  {
    if accepts.None? || before + count <= accepts.value then count
    else if before >= accepts.value then 0
    else accepts.value - before
  }

  /** How the text generator ends: exhausted, or raising after the given texts. */
  datatype GeneratorEnd = Exhausted | Raised

  /** The messages carrying `texts`, each with more body to come. */
  function BodyMessages(texts: seq<string>): seq<Message> {
    if |texts| == 0 then [] else [Message(BodyType, texts[0], true)] + BodyMessages(texts[1..])
  }

  /** What _send_text sends for a generator that yields `texts` and then ends as
      `end`: the closing message only when the generator was exhausted, since a
      raise is caught and logged. */
  function SentMessages(texts: seq<string>, end: GeneratorEnd): seq<Message> {
    BodyMessages(texts) + (if end == Exhausted then [FinalMessage] else [])
  }

  lemma {:induction false} BodyMessagesCarryTexts(texts: seq<string>)
    ensures |BodyMessages(texts)| == |texts|
    ensures forall i :: 0 <= i < |texts| ==> BodyMessages(texts)[i] == Message(BodyType, texts[i], true)
  {
    if |texts| > 0 {
      BodyMessagesCarryTexts(texts[1..]);
    }
  }

  /** Every text is forwarded in order with more body to come, and the body is
      closed, by exactly one last message with an empty body, exactly when the
      generator was exhausted. */
  lemma SentMessagesShape(texts: seq<string>, end: GeneratorEnd)
    ensures |SentMessages(texts, end)| == |texts| + (if end == Exhausted then 1 else 0)
    ensures forall i :: 0 <= i < |texts| ==> SentMessages(texts, end)[i] == Message(BodyType, texts[i], true)
    ensures end == Exhausted ==> SentMessages(texts, end)[|texts|] == FinalMessage
    ensures (exists i :: 0 <= i < |SentMessages(texts, end)| && !SentMessages(texts, end)[i].moreBody)
            <==> end == Exhausted
  {
    BodyMessagesCarryTexts(texts);
    if end == Exhausted {
      assert !SentMessages(texts, end)[|texts|].moreBody;
    }
  }

  /** _send_text: forwards every text, then closes the body; an exception from
      the generator, or from a send to a client that is gone, ends the loop and
      is swallowed. `suspended` says the generator was left at a yield: a send
      failed before it was exhausted or raised, so the code after its loop
      never runs. */
  method SendText(texts: seq<string>, end: GeneratorEnd, channel: ResponseChannel) returns (suspended: bool)
    modifies channel
    ensures var all := SentMessages(texts, end);
            var k := Room(channel.accepts, |old(channel.sent)|, |all|);
            channel.sent == old(channel.sent) + all[..k] && (suspended <==> k < |texts|)
  {
    SentMessagesShape(texts, end);
    BodyMessagesCarryTexts(texts);
    var i := 0;
    while i < |texts|
      invariant 0 <= i <= |texts|
      invariant channel.sent == old(channel.sent) + BodyMessages(texts)[..i]
      invariant i == 0 || channel.accepts.None? || |old(channel.sent)| + i <= channel.accepts.value
    {
      var ok := channel.Send(Message(BodyType, texts[i], true));
      if !ok {
        assert SentMessages(texts, end)[..i] == BodyMessages(texts)[..i];
        return true;
      }
      assert BodyMessages(texts)[..i + 1] == BodyMessages(texts)[..i] + [Message(BodyType, texts[i], true)];
      i := i + 1;
    }
    assert BodyMessages(texts)[..i] == BodyMessages(texts);
    suspended := false;
    if end == Raised {
      assert SentMessages(texts, end)[..|texts|] == BodyMessages(texts);
      return;
    }
    var _ := channel.Send(FinalMessage);
    assert SentMessages(texts, end)[..|texts|] == BodyMessages(texts);
  }

  /** The response a chat request produces: the frames of the worker's stream,
      as the stream is written, forwarded by _send_text. A stream that raises
      (the first chunk does not decode, or the connection is lost) leaves the
      body open. */
  function ChatResponse(chunks: seq<seq<bv8>>, end: ChatLogic.StreamEnd, decode: seq<bv8> -> Option<string>,
                        loads: string -> Option<ChatLogic.Json>, dumps: ChatLogic.Json -> string): (r: seq<Message>)
    ensures |r| <= |ChatLogic.StreamFrames(chunks, decode, loads, dumps)| + 1
    ensures forall i :: 0 <= i < |r| ==> r[i].msgType == BodyType
    ensures forall i :: 0 <= i < |r| - 1 ==> r[i].moreBody
  {
    var outcome := ChatLogic.AsWrittenStream(chunks, end, decode, loads, dumps);
    SentMessagesShape(outcome.frames, if outcome.finished then Exhausted else Raised);
    SentMessages(outcome.frames, if outcome.finished then Exhausted else Raised)
  }

  /** When the first chunk decodes (or there is none), the client receives
      every frame of the stream, in order, and the body is closed exactly when
      the worker's response completed. */
  lemma ChatResponseForwardsStream(chunks: seq<seq<bv8>>, end: ChatLogic.StreamEnd, decode: seq<bv8> -> Option<string>,
                                   loads: string -> Option<ChatLogic.Json>, dumps: ChatLogic.Json -> string)
    requires |chunks| == 0 || decode(chunks[0]).Some?
    ensures var frames := ChatLogic.StreamFrames(chunks, decode, loads, dumps);
            var response := ChatResponse(chunks, end, decode, loads, dumps);
            |response| == |frames| + (if end == ChatLogic.Completed then 1 else 0)
            && (forall i :: 0 <= i < |frames| ==> response[i] == Message(BodyType, frames[i], true))
            && (end == ChatLogic.Completed ==> response[|frames|] == FinalMessage)
            && ((exists i :: 0 <= i < |response| && !response[i].moreBody) <==> end == ChatLogic.Completed)
  {
    ChatLogic.AsWrittenAgreesOtherwise(chunks, end, decode, loads, dumps);
    var outcome := ChatLogic.AsWrittenStream(chunks, end, decode, loads, dumps);
    SentMessagesShape(outcome.frames, if outcome.finished then Exhausted else Raised);
  }

  /** When the first chunk does not decode, the stream raises before its first
      frame: the client receives nothing, and the body is never closed, even
      when the worker's response completed. */
  lemma ChatResponseFirstChunkUndecodable(chunks: seq<seq<bv8>>, end: ChatLogic.StreamEnd, decode: seq<bv8> -> Option<string>,
                                          loads: string -> Option<ChatLogic.Json>, dumps: ChatLogic.Json -> string)
    requires |chunks| > 0 && decode(chunks[0]).None?
    ensures ChatResponse(chunks, end, decode, loads, dumps) == []
  {
    var outcome := ChatLogic.AsWrittenStream(chunks, end, decode, loads, dumps);
    assert outcome == ChatLogic.StreamOutcome([], false);
    assert BodyMessages([]) == [];
  }
}
