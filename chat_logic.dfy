/** The miner's text streaming: the server-sent events a text worker returns are
    re-shaped into frames of the form `data: {"text": ..., "logprob": ...}`.
    The HTTP session is not modelled: the byte chunks the worker sends, and how
    the stream ends, are inputs. UTF-8 decoding and the two JSON codecs are
    parameters. */
module ChatLogic {
  import opened Wrappers
  import opened Core
  import opened Text

  /** A JSON value as the codecs see it; an object keeps its members in order. */
  datatype Json =
    | JNull
    | JBool(b: bool)
    | JNumber(n: real)
    | JString(s: string)
    | JArray(items: seq<Json>)
    | JObject(members: seq<(string, Json)>)

  /** The value a dict built from these members holds for `key`: a later
      member with the same key replaces an earlier one. */
  function Lookup(members: seq<(string, Json)>, key: string): Option<Json> {
    if |members| == 0 then None
    else if members[|members| - 1].0 == key then Some(members[|members| - 1].1)
    else Lookup(members[..|members| - 1], key)
  }

  /** Lookup finds a value exactly when some member has the key, and then it
      is the value of the last such member. */
  lemma {:induction false} LookupFindsLast(members: seq<(string, Json)>, key: string)
    ensures Lookup(members, key).None? <==> forall i :: 0 <= i < |members| ==> members[i].0 != key
    ensures Lookup(members, key).Some? ==>
              exists i :: 0 <= i < |members| && members[i] == (key, Lookup(members, key).value)
                          && forall j :: i < j < |members| ==> members[j].0 != key
  {
    if |members| > 0 && members[|members| - 1].0 != key {
      var init := members[..|members| - 1];
      LookupFindsLast(init, key);
      assert forall i :: 0 <= i < |init| ==> init[i] == members[i];
    }
  }

  /** `value[key]` for a string key: only an object with that key has one;
      any other value raises. */
  function Index(value: Json, key: string): Option<Json> {
    match value
    case JObject(members) => Lookup(members, key)
    case _ => None
  }

  /** `value[0]`: the first item of a non-empty list, or the first character of
      a non-empty string; an object (whose keys are strings) and everything else
      raise. */
  function First(value: Json): Option<Json> {
    match value
    case JArray(items) => if |items| > 0 then Some(items[0]) else None
    case JString(s) => if |s| > 0 then Some(JString([s[0]])) else None
    case _ => None
  }

  /** `loaded["text"]` and `loaded["logprobs"][0]["logprob"]`, or None when any
      of the subscripts raises. */
  function ExtractTextAndLogprob(loaded: Json): Option<(Json, Json)> {
    match Index(loaded, "text")
    case None => None
    case Some(text) =>
      match Index(loaded, "logprobs")
      case None => None
      case Some(logprobs) =>
        match First(logprobs)
        case None => None
        case Some(first) =>
          match Index(first, "logprob")
          case None => None
          case Some(logprob) => Some((text, logprob))
  }

  /** The extraction succeeds exactly on an object with a "text" member and a
      non-empty "logprobs" list whose first item is an object with a "logprob"
      member, and it returns those two members. */
  lemma ExtractCases(loaded: Json, text: Json, logprob: Json)
    ensures ExtractTextAndLogprob(loaded) == Some((text, logprob)) <==>
            loaded.JObject? && Lookup(loaded.members, "text") == Some(text)
            && Lookup(loaded.members, "logprobs").Some?
            && Lookup(loaded.members, "logprobs").value.JArray?
            && |Lookup(loaded.members, "logprobs").value.items| > 0
            && Lookup(loaded.members, "logprobs").value.items[0].JObject?
            && Lookup(Lookup(loaded.members, "logprobs").value.items[0].members, "logprob") == Some(logprob)
  {
  }

  /** The frame sent on for one event: the SSE line `data: <json>` and the
      blank line that ends an event. */
  function Frame(text: Json, logprob: Json, dumps: Json -> string): string {
    "data: " + dumps(JObject([("text", text), ("logprob", logprob)])) + "\n\n"
  }

  /** What one event of a chunk does: skipped when blank, ends the chunk on
      `[DONE]`, emits a frame, or raises while being parsed. */
  datatype EventStep = Skip | Done | Emit(frame: string) | Malformed

  /** The payload of an event: everything after its first colon. */
  function Payload(event: string): string {
    Partition(event, ':').2
  }

  /** One iteration of the loop over a chunk's events. */
  function ProcessEvent(event: string, loads: string -> Option<Json>, dumps: Json -> string): (r: EventStep)
    ensures r.Skip? <==> AllSpace(event)
    ensures r.Emit? ==> IsDataEvent(r.frame)
  {
    StripEmptyIffAllSpace(event);
    if Strip(event) == "" then Skip
    else
      var data := Payload(event);
      if Strip(data) == "[DONE]" then Done
      else match loads(data)
        case None => Malformed
        case Some(loaded) =>
          match ExtractTextAndLogprob(loaded)
          case None => Malformed
          case Some(pair) =>
            FrameIsDataEvent(pair.0, pair.1, dumps);
            Emit(Frame(pair.0, pair.1, dumps))
  }

  /** An event is skipped exactly when it is all whitespace, it ends the
      chunk as `[DONE]` exactly when its payload strips to `[DONE]`, and
      it is malformed exactly when the payload does not parse or lacks the
      text or the first log-probability. */
  lemma ProcessEventCases(event: string, loads: string -> Option<Json>, dumps: Json -> string)
    ensures ProcessEvent(event, loads, dumps).Skip? <==> AllSpace(event)
    ensures ProcessEvent(event, loads, dumps).Done? <==> !AllSpace(event) && Strip(Payload(event)) == "[DONE]"
    ensures ProcessEvent(event, loads, dumps).Malformed? <==>
              !AllSpace(event) && Strip(Payload(event)) != "[DONE]"
              && (loads(Payload(event)).None? || ExtractTextAndLogprob(loads(Payload(event)).value).None?)
  {
    StripEmptyIffAllSpace(event);
  }

  /** The event ends the processing of its chunk: `[DONE]` breaks out of the
      loop, and a parse error leaves it for the handler. */
  predicate EndsChunk(step: EventStep) {
    step.Done? || step.Malformed?
  }

  /** The frames emitted for the events of one chunk, in order. */
  function ChunkFrames(events: seq<string>, loads: string -> Option<Json>, dumps: Json -> string): seq<string> {
    if |events| == 0 then []
    else match ProcessEvent(events[0], loads, dumps)
      case Skip => ChunkFrames(events[1..], loads, dumps)
      case Emit(frame) => [frame] + ChunkFrames(events[1..], loads, dumps)
      case _ => []
  }

  /** The events a decoded chunk holds. */
  function Events(chunk: string): seq<string> {
    Split(chunk, "\n\n")
  }

  /** The frames of a whole stream when every chunk that does not decode is
      logged and skipped. */
  function StreamFrames(chunks: seq<seq<bv8>>, decode: seq<bv8> -> Option<string>,
                        loads: string -> Option<Json>, dumps: Json -> string): seq<string>
  {
    if |chunks| == 0 then []
    else DecodedFrames(chunks[0], decode, loads, dumps) + StreamFrames(chunks[1..], decode, loads, dumps)
  }

  /** The frames of one received chunk: none when it does not decode. */
  function DecodedFrames(chunk: seq<bv8>, decode: seq<bv8> -> Option<string>,
                         loads: string -> Option<Json>, dumps: Json -> string): seq<string>
  {
    match decode(chunk)
    case None => []
    case Some(text) => ChunkFrames(Events(text), loads, dumps)
  }

  /** How the worker's response ends: normally, or with the connection
      failing after the given chunks (which propagates out of the stream). */
  datatype StreamEnd = Completed | ConnectionLost

  /** What the consumer of the stream sees: the frames, and whether the stream
      finished (and so released its concurrency slot) rather than raised. */
  datatype StreamOutcome = StreamOutcome(frames: seq<string>, finished: bool)

  /** The stream as written: the error handler logs the last decoded chunk, so
      when the very first chunk does not decode there is none, the handler
      itself raises and the stream ends with no frames and no release. */
  function AsWrittenStream(chunks: seq<seq<bv8>>, end: StreamEnd, decode: seq<bv8> -> Option<string>,
                           loads: string -> Option<Json>, dumps: Json -> string): (r: StreamOutcome)
    ensures r.frames == StreamFrames(chunks, decode, loads, dumps) || (r.frames == [] && !r.finished)
    ensures r.finished <==> end == Completed && (|chunks| == 0 || decode(chunks[0]).Some?)
  {
    if |chunks| > 0 && decode(chunks[0]).None? then StreamOutcome([], false)
    else StreamOutcome(StreamFrames(chunks, decode, loads, dumps), end == Completed)
  }

  /** The stream as intended: an undecodable chunk is logged and skipped like
      any other error inside a chunk. */
  function IntendedStream(chunks: seq<seq<bv8>>, end: StreamEnd, decode: seq<bv8> -> Option<string>,
                          loads: string -> Option<Json>, dumps: Json -> string): StreamOutcome
  {
    StreamOutcome(StreamFrames(chunks, decode, loads, dumps), end == Completed)
  }

  // ---------------------------------------------------------------------------
  // Properties of the frame stream

  /** Frames are produced chunk by chunk: nothing in one chunk affects the
      frames of another. */
  lemma {:induction false} StreamFramesAppend(a: seq<seq<bv8>>, b: seq<seq<bv8>>, decode: seq<bv8> -> Option<string>,
                                              loads: string -> Option<Json>, dumps: Json -> string)
    ensures StreamFrames(a + b, decode, loads, dumps)
            == StreamFrames(a, decode, loads, dumps) + StreamFrames(b, decode, loads, dumps)
  {
    if |a| == 0 {
      assert a + b == b;
    } else {
      assert (a + b)[1..] == a[1..] + b;
      assert (a + b)[0] == a[0];
      StreamFramesAppend(a[1..], b, decode, loads, dumps);
    }
  }

  predicate NoEnd(events: seq<string>, loads: string -> Option<Json>, dumps: Json -> string) {
    forall i :: 0 <= i < |events| ==> !EndsChunk(ProcessEvent(events[i], loads, dumps))
  }

  /** Events before the first `[DONE]` or parse error are processed one after
      the other: their frames come first, the rest of the chunk follows. */
  lemma {:induction false} ChunkFramesAppend(pre: seq<string>, post: seq<string>,
                                             loads: string -> Option<Json>, dumps: Json -> string)
    requires NoEnd(pre, loads, dumps)
    ensures ChunkFrames(pre + post, loads, dumps)
            == ChunkFrames(pre, loads, dumps) + ChunkFrames(post, loads, dumps)
  {
    if |pre| == 0 {
      assert pre + post == post;
    } else {
      assert (pre + post)[1..] == pre[1..] + post;
      assert (pre + post)[0] == pre[0];
      assert !EndsChunk(ProcessEvent(pre[0], loads, dumps));
      assert NoEnd(pre[1..], loads, dumps) by {
        forall i | 0 <= i < |pre[1..]| ensures !EndsChunk(ProcessEvent(pre[1..][i], loads, dumps)) {
          assert pre[1..][i] == pre[i + 1];
        }
      }
      ChunkFramesAppend(pre[1..], post, loads, dumps);
    }
  }

  /** `[DONE]` or a malformed event ends its chunk: the events after it in
      the chunk are dropped. By StreamFramesAppend the later chunks are still
      processed as usual. */
  lemma EndDropsRestOfChunk(pre: seq<string>, event: string, post: seq<string>,
                            loads: string -> Option<Json>, dumps: Json -> string)
    requires NoEnd(pre, loads, dumps)
    requires EndsChunk(ProcessEvent(event, loads, dumps))
    ensures ChunkFrames(pre + [event] + post, loads, dumps) == ChunkFrames(pre, loads, dumps)
  {
    assert pre + [event] + post == pre + ([event] + post);
    ChunkFramesAppend(pre, [event] + post, loads, dumps);
    assert ([event] + post)[0] == event;
  }

  /** A blank event (keep-alive padding between events) emits nothing and
      does not end the chunk. */
  lemma BlankEventEmitsNothing(event: string, rest: seq<string>, loads: string -> Option<Json>, dumps: Json -> string)
    requires AllSpace(event)
    ensures ChunkFrames([event] + rest, loads, dumps) == ChunkFrames(rest, loads, dumps)
  {
    assert ([event] + rest)[1..] == rest;
  }

  /** Only the payload after the first colon matters: two non-blank events
      with the same payload (`data: x` and `x: x`, say) are treated alike. */
  lemma FieldNameIgnored(e1: string, e2: string, loads: string -> Option<Json>, dumps: Json -> string)
    requires !AllSpace(e1) && !AllSpace(e2)
    requires Payload(e1) == Payload(e2)
    ensures ProcessEvent(e1, loads, dumps) == ProcessEvent(e2, loads, dumps)
  {
    StripEmptyIffAllSpace(e1);
    StripEmptyIffAllSpace(e2);
  }

  /** The object a text worker sends for each token: the text and the list of
      its log-probabilities. */
  function WorkerObject(text: Json, logprob: Json, rest: seq<Json>): Json {
    JObject([("text", text), ("logprobs", JArray([JObject([("logprob", logprob)])] + rest))])
  }

  /** A worker event carrying a text and a list of token log-probabilities is
      re-shaped into a frame holding the text and the first log-probability. */
  lemma WorkerEventReshaped(event: string, text: Json, logprob: Json, rest: seq<Json>,
                            loads: string -> Option<Json>, dumps: Json -> string)
    requires !AllSpace(event) && Strip(Payload(event)) != "[DONE]"
    requires loads(Payload(event)) == Some(WorkerObject(text, logprob, rest))
    ensures ProcessEvent(event, loads, dumps) == Emit(Frame(text, logprob, dumps))
  {
    StripEmptyIffAllSpace(event);
    ExtractWorkerObject(text, logprob, rest);
  }

  lemma ExtractWorkerObject(text: Json, logprob: Json, rest: seq<Json>)
    ensures ExtractTextAndLogprob(WorkerObject(text, logprob, rest)) == Some((text, logprob))
  {
    var logprobs := JArray([JObject([("logprob", logprob)])] + rest);
    var members := [("text", text), ("logprobs", logprobs)];
    assert Lookup(members, "text") == Some(text) by {
      assert members[1].0 != "text";
      assert members[..1] == [("text", text)];
    }
    assert Lookup(members, "logprobs") == Some(logprobs);
    assert First(logprobs) == Some(JObject([("logprob", logprob)]));
  }

  /** One complete server-sent event carrying data: it starts with the
      `data: ` field and ends with the blank line. */
  predicate IsDataEvent(f: string) {
    |f| >= 8 && f[..6] == "data: " && f[|f| - 2..] == "\n\n"
  }

  lemma FrameIsDataEvent(text: Json, logprob: Json, dumps: Json -> string)
    ensures IsDataEvent(Frame(text, logprob, dumps))
  {
    var body := dumps(JObject([("text", text), ("logprob", logprob)]));
    var f := "data: " + body + "\n\n";
    assert f[..6] == "data: ";
    assert f[|f| - 2..] == "\n\n";
  }

  lemma EmittedFrameIsDataEvent(event: string, loads: string -> Option<Json>, dumps: Json -> string)
    ensures ProcessEvent(event, loads, dumps).Emit? ==> IsDataEvent(ProcessEvent(event, loads, dumps).frame)
  {
    if ProcessEvent(event, loads, dumps).Emit? {
      var pair := ExtractTextAndLogprob(loads(Payload(event)).value).value;
      FrameIsDataEvent(pair.0, pair.1, dumps);
    }
  }

  /** Every frame the stream emits is one complete data event. */
  lemma {:induction false} FramesAreEvents(chunks: seq<seq<bv8>>, decode: seq<bv8> -> Option<string>,
                                           loads: string -> Option<Json>, dumps: Json -> string)
    ensures forall f :: f in StreamFrames(chunks, decode, loads, dumps) ==> IsDataEvent(f)
  {
    if |chunks| > 0 {
      FramesAreEvents(chunks[1..], decode, loads, dumps);
      match decode(chunks[0])
      case None =>
      case Some(chunk) => ChunkFramesAreEvents(Events(chunk), loads, dumps);
    }
  }

  lemma {:induction false} ChunkFramesAreEvents(events: seq<string>, loads: string -> Option<Json>, dumps: Json -> string)
    ensures forall f :: f in ChunkFrames(events, loads, dumps) ==> IsDataEvent(f)
  {
    if |events| > 0 {
      ChunkFramesAreEvents(events[1..], loads, dumps);
      EmittedFrameIsDataEvent(events[0], loads, dumps);
    }
  }

  /** In the intended stream a chunk that does not decode contributes nothing
      and stops nothing. */
  lemma UndecodableChunkSkipped(before: seq<seq<bv8>>, chunk: seq<bv8>, after: seq<seq<bv8>>, end: StreamEnd,
                                decode: seq<bv8> -> Option<string>, loads: string -> Option<Json>, dumps: Json -> string)
    requires decode(chunk).None?
    ensures IntendedStream(before + [chunk] + after, end, decode, loads, dumps)
            == IntendedStream(before + after, end, decode, loads, dumps)
  {
    calc {
      StreamFrames(before + [chunk] + after, decode, loads, dumps);
      { StreamFramesAppend(before + [chunk], after, decode, loads, dumps); }
      StreamFrames(before + [chunk], decode, loads, dumps) + StreamFrames(after, decode, loads, dumps);
      { StreamFramesAppend(before, [chunk], decode, loads, dumps);
        StreamFramesSingle(chunk, decode, loads, dumps); }
      StreamFrames(before, decode, loads, dumps) + DecodedFrames(chunk, decode, loads, dumps)
        + StreamFrames(after, decode, loads, dumps);
      StreamFrames(before, decode, loads, dumps) + StreamFrames(after, decode, loads, dumps);
      { StreamFramesAppend(before, after, decode, loads, dumps); }
      StreamFrames(before + after, decode, loads, dumps);
    }
  }

  /** The discrepancy: a stream whose first chunk is not valid UTF-8 raises out
      of the error handler, while the intended stream skips that chunk, goes on
      and releases the concurrency slot at the end. */
  lemma FirstChunkUndecodableRaises(loads: string -> Option<Json>, dumps: Json -> string)
    ensures var chunks := [[0xFF as bv8]];
            var decode := (b: seq<bv8>) => None;
            AsWrittenStream(chunks, Completed, decode, loads, dumps) == StreamOutcome([], false)
            && IntendedStream(chunks, Completed, decode, loads, dumps) == StreamOutcome([], true)
  {
    var chunks := [[0xFF as bv8]];
    var decode := (b: seq<bv8>) => None;
    assert StreamFrames(chunks[1..], decode, loads, dumps) == [];
  }

  /** Apart from that case the two agree. */
  lemma AsWrittenAgreesOtherwise(chunks: seq<seq<bv8>>, end: StreamEnd, decode: seq<bv8> -> Option<string>,
                                 loads: string -> Option<Json>, dumps: Json -> string)
    requires |chunks| == 0 || decode(chunks[0]).Some?
    ensures AsWrittenStream(chunks, end, decode, loads, dumps) == IntendedStream(chunks, end, decode, loads, dumps)
  {
  }

  // ---------------------------------------------------------------------------
  // The streaming generator

  /** The miner's request statistics, reduced to the record of the tasks whose
      concurrency slot has been released. */
  class MinerRequestsStats {
    var released: seq<Task>

    constructor()
      ensures released == []
    {
      released := [];
    }

    method DecrementConcurrencyGroupFromTask(task: Task)
      modifies this
      ensures released == old(released) + [task]
    {
      released := released + [task];
    }
  }

  /** The loop over the events of one decoded chunk. */
  method EmitChunk(events: seq<string>, loads: string -> Option<Json>, dumps: Json -> string)
    returns (frames: seq<string>)
    ensures frames == ChunkFrames(events, loads, dumps)
  {
    frames := [];
    var e := 0;
    while e < |events|
      invariant 0 <= e <= |events|
      invariant ChunkFrames(events, loads, dumps) == frames + ChunkFrames(events[e..], loads, dumps)
    {
      var step := ProcessEvent(events[e], loads, dumps);
      assert events[e..][0] == events[e] && events[e..][1..] == events[e + 1..];
      ChunkFramesStep(events[e..], frames, loads, dumps);
      if step.Skip? {
      } else if step.Emit? {
        frames := frames + [step.frame];
      } else {
        break;
      }
      e := e + 1;
    }
    assert events[e..] == [] ==> frames + ChunkFrames(events[e..], loads, dumps) == frames;
  }

  /** One step of ChunkFrames, after the frames already emitted: a skipped
      first event adds nothing, an emitted one adds its frame, and any other
      ends the chunk. */
  lemma ChunkFramesStep(events: seq<string>, frames: seq<string>,
                        loads: string -> Option<Json>, dumps: Json -> string)
    requires |events| > 0
    ensures var step := ProcessEvent(events[0], loads, dumps);
            && (step.Skip? ==> frames + ChunkFrames(events, loads, dumps)
                               == frames + ChunkFrames(events[1..], loads, dumps))
            && (step.Emit? ==> frames + ChunkFrames(events, loads, dumps)
                               == (frames + [step.frame]) + ChunkFrames(events[1..], loads, dumps))
            && (!step.Skip? && !step.Emit? ==> frames + ChunkFrames(events, loads, dumps) == frames)
  {
    ChunkFramesHead(events, loads, dumps);
    StepAfterFrames(frames, ProcessEvent(events[0], loads, dumps),
                    ChunkFrames(events, loads, dumps), ChunkFrames(events[1..], loads, dumps));
  }

  /** ChunkFrames of a non-empty list of events, by what its first event is. */
  lemma ChunkFramesHead(events: seq<string>, loads: string -> Option<Json>, dumps: Json -> string)
    requires |events| > 0
    ensures var step := ProcessEvent(events[0], loads, dumps);
            ChunkFrames(events, loads, dumps)
            == if step.Skip? then ChunkFrames(events[1..], loads, dumps)
               else if step.Emit? then [step.frame] + ChunkFrames(events[1..], loads, dumps)
               else []
  {
  }

  /** The frames of one step, `cur`, placed after those already emitted. */
  lemma StepAfterFrames(frames: seq<string>, step: EventStep, cur: seq<string>, rest: seq<string>)
    requires cur == if step.Skip? then rest else if step.Emit? then [step.frame] + rest else []
    ensures step.Skip? ==> frames + cur == frames + rest
    ensures step.Emit? ==> frames + cur == (frames + [step.frame]) + rest
    ensures !step.Skip? && !step.Emit? ==> frames + cur == frames
  {
    if step.Emit? {
      assert frames + ([step.frame] + rest) == (frames + [step.frame]) + rest;
    } else if !step.Skip? {
      assert frames + [] == frames;
    }
  }

  lemma StreamFramesSingle(chunk: seq<bv8>, decode: seq<bv8> -> Option<string>,
                           loads: string -> Option<Json>, dumps: Json -> string)
    ensures StreamFrames([chunk], decode, loads, dumps) == DecodedFrames(chunk, decode, loads, dumps)
  {
    assert [chunk][1..] == [];
  }

  lemma StreamFramesSnoc(chunks: seq<seq<bv8>>, c: nat, decode: seq<bv8> -> Option<string>,
                         loads: string -> Option<Json>, dumps: Json -> string)
    requires c < |chunks|
    ensures StreamFrames(chunks[..c + 1], decode, loads, dumps)
            == StreamFrames(chunks[..c], decode, loads, dumps) + DecodedFrames(chunks[c], decode, loads, dumps)
  {
    assert chunks[..c + 1] == chunks[..c] + [chunks[c]];
    StreamFramesAppend(chunks[..c], [chunks[c]], decode, loads, dumps);
    assert [chunks[c]][1..] == [];
  }

  /** stream_text_from_server as written. `frames` are what it yields, in
      order; `raised` says an exception ended it. */
  method StreamTextFromServerAsWritten(chunks: seq<seq<bv8>>, end: StreamEnd, task: Task, stats: MinerRequestsStats,
                                       decode: seq<bv8> -> Option<string>,
                                       loads: string -> Option<Json>, dumps: Json -> string)
    returns (frames: seq<string>, raised: bool)
    modifies stats
    ensures StreamOutcome(frames, !raised) == AsWrittenStream(chunks, end, decode, loads, dumps)
    ensures stats.released == old(stats.released) + (if raised then [] else [task])
  {
    frames := [];
    var chunkBound := false;
    var c := 0;
    while c < |chunks|
      invariant 0 <= c <= |chunks|
      invariant chunkBound <==> c > 0
      invariant c > 0 ==> decode(chunks[0]).Some?
      invariant frames == StreamFrames(chunks[..c], decode, loads, dumps)
      invariant stats.released == old(stats.released)
    {
      StreamFramesSnoc(chunks, c, decode, loads, dumps);
      var decoded := decode(chunks[c]);
      if decoded.None? {
        if !chunkBound {
          // the handler's log line names the unbound chunk and raises
          assert c == 0;
          frames := [];
          raised := true;
          return;
        }
      } else {
        var fs := EmitChunk(Events(decoded.value), loads, dumps);
        frames := frames + fs;
      }
      chunkBound := true;
      c := c + 1;
    }
    assert chunks[..c] == chunks;
    if end == ConnectionLost {
      raised := true;
      return;
    }
    stats.DecrementConcurrencyGroupFromTask(task);
    raised := false;
  }

  /** stream_text_from_server with an undecodable chunk logged and skipped. */
  method StreamTextFromServer(chunks: seq<seq<bv8>>, end: StreamEnd, task: Task, stats: MinerRequestsStats,
                              decode: seq<bv8> -> Option<string>,
                              loads: string -> Option<Json>, dumps: Json -> string)
    returns (frames: seq<string>, raised: bool)
    modifies stats
    ensures StreamOutcome(frames, !raised) == IntendedStream(chunks, end, decode, loads, dumps)
    ensures stats.released == old(stats.released) + (if raised then [] else [task])
  {
    frames := [];
    var c := 0;
    while c < |chunks|
      invariant 0 <= c <= |chunks|
      invariant frames == StreamFrames(chunks[..c], decode, loads, dumps)
      invariant stats.released == old(stats.released)
    {
      StreamFramesSnoc(chunks, c, decode, loads, dumps);
      var decoded := decode(chunks[c]);
      if decoded.Some? {
        var fs := EmitChunk(Events(decoded.value), loads, dumps);
        frames := frames + fs;
      }
      c := c + 1;
    }
    assert chunks[..c] == chunks;
    if end == ConnectionLost {
      raised := true;
      return;
    }
    stats.DecrementConcurrencyGroupFromTask(task);
    raised := false;
  }
}
