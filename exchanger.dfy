/**
  The exchanger: per-instance pending-call table and handler registry,
  inbound routing (`receiveMsg`), outbound calls (`postMsg`) and the
  `send`/`send2`/`on`/`off` facade of class Exchanger.

  The window channel is an outbox: `sendMsg(target, message)` appends
  the pair, in order, to `outbox`. The id that `createRandomString`
  would produce is an argument of each call, required to be absent
  from the pending-call table. The promise a call returns is named by
  its id; how it settles is appended to `settled` when it does.
*/
module Exchange {
  import opened Values
  import opened Envelope
  import opened Dispatch
  import opened Registry

  /** A window (or frame) that messages can be posted to. */
  type Target = nat

  /** One `postMessage`: where it went and the message posted. */
  datatype Sent = Sent(target: Target, message: Value)

  /** A pending call settled: its id and how its promise settled. */
  datatype Settlement = Settlement(id: string, outcome: Settled)

  /** What `send` returns: the pending call, or the Error value it returns (not throws) without a target. */
  datatype SendResult = Future(id: string) | Failure(message: string)

  const NoTargetMessage: string := "Must specified a target with send method!"

  /** How `receiveMsg` treats an inbound message. */
  datatype Route =
    | Drop                                 // no effect: untagged, or a TypeError escaped
    | Settle(key: string, outcome: Settled) // a response to the pending call `key`
    | Serve(id: Value, content: Value)      // a request, to be answered under `id`

  /** Whether `pendingTasks[id]` holds a task. Ids that are not strings are never keys here. */
  predicate IsPending(pending: set<string>, id: Value)
    ensures !id.Str? ==> !IsPending(pending, id)
    ensures id.Str? ==> (IsPending(pending, id) <==> id.s in pending)
  {
    id.Str? && id.s in pending
  }

  /**
    The routing decision of `receiveMsg`: a message without a truthy id
    is ignored; one whose id names a pending call is a response to it;
    any other is a request, late responses included.
  */
  function Classify(pending: set<string>, data: Value): (r: Route)
    ensures r.Settle? ==> GetId(data) == Some(Str(r.key)) && r.key in pending && r.key != ""
    ensures r.Settle? ==> Some(r.outcome) == ReadReply(GetContent(data).value)
    ensures r.Serve? ==> GetId(data) == Some(r.id) && Truthy(r.id) && !IsPending(pending, r.id)
    ensures r.Serve? ==> GetContent(data) == Some(r.content)
    ensures r.Drop? <==> (
      || GetId(data).None?
      || !Truthy(GetId(data).value)
      || (IsPending(pending, GetId(data).value) && ReadReply(GetContent(data).value).None?))
  {
    match GetId(data)
    case None => Drop
    case Some(id) =>
      if !Truthy(id) then Drop
      else if IsPending(pending, id) then
        match ReadReply(GetContent(data).value)
        case None => Drop
        case Some(outcome) => Settle(id.s, outcome)
      else Serve(id, GetContent(data).value)
  }

  /**
    What answering a request sends: one response, to the request's
    source and under the request's id, whose content reads back as the
    dispatch outcome; nothing when the dispatch throws. The dispatch is
    the corrected one: wherever the code as written answers, this answer
    is the same, and the only answer it sends beyond those is the
    fulfilment with null of a single handler returning null.
  */
  function Answer(apply: Native, hs: seq<Handler>, id: Value, content: Value, source: Target): (out: seq<Sent>)
    ensures |out| <= 1
    ensures |out| == 1 <==> MsgHandler(apply, hs, content).Some?
    ensures |out| == 1 ==> out[0].target == source && GetId(out[0].message) == Some(id)
    ensures |out| == 1 ==> ReadReply(GetContent(out[0].message).value) == MsgHandler(apply, hs, content)
    ensures MsgHandlerAsWritten(apply, hs, content).Some? ==>
      |out| == 1 && ReadReply(GetContent(out[0].message).value) == MsgHandlerAsWritten(apply, hs, content)
    ensures |out| == 1 && MsgHandlerAsWritten(apply, hs, content).None? ==>
      ReadReply(GetContent(out[0].message).value) == Some(Ok(Null))
  {
    match MsgHandler(apply, hs, content)
    case None => []
    case Some(s) => [Sent(source, Create(id, ReplyContent(s)))]
  }

  /** The message the facade posts for `send(type, message)`; `message` defaults to ''. */
  function Request(msgType: string, message: Value): (c: Value)
    ensures Field(c, "type") == Some(Str(msgType))
    ensures message != Undefined ==> Field(c, "message") == Some(message)
    ensures message == Undefined ==> Field(c, "message") == Some(Str(""))
  {
    RequestContent(msgType, if message == Undefined then Str("") else message)
  }

  class Exchanger {
    var handlers: seq<Handler>
    var pendingTasks: set<string>
    var target: Option<Target>
    var outbox: seq<Sent>
    var settled: seq<Settlement>
    /** The number of calls posted so far. */
    ghost var calls: nat

    /** Every posted call is pending or has settled exactly once. */
    ghost predicate Valid()
      reads this
    {
      |pendingTasks| + |settled| == calls
    }

    /** `new Exchanger({receiver})`: no handlers, no pending calls. */
    constructor (receiver: Option<Target>)
      ensures Valid()
      ensures handlers == [] && pendingTasks == {} && target == receiver
      ensures outbox == [] && settled == [] && calls == 0
    {
      handlers := [];
      pendingTasks := {};
      target := receiver;
      outbox := [];
      settled := [];
      calls := 0;
    }

    /** `sendMsg(target, message)`: one `postMessage`. */
    method SendMsg(to: Target, message: Value)
      modifies this`outbox
      ensures outbox == old(outbox) + [Sent(to, message)]
    {
      outbox := outbox + [Sent(to, message)];
    }

    /** `postMsg(target, content)` under the fresh id `msgId`: registers the call and posts the request. */
    method PostMsg(to: Target, content: Value, msgId: string) returns (call: string)
      requires Valid()
      requires msgId !in pendingTasks
      modifies this
      ensures Valid()
      ensures call == msgId
      ensures pendingTasks == old(pendingTasks) + {msgId}
      ensures outbox == old(outbox) + [Sent(to, Create(Str(msgId), content))]
      ensures handlers == old(handlers) && settled == old(settled) && target == old(target)
      ensures calls == old(calls) + 1
    {
      pendingTasks := pendingTasks + {msgId};
      calls := calls + 1;
      var request := Create(Str(msgId), content);
      SendMsg(to, request);
      call := msgId;
    }

    /**
      `receiveMsg({data, source})`: settles the pending call a response
      names (and deletes its entry), or answers a request to `source`.
      Settlement and the `finally` cleanup are one step here.
    */
    method ReceiveMsg(data: Value, source: Target, apply: Native)
      requires Valid()
      modifies this
      ensures Valid()
      ensures handlers == old(handlers) && target == old(target) && calls == old(calls)
      ensures match Classify(old(pendingTasks), data)
        case Drop =>
          pendingTasks == old(pendingTasks) && settled == old(settled) && outbox == old(outbox)
        case Settle(key, outcome) =>
          pendingTasks == old(pendingTasks) - {key} && settled == old(settled) + [Settlement(key, outcome)] &&
          outbox == old(outbox)
        case Serve(id, content) =>
          pendingTasks == old(pendingTasks) && settled == old(settled) &&
          outbox == old(outbox) + Answer(apply, old(handlers), id, content, source)
    {
      var msgId := GetId(data);
      if msgId.None? || !Truthy(msgId.value) {
        return;
      }
      var id := msgId.value;
      var content := GetContent(data).value;
      if IsPending(pendingTasks, id) {
        // a response
        var reply := ReadReply(content);
        if reply.None? {
          return;
        }
        settled := settled + [Settlement(id.s, reply.value)];
        pendingTasks := pendingTasks - {id.s};
      } else {
        // a request
        var result := MsgHandler(apply, handlers, content);
        if result.Some? {
          SendMsg(source, Create(id, ReplyContent(result.value)));
        }
      }
    }

    /** `addHandler(h)`: appends. */
    method AddHandler(h: Handler)
      modifies this`handlers
      ensures handlers == old(handlers) + [h]
    {
      handlers := handlers + [h];
    }

    /**
      `removeHandler(probe)` with Exchanger's `isEqual`: removes the first
      handler whose `type` and `origin` equal the probe's. When there is
      none the registry is unchanged and `removed` is false (the source
      logs an error and returns undefined instead of the exchanger).
    */
    method RemoveHandler(probe: Key) returns (removed: bool)
      modifies this`handlers
      ensures removed <==> exists j | 0 <= j < |old(handlers)| :: IsEqual(old(handlers)[j], ByKey(probe))
      ensures handlers == Removed(old(handlers), ByKey(probe))
    {
      var idx := FindIndex(handlers, ByKey(probe));
      if idx == -1 {
        removed := false;
        return;
      }
      handlers := handlers[..idx] + handlers[idx + 1..];
      removed := true;
    }

    /** `send(type, message)` under the fresh id `msgId`, to the configured receiver. */
    method Send(msgType: string, message: Value, msgId: string) returns (r: SendResult)
      requires Valid()
      requires target.Some? ==> msgId !in pendingTasks
      modifies this
      ensures Valid()
      ensures handlers == old(handlers) && settled == old(settled) && target == old(target)
      ensures old(target).None? ==>
        r == Failure(NoTargetMessage) && pendingTasks == old(pendingTasks) && outbox == old(outbox) && calls == old(calls)
      ensures old(target).Some? ==>
        r == Future(msgId) && pendingTasks == old(pendingTasks) + {msgId} &&
        outbox == old(outbox) + [Sent(old(target).value, Create(Str(msgId), Request(msgType, message)))]
    {
      if target.None? {
        return Failure(NoTargetMessage);
      }
      var call := PostMsg(target.value, Request(msgType, message), msgId);
      r := Future(call);
    }

    /** `send2(target, type, message)` under the fresh id `msgId`. */
    method Send2(to: Target, msgType: string, message: Value, msgId: string) returns (r: SendResult)
      requires Valid()
      requires msgId !in pendingTasks
      modifies this
      ensures Valid()
      ensures handlers == old(handlers) && settled == old(settled) && target == old(target)
      ensures r == Future(msgId) && pendingTasks == old(pendingTasks) + {msgId}
      ensures outbox == old(outbox) + [Sent(to, Create(Str(msgId), Request(msgType, message)))]
    {
      var call := PostMsg(to, Request(msgType, message), msgId);
      r := Future(call);
    }

    /** `on(type, fn)`: registers a handler for requests whose `type` is `msgType`. */
    method On(msgType: string, fn: Ref)
      modifies this`handlers
      ensures handlers == old(handlers) + [OnHandler(msgType, fn)]
    {
      AddHandler(OnHandler(msgType, fn));
    }

    /** `off(type, fn)`: removes the first handler registered by `on(type, fn)`. */
    method Off(msgType: string, fn: Ref) returns (removed: bool)
      modifies this`handlers
      ensures removed <==> OnHandler(msgType, fn) in old(handlers)
      ensures handlers == Removed(old(handlers), ByKey(Key(Some(msgType), Some(fn))))
    {
      removed := RemoveHandler(Key(Some(msgType), Some(fn)));
    }
  }

  /** A response posted under a pending id settles that call with exactly the outcome it carries. */
  lemma ResponseSettles(pending: set<string>, key: string, s: Settled)
    requires key in pending && key != ""
    ensures Classify(pending, Create(Str(key), ReplyContent(s))) == Settle(key, s)
  {
  }

  /** A message under a truthy id that names no pending call is served as a request. */
  lemma RequestServed(pending: set<string>, id: Value, content: Value)
    requires Truthy(id) && !IsPending(pending, id)
    ensures Classify(pending, Create(id, content)) == Serve(id, content)
  {
  }

  /**
    End to end: a call posted under `id` and answered by a peer that has
    no pending call of that id settles with exactly the peer's dispatch
    outcome, and the answer goes back to the caller. Whenever the code as
    written answers, that is the outcome the call settles with.
  */
  lemma CallSettlesWithDispatch(apply: Native, hs: seq<Handler>, id: string, content: Value,
                                callerPending: set<string>, calleePending: set<string>, caller: Target)
    requires id != "" && id in callerPending && id !in calleePending
    requires MsgHandler(apply, hs, content).Some?
    ensures Classify(calleePending, Create(Str(id), content)) == Serve(Str(id), content)
    ensures var out := Answer(apply, hs, Str(id), content, caller);
      |out| == 1 && out[0].target == caller &&
      Classify(callerPending, out[0].message) == Settle(id, MsgHandler(apply, hs, content).value)
    ensures var out := Answer(apply, hs, Str(id), content, caller);
      MsgHandlerAsWritten(apply, hs, content).Some? ==>
      Classify(callerPending, out[0].message) == Settle(id, MsgHandlerAsWritten(apply, hs, content).value)
  {
    RequestServed(calleePending, Str(id), content);
    var s := MsgHandler(apply, hs, content).value;
    ResponseSettles(callerPending, id, s);
  }

  /** One `on("ping", f)` handler whose function returns "pong": the caller's call resolves to "pong". */
  lemma PingScenario(apply: Native, f: Ref, id: string, callerPending: set<string>, calleePending: set<string>, caller: Target)
    requires id != "" && id in callerPending && id !in calleePending
    requires apply(f, Str("")) == Returned(Str("pong"))
    ensures var out := Answer(apply, [OnHandler("ping", f)], Str(id), Request("ping", Undefined), caller);
      |out| == 1 && Classify(callerPending, out[0].message) == Settle(id, Ok(Str("pong")))
  {
    var content := Request("ping", Undefined);
    DispatchSingle(apply, [OnHandler("ping", f)], 0, content);
    CallSettlesWithDispatch(apply, [OnHandler("ping", f)], id, content, callerPending, calleePending, caller);
  }

  /** A peer with no handlers: the call is rejected with "Nothing handle the message". */
  lemma NoHandlerScenario(apply: Native, msgType: string, id: string, callerPending: set<string>, calleePending: set<string>, caller: Target)
    requires id != "" && id in callerPending && id !in calleePending
    ensures var out := Answer(apply, [], Str(id), Request(msgType, Undefined), caller);
      |out| == 1 && Classify(callerPending, out[0].message) == Settle(id, Err(NoHandler))
  {
    var content := Request(msgType, Undefined);
    DispatchNone(apply, [], content);
    CallSettlesWithDispatch(apply, [], id, content, callerPending, calleePending, caller);
  }

  /** Two "broadcast" handlers, one returning "x" and one rejecting with "boom": the call is rejected with "boom". */
  lemma BroadcastScenario(apply: Native, f: Ref, g: Ref, id: string, callerPending: set<string>, calleePending: set<string>, caller: Target)
    requires id != "" && id in callerPending && id !in calleePending
    requires apply(f, Str("")) == Returned(Str("x"))
    requires apply(g, Str("")) == Promised(Err(Str("boom")))
    ensures var out := Answer(apply, [OnHandler("broadcast", f), OnHandler("broadcast", g)], Str(id), Request("broadcast", Undefined), caller);
      |out| == 1 && Classify(callerPending, out[0].message) == Settle(id, Err(Str("boom")))
  {
    var hs := [OnHandler("broadcast", f), OnHandler("broadcast", g)];
    var content := Request("broadcast", Undefined);
    AllMatched(apply, hs, content);
    var os := [Ok(Str("x")), Err(Str("boom"))];
    assert os[1..] == [Err(Str("boom"))];
    assert All(os) == Err(Str("boom"));
    assert Callback(apply, hs[0], content) == Returned(Str("x"));
    assert Callback(apply, hs[1], content) == Promised(Err(Str("boom")));
    var tail := hs[1..];
    assert tail == [OnHandler("broadcast", g)] && tail[1..] == [];
    assert Outcomes(apply, tail[1..], content) == Some([]);
    assert Await(Callback(apply, tail[0], content)) == Some(Err(Str("boom")));
    assert [Err(Str("boom"))] + [] == [Err(Str("boom"))];
    assert Outcomes(apply, tail, content) == Some([Err(Str("boom"))]);
    assert [Ok(Str("x"))] + [Err(Str("boom"))] == os;
    assert Outcomes(apply, hs, content) == Some(os);
    CallSettlesWithDispatch(apply, hs, id, content, callerPending, calleePending, caller);
  }

  /**
    A response that arrives after its call has settled (or for a call
    never made) is served as a request. On a peer whose handlers all come
    from `on`, nothing matches it, and the answer is again a response,
    under the same id, to the peer that sent it, which treats it the
    same way: the two exchangers keep answering each other.
  */
  lemma StrayResponseEchoes(apply: Native, hs: seq<Handler>, pending: set<string>, id: Value, s: Settled, source: Target)
    requires Truthy(id) && !IsPending(pending, id)
    requires forall i | 0 <= i < |hs| :: hs[i].OnHandler?
    ensures Classify(pending, Create(id, ReplyContent(s))) == Serve(id, ReplyContent(s))
    ensures Answer(apply, hs, id, ReplyContent(s), source) == [Sent(source, Create(id, ReplyContent(Err(NoHandler))))]
  {
    RequestServed(pending, id, ReplyContent(s));
    DispatchNone(apply, hs, ReplyContent(s));
  }

  /** `off(type, fn)` straight after `on(type, fn)` restores the registry when `fn` was not registered for `type` before. */
  lemma OffUndoesOn(hs: seq<Handler>, msgType: string, fn: Ref)
    requires OnHandler(msgType, fn) !in hs
    ensures Removed(hs + [OnHandler(msgType, fn)], ByKey(Key(Some(msgType), Some(fn)))) == hs
  {
    RemovedAfterAppendFresh(hs, OnHandler(msgType, fn), ByKey(Key(Some(msgType), Some(fn))));
  }

  /** After `on(type, fn)` and `off(type, fn)` on an empty registry, a request of that type finds no handler. */
  method OnOffScenario(e: Exchanger, msgType: string, fn: Ref, apply: Native)
    requires e.handlers == []
    modifies e
    ensures e.handlers == []
    ensures MsgHandler(apply, e.handlers, Request(msgType, Undefined)) == Some(Err(NoHandler))
  {
    e.On(msgType, fn);
    var removed := e.Off(msgType, fn);
    assert removed;
    OffUndoesOn([], msgType, fn);
    DispatchNone(apply, e.handlers, Request(msgType, Undefined));
  }
}
