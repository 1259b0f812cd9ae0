/**
  Handler matching and dispatch of an inbound request: `handlerTest`,
  `getCallback` and `msgHandler` of ExchangerBase.

  The application's functions (bare handlers, `match` and `handle`
  functions, the functions given to `on`) are identified by a Ref; what
  calling one does is a parameter `apply` of type Native. A synchronous
  throw anywhere in the dispatch escapes `receiveMsg` before any response
  is sent: the dispatch functions return None for it.
*/
module Dispatch {
  import opened Values
  import opened Envelope

  /** The identity of a JavaScript function or object of the application. */
  type Ref = nat

  /** What one call of an application function does. */
  datatype Call =
    | Returned(v: Value)          // returns a value that is not a promise
    | Promised(outcome: Settled)  // returns a promise, which settles with `outcome`
    | Threw(exception: Value)     // throws synchronously

  /** `apply(f, x)` is what calling function `f` on argument `x` does. */
  type Native = (Ref, Value) -> Call

  /**
    A registered handler. A function is its own callback and always
    matches. An object is matched by its `match` function when it has one
    (a missing or non-function `match` is `None`) and called through its
    `handle` (None when that is not a function). `on(type, fn)` registers
    an object whose test compares the request's `type` property with
    `type`, whose callback passes the request's `message` property to
    `fn`, and which remembers `type` and `fn` for later removal.
  */
  datatype Handler =
    | FnHandler(fn: Ref)
    | ObjHandler(self: Ref, matcher: Option<Ref>, handle: Option<Ref>)
    | OnHandler(msgType: string, origin: Ref)

  /** The rejection reason when no handler matches. */
  const NoHandler: Value := Str("Nothing handle the message")

  /** The error thrown when something that is not a function is called. */
  const NotAFunction: Value := Str("TypeError: not a function")

  /** The error thrown when a property of undefined or null is read. */
  const NoProperties: Value := Str("TypeError: cannot read properties of undefined or null")

  /** `handlerTest(content)(h)`: whether `h` takes the request; None when the test throws. */
  function HandlerTest(apply: Native, h: Handler, content: Value): (r: Option<bool>)
    ensures h.FnHandler? || (h.ObjHandler? && h.matcher.None?) ==> r == Some(true)
    ensures h.ObjHandler? && h.matcher.Some? && apply(h.matcher.value, content).Returned? ==>
      r == Some(Truthy(apply(h.matcher.value, content).v))
    ensures h.ObjHandler? && h.matcher.Some? ==> (r.None? <==> apply(h.matcher.value, content).Threw?)
    ensures h.ObjHandler? && h.matcher.Some? && apply(h.matcher.value, content).Promised? ==> r == Some(true)
    ensures h.OnHandler? && !content.Undefined? && !content.Null? ==>
      (r == Some(true) <==> Field(content, "type") == Some(Str(h.msgType)))
    ensures h.OnHandler? ==> r.Some? != (content.Undefined? || content.Null?)
  {
    match h
    case FnHandler(_) => Some(true)
    case ObjHandler(_, matcher, _) =>
      if matcher.None? then Some(true)
      else (
        match apply(matcher.value, content)
        case Returned(v) => Some(Truthy(v))
        case Promised(_) => Some(true)   // a promise object is truthy
        case Threw(_) => None)
    case OnHandler(t, _) => (
      match Field(content, "type")
      case None => None
      case Some(v) => Some(v == Str(t)))
  }

  /** `getCallback(h)(content)`: calling the handler's callback on the request content. */
  function Callback(apply: Native, h: Handler, content: Value): (c: Call)
    ensures h.FnHandler? ==> c == apply(h.fn, content)
    ensures h.ObjHandler? && h.handle.Some? ==> c == apply(h.handle.value, content)
    ensures h.ObjHandler? && h.handle.None? ==> c.Threw?
    ensures h.OnHandler? && Field(content, "message").Some? ==> c == apply(h.origin, Field(content, "message").value)
  {
    match h
    case FnHandler(f) => apply(f, content)
    case ObjHandler(_, _, handle) =>
      if handle.None? then Threw(NotAFunction) else apply(handle.value, content)
    case OnHandler(_, origin) => (
      match Field(content, "message")
      case None => Threw(NoProperties)
      case Some(m) => apply(origin, m))
  }

  /** The settlement a call's result leads to once it is awaited; None for a throw. */
  function Await(c: Call): (r: Option<Settled>)
    ensures r.None? <==> c.Threw?
    ensures c.Returned? ==> r == Some(Ok(c.v))
    ensures c.Promised? ==> r == Some(c.outcome)
  {
    match c
    case Returned(v) => Some(Ok(v))
    case Promised(s) => Some(s)
    case Threw(_) => None
  }

  /** The call returns a value or a promise that is fulfilled. */
  predicate Fulfils(c: Call) {
    c.Returned? || (c.Promised? && c.outcome.Ok?)
  }

  /**
    The single-handler branch as written: the promise check reads the
    `then` property of the result, which throws for a null result (the
    check's default parameter stands in only for undefined).
  */
  function AwaitAsWritten(c: Call): (r: Option<Settled>)
    ensures r != Await(c) <==> c == Returned(Null)
    ensures r != Await(c) ==> r.None? && Await(c) == Some(Ok(Null))
  {
    if c == Returned(Null) then None else Await(c)
  }

  /** The registered handlers that pass `handlerTest(content)`, in registration order; None when a test throws. */
  function Matched(apply: Native, hs: seq<Handler>, content: Value): (r: Option<seq<Handler>>)
    ensures r.Some? <==> forall i | 0 <= i < |hs| :: HandlerTest(apply, hs[i], content).Some?
    ensures r.Some? ==> |r.value| <= |hs|
  {
    if hs == [] then Some([])
    else
      match HandlerTest(apply, hs[0], content)
      case None => None
      case Some(keep) =>
        match Matched(apply, hs[1..], content)
        case None => None
        case Some(rest) => Some(if keep then [hs[0]] + rest else rest)
  }

  /**
    Calling every matched handler's callback on the content, each result awaited:
    None when some callback throws, otherwise one settlement per handler.
  */
  function Outcomes(apply: Native, ms: seq<Handler>, content: Value): (r: Option<seq<Settled>>)
    ensures r.None? <==> exists i | 0 <= i < |ms| :: Callback(apply, ms[i], content).Threw?
    ensures r.Some? ==> |r.value| == |ms|
    ensures r.Some? ==> forall i | 0 <= i < |ms| :: Await(Callback(apply, ms[i], content)) == Some(r.value[i])
  {
    if ms == [] then Some([])
    else
      match Await(Callback(apply, ms[0], content))
      case None => None
      case Some(o) =>
        match Outcomes(apply, ms[1..], content)
        case None =>
          assert forall i | 0 <= i < |ms| - 1 :: ms[1..][i] == ms[i + 1];
          None
        case Some(os) => Some([o] + os)
  }

  /**
    `Promise.all`: fulfilled with the list of all values, in order, when
    every settlement is fulfilled; otherwise rejected with a reason of
    one of the rejected ones. Which rejection wins depends on timing in
    JavaScript; the model takes the first in registration order.
  */
  function All(os: seq<Settled>): (r: Settled)
    ensures r.Ok? <==> forall i | 0 <= i < |os| :: os[i].Ok?
    ensures r.Ok? ==> r.value.List? && |r.value.items| == |os|
    ensures r.Ok? ==> forall i | 0 <= i < |os| :: os[i] == Ok(r.value.items[i])
    ensures r.Err? ==> exists i | 0 <= i < |os| :: os[i] == Err(r.error) && forall j | 0 <= j < i :: os[j].Ok?
  {
    if os == [] then Ok(List([]))
    else if os[0].Err? then os[0]
    else
      match All(os[1..])
      case Err(e) =>
        assert forall i | 0 <= i < |os| - 1 :: os[1..][i] == os[i + 1];
        Err(e)
      case Ok(v) => Ok(List([os[0].value] + v.items))
  }

  /**
    `msgHandler(content)`: how the request is answered, or None when the
    dispatch throws. Zero matches reject with NoHandler, one match
    gives that handler's awaited result, several give `Promise.all` of
    all their results. This is the corrected single-handler branch: a
    null result is fulfilled with null.
  */
  function MsgHandler(apply: Native, hs: seq<Handler>, content: Value): (r: Option<Settled>)
    ensures Matched(apply, hs, content).None? ==> r.None?
    ensures Matched(apply, hs, content) == Some([]) ==> r == Some(Err(NoHandler))
    ensures r.Some? && r.value.Ok? ==> Matched(apply, hs, content).value != []
    ensures r.Some? && r.value.Err? && Matched(apply, hs, content).value != [] ==>
      var ms := Matched(apply, hs, content).value;
      exists i | 0 <= i < |ms| :: Await(Callback(apply, ms[i], content)) == Some(r.value)
  {
    match Matched(apply, hs, content)
    case None => None
    case Some(ms) =>
      if |ms| == 0 then Some(Err(NoHandler))
      else if |ms| == 1 then Await(Callback(apply, ms[0], content))
      else
        match Outcomes(apply, ms, content)
        case None => None
        case Some(os) => Some(All(os))
  }

  /** `msgHandler(content)` as written, with AwaitAsWritten in the single-handler branch. */
  function MsgHandlerAsWritten(apply: Native, hs: seq<Handler>, content: Value): (r: Option<Settled>)
    ensures r != MsgHandler(apply, hs, content) ==> r.None? && MsgHandler(apply, hs, content) == Some(Ok(Null))
  {
    match Matched(apply, hs, content)
    case None => None
    case Some(ms) =>
      if |ms| == 0 then Some(Err(NoHandler))
      else if |ms| == 1 then AwaitAsWritten(Callback(apply, ms[0], content))
      else
        match Outcomes(apply, ms, content)
        case None => None
        case Some(os) => Some(All(os))
  }

  /** Filtering distributes over concatenation: matches keep registration order. */
  lemma {:induction false} MatchedAppend(apply: Native, a: seq<Handler>, b: seq<Handler>, content: Value)
    requires Matched(apply, a, content).Some? && Matched(apply, b, content).Some?
    ensures Matched(apply, a + b, content) == Some(Matched(apply, a, content).value + Matched(apply, b, content).value)
  {
    if a == [] {
      assert a + b == b;
      assert Matched(apply, a, content).value == [];
      assert [] + Matched(apply, b, content).value == Matched(apply, b, content).value;
    } else {
      var ab := a + b;
      assert ab != [] && ab[0] == a[0] && ab[1..] == a[1..] + b;
      MatchedAppend(apply, a[1..], b, content);
      var ra, rb := Matched(apply, a[1..], content).value, Matched(apply, b, content).value;
      var keep := HandlerTest(apply, a[0], content).value;
      assert Matched(apply, ab[1..], content) == Some(ra + rb);
      assert Matched(apply, a, content) == Some(if keep then [a[0]] + ra else ra);
      assert Matched(apply, ab, content) == Some(if keep then [a[0]] + (ra + rb) else ra + rb);
      ConsAppend(a[0], ra, rb);
    }
  }

  /** Concatenation regroups around a leading element. */
  lemma ConsAppend(h: Handler, x: seq<Handler>, y: seq<Handler>)
    ensures [h] + (x + y) == ([h] + x) + y
  {
  }

  /** The matching handlers are exactly the registered handlers whose test answers true. */
  lemma {:induction false} MatchedMembers(apply: Native, hs: seq<Handler>, content: Value)
    requires Matched(apply, hs, content).Some?
    ensures forall h :: h in Matched(apply, hs, content).value <==> h in hs && HandlerTest(apply, h, content) == Some(true)
  {
    if hs != [] {
      MatchedMembers(apply, hs[1..], content);
      assert hs == [hs[0]] + hs[1..];
    }
  }

  /** When every test answers false, nothing matches. */
  lemma {:induction false} NoneMatched(apply: Native, hs: seq<Handler>, content: Value)
    requires forall i | 0 <= i < |hs| :: HandlerTest(apply, hs[i], content) == Some(false)
    ensures Matched(apply, hs, content) == Some([])
  {
    if hs != [] {
      assert forall i | 0 <= i < |hs| - 1 :: hs[1..][i] == hs[i + 1];
      NoneMatched(apply, hs[1..], content);
    }
  }

  /** When every test answers true, every handler matches, in registration order. */
  lemma {:induction false} AllMatched(apply: Native, hs: seq<Handler>, content: Value)
    requires forall i | 0 <= i < |hs| :: HandlerTest(apply, hs[i], content) == Some(true)
    ensures Matched(apply, hs, content) == Some(hs)
  {
    if hs != [] {
      assert forall i | 0 <= i < |hs| - 1 :: hs[1..][i] == hs[i + 1];
      AllMatched(apply, hs[1..], content);
      assert [hs[0]] + hs[1..] == hs;
    }
  }

  /** When no registered handler takes a request, it is rejected with NoHandler. */
  lemma DispatchNone(apply: Native, hs: seq<Handler>, content: Value)
    requires forall i | 0 <= i < |hs| :: HandlerTest(apply, hs[i], content) == Some(false)
    ensures MsgHandler(apply, hs, content) == Some(Err(NoHandler))
  {
    NoneMatched(apply, hs, content);
  }

  /**
    When exactly one registered handler takes a request, the request is
    answered with that handler's awaited result, wherever it stands in
    the registry. As written, the same holds except that a null result
    throws and the request gets no response.
  */
  lemma DispatchSingle(apply: Native, hs: seq<Handler>, i: nat, content: Value)
    requires i < |hs|
    requires HandlerTest(apply, hs[i], content) == Some(true)
    requires forall j | 0 <= j < |hs| && j != i :: HandlerTest(apply, hs[j], content) == Some(false)
    ensures MsgHandler(apply, hs, content) == Await(Callback(apply, hs[i], content))
    ensures MsgHandlerAsWritten(apply, hs, content) == AwaitAsWritten(Callback(apply, hs[i], content))
  {
    var before, after := hs[..i], hs[i + 1..];
    assert hs == before + ([hs[i]] + after);
    NoneMatched(apply, before, content);
    NoneMatched(apply, after, content);
    var single := [hs[i]];
    assert single[1..] == [];
    assert Matched(apply, single[1..], content) == Some([]);
    assert [single[0]] + [] == single;
    assert Matched(apply, single, content) == Some(single);
    MatchedAppend(apply, single, after, content);
    MatchedAppend(apply, before, single + after, content);
  }

  /**
    With two or more matching handlers every callback runs: the request
    gets no response exactly when one of them throws, and is fulfilled
    when every one of them is fulfilled.
  */
  lemma DispatchMany(apply: Native, hs: seq<Handler>, ms: seq<Handler>, content: Value)
    requires Matched(apply, hs, content) == Some(ms) && |ms| >= 2
    ensures MsgHandler(apply, hs, content).None? <==> exists i | 0 <= i < |ms| :: Callback(apply, ms[i], content).Threw?
    ensures (forall i | 0 <= i < |ms| :: Fulfils(Callback(apply, ms[i], content))) ==>
      MsgHandler(apply, hs, content).Some? && MsgHandler(apply, hs, content).value.Ok?
  {
    ManyIsAll(apply, hs, ms, content);
  }

  /**
    With two or more matching handlers, a fulfilled response is the list
    of all their values in registration order.
  */
  lemma DispatchManyValues(apply: Native, hs: seq<Handler>, ms: seq<Handler>, content: Value)
    requires Matched(apply, hs, content) == Some(ms) && |ms| >= 2
    ensures forall vs :: MsgHandler(apply, hs, content) == Some(Ok(List(vs))) ==>
      |vs| == |ms| && forall i | 0 <= i < |ms| :: Await(Callback(apply, ms[i], content)) == Some(Ok(vs[i]))
  {
    ManyIsAll(apply, hs, ms, content);
    var r := Outcomes(apply, ms, content);
    forall vs | MsgHandler(apply, hs, content) == Some(Ok(List(vs)))
      ensures |vs| == |ms| && forall i | 0 <= i < |ms| :: Await(Callback(apply, ms[i], content)) == Some(Ok(vs[i]))
    {
      assert r.Some? && All(r.value) == Ok(List(vs));
    }
  }

  /** With two or more matching handlers, a rejected response carries the reason of one of the rejected handlers. */
  lemma DispatchManyRejection(apply: Native, hs: seq<Handler>, ms: seq<Handler>, content: Value)
    requires Matched(apply, hs, content) == Some(ms) && |ms| >= 2
    ensures forall e :: MsgHandler(apply, hs, content) == Some(Err(e)) ==>
      exists i | 0 <= i < |ms| :: Await(Callback(apply, ms[i], content)) == Some(Err(e))
  {
    ManyIsAll(apply, hs, ms, content);
  }

  /** With two or more matches, `msgHandler` is `Promise.all` of the awaited callbacks. */
  lemma ManyIsAll(apply: Native, hs: seq<Handler>, ms: seq<Handler>, content: Value)
    requires Matched(apply, hs, content) == Some(ms) && |ms| >= 2
    ensures var r := Outcomes(apply, ms, content);
      MsgHandler(apply, hs, content) == if r.None? then None else Some(All(r.value))
  {
  }

  /** The two readings of `msgHandler` differ only when one handler matches and returns null. */
  lemma AsWrittenAgreesElsewhere(apply: Native, hs: seq<Handler>, content: Value)
    ensures MsgHandlerAsWritten(apply, hs, content) != MsgHandler(apply, hs, content) <==>
      var m := Matched(apply, hs, content);
      m.Some? && |m.value| == 1 && Callback(apply, m.value[0], content) == Returned(Null)
  {
  }

  /**
    As written, a request answered by one handler returning null gets no
    response at all; its caller's call stays pending forever.
  */
  lemma NullResultAsWritten(f: Ref, content: Value)
    ensures var apply: Native := (g, x) => Returned(Null);
      MsgHandlerAsWritten(apply, [FnHandler(f)], content) == None
  {
  }

  /** Corrected, the same request is fulfilled with null. */
  lemma NullResultCorrected(f: Ref, content: Value)
    ensures var apply: Native := (g, x) => Returned(Null);
      MsgHandler(apply, [FnHandler(f)], content) == Some(Ok(Null))
  {
  }
}
