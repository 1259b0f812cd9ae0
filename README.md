# Exchanger: correlated calls over a window message channel

This project models the correlation and dispatch engine of
`dataExchange.js`, `ExchangerBase` with its facade subclass `Exchanger`.
Two peers (a page and a frame, say) exchange messages of the form
`{id, content}`. A caller posts a request under a fresh id. It keeps a
pending entry for that id until a response with the same id arrives,
and the response either resolves or rejects the call. The receiving peer
matches each request against its registered handlers and answers the
sender under the request's id. There are three cases:

- no handler matches: the call is rejected with "Nothing handle the message";
- one handler matches: the call gets that handler's result (except for a
  `null` result, see "## Findings");
- several match: the call gets `Promise.all` of all their results.

The model is in five files:

- `values.dfy` (module `Values`): JavaScript values, truthiness, and
  property reads that throw on `undefined`/`null`.
- `envelope.dfy` (module `Envelope`): the `msg` codec and the two kinds
  of content. A request carries `{type, message}`; a response carries
  `{isError, payload}`.
- `dispatch.dfy` (module `Dispatch`): `handlerTest`, `getCallback` and
  `msgHandler` as functions.
  - Application functions are named by a reference `Ref`. What calling
    one does is a parameter `apply`: it returns a value, returns a promise
    that settles in a given way, or throws synchronously.
  - A synchronous throw escapes `receiveMsg` before any response is
    sent. The dispatch functions return `None` for it.
- `registry.dfy` (module `Registry`): `findIndex` + `splice` removal under
  both `isEqual` rules. ExchangerBase compares by identity; Exchanger
  compares `type` and `origin`.
- `exchanger.dfy` (module `Exchange`): class `Exchanger`. Its fields are
  the handler array, the pending-call table (the set of pending ids), the
  configured receiver, an outbox of posted messages and a log of
  settlements. The methods `PostMsg`, `ReceiveMsg`, `AddHandler`,
  `RemoveHandler`, `Send`, `Send2`, `On` and `Off` update those fields.
  `Classify` and `Answer` state what `receiveMsg` does.

Behaviours of the code that the model keeps and proves:

- A response whose id is not pending is not ignored. This covers a late
  response, a duplicate, or a response to a call that was never made.
  `receiveMsg` serves it as a request, because every id that is not a
  pending key takes the request branch. On a peer whose handlers all
  come from `on`, nothing matches such a message. The peer answers with a
  rejection under the same id, which reaches the other peer as the same
  kind of stray message. The two exchangers go on answering each other
  (`Exchange.StrayResponseEchoes`). A settle-and-ignore rule for unknown
  ids would end this exchange; the code has no such rule.
- A request whose dispatch throws synchronously gets no response. The
  throw can come from a `match`, a callback, an `on` handler receiving
  `undefined`/`null` content, or a non-function `handle`.
- `off(type, fn)` straight after `on(type, fn)` returns the array to its
  previous contents when `fn` was not already registered for `type`
  (`Exchange.OffUndoesOn`). Otherwise the first older registration is
  removed and the new one stays at the end
  (`Registry.RemovedAfterAppendOlder`). That reorders the array unless
  every handler from that older registration onward is the same pair;
  `Registry.OffAfterOnMayReorder` gives one reordering. The handler
  multiset is unchanged either way.
- On an Exchanger, `removeHandler(f)` with a bare function `f` compares
  only the `type` and `origin` properties. A function has neither, so the
  call removes the first handler registered without `on`, whichever
  function that is.
- The empty string is a possible random id. The peer drops a request
  under it (`!msgId`), so no response is ever produced, and the call
  never settles (see `Exchange.Classify`).

## Model

| member | source | states |
|---|---|---|
| Values.FalsyValues | dataExchange.js:60 | `Truthy`, JavaScript truthiness, as used by `!msgId`, `if (content.isError)` (dataExchange.js:66) and the filter (dataExchange.js:109): falsy exactly for undefined, null, false, 0 and the empty string |
| Values.Field | dataExchange.js:13-14 | reading a property throws exactly on undefined and null, yields the stored field of a record, and yields undefined for an absent property and for any property of a primitive or array |
| Envelope.GetId | dataExchange.js:14 | `getId` throws exactly on an undefined or null message, yields the `id` field of a record, and undefined when there is none |
| Envelope.GetContent | dataExchange.js:13 | `getContent` throws exactly on an undefined or null message, yields the `content` field of a record, and undefined when there is none |
| Envelope.ReadReply | dataExchange.js:65-67 | the caller's reading of a response throws exactly on undefined or null content; the call is rejected iff `isError` is truthy, with `payload` as value or reason; content without `isError` resolves |
| Envelope.Create | dataExchange.js:11-15 | round trip: `getId(create(id, c)) == id` and `getContent(create(id, c)) == c` |
| Envelope.ReplyContent | dataExchange.js:66-77 | the `{isError, payload}` wrapper the responder builds reads back, on the caller's side, as exactly the settlement it reports (rejected iff isError) |
| Envelope.RequestContent | dataExchange.js:135 | the request content carries the given `type` and `message` |
| Dispatch.HandlerTest | dataExchange.js:99-106 | a function, or an object without a function `match`, always matches; otherwise a `match` that throws makes the test throw, a `match` returning a promise matches, and a plain result decides by truthiness; an `on` handler matches iff `content.type` equals its type, and its test throws exactly on undefined/null content |
| Dispatch.Callback | dataExchange.js:110 | a function is its own callback; an object is called through `handle`, and a missing `handle` throws; an `on` handler calls `fn(content.message)` |
| Dispatch.Await | dataExchange.js:118-120 | awaiting as `Promise.resolve` and `Promise.all` do, and as the corrected single-handler branch does: a plain value is fulfilled with itself, a promise settles as it does, a throw gives no settlement |
| Dispatch.AwaitAsWritten | dataExchange.js:115-118 | the single-handler branch as written differs from awaiting exactly on a null result, which throws instead of being fulfilled with null |
| Dispatch.Matched | dataExchange.js:109 | the filter throws iff some handler's test throws; it never yields more handlers than are registered |
| Dispatch.MatchedMembers | dataExchange.js:109 | the filtered handlers are exactly the registered ones whose test answers true |
| Dispatch.MatchedAppend | dataExchange.js:109 | filtering distributes over concatenation, so matches keep registration order |
| Dispatch.NoneMatched | dataExchange.js:109 | when every test answers false, no handler is selected |
| Dispatch.AllMatched | dataExchange.js:109 | when every test answers true, every handler is selected, in order |
| Dispatch.Outcomes | dataExchange.js:120 | mapping the callbacks throws iff one of them throws; otherwise there is one settlement per handler, at its index, equal to that callback's awaited result |
| Dispatch.All | dataExchange.js:120 | `Promise.all` is fulfilled iff every input is, with the list of all values in order; when rejected, its reason is that of a rejected input, the first one in registration order |
| Dispatch.MsgHandler | dataExchange.js:108-122 | corrected dispatch: a throwing test gives no response, no match gives NoHandler, a fulfilled answer needs a match, and a rejection when some handler matched is the awaited rejection of one of the matched handlers |
| Dispatch.MsgHandlerAsWritten | dataExchange.js:108-122 | dispatch as written: it differs from the corrected one only by sending nothing where the corrected one fulfils with null |
| Dispatch.DispatchNone | dataExchange.js:112-113 | with no matching handler the request is rejected with "Nothing handle the message" |
| Dispatch.DispatchSingle | dataExchange.js:114-118 | corrected: with exactly one matching handler, wherever it stands, the result is that handler's awaited result; as written, it is that handler's result through the throwing promise check (`AwaitAsWritten`) |
| Dispatch.DispatchMany | dataExchange.js:119-120 | with two or more matches there is no response iff some callback throws, and the call is fulfilled whenever every callback is fulfilled |
| Dispatch.DispatchManyValues | dataExchange.js:119-120 | with two or more matches a fulfilled result is the list of all handler values in registration order |
| Dispatch.DispatchManyRejection | dataExchange.js:119-120 | with two or more matches a rejection carries the reason of one of the matched handlers |
| Dispatch.AsWrittenAgreesElsewhere | dataExchange.js:114-118 | the code as written and the corrected dispatch differ exactly when a single matching handler returns null |
| Dispatch.NullResultAsWritten | dataExchange.js:20 | as written, one matching handler returning null leads to no response at all |
| Dispatch.NullResultCorrected | dataExchange.js:115-118 | corrected, the same request is fulfilled with null |
| Registry.KeyOf | dataExchange.js:143-148 | only handlers registered by `on` carry `type` and `origin`, and they carry the pair given to `on` |
| Registry.IsEqual | dataExchange.js:159-161 | by identity a handler is equal only to itself; by key an `on` handler is equal to exactly its `(type, fn)` pair and every other handler to the key with neither property (ExchangerBase's rule at dataExchange.js:95-97 is the identity probe) |
| Registry.Removed | dataExchange.js:86-93 | `removeHandler` leaves the array unchanged exactly when `findIndex` finds nothing, and otherwise shortens it by one |
| Registry.FindIndex | dataExchange.js:87 | `findIndex`: -1 iff no handler is equal to the probe, else the first equal position |
| Registry.RemovedSpec | dataExchange.js:86-93 | `removeHandler` leaves the array unchanged when no handler is equal, and otherwise deletes exactly the first equal handler, keeping the order of the rest |
| Registry.FindIndexAppend | dataExchange.js:82 | appending an equal handler changes the first equal position only when there was none |
| Registry.RemovedAfterAppendFresh | dataExchange.js:81-93 | add then remove by a probe that no older handler equals restores the array |
| Registry.RemovedAfterAppendOlder | dataExchange.js:81-93 | add then remove, when an older handler is equal, removes that older one and leaves the new one at the end |
| Registry.EqualOnlyToItself | dataExchange.js:159-161 | a probe by identity, or by the key of an `on` handler, is equal to that handler and to no other |
| Registry.SameHandlersAfterAppendRemove | dataExchange.js:81-93 | add then remove by such a probe keeps the multiset of handlers |
| Registry.OnKeyIsExact | dataExchange.js:159-161 | the key `{type, origin: fn}` is equal to `on(type, fn)`'s handler and to nothing else |
| Registry.OffAfterOnMayReorder | dataExchange.js:152-157 | a concrete registry where `on` then `off` of the same pair reorders instead of restoring |
| Registry.RemoveByKeyIgnoresIdentity | dataExchange.js:159-161 | on an Exchanger, removing a bare function removes the first bare function, not that one; by identity, it removes that one |
| Exchange.IsPending | dataExchange.js:62-63 | the pending-table lookup and its `if (task)`: an id is pending exactly when it is a string naming a pending call; other ids are never pending |
| Exchange.Classify | dataExchange.js:57-68 | a message is dropped iff its id is missing or falsy, or a response's content is undefined/null; a pending id is settled with the outcome its content reads as; any other truthy id is served as a request |
| Exchange.Answer | dataExchange.js:68-78 | a request gets at most one response, exactly when the corrected dispatch does not throw; it goes to the source, under the request's id, and its content reads back as the dispatch outcome; wherever the code as written answers, the answer is the same, and the only extra answer is a null fulfilment |
| Exchange.Request | dataExchange.js:131-140 | the facade's request carries `type` and `message`, with `message` defaulting to '' |
| Exchange.Exchanger.constructor | dataExchange.js:126-129 | a new exchanger has no handlers, no pending calls, an empty outbox and the given receiver |
| Exchange.Exchanger.SendMsg | dataExchange.js:38-40 | one message is appended to the outbox, to the given target |
| Exchange.Exchanger.PostMsg | dataExchange.js:42-55 | exactly one pending entry is added, under the new id, no other changes, and exactly one envelope `{id, content}` is posted to the target; every call stays pending or settled |
| Exchange.Exchanger.ReceiveMsg | dataExchange.js:57-79 | dropped messages change nothing; a response settles its call with the carried outcome, deletes only its entry and sends nothing; a request leaves the pending table alone and sends `Answer` |
| Exchange.Exchanger.AddHandler | dataExchange.js:81-84 | appends the handler at the end |
| Exchange.Exchanger.RemoveHandler | dataExchange.js:86-93 | removes the first handler with equal `type` and `origin`, reports whether one existed, and leaves the array unchanged when none did |
| Exchange.Exchanger.Send | dataExchange.js:131-136 | without a receiver, returns the error and changes nothing; otherwise posts `{type, message}` to the receiver under a new pending id |
| Exchange.Exchanger.Send2 | dataExchange.js:138-140 | posts `{type, message}` to the given target under a new pending id |
| Exchange.Exchanger.On | dataExchange.js:142-150 | appends the `on` handler for `(type, fn)` |
| Exchange.Exchanger.Off | dataExchange.js:152-157 | removes the first handler registered by `on(type, fn)`, and reports removal iff one was registered |
| Exchange.ResponseSettles | dataExchange.js:62-67 | a response under a pending id settles that call with exactly the outcome it carries |
| Exchange.RequestServed | dataExchange.js:68-78 | a message with a truthy id that is not pending is served as a request |
| Exchange.CallSettlesWithDispatch | dataExchange.js:42-79 | end to end: a posted request is served by the peer, the answer goes back to the caller, and the caller's call settles with the peer's dispatch outcome, which is the as-written outcome whenever the code as written answers |
| Exchange.PingScenario | dataExchange.js:142-150 | `on("ping", f)` with `f` returning "pong": the call resolves to "pong" |
| Exchange.NoHandlerScenario | dataExchange.js:112-113 | a peer with no handlers rejects the call with "Nothing handle the message" |
| Exchange.BroadcastScenario | dataExchange.js:119-120 | two matching handlers, one returning "x" and one rejecting with "boom": the call is rejected with "boom" |
| Exchange.StrayResponseEchoes | dataExchange.js:62-78 | a response whose id is not pending is served as a request, and on a peer with only `on` handlers it is answered by a rejection under the same id, sent back to its sender |
| Exchange.OffUndoesOn | dataExchange.js:142-157 | `off` straight after `on` restores the array when that pair was not registered before |
| Exchange.OnOffScenario | dataExchange.js:142-157 | `on` then `off` on an empty exchanger leaves no handler, and the next request of that type is rejected with "Nothing handle the message" |

## Left out

- `init`, `uninit` and the `window.Exchanger` export: browser event wiring. The model receives events by calling `ReceiveMsg` directly.
- `postMessage(…, '*')`: appending to the outbox stands for it. A posting error such as a DataCloneError is not modelled, and a throw from `sendRes` inside the `.then` callback is not modelled either (`.catch` would catch it and post again).
- `createRandomString`: it depends on floating-point randomness. The id is a parameter of `PostMsg`, `Send` and `Send2`, and it must not already be pending.
- `createTask` and the promise it holds: a pending call is its id in the set `pendingTasks`, and a settlement is a `Settlement` appended to `settled`.
- Dispatch.Await: it is the corrected single-handler reading. As written, a single handler's null result throws in the promise check (dataExchange.js:117) and nothing is sent; `Dispatch.AwaitAsWritten` models that, and `Dispatch.AsWrittenAgreesElsewhere` shows the two readings differ only there.
- Dispatch.DispatchSingle: its first conclusion is about the corrected dispatch. As written, a single null result throws at dataExchange.js:117; its second conclusion states the as-written result through `Dispatch.AwaitAsWritten`, and `Dispatch.AsWrittenAgreesElsewhere` bounds the difference.
- Exchange.Answer: it answers with the corrected dispatch (`Dispatch.MsgHandler`). A single matching handler that returns null gets a fulfilment with null, where the code as written throws and sends nothing (see "## Findings"); `Dispatch.MsgHandlerAsWritten` and the as-written clauses of `Answer` state that difference.
- Exchange.Answer: a handler's promise always settles, and the answer is sent in the same step as the request. A promise that never settles (which in the code leaves the request without a response), and later requests being answered before an earlier slow one, are not modelled.
- Exchange.Exchanger.ReceiveMsg: its request branch sends `Answer`, so it inherits both simplifications above.
- CallSettlesWithDispatch: its first conclusion is about the corrected dispatch; for the code as written it holds whenever that code answers, and a single null-returning handler leaves the call pending instead.
- Exchange.Exchanger.ReceiveMsg: settling a call and the `finally` cleanup that deletes its entry are one step. The microtask between them is not modelled.
- Dispatch.All: when several handlers reject, JavaScript takes the first rejection in time. The model takes the first in registration order, because the model has no scheduler.
- Promise timing in general: a handler's promise is represented only by how it settles. A value that has a `then` function of its own (a user thenable) is outside the model.
- `console.error` in `removeHandler`: it is logging only. Exchange.Exchanger.RemoveHandler returns whether a handler was removed instead of `this`/`undefined`.
- Exchange.Exchanger.RemoveHandler: it takes only `{type, origin}` probes, which is how `off` calls it. Passing an arbitrary object to an Exchanger's `removeHandler` is modelled on values by `Registry.Removed` with a `ByKey` probe.
- ExchangerBase's identity `isEqual` is used by no exported class. It is modelled on values (`Registry.Probe.ByIdentity`) and not as a class of its own.
- Handlers as user objects: a bare function with a `match` property, or an object with its own `type`/`origin` properties, is not modelled. Neither is a handler's identity beyond its reference. The object `on` builds is compared only through its `type` and `origin` properties.
- Handler functions are given by the parameter `apply`, which is deterministic in the function and its argument. Handlers that keep state of their own are not modelled.
- Pending-table keys: ids that are not strings would be coerced to property keys by JavaScript; here they are never pending. Inherited keys such as "constructor" are not modelled either.
- `event.source` is a `Target`; a null source is not modelled.
- Numbers are integers; floating point is not modelled. `type` in `on`/`send` is a string.
- `main.js` is a demo plugin using DOM insertion and a timer, and is not part of this model.

## Findings

| source | as written | input that shows it | evidently intended | confidence | as-written member | corrected member |
|---|---|---|---|---|---|---|
| dataExchange.js:20 | `isPromise = (target = {}) => isFunction(target.then)`: the default replaces only `undefined`, so for a single matching handler that returns `null`, reading `null.then` throws inside `receiveMsg` | one registered function handler that returns `null` for the request | the call is fulfilled with `null`, as for any other plain value | high; not executed | Dispatch.NullResultAsWritten | Dispatch.NullResultCorrected |
