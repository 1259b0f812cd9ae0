/**
  The envelope codec (`msg.create`, `msg.getId`, `msg.getContent`) and the
  two content shapes the exchanger puts inside envelopes: the request
  `{type, message}` built by the facade and the response wrapper
  `{isError, payload}` built by the responder.
*/
module Envelope {
  import opened Values

  /** How a promise settles: fulfilled with a value or rejected with a reason. */
  datatype Settled = Ok(value: Value) | Err(error: Value)

  /** `msg.create(id, content)`: the wire message `{id, content}`. */
  function Create(id: Value, content: Value): (m: Value)
    ensures GetId(m) == Some(id)
    ensures GetContent(m) == Some(content)
  {
    Record(map["id" := id, "content" := content])
  }

  /** `msg.getId`: None when the message is undefined or null (the destructuring throws). */
  function GetId(m: Value): (r: Option<Value>)
    ensures r.None? <==> m.Undefined? || m.Null?
    ensures m.Record? && "id" in m.fields ==> r == Some(m.fields["id"])
    ensures !m.Undefined? && !m.Null? && !(m.Record? && "id" in m.fields) ==> r == Some(Undefined)
  {
    Field(m, "id")
  }

  /** `msg.getContent`. */
  function GetContent(m: Value): (r: Option<Value>)
    ensures r.None? <==> m.Undefined? || m.Null?
    ensures m.Record? && "content" in m.fields ==> r == Some(m.fields["content"])
    ensures !m.Undefined? && !m.Null? && !(m.Record? && "content" in m.fields) ==> r == Some(Undefined)
  {
    Field(m, "content")
  }

  /** The response content `{isError, payload}` that reports a settled dispatch. */
  function ReplyContent(s: Settled): (c: Value)
    ensures ReadReply(c) == Some(s)
  {
    match s
    case Ok(v) => Record(map["isError" := Bool(false), "payload" := v])
    case Err(e) => Record(map["isError" := Bool(true), "payload" := e])
  }

  /**
    How the caller's side reads a response content: the pending call is
    rejected with `payload` when `isError` is truthy and resolved with it
    otherwise. None when the content is undefined or null, where reading
    `content.isError` throws.
  */
  function ReadReply(c: Value): (r: Option<Settled>)
    ensures r.None? <==> c.Undefined? || c.Null?
    ensures r.Some? ==> (r.value.Err? <==> Truthy(Field(c, "isError").value))
    ensures r.Some? ==> Field(c, "payload") == Some(if r.value.Ok? then r.value.value else r.value.error)
    ensures !c.Undefined? && !c.Null? && !(c.Record? && "isError" in c.fields) ==> r.Some? && r.value.Ok?
  {
    if c.Undefined? || c.Null? then None
    else
      var payload := Field(c, "payload").value;
      Some(if Truthy(Field(c, "isError").value) then Err(payload) else Ok(payload))
  }

  /** The request content `{type, message}` that the facade posts. */
  function RequestContent(msgType: string, message: Value): (c: Value)
    ensures Field(c, "type") == Some(Str(msgType))
    ensures Field(c, "message") == Some(message)
  {
    Record(map["type" := Str(msgType), "message" := message])
  }
}
