/** The event a request handler works on: the request data, the reply, the
    path parameters and the properties middleware adds. */
module Events {
  import opened Wrappers
  import RequestData

  /** A reply body: the message of a rejected request, or a payload set by
      user code (opaque to the model). */
  datatype Body = Message(text: string) | Payload(id: nat)

  /** The state of the event's reply object (the `Reply` class is not part
      of this model): not sent yet, or sent with a status and a body. */
  datatype Reply = Unsent | Sent(status: nat, body: Option<Body>)

  /** `reply.badRequest({ message: 'Invalid compatibility date' })`, taken
      to send status 400 with that message. */
  const BadRequest: Reply := Sent(400, Some(Message("Invalid compatibility date")))

  /** `reply.notFound()`, taken to send status 404 without a body. */
  const NotFound: Reply := Sent(404, None)

  /** A property value on the event: the `next` function, or a value user
      code stores (opaque to the model). */
  datatype Value = NextFn | Opaque(id: nat)

  /** The name under which the middleware wrapper exposes `next`. */
  const NextKey: string := "next"

  /** The parts of an event that change while a request is handled. */
  datatype EventState = EventState(reply: Reply, params: map<string, string>, fields: map<string, Value>)

  /** The state of a new event: nothing sent, no parameters, no extensions. */
  const Initial: EventState := EventState(Unsent, map[], map[])

  /** The event object itself, which middleware and handlers update in place. */
  class Event {
    const data: RequestData.Data
    var reply: Reply
    var params: map<string, string>
    var fields: map<string, Value>

    function State(): EventState
      reads this
    {
      EventState(reply, params, fields)
    }

    constructor(data: RequestData.Data)
      ensures this.data == data && State() == Initial
    {
      this.data := data;
      reply := Unsent;
      params := map[];
      fields := map[];
    }

    /** Overwrites the changing parts of the event. */
    method Assign(st: EventState)
      modifies this
      ensures State() == st
    {
      reply := st.reply;
      params := st.params;
      fields := st.fields;
    }
  }
}
