/** `middleware()`: building a middleware from its options and user handler,
    `next`, and what the wrapped handler does to the event. Two wrappers
    exist: the one in `src/v2/middleware.ts` hands the user handler the event
    itself, the one in `src/v2/attempt2.ts` a shallow copy of it. */
module Middlewares {
  import opened Wrappers
  import opened Events
  import RequestData

  datatype Style = InPlace | Copying

  /** The handler of a middleware: the user handler it wraps (by identity)
      and the wrapper that built it. */
  datatype Wrapped = Wrapped(user: nat, style: Style)

  datatype Middleware = Middleware(
    name: Option<string>,
    required: Option<seq<Middleware>>,
    replies: Option<nat>,
    handler: Wrapped)

  /** The first argument of `middleware()`: a function, an options object, or nothing. */
  datatype FirstArg =
    | HandlerArg(user: nat)
    | OptionsArg(name: Option<string>, required: Option<seq<Middleware>>, replies: Option<nat>)
    | Undefined

  const NoHandlerMessage: string := "[Comet] A middleware received no handler argument."

  /** `middleware(options, handler)`: a function as first argument is the
      handler and the options are empty; otherwise the options object is
      spread into the result and the second argument is the handler. Throws
      when there is no handler. */
  function Build(options: FirstArg, handler: Option<nat>, style: Style): (r: Result<Middleware>)
    ensures r.Failure? <==> !options.HandlerArg? && handler.None?
    ensures r.Failure? ==> r.message == NoHandlerMessage
    ensures options.HandlerArg? ==> r == Success(Middleware(None, None, None, Wrapped(options.user, style)))
    ensures options.OptionsArg? && handler.Some? ==>
      r == Success(Middleware(options.name, options.required, options.replies, Wrapped(handler.value, style)))
    ensures options.Undefined? && handler.Some? ==> r == Success(Middleware(None, None, None, Wrapped(handler.value, style)))
  {
    var user := if options.HandlerArg? then Some(options.user) else handler;
    if user.None? then Failure(NoHandlerMessage)
    else if options.OptionsArg? then Success(Middleware(options.name, options.required, options.replies, Wrapped(user.value, style)))
    else Success(Middleware(None, None, None, Wrapped(user.value, style)))
  }

  /** The extension a middleware hands on. */
  datatype NextData = NextData(data: map<string, Value>)

  /** `next(extension)`: the extension, or an empty one when none is given. */
  function Next(extension: Option<map<string, Value>>): (n: NextData)
    ensures extension.None? ==> n.data == map[]
    ensures extension.Some? ==> n.data == extension.value
  {
    NextData(extension.GetOr(map[]))
  }

  /** What a user handler returned: a `NextData`, or anything else (a reply, nothing). */
  datatype Returned = ReturnedNextData(next: NextData) | ReturnedOther

  /** How a user handler ends: it throws, or it returns after leaving the
      event object it was given in some state. */
  datatype UserOutcome = Threw | Returned(event: EventState, result: Returned)

  /** User code, which the model does not look into. */
  type UserHandler = (RequestData.Data, EventState) -> UserOutcome

  /** The event with `next` added. */
  function WithNext(st: EventState): EventState {
    st.(fields := st.fields[NextKey := NextFn])
  }

  /** The fields a result asks to merge into the event. */
  function Extension(result: Returned): map<string, Value> {
    if result.ReturnedNextData? then result.next.data else map[]
  }

  /** What the wrapped handler leaves in the event, or `None` when the user
      handler throws. In place, everything the user handler did persists;
      on a copy only what it did through the shared reply object does. Then
      the fields of a returned `NextData` are assigned over the event's. */
  function Run(w: Wrapped, user: UserHandler, data: RequestData.Data, st: EventState): (r: Option<EventState>)
  {
    match user(data, WithNext(st))
    case Threw => None
    case Returned(seen, result) =>
      var kept := if w.style == InPlace then seen else st.(reply := seen.reply);
      Some(kept.(fields := kept.fields + Extension(result)))
  }

  /** The wrapped handler, updating the event in place. */
  method Apply(w: Wrapped, user: UserHandler, e: Event) returns (threw: bool)
    modifies e
    ensures threw <==> Run(w, user, e.data, old(e.State())).None?
    ensures !threw ==> e.State() == Run(w, user, e.data, old(e.State())).value
    ensures threw ==> e.State() == if w.style == InPlace then WithNext(old(e.State())) else old(e.State())
  {
    var arg: EventState;
    if w.style == InPlace {
      e.fields := e.fields[NextKey := NextFn];
      arg := e.State();
    } else {
      arg := WithNext(e.State());
    }
    var outcome := user(e.data, arg);
    if outcome.Threw? {
      return true;
    }
    if w.style == InPlace {
      e.Assign(outcome.event);
    } else {
      e.reply := outcome.event.reply;
    }
    if outcome.result.ReturnedNextData? {
      e.fields := e.fields + outcome.result.next.data;
    }
    return false;
  }

  /** The extension's fields overwrite the event's; other fields are as the
      handler (in place) or the caller (copy) left them. */
  lemma ExtensionOverwrites(w: Wrapped, user: UserHandler, data: RequestData.Data, st: EventState, k: string)
    requires Run(w, user, data, st).Some?
    ensures var out := user(data, WithNext(st));
      var base := if w.style == InPlace then out.event.fields else st.fields;
      var ext := Extension(out.result);
      var r := Run(w, user, data, st).value;
      && (k in r.fields <==> k in ext || k in base)
      && (k in ext ==> r.fields[k] == ext[k])
      && (k !in ext && k in base ==> r.fields[k] == base[k])
  {
  }

  /** On a copy, the user handler's own changes to the event's properties do
      not reach the event: its parameters stay, `next` is not added, and only
      the reply and the returned extension change it. */
  lemma CopyIsolation(user: UserHandler, data: RequestData.Data, st: EventState, w: Wrapped)
    requires w.style == Copying && Run(w, user, data, st).Some?
    ensures var out := user(data, WithNext(st));
      var r := Run(w, user, data, st).value;
      && r.params == st.params
      && r.reply == out.event.reply
      && (NextKey in r.fields ==> NextKey in st.fields || NextKey in Extension(out.result))
      && (out.result.ReturnedOther? ==> r == st.(reply := out.event.reply))
  {
  }

  /** In place, a handler that returns anything but `NextData` leaves the
      event exactly as it left it, `next` included unless it removed it. */
  lemma InPlaceKeepsChanges(user: UserHandler, data: RequestData.Data, st: EventState, w: Wrapped)
    requires w.style == InPlace && user(data, WithNext(st)).Returned? && user(data, WithNext(st)).result.ReturnedOther?
    ensures Run(w, user, data, st) == Some(user(data, WithNext(st)).event)
  {
    assert user(data, WithNext(st)).event.fields + map[] == user(data, WithNext(st)).event.fields;
  }
}
