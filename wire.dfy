/**
 * Wire shapes of the IPC protocol: the payloads that cross the channel on
 * the three topics, and the opaque things the core passes through without
 * looking inside (argument and return values, handlers, listeners and the
 * resolve/reject callbacks of a promise).
 */
module Wire {

  datatype Option<+T> = None | Some(value: T)

  /** Any JavaScript value carried as an argument or a result; never inspected. */
  type Value(==)

  /** Identity of a function registered with `register`. */
  type HandlerId(==)

  /** Identity of a listener registered with `on`. */
  type ListenerId(==)

  /** Identity of the `resolve` callback of a promise returned by `call`. */
  type ResolverId(==)

  /** Identity of the `reject` callback of a promise returned by `call`. */
  type RejecterId(==)

  /** A call request: `{id, fn, args}`. */
  datatype IPCCall = IPCCall(id: nat, fn: string, args: seq<Value>)

  /**
   * A call result. `OK` is the shape with `status: 'ok'` and optional `data`
   * (an absent `data` is the value `undefined`, one of the `Value`s);
   * `Error` is the shape with `status: 'error'` and an optional message.
   */
  datatype IPCCallResult =
    | OK(id: nat, data: Value)
    | Error(id: nat, error: Option<string>)

  /** An event broadcast: `{event, args}`. */
  datatype IPCEvent = IPCEvent(event: string, args: seq<Value>)

  const CallTopic: string := "ipc:call"
  const CallResultTopic: string := "ipc:call-result"
  const EventTopic: string := "ipc:event"

  /** One `channel.post(topic, payload)`; the topic is fixed by the payload's kind. */
  datatype Post =
    | CallPost(call: IPCCall)
    | ResultPost(result: IPCCallResult)
    | EventPost(event: IPCEvent)
  {
    function Topic(): string
    {
      match this
      case CallPost(_) => CallTopic
      case ResultPost(_) => CallResultTopic
      case EventPost(_) => EventTopic
    }
  }
}
