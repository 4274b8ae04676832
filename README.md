# nodejs-mobile-ipc2: the IPC correlation and dispatch core in Dafny

This project models `NodejsMobileIPC`, the object that runs a remote-call and
event protocol over one message channel between two JavaScript contexts
(src/ipc.ts). The object owns three maps:

- `callHandlers`: function name to handler;
- `eventHandlers`: event name to an ordered list of listeners;
- `pendingCalls`: call id to the `[resolve, reject]` pair of the promise
  that `call` returned.

Messages travel on three topics: `ipc:call` (`{id, fn, args}`),
`ipc:call-result` (`{id, status: 'ok', data}` or `{id, status: 'error', error}`)
and `ipc:event` (`{event, args}`).

Files:

- `wire.dfy` (module `Wire`): the message shapes of src/interfaces/call.ts
  and src/interfaces/event.ts, and the opaque values the core passes through.
  Argument values, handlers, listeners, resolvers and rejecters are abstract
  types.
- `ipc_spec.dfy` (module `IpcSpec`): the object's state as a value and one
  transition function per operation. `Consistent` is the exactly-once
  accounting. For every id, the number of `ipc:call` requests posted equals
  the number of resolver/rejecter invocations for it, plus one while it is
  pending. The module also holds the lemmas about single operations and
  about whole histories.
- `ipc.dfy` (module `Ipc`): the class `NodejsMobileIPC`. Its map fields are
  updated in place. `outbox` records every `channel.post`. `effects`
  records every resolver, rejecter, handler and listener invocation. Each
  method keeps `Valid()` (the object's `Consistent` state) and ends in
  exactly the state the matching `IpcSpec` function gives. `OnEvent` loops
  over the listeners. `GenerateID` is the retry loop.

The channel is represented by the outbox (what the object posts) and by
direct calls to `OnCallResult`, `OnCall` and `OnEvent` (what the channel
delivers). A handler's behaviour is a parameter
`run: (HandlerId, seq<Value>) -> Outcome`. `Outcome` is either the returned
value or what was thrown: an `Error` with its message, a string, or any
other value.

The error of a result is one optional string (src/interfaces/call.ts:16).
An absent `args` is spread as it is (src/ipc.ts:44, 59); see "## Left out".

## Model

| member | source | states |
|---|---|---|
| Ipc.NodejsMobileIPC.constructor | src/ipc.ts:14-23 | a new object has no handlers, no listeners, no pending calls, has posted nothing, and satisfies the exactly-once invariant |
| Ipc.NodejsMobileIPC.OnCallResult | src/ipc.ts:25-36 | the new state is exactly `IpcSpec.OnCallResult` of the old one, and the exactly-once invariant is kept |
| Ipc.NodejsMobileIPC.OnEvent | src/ipc.ts:38-46 | the loop invokes the event's listeners one by one, and the new state is exactly `IpcSpec.OnEvent` of the old one |
| Ipc.NodejsMobileIPC.OnCall | src/ipc.ts:48-79 | the new state is exactly `IpcSpec.OnCall` of the old one: at most one handler invocation and one posted result |
| Ipc.NodejsMobileIPC.Call | src/ipc.ts:81-92 | the returned id was not pending and is below MAX_SAFE_INTEGER; the new state is `IpcSpec.Call` with that id |
| Ipc.NodejsMobileIPC.Emit | src/ipc.ts:94-100 | the new state is `IpcSpec.Emit` of the old one |
| Ipc.NodejsMobileIPC.Register | src/ipc.ts:102-104 | the new state is `IpcSpec.Register` of the old one |
| Ipc.NodejsMobileIPC.On | src/ipc.ts:106-112 | creating the list when absent and pushing gives exactly `IpcSpec.On` of the old state |
| Ipc.NodejsMobileIPC.GenerateID | src/ipc.ts:114-120 | returns the first draw that is not a pending id; it is below MAX_SAFE_INTEGER and not a key of `pendingCalls` |
| IpcSpec.UnknownResultIgnored | src/ipc.ts:26-28 | a result changes the state if and only if its id is pending; otherwise no entry is removed and no callback is invoked |
| IpcSpec.ResultSettlesItsEntry | src/ipc.ts:29-35 | a result for a pending id removes exactly that entry and keeps all others. It invokes exactly one callback: the resolver with `data` for `ok`, otherwise the rejecter with `error`. Nothing is posted |
| IpcSpec.DuplicateResultIgnored | src/ipc.ts:26-30 | a second result with the same id is a no-op |
| IpcSpec.CallThenResult | src/ipc.ts:29-35 | a call followed by its own result restores the pending map and settles that call's own promise |
| IpcSpec.OneResultSettlements | src/ipc.ts:26-35 | any one result removes its id from the pending map, if present, and settles only that id, through the pair stored for it |
| IpcSpec.DeliverAllSettlesOnce | src/ipc.ts:25-36 | for any sequence of results, including duplicates and unknown ids, the named entries are removed. Each pending id is settled exactly once, with the first result carrying it, through its stored pair |
| IpcSpec.ArrivalOrderIrrelevant | src/ipc.ts:25-36 | results for distinct ids leave the same pending map and the same settlements per id in any arrival order |
| IpcSpec.UnknownFunctionAnswered | src/ipc.ts:49-56 | a request for an unregistered function invokes no handler. It posts exactly one error result with the same id and the message "Function <fn> does not exist!" |
| IpcSpec.RegisteredFunctionAnswered | src/ipc.ts:58-78 | a request for a registered function invokes its handler once with the request's args and posts exactly one result with the same id. The result is `ok` with the returned value; for a throw it is `error` with an Error's message, a thrown string, or "Unknown Error" |
| IpcSpec.RegisterOverwrites | src/ipc.ts:102-104 | `register` sets the name's handler, replacing any earlier one, and leaves all other names and state unchanged |
| IpcSpec.ReRegisterReplaces | src/ipc.ts:102-104 | after a second `register` under a name, a request for it invokes only the new handler |
| IpcSpec.OnAllAppends | src/ipc.ts:106-112 | registering listeners appends them in order to the event's list (empty if absent); other events and state are unchanged |
| IpcSpec.InvocationsInOrder | src/ipc.ts:43-45 | the invocations are the listeners in list order, each with the same args |
| IpcSpec.OnEventInvokesListeners | src/ipc.ts:38-46 | an event without a list changes nothing; otherwise exactly its listeners are invoked in order and nothing else changes |
| IpcSpec.ListenersCalledInRegistrationOrder | src/ipc.ts:38-46 | after listeners are registered for an event, its arrival invokes every listener, in registration order, with the event's args |
| IpcSpec.EmitOnlyPosts | src/ipc.ts:94-100 | `emit` posts one `ipc:event` message `{event, args}` and changes no map and invokes nothing |
| IpcSpec.CallRecordsPending | src/ipc.ts:81-91 | `call` with a fresh id adds exactly that key with its promise and keeps every other entry. It posts exactly one `ipc:call` message `{id, fn, args}` |
| IpcSpec.StaysPending | src/ipc.ts:26-30 | an id entered by `call` stays pending, whatever other steps follow, until a result carrying that id is delivered |
| IpcSpec.PendingIdNotReissued | src/ipc.ts:114-120 | in any admissible history, a later `call` never gets the id of an earlier call whose result has not yet been delivered, whatever runs in between |
| IpcSpec.CallKeepsConsistent | src/ipc.ts:81-91 | `call` with a generated id keeps the exactly-once invariant |
| IpcSpec.OnCallResultKeepsConsistent | src/ipc.ts:25-36 | settling a result keeps the exactly-once invariant |
| IpcSpec.OnCallKeepsConsistent | src/ipc.ts:48-79 | answering a request keeps the exactly-once invariant |
| IpcSpec.OnEventKeepsConsistent | src/ipc.ts:38-46 | delivering an event keeps the exactly-once invariant |
| IpcSpec.EmitKeepsConsistent | src/ipc.ts:94-100 | emitting keeps the exactly-once invariant |
| IpcSpec.NextKeepsConsistent | src/ipc.ts:14-121 | every operation keeps the exactly-once invariant |
| IpcSpec.ReachableIsConsistent | src/ipc.ts:14-121 | in every state reachable from a new object, each issued call has been settled at most once. It is settled exactly when it is no longer pending, and every pending id is below MAX_SAFE_INTEGER |

## Left out

- The channel transport (`IPCChannel`): src/interfaces/channel.ts is not part of this model. `post` appends to `outbox`, and the subscriptions made by the constructor are direct calls to the `On*` methods.
- Promise and async scheduling: one handler invocation is one atomic step yielding a value or a throw. Suspended handlers interleaving with other deliveries are not modelled.
- The promise that `call` returns: it is represented by its resolve/reject pair, passed in as `promise`. `Call` returns the id of the pending entry instead of the promise.
- Ipc.NodejsMobileIPC.GenerateID: `Math.random` and the floating-point multiply are replaced by a stream of arbitrary naturals `rand`, reduced modulo MAX_SAFE_INTEGER. The method (and `Call`) requires that some draw is not a pending id. With such a draw the loop ends; the source's loop has no such bound and ends only with probability one.
- An absent `args` field: the model always carries an argument list. In the source, spreading `undefined` throws inside `onCall`'s `try`, and out of `onEvent`.
- Re-entrancy: handlers and listeners are identities that do not call back into the object. A listener that calls `on` while `onEvent` iterates the live array is not modelled.
- A listener that throws: the exception leaves `onEvent` and stops the loop; not modelled.
- A result whose `status` is neither `'ok'` nor `'error'`: the wire type has only the two shapes. The source invokes the pending call's rejecter with the result's `error` field for such a result (src/ipc.ts:33-34).
- An `Error` whose `message` is not a string, and ids that are not non-negative integers, are outside the typed wire shapes the model uses.
- The contents of `args`, `data` and thrown non-error values are opaque.
