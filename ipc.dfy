/**
 * The `NodejsMobileIPC` object: three maps updated in place, the channel's
 * `post` recorded as an outbox, and the callbacks it invokes recorded in
 * order. The channel's subscriptions are the calls a delivery makes to
 * `OnCallResult`, `OnCall` and `OnEvent`.
 */
module Ipc {
  import opened Wire
  import Spec = IpcSpec

  class NodejsMobileIPC {
    var callHandlers: map<string, HandlerId>
    var eventHandlers: map<string, seq<ListenerId>>
    var pendingCalls: map<nat, Spec.Completion>
    /** Every message posted on the channel, oldest first. */
    var outbox: seq<Post>
    /** Every resolver, rejecter, handler and listener invoked, oldest first. */
    var effects: seq<Spec.Effect>

    function Snapshot(): Spec.State
      reads this
    {
      Spec.State(callHandlers, eventHandlers, pendingCalls, outbox, effects)
    }

    /** Each issued call is settled at most once, and exactly when it is no longer pending. */
    ghost predicate Valid()
      reads this
    {
      Spec.Consistent(Snapshot())
    }

    constructor ()
      ensures Valid()
      ensures Snapshot() == Spec.Init()
    {
      callHandlers := map[];
      eventHandlers := map[];
      pendingCalls := map[];
      outbox := [];
      effects := [];
    }

    /** A `ipc:call-result` message arrives. */
    method OnCallResult(result: IPCCallResult)
      requires Valid()
      modifies this
      ensures Valid()
      ensures Snapshot() == Spec.OnCallResult(old(Snapshot()), result)
    {
      Spec.OnCallResultKeepsConsistent(Snapshot(), result);
      if result.id !in pendingCalls {
        return;
      }
      var call := pendingCalls[result.id];
      pendingCalls := pendingCalls - {result.id};
      match result
      case OK(id, data) =>
        effects := effects + [Spec.Resolved(id, call.resolve, data)];
      case Error(id, error) =>
        effects := effects + [Spec.Rejected(id, call.reject, error)];
    }

    /** A `ipc:event` message arrives. */
    method OnEvent(e: IPCEvent)
      requires Valid()
      modifies this
      ensures Valid()
      ensures Snapshot() == Spec.OnEvent(old(Snapshot()), e)
    {
      Spec.OnEventKeepsConsistent(Snapshot(), e);
      if e.event !in eventHandlers {
        return;
      }
      var handlers := eventHandlers[e.event];
      for i := 0 to |handlers|
        invariant callHandlers == old(callHandlers) && eventHandlers == old(eventHandlers)
        invariant pendingCalls == old(pendingCalls) && outbox == old(outbox)
        invariant effects == old(effects) + Spec.Invocations(handlers[..i], e.args)
      {
        assert handlers[..i + 1][..i] == handlers[..i];
        effects := effects + [Spec.ListenerCalled(handlers[i], e.args)];
      }
      assert handlers[..|handlers|] == handlers;
    }

    /**
     * A `ipc:call` message arrives. `run` gives the outcome of invoking a
     * handler, awaited to completion.
     */
    method OnCall(c: IPCCall, run: Spec.Behaviour)
      requires Valid()
      modifies this
      ensures Valid()
      ensures Snapshot() == Spec.OnCall(old(Snapshot()), c, run)
    {
      Spec.OnCallKeepsConsistent(Snapshot(), c, run);
      if c.fn !in callHandlers {
        var result := Error(c.id, Some(Spec.UnknownFunctionMessage(c.fn)));
        outbox := outbox + [ResultPost(result)];
        return;
      }
      var handler := callHandlers[c.fn];
      effects := effects + [Spec.HandlerCalled(handler, c.args)];
      var result;
      match run(handler, c.args) {
        case Returned(data) =>
          result := OK(c.id, data);
        case Threw(e) =>
          result := Error(c.id, Some(Spec.ErrorMessage(e)));
      }
      outbox := outbox + [ResultPost(result)];
    }

    /**
     * `call(fn, ...args)`. `promise` is the resolve/reject pair of the promise
     * the call returns and `rand` the sequence of random draws; the id that
     * names the pending entry is returned.
     */
    method Call(fn: string, args: seq<Value>, promise: Spec.Completion, rand: nat -> nat) returns (id: nat)
      requires Valid()
      requires exists i: nat :: Spec.Draw(rand, i) !in pendingCalls
      modifies this
      ensures Valid()
      ensures id !in old(pendingCalls) && id < Spec.MaxSafeInteger
      ensures Snapshot() == Spec.Call(old(Snapshot()), id, fn, args, promise)
    {
      id := GenerateID(rand);
      Spec.CallKeepsConsistent(Snapshot(), id, fn, args, promise);
      pendingCalls := pendingCalls[id := promise];
      var call := IPCCall(id, fn, args);
      outbox := outbox + [CallPost(call)];
    }

    method Emit(event: string, args: seq<Value>)
      requires Valid()
      modifies this
      ensures Valid()
      ensures Snapshot() == Spec.Emit(old(Snapshot()), event, args)
    {
      Spec.EmitKeepsConsistent(Snapshot(), event, args);
      var e := IPCEvent(event, args);
      outbox := outbox + [EventPost(e)];
    }

    method Register(fn: string, handler: HandlerId)
      requires Valid()
      modifies this
      ensures Valid()
      ensures Snapshot() == Spec.Register(old(Snapshot()), fn, handler)
    {
      callHandlers := callHandlers[fn := handler];
    }

    method On(event: string, handler: ListenerId)
      requires Valid()
      modifies this
      ensures Valid()
      ensures Snapshot() == Spec.On(old(Snapshot()), event, handler)
    {
      if event !in eventHandlers {
        eventHandlers := eventHandlers[event := []];
      }
      var handlers := eventHandlers[event];
      eventHandlers := eventHandlers[event := handlers + [handler]];
    }

    /**
     * Draws until a draw is not a pending id, and returns the first such
     * draw. Terminates when some draw is unused.
     */
    method GenerateID(rand: nat -> nat) returns (id: nat)
      requires exists i: nat :: Spec.Draw(rand, i) !in pendingCalls
      ensures id !in pendingCalls && id < Spec.MaxSafeInteger
      ensures exists n: nat :: id == Spec.Draw(rand, n) &&
                forall j :: 0 <= j < n ==> Spec.Draw(rand, j) in pendingCalls
    {
      ghost var unused: nat :| Spec.Draw(rand, unused) !in pendingCalls;
      var i := 0;
      id := Spec.Draw(rand, i);
      while id in pendingCalls
        invariant i <= unused
        invariant id == Spec.Draw(rand, i)
        invariant forall j :: 0 <= j < i ==> Spec.Draw(rand, j) in pendingCalls
        decreases unused - i
      {
        i := i + 1;
        id := Spec.Draw(rand, i);
      }
    }
  }
}
