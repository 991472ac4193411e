/**
 * xxx::redux: an action value and a store that applies a reducer to its
 * state on dispatch and then calls its listeners in registration order.
 * Listeners are opaque values; a call is recorded as (listener, state,
 * action) in the store's trace of calls. The shared mutex is not modelled.
 */
module Redux {
  import opened Wrappers

  /** action<Id>: an id and an option (the std::any, empty or holding a value of type P). */
  datatype Action<Id, P> = Action(id: Id, option: Option<P>)

  /** action(): the value-initialised id of an integral Id, and no option. */
  function DefaultAction<P>(): (a: Action<int, P>)
    ensures a.id == 0 && a.option.None?
  {
    Action(0, None)
  }

  /** action(id): the id, and no option. */
  function ActionOf<Id, P>(id: Id): (a: Action<Id, P>)
    ensures a.id == id && a.option.None?
  {
    Action(id, None)
  }

  /** action(id, option): the id and the option. */
  function ActionWith<Id, P>(id: Id, option: P): (a: Action<Id, P>)
    ensures a.id == id && a.option == Some(option)
  {
    Action(id, Some(option))
  }

  /** std::invalid_argument. */
  datatype StoreError = InvalidArgument

  /** One call of a listener, with the state and the action it was given. */
  datatype Call<L, S, A> = Call(listener: L, state: S, action: A)

  /** The calls dispatch makes: each listener, in order, with the same state and action. */
  function Calls<L, S, A>(listeners: seq<L>, state: S, action: A): seq<Call<L, S, A>>
    decreases |listeners|
  {
    if listeners == [] then []
    else [Call(listeners[0], state, action)] + Calls(listeners[1..], state, action)
  }

  /** Each registered listener is called exactly once, in registration order, with the new state and the action. */
  lemma {:induction false} CallsInOrder<L, S, A>(listeners: seq<L>, state: S, action: A)
    ensures |Calls(listeners, state, action)| == |listeners|
    ensures forall i :: 0 <= i < |listeners| ==> Calls(listeners, state, action)[i] == Call(listeners[i], state, action)
    decreases |listeners|
  {
    if listeners != [] {
      CallsInOrder(listeners[1..], state, action);
    }
  }

  /** The calls for a list of listeners followed by one more. */
  lemma {:induction false} CallsAppend<L, S, A>(listeners: seq<L>, l: L, state: S, action: A)
    ensures Calls(listeners + [l], state, action) == Calls(listeners, state, action) + [Call(l, state, action)]
    decreases |listeners|
  {
    if listeners != [] {
      assert (listeners + [l])[1..] == listeners[1..] + [l];
      CallsAppend(listeners[1..], l, state, action);
    }
  }

  /** store<State, Action>, with listeners of type L. */
  class Store<S, A, L> {
    var state: S
    const reducer: (S, A) -> S
    var listeners: seq<L>
    /** The listener calls made so far, oldest first. */
    var calls: seq<Call<L, S, A>>

    constructor Init(state: S, reducer: (S, A) -> S)
      ensures this.state == state && this.reducer == reducer
      ensures listeners == [] && calls == []
    {
      this.state := state;
      this.reducer := reducer;
      listeners := [];
      calls := [];
    }

    /**
     * store(state, reducer): invalid_argument when the state converts to
     * false (truthy gives State's conversion to bool).
     */
    static method Create(state: S, reducer: (S, A) -> S, truthy: S -> bool) returns (r: Result<Store<S, A, L>, StoreError>)
      ensures r.Failure? <==> !truthy(state)
      ensures r.Failure? ==> r.error == InvalidArgument
      ensures r.Success? ==>
        && fresh(r.value)
        && r.value.state == state && r.value.reducer == reducer
        && r.value.listeners == [] && r.value.calls == []
    {
      var s := new Store.Init(state, reducer);
      if !truthy(s.state) {
        return Failure(InvalidArgument);
      }
      return Success(s);
    }

    /** state(functor): the functor sees the current state; nothing changes. */
    method Observe<R>(functor: S -> R) returns (r: R)
      ensures r == functor(state)
    {
      r := functor(state);
    }

    /** dispatch(action): reduce, then call every listener with the new state. */
    method Dispatch(action: A)
      modifies this
      ensures state == reducer(old(state), action)
      ensures listeners == old(listeners)
      ensures calls == old(calls) + Calls(listeners, state, action)
    {
      state := reducer(state, action);
      for i := 0 to |listeners|
        invariant listeners == old(listeners) && state == reducer(old(state), action)
        invariant calls == old(calls) + Calls(listeners[..i], state, action)
      {
        calls := calls + [Call(listeners[i], state, action)];
        assert listeners[..i + 1] == listeners[..i] + [listeners[i]];
        CallsAppend(listeners[..i], listeners[i], state, action);
      }
      assert listeners[..|listeners|] == listeners;
    }

    /** add_listener(listener): appended; the state is unchanged. */
    method AddListener(listener: L)
      modifies this
      ensures listeners == old(listeners) + [listener]
      ensures state == old(state) && calls == old(calls)
    {
      listeners := listeners + [listener];
    }

    /** clear_listeners(): none left; the state is unchanged. */
    method ClearListeners()
      modifies this
      ensures listeners == []
      ensures state == old(state) && calls == old(calls)
    {
      listeners := [];
    }
  }
}
