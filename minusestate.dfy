/** The single-fiber `useState` of min-useState/index.js: one fiber whose
    component calls `useState` in a fixed order, re-rendered by `schedule`
    after every `dispatchAction`. The component is modelled by the initial
    states its `useState` calls pass, in call order. */
module MinUseState {
  import opened Elements
  import opened Hooks
  import opened RingHooks

  /** `schedule()`: the cursor goes back to the head of the hook list, the
      component runs, and `isMounted` becomes false. A `useState` call that
      finds a null cursor throws: the render stops there and `isMounted`
      keeps its value. `states` are the values the calls returned. */
  method Schedule(store: HookStore, initials: seq<State>) returns (ok: bool, states: seq<State>)
    requires store.Ready()
    modifies store, store.Queues()
    ensures store.Ready() && !store.isMounted && store.updates == old(store.updates)
    ensures ok == Render(old(store.view), old(store.isMounted), initials).ok
    ensures states == Render(old(store.view), old(store.isMounted), initials).states
    ensures store.view == Render(old(store.view), old(store.isMounted), initials).view
    ensures old(store.isMounted) ==> forall q :: q in store.Queues() ==> fresh(q)
    ensures !old(store.isMounted) ==> store.Queues() == old(store.Queues())
  {
    store.Rewind();
    if store.isMounted {
      states := MountRender(store, initials);
      ok := true;
    } else {
      ok, states := UpdateRender(store, initials);
      if !ok {
        return;
      }
    }
    store.EndMount();
  }

  /** The component's first run: every `useState` call mounts a hook. */
  method MountRender(store: HookStore, initials: seq<State>) returns (states: seq<State>)
    requires store.Valid() && store.isMounted && store.cells == []
    modifies store
    ensures store.Valid() && store.isMounted && store.updates == old(store.updates)
    ensures states == initials && store.view == Fresh(initials)
    ensures forall j :: 0 <= j < |store.cells| ==> fresh(store.cells[j].queue)
  {
    states := [];
    var i := 0;
    while i < |initials|
      invariant 0 <= i <= |initials| && store.Valid() && store.isMounted
      invariant store.updates == old(store.updates)
      invariant states == initials[..i] && store.view == Fresh(initials[..i])
      invariant forall j :: 0 <= j < |store.cells| ==> fresh(store.cells[j].queue)
    {
      var _, state, _ := store.UseState(initials[i]);
      assert Fresh(initials[..i + 1]) == Fresh(initials[..i]) + [Hook(initials[i], [])];
      states := states + [state];
      i := i + 1;
    }
    assert initials[..i] == initials;
  }

  /** A later run: the `useState` calls take the hooks in list order, and
      one past the last hook throws. */
  method UpdateRender(store: HookStore, initials: seq<State>) returns (ok: bool, states: seq<State>)
    requires store.Valid() && !store.isMounted
    requires store.cursor == if |store.cells| > 0 then Some(0) else None
    modifies store, store.Queues()
    ensures store.Valid() && !store.isMounted && store.updates == old(store.updates)
    ensures store.Queues() == old(store.Queues())
    ensures Rerender(old(store.view), |initials|) == Rendering(ok, states, store.view)
  {
    ghost var V := store.view;
    ghost var Q := store.Queues();
    states := [];
    ok := true;
    var i := 0;
    while i < |initials|
      invariant 0 <= i <= |initials| && i <= |V| && store.Valid() && !store.isMounted
      invariant store.updates == old(store.updates) && store.Queues() == Q
      invariant store.cursor == if i < |V| then Some(i) else None
      invariant Rerender(V, i) == Rendering(true, states, store.view)
    {
      var used, state, _ := store.UseState(initials[i]);
      if !used {
        ok := false;
        RerenderFails(V, i + 1, |initials|);
        return;
      }
      states := states + [state];
      i := i + 1;
    }
  }

  /** `dispatchAction(queue, action)`: the action is spliced into one of the
      store's queues, then `schedule()` renders again. */
  method DispatchAction(store: HookStore, queue: Queue, action: Action, initials: seq<State>)
    returns (ok: bool, states: seq<State>)
    requires store.Ready() && queue in store.Queues()
    modifies store, store.Queues(), queue.pending
    ensures store.Ready() && !store.isMounted && store.Queues() == old(store.Queues())
    ensures queue.slot < |old(store.view)|
    ensures ok == Rerender(Dispatched(old(store.view), queue.slot, action), |initials|).ok
    ensures states == Rerender(Dispatched(old(store.view), queue.slot, action), |initials|).states
    ensures store.view == Rerender(Dispatched(old(store.view), queue.slot, action), |initials|).view
  {
    store.Push(queue, action);
    ok, states := Schedule(store, initials);
  }
}
