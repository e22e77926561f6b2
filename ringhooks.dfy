/** The ring-queue hook store shared by the two single-fiber `useState`
    demos: a hook list built on mount and walked on update, each hook owning a
    queue whose pending updates form a ring through `next`, `pending` being
    the newest update and `pending.next` the oldest. */
module RingHooks {
  import opened Elements
  import opened Hooks

  /** An update record `{action, next}`; `owner` is the queue it joined
      and `idx` its place in that queue's ring, counted from the oldest. */
  class Update {
    const action: Action
    var next: Update?
    ghost const owner: Queue
    ghost const idx: nat

    constructor (action: Action, ghost owner: Queue, ghost idx: nat)
      ensures this.action == action && this.owner == owner && this.idx == idx && next == null
    {
      this.action := action;
      this.owner := owner;
      this.idx := idx;
      next := null;
    }
  }

  /** A queue `{pending}`; `items` lists its ring oldest first. */
  class Queue {
    var pending: Update?
    ghost var items: seq<Update>
    /** The place of the owning hook in its hook list. */
    ghost const slot: nat

    /** The tail-pointer ring invariant: `pending` is the last item, every
        item's `next` is the item after it, the last wrapping round to the
        first, and each item occurs once and belongs to this queue. */
    ghost predicate Valid()
      reads this, items
    {
      (pending == null <==> |items| == 0) &&
      (|items| > 0 ==> pending == items[|items| - 1]) &&
      (forall i :: 0 <= i < |items| ==> items[i].owner == this && items[i].idx == i) &&
      (forall i {:trigger items[i].next} :: 0 <= i < |items| - 1 ==> items[i].next == items[i + 1]) &&
      (|items| > 0 ==> items[|items| - 1].next == items[0])
    }

    /** The queued actions in enqueue order. */
    ghost function Actions(): (r: seq<Action>)
      reads this
      ensures |r| == |items| && forall i :: 0 <= i < |items| ==> r[i] == items[i].action
    {
      seq(|items|, i requires 0 <= i < |items| reads this => items[i].action)
    }

    /** `{pending: null}`. */
    constructor (ghost slot: nat)
      ensures Valid() && pending == null && items == [] && this.slot == slot
    {
      pending := null;
      items := [];
      this.slot := slot;
    }

    /** The splice of `dispatchAction`: a fresh update carrying `action`
        closes a ring on itself when the queue is empty, otherwise goes in
        after `pending`; either way it becomes `pending`, so it is the newest
        item and `pending.next` is still the oldest. */
    method Enqueue(action: Action) returns (u: Update)
      requires Valid()
      modifies this, pending
      ensures Valid() && fresh(u) && u.action == action
      ensures items == old(items) + [u] && Actions() == old(Actions()) + [action]
      ensures pending == u && pending.next == items[0]
    {
      u := new Update(action, this, |items|);
      if pending == null {
        u.next := u;
      } else {
        u.next := pending.next;
        pending.next := u;
      }
      pending := u;
      items := items + [u];
    }

    /** The fold of `useState`: starting at `pending.next` and going once
        round the ring, every action is applied to `s` in enqueue order;
        then `pending` is cleared. */
    method Drain(s: State) returns (r: State)
      requires Valid()
      modifies this
      ensures Valid() && pending == null && items == []
      ensures r == Fold(old(Actions()), s)
    {
      r := s;
      if pending != null {
        ghost var n := |items|;
        ghost var A := Actions();
        var u := pending.next;
        ghost var i := 0;
        var looping := true;
        while looping
          invariant 0 <= i <= n && u == items[if i < n then i else 0] && r == Fold(A[..i], s)
          invariant looping <==> i < n
          decreases n - i
        {
          r := u.action(r);
          assert A[..i + 1][..i] == A[..i];
          u := u.next;
          i := i + 1;
          looping := u != pending.next;
        }
        assert A[..i] == A;
        pending := null;
        items := [];
      }
    }
  }

  /** A hook record `{memoizedState, queue}`; its queue is its own for life. */
  datatype Cell = Cell(memoizedState: State, queue: Queue)

  /** The hooks a mount render creates for `useState` calls carrying
      `initials`: each holds its initial state and nothing queued. */
  function Fresh(initials: seq<State>): (hs: seq<Hook>)
    ensures |hs| == |initials| && forall i :: 0 <= i < |initials| ==> hs[i] == Hook(initials[i], [])
  {
    seq(|initials|, i requires 0 <= i < |initials| => Hook(initials[i], []))
  }

  /** What a hook shows when an update render takes it: its queue folded
      over its state. */
  function Shown(h: Hook): State
  {
    Fold(h.queue, h.state)
  }

  /** The outcome of a render: whether it ran to the end, the states its
      `useState` calls returned, and the hooks afterwards. */
  datatype Rendering = Rendering(ok: bool, states: seq<State>, view: seq<Hook>)

  /** One render of a component whose `useState` calls carry `initials`,
      on the store as values: on mount each call appends a fresh hook and
      returns its initial state; on update the calls take the hooks in
      list order. */
  function Render(view: seq<Hook>, mounted: bool, initials: seq<State>): (r: Rendering)
  {
    if mounted then Rendering(true, initials, view + Fresh(initials)) else Rerender(view, |initials|)
  }

  /** An update render making `calls` `useState` calls, one after
      another: the `k`-th call takes the `k`-th hook, returns what it shows
      and leaves it holding that with nothing queued; a call past the last
      hook finds a null cursor and throws, which ends the render. */
  function Rerender(view: seq<Hook>, calls: nat): (r: Rendering)
    ensures r.ok <==> calls <= |view|
    ensures |r.states| == (if r.ok then calls else |view|) && |r.view| == |view|
    ensures forall j :: 0 <= j < |r.states| ==> r.states[j] == Shown(view[j])
    ensures forall j :: 0 <= j < |view| ==>
      r.view[j] == if j < |r.states| then Hook(Shown(view[j]), []) else view[j]
  {
    if calls == 0 then Rendering(true, [], view)
    else
      var r := Rerender(view, calls - 1);
      var k := calls - 1;
      if !r.ok then r
      else if k < |view| then
        Rendering(true, r.states + [Shown(view[k])], r.view[k := Hook(Shown(view[k]), [])])
      else Rendering(false, r.states, r.view)
  }

  /** The store as values after `dispatchAction` on the queue of hook `k`:
      the action joins the end of that hook's queue. */
  function Dispatched(view: seq<Hook>, k: nat, action: Action): (v: seq<Hook>)
    requires k < |view|
    ensures |v| == |view| && v[k].state == view[k].state && v[k].queue == view[k].queue + [action]
    ensures forall j :: 0 <= j < |view| && j != k ==> v[j] == view[j]
  {
    view[k := Hook(view[k].state, view[k].queue + [action])]
  }

  /** Once an update render has thrown, later calls change nothing: it
      has stopped. */
  lemma {:induction false} RerenderFails(view: seq<Hook>, n: nat, calls: nat)
    requires n <= calls && !Rerender(view, n).ok
    ensures Rerender(view, calls) == Rerender(view, n)
    decreases calls - n
  {
    if n < calls {
      RerenderFails(view, n, calls - 1);
    }
  }

  /** A render with nothing dispatched since the last one shows the same
      states and leaves the hooks as they were. */
  lemma RerenderStable(view: seq<Hook>, calls: nat)
    requires calls == |view|
    ensures Rerender(Rerender(view, calls).view, calls) == Rerender(view, calls)
  {
    var r := Rerender(view, calls);
    var r2 := Rerender(r.view, calls);
    assert r2.states == r.states;
    assert r2.view == r.view;
  }

  /** After `dispatchAction(queue, action)` on the queue of hook `k`, the
      next render shows that hook's previous value with `action` applied
      last, and every other hook as it would have. */
  lemma DispatchThenRender(view: seq<Hook>, k: nat, action: Action, calls: nat)
    requires k < calls <= |view|
    ensures Rerender(Dispatched(view, k, action), calls).states[k] == action(Rerender(view, calls).states[k])
    ensures forall j :: 0 <= j < calls && j != k ==>
      Rerender(Dispatched(view, k, action), calls).states[j] == Rerender(view, calls).states[j]
  {
    var q := view[k].queue;
    assert (q + [action])[..|q|] == q;
  }

  /** The fiber's hook store: `cells` is the hook list from its head
      `memoizedState` along the `next` links, `cursor` is
      `workInProgressHook` as a place in that list (`None` for null) and
      `isMounted` the mount flag; `view` is the list as values and
      `updates` holds every queued update. */
  class HookStore {
    var cells: seq<Cell>
    var cursor: Option<nat>
    var isMounted: bool
    ghost var view: seq<Hook>
    ghost var updates: set<Update>

    /** The hooks' queues, in list order. */
    ghost function Queues(): (qs: seq<Queue>)
      reads this
      ensures |qs| == |cells| && forall i :: 0 <= i < |cells| ==> qs[i] == cells[i].queue
    {
      var cs := cells;
      seq(|cs|, i requires 0 <= i < |cs| => cs[i].queue)
    }

    /** Every queue knows its hook's place, keeps the ring invariant, and
        has its updates in `updates`. */
    ghost predicate Rings()
      reads this, Queues(), updates
    {
      (forall i :: 0 <= i < |cells| ==> cells[i].queue.slot == i) &&
      (forall i, j :: 0 <= i < |cells| && 0 <= j < |cells[i].queue.items| ==> cells[i].queue.items[j] in updates) &&
      (forall i {:trigger cells[i].queue.Valid()} :: 0 <= i < |cells| ==> cells[i].queue.Valid())
    }

    /** `view` holds each hook's state and its queue's actions. */
    ghost predicate Viewed()
      reads this, Queues()
    {
      |view| == |cells| &&
      (forall i {:trigger view[i]} :: 0 <= i < |cells| ==>
        view[i] == Hook(cells[i].memoizedState, cells[i].queue.Actions()))
    }

    /** While mounting the cursor is the last hook; otherwise it is a hook
        of the list or null. */
    ghost predicate Placed()
      reads this
    {
      (isMounted ==> cursor == if |cells| > 0 then Some(|cells| - 1) else None) &&
      (cursor.Some? ==> cursor.value < |cells|)
    }

    /** The store invariant. */
    ghost predicate Valid()
      reads this, Queues(), updates
    {
      Rings() && Viewed() && Placed()
    }

    /** Between renders: valid, and nothing is mounted before the first one. */
    ghost predicate Ready()
      reads this, Queues(), updates
    {
      Valid() && (isMounted ==> cells == [])
    }

    /** The module's initial state: no hooks yet, mounting. */
    constructor ()
      ensures Ready() && isMounted && cells == [] && view == []
    {
      cells := [];
      cursor := None;
      isMounted := true;
      view := [];
      updates := {};
    }

    /** `useState(initialState)`. On mount a fresh hook with the initial
        state and an empty queue joins the end of the list (as its head
        when the list is empty) and becomes the cursor; on update the
        cursor's hook is taken and the cursor moves to its `next`, and a
        null cursor throws (`ok` false, nothing changes). The taken hook's
        queue is then folded over its state, which it keeps; its queue is
        the setter. */
    method UseState(initialState: State) returns (ok: bool, state: State, queue: Queue?)
      requires Valid()
      modifies this, Queues()
      ensures Valid() && isMounted == old(isMounted) && updates == old(updates)
      ensures old(isMounted) ==> (ok && state == initialState && fresh(queue) &&
        view == old(view) + [Hook(initialState, [])] && Queues() == old(Queues()) + [queue])
      ensures !old(isMounted) ==> Queues() == old(Queues()) && ok == old(cursor).Some?
      ensures !old(isMounted) && ok ==> (
        var k := old(cursor).value;
        state == Shown(old(view)[k]) && view == old(view)[k := Hook(state, [])] &&
        queue == cells[k].queue && cursor == if k + 1 < |cells| then Some(k + 1) else None)
      ensures !ok ==> view == old(view) && cursor == old(cursor) && queue == null
    {
      var k: nat;
      if isMounted {
        queue := Mount(initialState);
        k := |cells| - 1;
      } else {
        if cursor == None {
          return false, initialState, null;
        }
        k := cursor.value;
        cursor := if k + 1 < |cells| then Some(k + 1) else None;
        queue := cells[k].queue;
      }
      ok := true;
      state := Settle(k);
    }

    /** The mount path of `useState`: a fresh hook joins the end of the
        list and becomes the cursor. */
    method Mount(initialState: State) returns (queue: Queue)
      requires Valid() && isMounted
      modifies this
      ensures Valid() && isMounted && updates == old(updates) && fresh(queue)
      ensures cells == old(cells) + [Cell(initialState, queue)] && view == old(view) + [Hook(initialState, [])]
    {
      queue := new Queue(|cells|);
      cells := cells + [Cell(initialState, queue)];
      cursor := Some(|cells| - 1);
      view := view + [Hook(initialState, [])];
      Appended();
    }

    /** The common tail of `useState`: the hook at place `k` folds its
        queue over its state and keeps the result. */
    method Settle(k: nat) returns (state: State)
      requires Valid() && k < |cells|
      modifies this, cells[k].queue
      ensures Valid() && cursor == old(cursor) && isMounted == old(isMounted) && updates == old(updates)
      ensures cells == old(cells)[k := Cell(state, old(cells)[k].queue)]
      ensures state == Shown(old(view)[k]) && view == old(view)[k := Hook(state, [])]
    {
      var c := cells[k];
      state := c.queue.Drain(c.memoizedState);
      cells := cells[k := c.(memoizedState := state)];
      view := view[k := Hook(state, [])];
      RingsKept(k);
      ViewedKept(k);
    }

    /** The splice of `dispatchAction` on the queue of one of the store's
        hooks: the action joins the end of that hook's queue. */
    method Push(queue: Queue, action: Action)
      requires Valid() && queue in Queues()
      modifies this`view, this`updates, queue, queue.pending
      ensures Valid() && queue.slot < |cells| && cells[queue.slot].queue == queue
      ensures cells == old(cells) && cursor == old(cursor) && isMounted == old(isMounted)
      ensures view == Dispatched(old(view), queue.slot, action)
    {
      ghost var k := queue.slot;
      assert cells[k].queue == queue && cells[k].queue.Valid();
      assert queue.pending == null || queue.pending.owner == queue;
      var u := queue.Enqueue(action);
      updates := updates + {u};
      view := Dispatched(view, k, action);
      RingsPushed(k);
      ViewedKept(k);
      assert Placed();
    }

    /** `workInProgressHook = fiber.memoizedState`: the cursor goes back to
        the head of the list. */
    method Rewind()
      requires Ready()
      modifies this`cursor
      ensures Ready() && cursor == (if |cells| > 0 then Some(0) else None)
    {
      cursor := if |cells| > 0 then Some(0) else None;
    }

    /** `isMounted = false`: every later render is an update. */
    method EndMount()
      requires Valid()
      modifies this`isMounted
      ensures Ready() && !isMounted
    {
      isMounted := false;
    }

    /** What a step that drains only the queue at place `k` keeps of the
        ring invariant. */
    twostate lemma RingsKept(k: nat)
      requires old(Rings()) && k < |cells| && Queues() == old(Queues()) && updates == old(updates)
      requires unchanged(updates)
      requires forall i {:trigger cells[i]} :: 0 <= i < |cells| && i != k ==> unchanged(cells[i].queue)
      requires cells[k].queue.Valid() && cells[k].queue.items == []
      ensures Rings()
    {
    }

    /** What a step that changes only the hook at place `k` and its queue
        keeps of the view, given that the view's entry `k` is brought up to
        date. */
    twostate lemma ViewedKept(k: nat)
      requires old(Viewed()) && k < |cells| && |cells| == |old(cells)| && |view| == |cells|
      requires forall i {:trigger cells[i]} :: 0 <= i < |cells| && i != k ==>
        cells[i] == old(cells[i]) && unchanged(cells[i].queue) && view[i] == old(view[i])
      requires view[k] == Hook(cells[k].memoizedState, cells[k].queue.Actions())
      ensures Viewed()
    {
    }

    /** What appending a hook with a fresh, empty queue keeps of the ring
        invariant and the view. */
    twostate lemma Appended()
      requires old(Rings()) && old(Viewed()) && |cells| == |old(cells)| + 1 && updates == old(updates)
      requires unchanged(updates)
      requires forall i {:trigger cells[i]} :: 0 <= i < |old(cells)| ==> cells[i] == old(cells[i]) && unchanged(cells[i].queue)
      requires cells[|cells| - 1].queue.slot == |cells| - 1 && cells[|cells| - 1].queue.Valid() && cells[|cells| - 1].queue.items == []
      requires view == old(view) + [Hook(cells[|cells| - 1].memoizedState, [])]
      ensures Rings() && Viewed()
    {
    }

    /** What a splice into the queue at place `k` keeps of the ring
        invariant. */
    twostate lemma RingsPushed(k: nat)
      requires old(Rings()) && k < |cells| && Queues() == old(Queues()) && old(updates) <= updates
      requires forall i {:trigger cells[i]} :: 0 <= i < |cells| && i != k ==> unchanged(cells[i].queue)
      requires forall u :: u in old(updates) && u.owner != cells[k].queue ==> unchanged(u)
      requires cells[k].queue.Valid()
      requires forall j :: 0 <= j < |cells[k].queue.items| ==> cells[k].queue.items[j] in updates
      ensures Rings()
    {
    }
  }
}
