/** The demo of mini-useState/add_commit.js: the same ring-queue hook store
    driving `App`, a component with one `useState(0)` whose click handler
    calls `setNum(i => i + 1)`; every render is committed to the page.
    `page` lists the values committed to `#container`, oldest first. */
module MiniUseState {
  import opened Elements
  import opened Hooks
  import opened RingHooks

  /** `schedule()`: the cursor goes back to the head of the hook list,
      `App` runs (its one `useState(0)` giving `num` and the setter's queue
      `setNum`), `commit(app.num)` puts `num` on the page and `isMounted`
      becomes false. A `useState` call that finds a null cursor throws
      before anything is committed. */
  method Schedule(store: HookStore, page: seq<State>) returns (ok: bool, num: State, setNum: Queue?, page': seq<State>)
    requires store.Ready()
    modifies store, store.Queues()
    ensures store.Ready() && store.updates == old(store.updates)
    ensures ok == Render(old(store.view), old(store.isMounted), [0]).ok
    ensures store.view == Render(old(store.view), old(store.isMounted), [0]).view
    ensures ok ==> (!store.isMounted && [num] == Render(old(store.view), old(store.isMounted), [0]).states &&
      page' == page + [num] && setNum == store.cells[0].queue)
    ensures !ok ==> page' == page
    ensures old(store.isMounted) ==> |store.cells| == 1 && fresh(setNum)
    ensures !old(store.isMounted) ==> store.Queues() == old(store.Queues())
  {
    store.Rewind();
    ok, num, setNum := store.UseState(0);
    if !ok {
      page' := page;
      return;
    }
    page' := page + [num];
    store.EndMount();
  }

  /** `dispatchAction(queue, action)`: the splice into one of the store's
      queues, then `schedule()`. `App` has a hook, so the render succeeds. */
  method DispatchAction(store: HookStore, queue: Queue, action: Action, page: seq<State>)
    returns (num: State, setNum: Queue, page': seq<State>)
    requires store.Ready() && queue in store.Queues()
    modifies store, store.Queues(), queue.pending
    ensures store.Ready() && !store.isMounted && store.Queues() == old(store.Queues())
    ensures queue.slot < |old(store.view)| && setNum == store.cells[0].queue
    ensures [num] == Rerender(Dispatched(old(store.view), queue.slot, action), 1).states
    ensures store.view == Rerender(Dispatched(old(store.view), queue.slot, action), 1).view
    ensures page' == page + [num]
  {
    store.Push(queue, action);
    var ok, n, q, p := Schedule(store, page);
    num, setNum, page' := n, q, p;
  }

  /** The numbers `0, 1, ..., n - 1`. */
  function Counting(n: nat): (r: seq<State>)
    ensures |r| == n && forall j :: 0 <= j < n ==> r[j] == j
  {
    seq(n, j requires 0 <= j < n => j)
  }

  /** One click on a page showing `n`: the update `i => i + 1` joins the
      hook's queue, and the render shows `n + 1`, leaving nothing queued. */
  lemma OneClick(n: State)
    ensures Rerender(Dispatched([Hook(n, [])], 0, Inc), 1) == Rendering(true, [n + 1], [Hook(n + 1, [])])
  {
    var q: seq<Action> := [Inc];
    assert [] + q == q;
    var v := Dispatched([Hook(n, [])], 0, Inc);
    assert v[0] == Hook(n, q);
    assert v == [Hook(n, q)];
    assert q[..0] == [];
    assert Fold(q, n) == n + 1;
    assert Shown(v[0]) == n + 1;
    assert Rerender(v, 0) == Rendering(true, [], v);
  }

  /** `app.click()`: `setNum(i => i + 1)` on a page showing `n`, which then
      shows `n + 1`. */
  method Click(store: HookStore, setNum: Queue, page: seq<State>, ghost n: State) returns (num: State, page': seq<State>)
    requires store.Ready() && !store.isMounted
    requires store.Queues() == [setNum] && store.view == [Hook(n, [])]
    modifies store, setNum, setNum.pending
    ensures store.Ready() && !store.isMounted && store.Queues() == [setNum]
    ensures store.view == [Hook(n + 1, [])] && setNum.pending == null
    ensures num == n + 1 && page' == page + [num]
  {
    assert store.Queues()[0] == store.cells[0].queue == setNum;
    var q: Queue;
    num, q, page' := DispatchAction(store, setNum, Inc, page);
    OneClick(n);
    assert store.cells[0].queue.Valid();
  }

  /** The page script: the first `schedule()` mounts `App` and its `click`
      becomes the container's click handler; then the container is clicked
      `clicks` times. Every click adds one to `num`, and the page shows
      `0, 1, ..., clicks` in turn. */
  method Demo(clicks: nat) returns (num: State, page: seq<State>)
    ensures num == clicks && page == Counting(clicks + 1)
  {
    var store := new HookStore();
    var ok, n, setNum, p := Schedule(store, []);
    num, page := n, p;
    assert store.cells[0].queue.Valid();
    var i := 0;
    while i < clicks
      invariant i <= clicks && store.Ready() && !store.isMounted
      invariant setNum != null && fresh(setNum) && setNum.pending == null
      invariant store.Queues() == [setNum] && store.view == [Hook(i, [])]
      invariant num == i && page == Counting(i + 1)
    {
      num, page := Click(store, setNum, page, i);
      i := i + 1;
    }
  }
}
