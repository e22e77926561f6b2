/** The fiber runtime of mini-react (fiber.js, useState.js, commit.js, and
    the loop of reconcile.js): one object whose fields are the module-level
    variables of fiber.js, plus the fiber arena and the log of host appends. */
module Runtime {
  import opened Elements
  import opened Hooks
  import opened Fibers
  import opened ReconcileSpec
  import opened CommitSpec

  /** A function component as the runtime sees it: calling it makes one
      `useState` call per entry of `initials`, in order, then returns
      `render(props, states)` where `states` are the values those calls gave. */
  datatype Component = Component(initials: seq<State>, render: (Props, seq<State>) -> Element)

  /** The `setState` closure of one `useState` call. The hook object it pushes
      to is entry `slot` of the `hooks` of fiber `fiber`. */
  datatype Setter = Setter(fiber: nat, slot: nat)

  /** `renderDOM` makes a node for a host tag, a non-empty string or a number;
      for anything else (a component, a boolean, an untyped object) it yields
      nothing. */
  predicate HasHost(e: Element)
  {
    match e
    case Node(ty, _) => ty.Tag?
    case Str(s) => s != ""
    case Num(_) => true
    case _ => false
  }

  /** `element.props`, with no attributes and no children when absent. */
  function PropsOf(e: Element): Props
  {
    if e.Node? then e.props else Props(map[], Absent)
  }

  /** `currentFunctionFiber?.alternate?.hooks?.[k]`. */
  ghost function OldHook(F: seq<Fiber>, w: nat, k: nat): Option<Hook>
    requires WF(F) && w < |F|
  {
    var a := F[w].alternate;
    if a.Some? && k < |F[a.value].hooks| then Some(F[a.value].hooks[k]) else None
  }

  /** The hooks an evaluation of the component at `w` leaves behind: one per
      `useState` call, holding the visible state and an empty queue. */
  ghost function RenderedHooks(F: seq<Fiber>, w: nat, initials: seq<State>): (H: seq<Hook>)
    requires WF(F) && w < |F|
    ensures |H| == |initials|
  {
    seq(|initials|, i requires 0 <= i < |initials| => Hook(Visible(OldHook(F, w, i), initials[i]), []))
  }

  function States(H: seq<Hook>): (r: seq<State>)
    ensures |r| == |H| && forall i :: 0 <= i < |H| ==> r[i] == H[i].state
  {
    seq(|H|, i requires 0 <= i < |H| => H[i].state)
  }

  /** The arena once the hooks of the component at `w` are rebuilt. */
  ghost function WithHooks(F: seq<Fiber>, w: nat, c: Component): (G: seq<Fiber>)
    requires WF(F) && w < |F|
    ensures |G| == |F| && WF(G)
  {
    F[w := F[w].(hooks := RenderedHooks(F, w, c.initials))]
  }

  /** `[jsx]`: the one child an evaluation of the component at `w` returns. */
  ghost function Rendered(F: seq<Fiber>, w: nat, c: Component): seq<Element>
    requires WF(F) && w < |F|
  {
    [c.render(PropsOf(F[w].element), States(RenderedHooks(F, w, c.initials)))]
  }

  /** Emptying the hooks of the fiber at `w` changes neither the hooks an
      evaluation rebuilds (they come from the alternate) nor its result. */
  lemma ClearedHooks(F: seq<Fiber>, w: nat, c: Component)
    requires WF(F) && w < |F|
    ensures WithHooks(F[w := F[w].(hooks := [])], w, c) == WithHooks(F, w, c)
    ensures Rendered(F[w := F[w].(hooks := [])], w, c) == Rendered(F, w, c)
  {
    var E := F[w := F[w].(hooks := [])];
    forall k | 0 <= k < |c.initials| ensures OldHook(E, w, k) == OldHook(F, w, k) { }
    assert RenderedHooks(E, w, c.initials) == RenderedHooks(F, w, c.initials);
  }

  /** The root `createRoot` and `commitRender` build. */
  function RootFiber(element: Element, stateNode: Option<Handle>, alternate: Option<nat>): Fiber
  {
    Fiber(element, stateNode, None, alternate, None, None, NoFlag, None, [])
  }

  /** The element `createRoot` gives the root: `{props: {children: [element]}}`. */
  function RootElement(element: Element): Element
  {
    Node(NoType, Props(map[], Many([Leaf(element)])))
  }

  /** The `n`-th answer of `deadline.timeRemaining()`; a time slice is finite,
      so past the listed answers the budget is spent. */
  function Remaining(budget: seq<int>, n: nat): int
  {
    if n < |budget| then budget[n] else 0
  }

  /** A unit after which the deadline still has time extends that run. */
  lemma Funded(budget: seq<int>, k: nat)
    requires forall n :: 0 <= n < k - 1 ==> Remaining(budget, n) >= 1
    requires k == 0 || Remaining(budget, k - 1) >= 1
    ensures forall n :: 0 <= n < k ==> Remaining(budget, n) >= 1
  {
  }

  /** The arena once `performUnitOfWork` has given fiber `w` a host node
      (lines 32-35): only a fiber without one gets one, and only when
      `renderDOM` makes a node for its element; `h` is the fresh handle. */
  ghost function Hosted(F: seq<Fiber>, w: nat, h: Handle): (G: seq<Fiber>)
    requires WF(F) && w < |F|
    ensures |G| == |F| && WF(G)
  {
    if F[w].stateNode.None? && HasHost(F[w].element) then F[w := F[w].(stateNode := Some(h))] else F
  }

  /** The arena after `performUnitOfWork(w)` reconciles a function
      component's result (when `w` is one), before `props.children`. */
  ghost function AfterComponent(F: seq<Fiber>, w: nat, components: nat -> Component): (G: seq<Fiber>)
    requires WF(F) && w < |F|
    ensures WF(G) && |G| >= |F|
  {
    var e := F[w].element;
    if TypeOf(e).Fn? then
      var c := components(TypeOf(e).id);
      Reconciled(WithHooks(F, w, c), w, Rendered(F, w, c))
    else F
  }

  /** The deletions that reconciliation queues. */
  ghost function ComponentDeletions(F: seq<Fiber>, w: nat, components: nat -> Component): seq<nat>
    requires WF(F) && w < |F|
  {
    var e := F[w].element;
    if TypeOf(e).Fn? then
      var c := components(TypeOf(e).id);
      Deleted(WithHooks(F, w, c), w, Rendered(F, w, c))
    else []
  }

  /** Whether `performUnitOfWork(w)` gets through: it throws when the
      reconciliation of `props.children` would (line 54 of reconcile.js). */
  predicate UnitOk(F: seq<Fiber>, w: nat)
    requires w < |F|
  {
    var cs := ChildElements(ChildrenOf(F[w].element));
    cs.None? || ReconcileOk(cs.value)
  }

  /** The arena after the flattened `props.children` of `w` are reconciled
      (unchanged when there are none, or when that would throw). */
  ghost function PropsArena(F: seq<Fiber>, w: nat, cs: Option<seq<Element>>): (G: seq<Fiber>)
    requires WF(F) && w < |F|
    ensures WF(G) && |G| >= |F|
  {
    if cs.Some? && ReconcileOk(cs.value) then Reconciled(F, w, cs.value) else F
  }

  /** The deletions that reconciliation queues. */
  ghost function PropsDeletions(F: seq<Fiber>, w: nat, cs: Option<seq<Element>>): seq<nat>
    requires WF(F) && w < |F|
  {
    if cs.Some? && ReconcileOk(cs.value) then Deleted(F, w, cs.value) else []
  }

  /** The arena after `performUnitOfWork(w)`: host node, component result,
      then `props.children` (not reconciled when the call throws). */
  ghost function Performed(F: seq<Fiber>, w: nat, h: Handle, components: nat -> Component): (G: seq<Fiber>)
    requires WF(F) && w < |F|
    ensures WF(G) && |G| >= |F|
  {
    var F1 := Hosted(F, w, h);
    PropsArena(AfterComponent(F1, w, components), w, ChildElements(ChildrenOf(F[w].element)))
  }

  /** The deletions `performUnitOfWork(w)` queues, in order. */
  ghost function PerformedDeletions(F: seq<Fiber>, w: nat, h: Handle, components: nat -> Component): seq<nat>
    requires WF(F) && w < |F|
  {
    var F1 := Hosted(F, w, h);
    ComponentDeletions(F1, w, components) +
      PropsDeletions(AfterComponent(F1, w, components), w, ChildElements(ChildrenOf(F[w].element)))
  }

  /** The part of the runtime that units of work advance: the arena, the
      deletion queue, `nextUnitOfWork` and the next fresh handle; `ok` is
      false once a unit has thrown. */
  datatype Progress = Progress(fibers: seq<Fiber>, deletions: seq<nat>, next: Option<nat>, handle: Handle, ok: bool)

  /** One call of `performUnitOfWork(nextUnitOfWork)` on progress `p`;
      nothing happens once no unit is left or a unit has thrown. A unit that
      throws still leaves its host node and its component's reconciliation
      behind, and `nextUnitOfWork` where it was. */
  ghost function Advance(p: Progress, components: nat -> Component): (q: Progress)
    requires WF(p.fibers) && InArena(p.fibers, p.next)
    ensures WF(q.fibers) && InArena(q.fibers, q.next) && |q.fibers| >= |p.fibers|
  {
    if !p.ok || p.next.None? then p
    else
      var F := p.fibers;
      var w := p.next.value;
      var G := Performed(F, w, p.handle, components);
      var ok := UnitOk(F, w);
      Progress(G, p.deletions + PerformedDeletions(F, w, p.handle, components),
        if ok then NextUnit(G, w) else p.next,
        p.handle + (if F[w].stateNode.None? && HasHost(F[w].element) then 1 else 0),
        ok)
  }

  /** The progress after `n` units of work from `p`. */
  ghost function Units(p: Progress, components: nat -> Component, n: nat): (q: Progress)
    requires WF(p.fibers) && InArena(p.fibers, p.next)
    ensures WF(q.fibers) && InArena(q.fibers, q.next) && |q.fibers| >= |p.fibers|
    decreases n
  {
    if n == 0 then p else Advance(Units(p, components, n - 1), components)
  }

  /** Regrouping a concatenation. A proof step only: the deletion queue and
      the append log are built by concatenation, and naming the regrouping
      at the two places that need it keeps those proofs small. */
  lemma AppendAssoc<T>(a: seq<T>, b: seq<T>, c: seq<T>)
    ensures (a + b) + c == a + (b + c)
  {
  }

  /** Once no unit is left, or a unit has thrown, further units change
      nothing: `workLoop` then commits or stays where it stopped. */
  lemma {:induction false} UnitsSettled(p: Progress, components: nat -> Component, n: nat)
    requires WF(p.fibers) && InArena(p.fibers, p.next)
    requires !p.ok || p.next.None?
    ensures Units(p, components, n) == p
    decreases n
  {
    if n > 0 {
      UnitsSettled(p, components, n - 1);
    }
  }

  class Runtime {
    var fibers: seq<Fiber>
    var nextUnitOfWork: Option<nat>
    var workInProgressRoot: Option<nat>
    var currentRoot: Option<nat>
    var deletions: seq<nat>
    var currentFunctionFiber: Option<nat>
    var hookIndex: nat
    /** The host adapter's supply of fresh node handles. */
    var nextHandle: Handle
    /** The host's record of `appendChild` calls. */
    var appended: seq<Append>
    /** The component function of each `Fn(id)` type. */
    const components: nat -> Component

    ghost predicate Valid()
      reads this
    {
      WF(fibers) &&
      InArena(fibers, nextUnitOfWork) && InArena(fibers, workInProgressRoot) &&
      InArena(fibers, currentRoot) && InArena(fibers, currentFunctionFiber)
    }

    /** The arena, deletions, next unit and next handle are `Units(start,
        components, n)`, with `ok` its flag. The equation sits under a
        quantifier so that the unit bodies are only unfolded where a proof
        names `Units(start, components, n)` itself. */
    ghost predicate Reached(start: Progress, n: nat, ok: bool)
      requires WF(start.fibers) && InArena(start.fibers, start.next)
      reads this
    {
      forall m {:trigger Units(start, components, m)} :: m == n ==>
        Progress(fibers, deletions, nextUnitOfWork, nextHandle, ok) == Units(start, components, m)
    }

    /** The state of fiber.js when it is loaded. */
    constructor (components: nat -> Component, firstHandle: Handle)
      ensures Valid() && fibers == [] && deletions == [] && appended == []
      ensures nextUnitOfWork.None? && workInProgressRoot.None? && currentRoot.None?
      ensures currentFunctionFiber.None? && hookIndex == 0 && nextHandle == firstHandle
      ensures this.components == components
    {
      fibers := [];
      nextUnitOfWork := None;
      workInProgressRoot := None;
      currentRoot := None;
      deletions := [];
      currentFunctionFiber := None;
      hookIndex := 0;
      nextHandle := firstHandle;
      appended := [];
      this.components := components;
    }

    /** `createRoot(element, container)`: a new root over the container,
      linked to the last committed tree, becomes the next unit of work. */
    method CreateRoot(element: Element, container: Handle)
      requires Valid()
      modifies this`fibers, this`workInProgressRoot, this`nextUnitOfWork
      ensures Valid()
      ensures fibers == old(fibers) + [RootFiber(RootElement(element), Some(container), currentRoot)]
      ensures workInProgressRoot == Some(|old(fibers)|) && nextUnitOfWork == workInProgressRoot
    {
      fibers := fibers + [RootFiber(RootElement(element), Some(container), currentRoot)];
      workInProgressRoot := Some(|fibers| - 1);
      nextUnitOfWork := workInProgressRoot;
    }

    /** `ReactDOM.renderDOM(element)`, reduced to handing out a fresh handle. */
    method MakeHandle(e: Element) returns (h: Option<Handle>)
      modifies this`nextHandle
      ensures h.Some? <==> HasHost(e)
      ensures h.Some? ==> h.value == old(nextHandle)
      ensures nextHandle == old(nextHandle) + (if h.Some? then 1 else 0)
    {
      if HasHost(e) {
        h := Some(nextHandle);
        nextHandle := nextHandle + 1;
      } else {
        h := None;
      }
    }

    /** The next unit after `w`: its child, else the first sibling found
        walking up `return` links, else none. */
    method NextUnitOf(w: nat) returns (next: Option<nat>)
      requires Valid() && w < |fibers|
      ensures next == NextUnit(fibers, w)
    {
      if fibers[w].child.Some? {
        return fibers[w].child;
      }
      var nextFiber: Option<nat> := Some(w);
      while nextFiber.Some?
        invariant InArena(fibers, nextFiber)
        invariant nextFiber.Some? ==> Climb(fibers, nextFiber.value) == Climb(fibers, w)
        invariant nextFiber.None? ==> Climb(fibers, w).None?
        decreases if nextFiber.Some? then nextFiber.value + 1 else 0
      {
        if fibers[nextFiber.value].sibling.Some? {
          return fibers[nextFiber.value].sibling;
        }
        nextFiber := fibers[nextFiber.value].parent;
      }
      return None;
    }

    /** `getHookIndex()`: the current index, then one more. */
    method GetHookIndex() returns (k: nat)
      modifies this`hookIndex
      ensures k == old(hookIndex) && hookIndex == old(hookIndex) + 1
    {
      k := hookIndex;
      hookIndex := hookIndex + 1;
    }

    /** `deleteFiber(fiber)`. */
    method DeleteFiber(f: nat)
      modifies this`deletions
      ensures deletions == old(deletions) + [f]
    {
      deletions := deletions + [f];
    }

    /** Lines 13-46 of `reconcileChildren`: the fiber for `element`, reusing
        `oldFiber` when the types agree and queueing it for deletion when not. */
    method PlaceChild(w: nat, element: Element, oldFiber: Option<nat>, index: nat) returns (newFiber: Option<nat>)
      requires w < |fibers| && InArena(fibers, oldFiber)
      modifies this`fibers, this`deletions
      ensures fibers == Place(old(fibers), w, element, oldFiber, index)
      ensures newFiber == if Present(element) then Some(|old(fibers)|) else None
      ensures deletions == old(deletions) +
        (if oldFiber.Some? && !SameType(element, old(fibers)[oldFiber.value].element) then [oldFiber.value] else [])
    {
      newFiber := None;
      var isSameType := TypeTruthy(TypeOf(element)) && oldFiber.Some? &&
        TypeOf(element) == TypeOf(fibers[oldFiber.value].element);
      if isSameType {
        fibers := fibers + [Fiber(element, fibers[oldFiber.value].stateNode, Some(w), oldFiber, None, None, Update, None, [])];
        newFiber := Some(|fibers| - 1);
      } else {
        if Present(element) {
          fibers := fibers + [Fiber(element, None, Some(w), None, None, None, Placement, Some(index), [])];
          newFiber := Some(|fibers| - 1);
        }
        if oldFiber.Some? {
          fibers := fibers[oldFiber.value := fibers[oldFiber.value].(flag := Deletion)];
          DeleteFiber(oldFiber.value);
        }
      }
    }

    /** Lines 48-56: the new fiber becomes the first child at position 0 and
        the sibling of the previous new fiber afterwards. */
    method LinkChild(w: nat, index: nat, prevSibling: Option<nat>, newFiber: Option<nat>)
      requires w < |fibers| && InArena(fibers, prevSibling)
      requires index > 0 && newFiber.Some? ==> prevSibling.Some?
      modifies this`fibers
      ensures fibers == Link(old(fibers), w, index, prevSibling, newFiber)
    {
      if index == 0 {
        fibers := fibers[w := fibers[w].(child := newFiber)];
      } else if newFiber.Some? {
        fibers := fibers[prevSibling.value := fibers[prevSibling.value].(sibling := newFiber)];
      }
    }

    /** One round of the loop of `reconcileChildren` (lines 13-58): the
        arena and the deletion queue advance from round `index` to the next,
        and so do `oldFiber` and `prevSibling`. */
    method ReconcileStep(w: nat, es: seq<Element>, ghost F: seq<Fiber>, ghost D0: seq<nat>, index: nat,
                         oldFiber: Option<nat>, prevSibling: Option<nat>)
      returns (oldFiber': Option<nat>, prevSibling': Option<nat>)
      requires WF(F) && w < |F| && ReconcileOk(es)
      requires fibers == ArenaAt(F, w, es, OldChain(F, w), index)
      requires deletions == D0 + DeletedUpTo(F, OldChain(F, w), es, index)
      requires oldFiber == OldAt(OldChain(F, w), index)
      requires prevSibling ==
        if |CreatedUpTo(es, index)| > 0 then Some(|F| + |CreatedUpTo(es, index)| - 1) else None
      modifies this`fibers, this`deletions
      ensures fibers == ArenaAt(F, w, es, OldChain(F, w), index + 1)
      ensures deletions == D0 + DeletedUpTo(F, OldChain(F, w), es, index + 1)
      ensures oldFiber' == OldAt(OldChain(F, w), index + 1)
      ensures prevSibling' ==
        if |CreatedUpTo(es, index + 1)| > 0 then Some(|F| + |CreatedUpTo(es, index + 1)| - 1) else None
    {
      ghost var O := OldChain(F, w);
      ghost var A := fibers;
      ghost var D := deletions;
      PrevExists(es, index);
      var element := ElemAt(es, index);
      var newFiber := PlaceChild(w, element, oldFiber, index);
      ghost var P := fibers;
      oldFiber' := if oldFiber.Some? then fibers[oldFiber.value].sibling else None;
      LinkChild(w, index, prevSibling, newFiber);
      prevSibling' := if index == 0 || newFiber.Some? then newFiber else prevSibling;
      LoopStep(F, w, es, O, index, A, P, fibers, newFiber, prevSibling, prevSibling', oldFiber', D0, D, deletions);
    }

    /** `reconcileChildren(w, es)`; `iterations` counts the loop's rounds. */
    method ReconcileChildren(w: nat, es: seq<Element>) returns (ghost iterations: nat)
      requires Valid() && w < |fibers| && ReconcileOk(es)
      modifies this`fibers, this`deletions
      ensures Valid()
      ensures iterations == Iterations(es, OldChain(old(fibers), w))
      ensures fibers == Reconciled(old(fibers), w, es)
      ensures deletions == old(deletions) + Deleted(old(fibers), w, es)
    {
      ghost var F := fibers;
      ghost var O := OldChain(F, w);
      ghost var T := Iterations(es, O);
      var a := fibers[w].alternate;
      var index := 0;
      var prevSibling: Option<nat> := None;
      var oldFiber := if a.Some? then fibers[a.value].child else None;
      OldStart(F, w);
      while index < |es| || oldFiber.Some?
        invariant index <= T
        invariant fibers == ArenaAt(F, w, es, O, index)
        invariant deletions == old(deletions) + DeletedUpTo(F, O, es, index)
        invariant oldFiber == OldAt(O, index)
        invariant prevSibling ==
          if |CreatedUpTo(es, index)| > 0 then Some(|F| + |CreatedUpTo(es, index)| - 1) else None
        decreases T - index
      {
        oldFiber, prevSibling := ReconcileStep(w, es, F, old(deletions), index, oldFiber, prevSibling);
        index := index + 1;
      }
      iterations := index;
      ArenaWF(F, w, es, O, index);
    }

    /** `useState(initial)` inside the component at `currentFunctionFiber`:
        the old hook at this hook index, if any, with its queued actions
        applied in order; a fresh hook with that state and an empty queue is
        pushed onto the fiber's hooks, and the setter addresses it. */
    method UseState(initial: State) returns (state: State, setter: Setter)
      requires Valid() && currentFunctionFiber.Some?
      modifies this`fibers, this`hookIndex
      ensures Valid() && hookIndex == old(hookIndex) + 1
      ensures var f := currentFunctionFiber.value;
        state == Visible(OldHook(old(fibers), f, old(hookIndex)), initial) &&
        setter == Setter(f, |old(fibers)[f].hooks|) &&
        fibers == old(fibers)[f := old(fibers)[f].(hooks := old(fibers)[f].hooks + [Hook(state, [])])]
    {
      var f := currentFunctionFiber.value;
      var k := GetHookIndex();
      var a := fibers[f].alternate;
      var oldHook: Option<Hook> := None;
      if a.Some? && k < |fibers[a.value].hooks| {
        oldHook := Some(fibers[a.value].hooks[k]);
      }
      var start := if oldHook.Some? then oldHook.value.state else initial;
      var actions := if oldHook.Some? then oldHook.value.queue else [];
      state := start;
      for i := 0 to |actions|
        invariant state == Fold(actions[..i], start)
      {
        assert actions[..i + 1][..i] == actions[..i];
        state := actions[i](state);
      }
      assert actions[..|actions|] == actions;
      setter := Setter(f, |fibers[f].hooks|);
      fibers := fibers[f := fibers[f].(hooks := fibers[f].hooks + [Hook(state, [])])];
    }

    /** `updateFunctionComponent(fiber)`: the fiber becomes the current
        function fiber with no hooks, the component runs (one `useState`
        call per entry of its `initials`), and its one result is reconciled
        as the fiber's only child. */
    method UpdateFunctionComponent(w: nat)
      requires Valid() && w < |fibers| && TypeOf(fibers[w].element).Fn?
      modifies this`fibers, this`deletions, this`currentFunctionFiber, this`hookIndex
      ensures Valid() && currentFunctionFiber == Some(w)
      ensures hookIndex == |components(TypeOf(old(fibers)[w].element).id).initials|
      ensures var c := components(TypeOf(old(fibers)[w].element).id);
        fibers == Reconciled(WithHooks(old(fibers), w, c), w, Rendered(old(fibers), w, c))
      ensures var c := components(TypeOf(old(fibers)[w].element).id);
        deletions == old(deletions) + Deleted(WithHooks(old(fibers), w, c), w, Rendered(old(fibers), w, c))
    {
      ghost var F := fibers;
      var c := components(TypeOf(fibers[w].element).id);
      currentFunctionFiber := Some(w);
      fibers := fibers[w := fibers[w].(hooks := [])];
      hookIndex := 0;
      ClearedHooks(F, w, c);
      var jsx := CallComponent(w, c);
      ghost var rounds := ReconcileChildren(w, [jsx]);
    }

    /** `Fn(props)` for the component `c` at `w` (line 102): one `useState`
        call per entry of `c.initials`, then `c.render` of the props and the
        states those calls returned. */
    method CallComponent(w: nat, c: Component) returns (jsx: Element)
      requires Valid() && w < |fibers| && currentFunctionFiber == Some(w) && hookIndex == 0
      requires fibers[w].hooks == []
      modifies this`fibers, this`hookIndex
      ensures Valid() && hookIndex == |c.initials|
      ensures fibers == WithHooks(old(fibers), w, c) && [jsx] == Rendered(old(fibers), w, c)
    {
      ghost var F := fibers;
      ghost var H := RenderedHooks(F, w, c.initials);
      var states: seq<State> := [];
      for i := 0 to |c.initials|
        invariant Valid() && currentFunctionFiber == Some(w) && hookIndex == i
        invariant fibers == F[w := F[w].(hooks := H[..i])]
        invariant |states| == i && forall j :: 0 <= j < i ==> states[j] == H[j].state
      {
        assert OldHook(fibers, w, i) == OldHook(F, w, i);
        var s, _ := UseState(c.initials[i]);
        assert H[i] == Hook(s, []);
        assert H[..i + 1] == H[..i] + [H[i]];
        states := states + [s];
      }
      assert H[..|c.initials|] == H;
      assert states == States(H);
      jsx := c.render(PropsOf(fibers[w].element), states);
    }

    /** `performUnitOfWork(w)`: give `w` a host node if it has none, run it
        when it is a function component, reconcile `props.children` when
        they are present (or `0`), and move `nextUnitOfWork` on. `ok` is
        false when the reconciliation would throw (line 54 of reconcile.js),
        which the model treats as the end of the run. `currentFunctionFiber`
        and `hookIndex` are left as `updateFunctionComponent` sets them for a
        function component (the fiber, and its count of hooks) and are
        otherwise untouched. */
    method PerformUnitOfWork(w: nat) returns (ok: bool)
      requires Valid() && w < |fibers|
      modifies this`fibers, this`deletions, this`currentFunctionFiber, this`hookIndex,
        this`nextHandle, this`nextUnitOfWork
      ensures Valid()
      ensures ok == UnitOk(old(fibers), w)
      ensures fibers == Performed(old(fibers), w, old(nextHandle), components)
      ensures deletions == old(deletions) + PerformedDeletions(old(fibers), w, old(nextHandle), components)
      ensures nextHandle == old(nextHandle) +
        (if old(fibers)[w].stateNode.None? && HasHost(old(fibers)[w].element) then 1 else 0)
      ensures TypeOf(old(fibers)[w].element).Fn? ==>
        currentFunctionFiber == Some(w) &&
        hookIndex == |components(TypeOf(old(fibers)[w].element).id).initials|
      ensures !TypeOf(old(fibers)[w].element).Fn? ==>
        currentFunctionFiber == old(currentFunctionFiber) && hookIndex == old(hookIndex)
      ensures ok ==> w < |fibers| && nextUnitOfWork == NextUnit(fibers, w)
      ensures !ok ==> nextUnitOfWork == old(nextUnitOfWork)
    {
      ok := Work(w);
      if ok {
        nextUnitOfWork := NextUnitOf(w);
      }
    }

    /** Lines 32-53 of `performUnitOfWork`: everything but the choice of the
        next unit. */
    method Work(w: nat) returns (ok: bool)
      requires Valid() && w < |fibers|
      modifies this`fibers, this`deletions, this`currentFunctionFiber, this`hookIndex,
        this`nextHandle
      ensures Valid()
      ensures ok == UnitOk(old(fibers), w)
      ensures fibers == Performed(old(fibers), w, old(nextHandle), components)
      ensures deletions == old(deletions) + PerformedDeletions(old(fibers), w, old(nextHandle), components)
      ensures nextHandle == old(nextHandle) +
        (if old(fibers)[w].stateNode.None? && HasHost(old(fibers)[w].element) then 1 else 0)
      ensures TypeOf(old(fibers)[w].element).Fn? ==>
        currentFunctionFiber == Some(w) &&
        hookIndex == |components(TypeOf(old(fibers)[w].element).id).initials|
      ensures !TypeOf(old(fibers)[w].element).Fn? ==>
        currentFunctionFiber == old(currentFunctionFiber) && hookIndex == old(hookIndex)
    {
      RenderHost(w);
      var children := ChildElements(ChildrenOf(fibers[w].element));
      RunComponent(w);
      ok := ReconcileProps(w, children);
      ghost var F1 := Hosted(old(fibers), w, old(nextHandle));
      AppendAssoc(old(deletions), ComponentDeletions(F1, w, components),
        PropsDeletions(AfterComponent(F1, w, components), w, children));
    }

    /** Lines 40-45 of `performUnitOfWork`: a function component is run. */
    method RunComponent(w: nat)
      requires Valid() && w < |fibers|
      modifies this`fibers, this`deletions, this`currentFunctionFiber, this`hookIndex
      ensures Valid()
      ensures fibers == AfterComponent(old(fibers), w, components)
      ensures deletions == old(deletions) + ComponentDeletions(old(fibers), w, components)
      ensures TypeOf(old(fibers)[w].element).Fn? ==>
        currentFunctionFiber == Some(w) &&
        hookIndex == |components(TypeOf(old(fibers)[w].element).id).initials|
      ensures !TypeOf(old(fibers)[w].element).Fn? ==>
        currentFunctionFiber == old(currentFunctionFiber) && hookIndex == old(hookIndex)
    {
      if TypeOf(fibers[w].element).Fn? {
        UpdateFunctionComponent(w);
      }
    }

    /** Lines 32-35 of `performUnitOfWork`: a fiber without a host node gets
        the one `renderDOM` makes for its element, if any. */
    method RenderHost(w: nat)
      requires Valid() && w < |fibers|
      modifies this`fibers, this`nextHandle
      ensures Valid() && fibers == Hosted(old(fibers), w, old(nextHandle))
      ensures nextHandle == old(nextHandle) +
        (if old(fibers)[w].stateNode.None? && HasHost(old(fibers)[w].element) then 1 else 0)
    {
      if fibers[w].stateNode.None? {
        ghost var F := fibers;
        var h := MakeHandle(fibers[w].element);
        fibers := fibers[w := fibers[w].(stateNode := h)];
        assert h.None? ==> fibers == F;
      }
    }

    /** Lines 47-53 of `performUnitOfWork`: the flattened children, when
        there are any, are reconciled under `w`; `ok` is false when that
        reconciliation would throw, and then nothing is reconciled. */
    method ReconcileProps(w: nat, children: Option<seq<Element>>) returns (ok: bool)
      requires Valid() && w < |fibers|
      modifies this`fibers, this`deletions
      ensures Valid()
      ensures ok == (children.None? || ReconcileOk(children.value))
      ensures fibers == PropsArena(old(fibers), w, children)
      ensures deletions == old(deletions) + PropsDeletions(old(fibers), w, children)
    {
      if children.Some? {
        if !ReconcileOk(children.value) {
          return false;
        }
        ghost var rounds := ReconcileChildren(w, children.value);
      }
      ok := true;
    }

    /** `commitWork(o)`: the subtree under `o`'s child, then `o`'s node into
        its `return`'s node, then the siblings; `ok` is false when an
        `appendChild` or a `return` is missing, which throws. */
    method CommitWork(o: Option<nat>) returns (ok: bool)
      requires WF(fibers) && InArena(fibers, o)
      modifies this`appended
      ensures appended == old(appended) + CommitForest(fibers, o).ops
      ensures ok == CommitForest(fibers, o).ok
      decreases if o.Some? then |fibers| - o.value else 0
    {
      if o.None? {
        return true;
      }
      var x := o.value;
      ghost var c := CommitForest(fibers, fibers[x].child);
      ghost var a0 := appended;
      ok := CommitWork(fibers[x].child);
      if !ok {
        return;
      }
      var parent := fibers[x].parent;
      if parent.None? {
        return false;
      }
      var parentDom := fibers[parent.value].stateNode;
      if fibers[x].stateNode.Some? {
        if parentDom.None? {
          return false;
        }
        appended := appended + [Append(parentDom.value, fibers[x].stateNode.value)];
      }
      assert Safe(fibers, x) && appended == a0 + c.ops + OwnAppend(fibers, x);
      ok := CommitWork(fibers[x].sibling);
      AppendAssoc(a0, c.ops + OwnAppend(fibers, x), CommitForest(fibers, fibers[x].sibling).ops);
      AppendAssoc(a0, c.ops, OwnAppend(fibers, x));
    }

    /** `commitRoot(root)`: commit the root's child forest. */
    method CommitRoot(r: nat) returns (ok: bool)
      requires WF(fibers) && r < |fibers|
      modifies this`appended
      ensures appended == old(appended) + CommitForest(fibers, fibers[r].child).ops
      ensures ok == CommitForest(fibers, fibers[r].child).ok
    {
      ok := CommitWork(fibers[r].child);
    }

    /** `workLoop(deadline)`: units of work run one after another until none
        is left or `deadline.timeRemaining()` (its `n`-th answer is
        `Remaining(budget, n)`) drops below 1 after a unit; a finished
        render is then committed and becomes the current tree. `crashed`
        is true when a unit or the commit throws, which ends the loop on
        the spot; re-arming `requestIdleCallback` is not modelled. */
    method WorkLoop(budget: seq<int>) returns (units: nat, committed: bool, crashed: bool)
      requires Valid()
      modifies this`fibers, this`deletions, this`currentFunctionFiber, this`hookIndex, this`nextHandle
      modifies this`nextUnitOfWork, this`workInProgressRoot, this`currentRoot, this`appended
      ensures Valid() && units <= |budget| + 1
      ensures old(nextUnitOfWork).Some? <==> units >= 1
      ensures old(nextUnitOfWork).None? ==> fibers == old(fibers) && nextHandle == old(nextHandle)
      ensures forall n :: 0 <= n < units - 1 ==> Remaining(budget, n) >= 1
      ensures var p := Units(Progress(old(fibers), old(deletions), old(nextUnitOfWork), old(nextHandle), true), components, units);
        fibers == p.fibers && nextUnitOfWork == p.next && nextHandle == p.handle &&
        (!p.ok ==> crashed) && (!committed ==> deletions == p.deletions)
      ensures !crashed ==> nextUnitOfWork.None? || (units > 0 && Remaining(budget, units - 1) < 1)
      ensures committed ==> !crashed && nextUnitOfWork.None? && old(workInProgressRoot).Some?
      ensures !crashed && nextUnitOfWork.None? && old(workInProgressRoot).Some? ==> committed
      ensures committed ==> (currentRoot == old(workInProgressRoot) && workInProgressRoot.None? && deletions == [] &&
        appended == old(appended) + CommitForest(fibers, fibers[currentRoot.value].child).ops)
      ensures !committed ==> currentRoot == old(currentRoot) && workInProgressRoot == old(workInProgressRoot)
      ensures !committed && !crashed ==> appended == old(appended)
      ensures crashed && Units(Progress(old(fibers), old(deletions), old(nextUnitOfWork), old(nextHandle), true), components, units).ok ==>
        (nextUnitOfWork.None? && workInProgressRoot.Some? &&
         !CommitForest(fibers, fibers[workInProgressRoot.value].child).ok &&
         appended == old(appended) + CommitForest(fibers, fibers[workInProgressRoot.value].child).ops)
    {
      committed := false;
      units, crashed := RunUnits(budget);
      ghost var p := Units(Progress(old(fibers), old(deletions), old(nextUnitOfWork), old(nextHandle), true), components, units);
      if !crashed && nextUnitOfWork.None? && workInProgressRoot.Some? {
        var ok := CommitRoot(workInProgressRoot.value);
        if !ok {
          crashed := true;
          return;
        }
        deletions := [];
        currentRoot := workInProgressRoot;
        workInProgressRoot := None;
        committed := true;
      }
    }

    /** Line 81 of `workLoop`: `performUnitOfWork(nextUnitOfWork)`, one
        step of the progress. */
    method PerformNext() returns (ok: bool)
      requires Valid() && nextUnitOfWork.Some?
      modifies this`fibers, this`deletions, this`currentFunctionFiber, this`hookIndex, this`nextHandle
      modifies this`nextUnitOfWork
      ensures Valid()
      ensures Progress(fibers, deletions, nextUnitOfWork, nextHandle, ok) ==
        Advance(Progress(old(fibers), old(deletions), old(nextUnitOfWork), old(nextHandle), true), components)
    {
      ok := PerformUnitOfWork(nextUnitOfWork.value);
    }

    /** `PerformNext` as the `n + 1`-th unit of work from `start`. */
    method Step(ghost start: Progress, ghost n: nat) returns (ok: bool)
      requires Valid() && nextUnitOfWork.Some? && WF(start.fibers) && InArena(start.fibers, start.next)
      requires Reached(start, n, true)
      modifies this`fibers, this`deletions, this`currentFunctionFiber, this`hookIndex, this`nextHandle
      modifies this`nextUnitOfWork
      ensures Valid() && Reached(start, n + 1, ok)
    {
      ghost var p := Units(start, components, n);
      ok := PerformNext();
      assert Units(start, components, n + 1) == Advance(p, components);
    }

    /** The loop of `workLoop`: units of work until none is left, a unit
        throws (`crashed`; that unit is counted), or the deadline says to
        yield. */
    method RunUnits(budget: seq<int>) returns (units: nat, crashed: bool)
      requires Valid()
      modifies this`fibers, this`deletions, this`currentFunctionFiber, this`hookIndex, this`nextHandle
      modifies this`nextUnitOfWork
      ensures Valid() && units <= |budget| + 1
      ensures old(nextUnitOfWork).Some? <==> units >= 1
      ensures forall n :: 0 <= n < units - 1 ==> Remaining(budget, n) >= 1
      ensures Reached(Progress(old(fibers), old(deletions), old(nextUnitOfWork), old(nextHandle), true), units, !crashed)
      ensures !crashed ==> nextUnitOfWork.None? || (units > 0 && Remaining(budget, units - 1) < 1)
    {
      var shouldYield := false;
      units := 0;
      crashed := false;
      ghost var started := nextUnitOfWork.Some?;
      ghost var start := Progress(fibers, deletions, nextUnitOfWork, nextHandle, true);
      while nextUnitOfWork.Some? && !shouldYield
        invariant Valid()
        invariant shouldYield == (units > 0 && Remaining(budget, units - 1) < 1)
        invariant units <= |budget| + 1 && (!shouldYield ==> units <= |budget|)
        invariant forall n :: 0 <= n < units - 1 ==> Remaining(budget, n) >= 1
        invariant units >= 1 ==> started
        invariant units == 0 ==> nextUnitOfWork.Some? == started
        invariant !crashed
        invariant Reached(start, units, true)
        decreases if shouldYield then 0 else |budget| + 1 - units
      {
        Funded(budget, units);
        var yieldAfter := Remaining(budget, units) < 1;
        var ok := Step(start, units);
        units := units + 1;
        if !ok {
          crashed := true;
          break;
        }
        shouldYield := yieldAfter;
      }
    }

    /** `commitRender()`: a new root copying the last committed root's node
        and element, with that root as `alternate`, becomes the next unit
        of work. With no committed root the source throws; `ok` is then
        false and nothing changes. */
    method CommitRender() returns (ok: bool)
      requires Valid()
      modifies this`fibers, this`workInProgressRoot, this`nextUnitOfWork
      ensures Valid()
      ensures ok == currentRoot.Some?
      ensures ok ==> var r := old(fibers)[currentRoot.value];
        fibers == old(fibers) + [RootFiber(r.element, r.stateNode, currentRoot)] &&
        workInProgressRoot == Some(|old(fibers)|) && nextUnitOfWork == workInProgressRoot
      ensures !ok ==> (fibers == old(fibers) && workInProgressRoot == old(workInProgressRoot) &&
        nextUnitOfWork == old(nextUnitOfWork))
    {
      if currentRoot.None? {
        return false;
      }
      var r := fibers[currentRoot.value];
      fibers := fibers + [RootFiber(r.element, r.stateNode, currentRoot)];
      workInProgressRoot := Some(|fibers| - 1);
      nextUnitOfWork := workInProgressRoot;
      ok := true;
    }

    /** Calling the setter `s` with `a`: the normalised action joins the end
        of the hook's queue, then `commitRender()` starts a new render. */
    method SetState(s: Setter, a: SetArg) returns (ok: bool)
      requires Valid() && s.fiber < |fibers| && s.slot < |fibers[s.fiber].hooks|
      modifies this`fibers, this`workInProgressRoot, this`nextUnitOfWork
      ensures Valid()
      ensures ok == currentRoot.Some?
      ensures var F := old(fibers);
        var h := F[s.fiber].hooks[s.slot];
        var Q := F[s.fiber := F[s.fiber].(hooks := F[s.fiber].hooks[s.slot := h.(queue := h.queue + [AsAction(a)])])];
        if ok then
          var r := Q[currentRoot.value];
          fibers == Q + [RootFiber(r.element, r.stateNode, currentRoot)] &&
          workInProgressRoot == Some(|F|) && nextUnitOfWork == workInProgressRoot
        else
          fibers == Q && workInProgressRoot == old(workInProgressRoot) && nextUnitOfWork == old(nextUnitOfWork)
    {
      var h := fibers[s.fiber].hooks[s.slot];
      var f := AsAction(a);
      fibers := fibers[s.fiber := fibers[s.fiber].(hooks := fibers[s.fiber].hooks[s.slot := h.(queue := h.queue + [f])])];
      ok := CommitRender();
    }
  }
}
