/** Values of the `useState` store: a state, transitions on it, the in-order
    fold of a queue of transitions, and the normalisation of a setter's
    argument. Shared by the array-queue store of mini-react and by the
    ring-queue stores. */
module Hooks {
  import opened Elements

  type State = int
  type Action = State -> State

  /** A hook record of the array store: `{state, queue}`. */
  datatype Hook = Hook(state: State, queue: seq<Action>)

  /** The argument of `setState`: a function, or any other value. */
  datatype SetArg = Call(f: Action) | Value(v: State)

  /** The actions applied to `s` one after another, first action first. */
  function Fold(acts: seq<Action>, s: State): State
  {
    if |acts| == 0 then s else acts[|acts| - 1](Fold(acts[..|acts| - 1], s))
  }

  /** A queued action runs on what the actions before it produced. */
  lemma FoldSnoc(f: Action)
    ensures forall q: seq<Action>, s: State :: Fold(q + [f], s) == f(Fold(q, s))
  {
  }

  /** `setState`'s normalisation: a function is queued unchanged, a value `v`
      is queued as the constant function returning `v`. Either way, once
      queued behind `q` it yields `f` applied to what `q` produced, or `v`. */
  function AsAction(a: SetArg): (f: Action)
    ensures a.Call? ==> f == a.f
    ensures a.Value? ==> forall x :: f(x) == a.v
    ensures forall q: seq<Action>, s: State ::
      Fold(q + [f], s) == if a.Call? then a.f(Fold(q, s)) else a.v
  {
    var f := match a case Call(g) => g case Value(v) => (_: State) => v;
    FoldSnoc(f);
    f
  }

  /** `f` applied `n` times. */
  function Iterate(f: Action, n: nat, s: State): State
  {
    if n == 0 then s else f(Iterate(f, n - 1, s))
  }

  /** `n` copies of `f`, the queue left by `n` calls of `setState(f)`. */
  function Repeat(f: Action, n: nat): (r: seq<Action>)
    ensures |r| == n && forall i :: 0 <= i < n ==> r[i] == f
  {
    if n == 0 then [] else Repeat(f, n - 1) + [f]
  }

  /** Folding a concatenation folds the first part, then the second. */
  lemma {:induction false} FoldAppend(a: seq<Action>, b: seq<Action>, s: State)
    ensures Fold(a + b, s) == Fold(b, Fold(a, s))
  {
    if |b| == 0 {
      assert a + b == a;
    } else {
      assert (a + b)[..|a + b| - 1] == a + b[..|b| - 1];
      FoldAppend(a, b[..|b| - 1], s);
    }
  }

  /** Folding the queue of `n` calls of `setState(f)` yields f^n(s). */
  lemma {:induction false} FoldRepeat(f: Action, n: nat, s: State)
    ensures Fold(Repeat(f, n), s) == Iterate(f, n, s)
  {
    if n > 0 {
      assert Repeat(f, n)[..n - 1] == Repeat(f, n - 1);
      FoldRepeat(f, n - 1, s);
    }
  }

  /** After a non-empty run of plain-value `setState` calls, the last value wins. */
  lemma {:induction false} FoldValuesLastWins(vs: seq<State>, s: State)
    requires |vs| > 0
    ensures Fold(seq(|vs|, i requires 0 <= i < |vs| => AsAction(Value(vs[i]))), s) == vs[|vs| - 1]
  {
  }

  /** The value a hook shows in an evaluation: the old hook's state with its
      queue folded over it, or the initial value when there is no old hook. */
  function Visible(prior: Option<Hook>, initial: State): (r: State)
    ensures prior.None? ==> r == initial
    ensures prior.Some? && prior.value.queue == [] ==> r == prior.value.state
  {
    if prior.Some? then Fold(prior.value.queue, prior.value.state) else initial
  }

  /** `n` calls of `setState(f)` on a hook, then one evaluation: the value
      the hook would have shown, with `f` applied `n` more times. */
  lemma RepeatedSetState(h: Hook, f: Action, n: nat, initial: State)
    ensures Visible(Some(Hook(h.state, h.queue + Repeat(f, n))), initial) == Iterate(f, n, Visible(Some(h), initial))
  {
    FoldAppend(h.queue, Repeat(f, n), h.state);
    FoldRepeat(f, n, Fold(h.queue, h.state));
  }

  /** The transition `x => x + 1`. */
  function Inc(x: State): State { x + 1 }

  /** Three `setState(x => x + 1)` calls on state `s` show `s + 3` afterwards. */
  lemma ThreeIncrements(s: State)
    ensures Visible(Some(Hook(s, Repeat(Inc, 3))), 0) == s + 3
  {
    FoldRepeat(Inc, 3, s);
    assert Iterate(Inc, 1, s) == s + 1;
    assert Iterate(Inc, 2, s) == s + 2;
  }
}
