/** What the commit pass of commit.js does to the host: the `appendChild`
    calls it makes, in order, and whether it reaches the end without
    throwing; and the post-order of the fiber tree that explains that order. */
module CommitSpec {
  import opened Elements
  import opened Fibers

  /** A host call `parentDom.appendChild(node)`. */
  datatype Append = Append(parent: Handle, node: Handle)

  /** The appends a pass made, and whether it finished without throwing. */
  datatype Commit = Commit(ops: seq<Append>, ok: bool)

  /** Fiber `x` can be committed: `fiber.return` exists, and when `x` has a
      host node, so does its `return` (else `appendChild` is called on null). */
  ghost predicate Safe(F: seq<Fiber>, x: nat)
    requires WF(F) && x < |F|
  {
    F[x].parent.Some? && (F[x].stateNode.Some? ==> F[F[x].parent.value].stateNode.Some?)
  }

  /** The append a safe fiber makes: one into its parent's node when it has a
      host node, none otherwise (and none for an unsafe fiber, which throws). */
  ghost function OwnAppend(F: seq<Fiber>, x: nat): (r: seq<Append>)
    requires WF(F) && x < |F|
  {
    if Safe(F, x) && F[x].stateNode.Some? then
      [Append(F[F[x].parent.value].stateNode.value, F[x].stateNode.value)]
    else []
  }

  /** `commitWork(o)`: the child chain's subtrees, then `o` itself, then the
      siblings; a throw stops the whole pass. */
  ghost function CommitForest(F: seq<Fiber>, o: Option<nat>): Commit
    requires WF(F) && InArena(F, o)
    decreases if o.Some? then |F| - o.value else 0
  {
    if o.None? then Commit([], true)
    else
      var x := o.value;
      var c := CommitForest(F, F[x].child);
      if !c.ok then c
      else if !Safe(F, x) then Commit(c.ops, false)
      else
        var s := CommitForest(F, F[x].sibling);
        Commit(c.ops + OwnAppend(F, x) + s.ops, s.ok)
  }

  /** The reference order: every subtree in post-order, the siblings after. */
  ghost function PostForest(F: seq<Fiber>, o: Option<nat>): (P: seq<nat>)
    requires WF(F) && InArena(F, o)
    ensures forall i :: 0 <= i < |P| ==> P[i] < |F|
    decreases if o.Some? then |F| - o.value else 0
  {
    if o.None? then [] else PostForest(F, F[o.value].child) + [o.value] + PostForest(F, F[o.value].sibling)
  }

  /** The position of the first fiber of `P` that cannot be committed. */
  ghost function FirstUnsafe(F: seq<Fiber>, P: seq<nat>): (n: nat)
    requires WF(F) && forall i :: 0 <= i < |P| ==> P[i] < |F|
    ensures n <= |P|
  {
    if P == [] then 0 else if !Safe(F, P[0]) then 0 else 1 + FirstUnsafe(F, P[1..])
  }

  /** Every fiber before the first unsafe one is safe. */
  lemma {:induction false} FirstUnsafeFacts(F: seq<Fiber>, P: seq<nat>)
    requires WF(F) && forall i :: 0 <= i < |P| ==> P[i] < |F|
    ensures forall i :: 0 <= i < FirstUnsafe(F, P) ==> Safe(F, P[i])
    ensures FirstUnsafe(F, P) < |P| ==> !Safe(F, P[FirstUnsafe(F, P)])
  {
    if P != [] && Safe(F, P[0]) {
      FirstUnsafeFacts(F, P[1..]);
    }
  }

  /** The appends of a run of fibers, in order. */
  ghost function Appends(F: seq<Fiber>, P: seq<nat>): seq<Append>
    requires WF(F) && forall i :: 0 <= i < |P| ==> P[i] < |F|
  {
    if P == [] then [] else OwnAppend(F, P[0]) + Appends(F, P[1..])
  }

  lemma {:induction false} AppendsConcat(F: seq<Fiber>, P: seq<nat>, Q: seq<nat>)
    requires WF(F)
    requires forall i :: 0 <= i < |P| ==> P[i] < |F|
    requires forall i :: 0 <= i < |Q| ==> Q[i] < |F|
    ensures Appends(F, P + Q) == Appends(F, P) + Appends(F, Q)
  {
    if P == [] {
      assert P + Q == Q;
    } else {
      assert (P + Q)[1..] == P[1..] + Q;
      AppendsConcat(F, P[1..], Q);
    }
  }

  lemma {:induction false} FirstUnsafeConcat(F: seq<Fiber>, P: seq<nat>, Q: seq<nat>)
    requires WF(F)
    requires forall i :: 0 <= i < |P| ==> P[i] < |F|
    requires forall i :: 0 <= i < |Q| ==> Q[i] < |F|
    ensures FirstUnsafe(F, P + Q) ==
      if FirstUnsafe(F, P) < |P| then FirstUnsafe(F, P) else |P| + FirstUnsafe(F, Q)
  {
    if P == [] {
      assert P + Q == Q;
    } else {
      assert (P + Q)[1..] == P[1..] + Q;
      FirstUnsafeConcat(F, P[1..], Q);
    }
  }

  /** The pass makes exactly the appends of the post-order up to the first
      fiber that cannot be committed, and succeeds iff there is none. */
  lemma {:induction false} CommitIsPostOrder(F: seq<Fiber>, o: Option<nat>)
    requires WF(F) && InArena(F, o)
    ensures var P := PostForest(F, o);
      var n := FirstUnsafe(F, P);
      CommitForest(F, o) == Commit(Appends(F, P[..n]), n == |P|)
    decreases if o.Some? then |F| - o.value else 0
  {
    if o.Some? {
      var x := o.value;
      CommitIsPostOrder(F, F[x].child);
      if CommitForest(F, F[x].child).ok && Safe(F, x) {
        CommitIsPostOrder(F, F[x].sibling);
      }
      CommitStep(F, x);
    }
  }

  /** The inductive step of `CommitIsPostOrder` at fiber `x`. */
  lemma {:induction false} CommitStep(F: seq<Fiber>, x: nat)
    requires WF(F) && x < |F|
    requires var Pc := PostForest(F, F[x].child);
      CommitForest(F, F[x].child) == Commit(Appends(F, Pc[..FirstUnsafe(F, Pc)]), FirstUnsafe(F, Pc) == |Pc|)
    requires CommitForest(F, F[x].child).ok && Safe(F, x) ==>
      var Ps := PostForest(F, F[x].sibling);
      CommitForest(F, F[x].sibling) == Commit(Appends(F, Ps[..FirstUnsafe(F, Ps)]), FirstUnsafe(F, Ps) == |Ps|)
    ensures var P := PostForest(F, Some(x));
      var n := FirstUnsafe(F, P);
      CommitForest(F, Some(x)) == Commit(Appends(F, P[..n]), n == |P|)
  {
    var Pc := PostForest(F, F[x].child);
    if FirstUnsafe(F, Pc) < |Pc| {
      UnsafeOrder(F, x);
    } else if !Safe(F, x) {
      UnsafeOrder(F, x);
    } else {
      SafeOrder(F, x);
      assert Pc[..|Pc|] == Pc;
      var c := CommitForest(F, F[x].child);
      var r := CommitForest(F, F[x].sibling);
      assert c.ops == Appends(F, Pc);
      assert CommitForest(F, Some(x)) == Commit(c.ops + OwnAppend(F, x) + r.ops, r.ok);
    }
  }

  /** The post-order of `x` cut at its first unsafe fiber, when that lies in
      the child subtrees or is `x` itself. */
  lemma {:induction false} UnsafeOrder(F: seq<Fiber>, x: nat)
    requires WF(F) && x < |F|
    requires var Pc := PostForest(F, F[x].child);
      FirstUnsafe(F, Pc) < |Pc| || !Safe(F, x)
    ensures var Pc := PostForest(F, F[x].child);
      var P := PostForest(F, Some(x));
      var nc := FirstUnsafe(F, Pc);
      var n := FirstUnsafe(F, P);
      n == nc && n < |P| && P[..n] == Pc[..nc]
  {
    var Pc := PostForest(F, F[x].child);
    var Ps := PostForest(F, F[x].sibling);
    var P := PostForest(F, Some(x));
    assert P == Pc + ([x] + Ps);
    FirstUnsafeConcat(F, Pc, [x] + Ps);
    assert FirstUnsafe(F, [x] + Ps) == if Safe(F, x) then 1 + FirstUnsafe(F, Ps) else 0 by {
      assert ([x] + Ps)[1..] == Ps;
    }
    PrefixOfConcat(Pc, [x] + Ps, FirstUnsafe(F, Pc));
  }

  /** The post-order of a safe fiber whose child subtrees are all safe, cut
      at its first unsafe fiber. */
  lemma {:induction false} SafeOrder(F: seq<Fiber>, x: nat)
    requires WF(F) && x < |F| && Safe(F, x)
    requires FirstUnsafe(F, PostForest(F, F[x].child)) == |PostForest(F, F[x].child)|
    ensures var Pc := PostForest(F, F[x].child);
      var Ps := PostForest(F, F[x].sibling);
      var P := PostForest(F, Some(x));
      var ns := FirstUnsafe(F, Ps);
      var n := FirstUnsafe(F, P);
      (n == |P| <==> ns == |Ps|) &&
      Appends(F, P[..n]) == Appends(F, Pc) + OwnAppend(F, x) + Appends(F, Ps[..ns])
  {
    var Pc := PostForest(F, F[x].child);
    var Ps := PostForest(F, F[x].sibling);
    var P := PostForest(F, Some(x));
    assert P == Pc + ([x] + Ps);
    FirstUnsafeConcat(F, Pc, [x] + Ps);
    assert FirstUnsafe(F, [x] + Ps) == 1 + FirstUnsafe(F, Ps) by {
      assert ([x] + Ps)[1..] == Ps;
    }
    var ns := FirstUnsafe(F, Ps);
    var n := FirstUnsafe(F, P);
    assert n == |Pc| + 1 + ns;
    SliceConcat(Pc, [x] + Ps, 1 + ns);
    SliceConcat([x], Ps, ns);
    assert P[..n] == Pc + ([x] + Ps[..ns]);
    SafeStep(F, x, Pc, Ps[..ns]);
  }

  lemma SliceConcat(a: seq<nat>, b: seq<nat>, m: nat)
    requires m <= |b|
    ensures (a + b)[..|a| + m] == a + b[..m]
  {
  }

  lemma PrefixOfConcat(a: seq<nat>, b: seq<nat>, n: nat)
    requires n <= |a|
    ensures (a + b)[..n] == a[..n]
  {
  }

  lemma {:induction false} SafeStep(F: seq<Fiber>, x: nat, Pc: seq<nat>, Q: seq<nat>)
    requires WF(F) && x < |F|
    requires forall i :: 0 <= i < |Pc| ==> Pc[i] < |F|
    requires forall i :: 0 <= i < |Q| ==> Q[i] < |F|
    ensures Appends(F, Pc + ([x] + Q)) == Appends(F, Pc) + OwnAppend(F, x) + Appends(F, Q)
  {
    AppendsConcat(F, Pc, [x] + Q);
    assert ([x] + Q)[1..] == Q;
  }

  /** The post-order holds the same fibers as the pre-order, each as often. */
  lemma {:induction false} PostOrderPermutesPreOrder(F: seq<Fiber>, o: Option<nat>)
    requires WF(F) && InArena(F, o)
    ensures multiset(PostForest(F, o)) == multiset(Forest(F, o))
    decreases if o.Some? then |F| - o.value else 0
  {
    if o.Some? {
      var x := o.value;
      PostOrderPermutesPreOrder(F, F[x].child);
      PostOrderPermutesPreOrder(F, F[x].sibling);
      assert Forest(F, o) == [x] + Forest(F, F[x].child) + Forest(F, F[x].sibling);
    }
  }

  /** Over a tree, the pass visits every fiber below the root exactly once. */
  lemma EachFiberOnce(F: seq<Fiber>, r: nat)
    requires WF(F) && r < |F| && SubOk(F, r)
    ensures multiset(PostForest(F, F[r].child)) == multiset(Forest(F, F[r].child))
    ensures Distinct(Forest(F, F[r].child))
  {
    PostOrderPermutesPreOrder(F, F[r].child);
    SubDistinct(F, r);
    assert Sub(F, r) == [r] + Forest(F, F[r].child);
    assert forall i, j :: 0 <= i < j < |Forest(F, F[r].child)| ==>
      Forest(F, F[r].child)[i] == Sub(F, r)[i + 1] && Forest(F, F[r].child)[j] == Sub(F, r)[j + 1];
  }

  lemma {:induction false} PostForestAbove(F: seq<Fiber>, o: Option<nat>, m: nat)
    requires WF(F) && InArena(F, o) && (o.Some? ==> o.value > m)
    ensures forall y :: y in PostForest(F, o) ==> y > m
    decreases if o.Some? then |F| - o.value else 0
  {
    if o.Some? {
      PostForestAbove(F, F[o.value].child, m);
      PostForestAbove(F, F[o.value].sibling, m);
    }
  }

  /** `commitRoot` starts at the root's child, so the root itself is never
      appended anywhere. */
  lemma RootNeverAppended(F: seq<Fiber>, r: nat)
    requires WF(F) && r < |F|
    ensures r !in PostForest(F, F[r].child)
  {
    PostForestAbove(F, F[r].child, r);
  }

  /** The pass reads only `child`, `sibling`, `return` and `stateNode`: flags
      (Update or Placement alike), elements and hooks make no difference. */
  lemma {:induction false} FlagsIgnored(F: seq<Fiber>, G: seq<Fiber>, o: Option<nat>)
    requires WF(F) && WF(G) && |F| == |G| && InArena(F, o)
    requires forall i :: 0 <= i < |F| ==>
      F[i].child == G[i].child && F[i].sibling == G[i].sibling &&
      F[i].parent == G[i].parent && F[i].stateNode == G[i].stateNode
    ensures CommitForest(F, o) == CommitForest(G, o)
    decreases if o.Some? then |F| - o.value else 0
  {
    if o.Some? {
      FlagsIgnored(F, G, F[o.value].child);
      FlagsIgnored(F, G, F[o.value].sibling);
    }
  }
}
