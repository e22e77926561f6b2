/** The fiber records of mini-react, kept in an arena (a sequence indexed by
    fiber number) so that the cyclic `return`/`alternate` pointers become
    indices, together with the pre-order traversal order that
    `performUnitOfWork` follows (`child`, else the first `sibling` found
    walking up `return`). */
module Fibers {
  import opened Elements
  import opened Hooks

  /** A host node (DOM node or container), as the host adapter hands it out. */
  type Handle = nat

  /** The `flag` field; `NoFlag` for roots, which never get one. */
  datatype Flag = NoFlag | Placement | Update | Deletion

  /** One fiber object. `parent` is the `return` field; `index` is only set on
      Placement fibers; `hooks` is only filled for function components. */
  datatype Fiber = Fiber(
    element: Element,
    stateNode: Option<Handle>,
    parent: Option<nat>,
    alternate: Option<nat>,
    child: Option<nat>,
    sibling: Option<nat>,
    flag: Flag,
    index: Option<nat>,
    hooks: seq<Hook>)

  predicate InArena(F: seq<Fiber>, o: Option<nat>)
  {
    o.None? || o.value < |F|
  }

  /** Arena discipline: `return` and `alternate` point to older fibers,
      `child` and `sibling` to newer ones (fibers are only ever appended). */
  ghost predicate WF(F: seq<Fiber>)
  {
    forall i :: 0 <= i < |F| ==>
      (F[i].parent.Some? ==> F[i].parent.value < i) &&
      (F[i].alternate.Some? ==> F[i].alternate.value < i) &&
      (F[i].child.Some? ==> i < F[i].child.value < |F|) &&
      (F[i].sibling.Some? ==> i < F[i].sibling.value < |F|)
  }

  ghost predicate Distinct(s: seq<nat>)
  {
    forall i, j :: 0 <= i < j < |s| ==> s[i] != s[j]
  }

  /** The sibling chain starting at `o`. */
  ghost function Chain(F: seq<Fiber>, o: Option<nat>): (c: seq<nat>)
    requires WF(F) && InArena(F, o)
    ensures forall j :: 0 <= j < |c| ==> c[j] < |F|
    ensures o.None? <==> c == []
    decreases if o.Some? then |F| - o.value else 0
  {
    if o.None? then [] else [o.value] + Chain(F, F[o.value].sibling)
  }

  /** Consecutive chain entries are linked by `sibling`, the last has none,
      and the arena numbers increase along the chain. */
  lemma {:induction false} ChainLinks(F: seq<Fiber>, o: Option<nat>)
    requires WF(F) && InArena(F, o)
    ensures o.Some? ==> Chain(F, o)[0] == o.value
    ensures forall j | 0 <= j < |Chain(F, o)| :: F[Chain(F, o)[j]].sibling.Some? == (j + 1 < |Chain(F, o)|)
    ensures forall j | 0 <= j < |Chain(F, o)| - 1 :: F[Chain(F, o)[j]].sibling.value == Chain(F, o)[j + 1]
    ensures forall i, j | 0 <= i < j < |Chain(F, o)| :: Chain(F, o)[i] < Chain(F, o)[j]
    decreases if o.Some? then |F| - o.value else 0
  {
    if o.Some? {
      var x := o.value;
      ChainLinks(F, F[x].sibling);
      var c := Chain(F, o);
      var rest := Chain(F, F[x].sibling);
      assert c == [x] + rest;
      forall j | 0 <= j < |c| ensures F[c[j]].sibling.Some? == (j + 1 < |c|) {
        if j > 0 { assert c[j] == rest[j - 1]; }
      }
      forall j | 0 <= j < |c| - 1 ensures F[c[j]].sibling.value == c[j + 1] {
        if j > 0 {
          assert c[j] == rest[j - 1] && c[j + 1] == rest[j];
        } else {
          assert c[1] == rest[0];
        }
      }
      forall i, j | 0 <= i < j < |c| ensures c[i] < c[j] {
        if i == 0 {
          assert rest[0] <= rest[j - 1] by {
            if j - 1 > 0 { assert rest[0] < rest[j - 1]; }
          }
        }
      }
    }
  }

  /** Pre-order of the subtree at `r`: `r`, then its children's subtrees. */
  ghost function Sub(F: seq<Fiber>, r: nat): seq<nat>
    requires WF(F) && r < |F|
    decreases |F| - r, 0
  {
    [r] + Forest(F, F[r].child)
  }

  /** Pre-order of the subtrees of the sibling chain starting at `o`. */
  ghost function Forest(F: seq<Fiber>, o: Option<nat>): seq<nat>
    requires WF(F) && InArena(F, o)
    decreases if o.Some? then |F| - o.value else 0, 1
  {
    if o.None? then [] else Sub(F, o.value) + Forest(F, F[o.value].sibling)
  }

  /** The subtree at `r` is a tree: every fiber in a child chain has its
      `return` set to the fiber owning the chain. */
  ghost predicate SubOk(F: seq<Fiber>, r: nat)
    requires WF(F) && r < |F|
    decreases |F| - r, 0
  {
    ForestOk(F, F[r].child, r)
  }

  ghost predicate ForestOk(F: seq<Fiber>, o: Option<nat>, p: nat)
    requires WF(F) && InArena(F, o)
    decreases if o.Some? then |F| - o.value else 0, 1
  {
    o.None? ||
    (F[o.value].parent == Some(p) && SubOk(F, o.value) && ForestOk(F, F[o.value].sibling, p))
  }

  /** The walk up `return` links to the first fiber with a sibling. */
  ghost function Climb(F: seq<Fiber>, x: nat): (r: Option<nat>)
    requires WF(F) && x < |F|
    ensures InArena(F, r)
    decreases x
  {
    if F[x].sibling.Some? then F[x].sibling
    else if F[x].parent.Some? then Climb(F, F[x].parent.value)
    else None
  }

  /** The unit of work after `x` (fiber.js lines 57-73). */
  ghost function NextUnit(F: seq<Fiber>, x: nat): (r: Option<nat>)
    requires WF(F) && x < |F|
    ensures InArena(F, r)
    ensures F[x].child.Some? ==> r == F[x].child
  {
    if F[x].child.Some? then F[x].child else Climb(F, x)
  }

  ghost function Last(s: seq<nat>): nat
    requires |s| > 0
  {
    s[|s| - 1]
  }

  /** Inside a subtree, NextUnit steps through the pre-order; from its last
      fiber (a leaf) it continues where it would from the subtree's root. */
  lemma {:induction false} SubTraversal(F: seq<Fiber>, r: nat)
    requires WF(F) && r < |F| && SubOk(F, r)
    ensures var P := Sub(F, r);
      P[0] == r &&
      (forall i :: 0 <= i < |P| - 1 ==> P[i] < |F| && NextUnit(F, P[i]) == Some(P[i + 1])) &&
      Last(P) < |F| && F[Last(P)].child.None? && Climb(F, Last(P)) == Climb(F, r)
    decreases |F| - r, 0
  {
    var P := Sub(F, r);
    if F[r].child.Some? {
      var c := F[r].child.value;
      ForestTraversal(F, c, r);
      var Q := Forest(F, Some(c));
      assert P == [r] + Q;
      forall i | 0 <= i < |P| - 1 ensures P[i] < |F| && NextUnit(F, P[i]) == Some(P[i + 1]) {
        if i > 0 { assert P[i] == Q[i - 1] && P[i + 1] == Q[i]; }
      }
    }
  }

  lemma {:induction false} ForestTraversal(F: seq<Fiber>, c: nat, p: nat)
    requires WF(F) && c < |F| && ForestOk(F, Some(c), p)
    ensures p < |F|
    ensures var P := Forest(F, Some(c));
      |P| > 0 && P[0] == c &&
      (forall i :: 0 <= i < |P| - 1 ==> P[i] < |F| && NextUnit(F, P[i]) == Some(P[i + 1])) &&
      Last(P) < |F| && F[Last(P)].child.None? && Climb(F, Last(P)) == Climb(F, p)
    decreases |F| - c, 1
  {
    SubTraversal(F, c);
    var S := Sub(F, c);
    var P := Forest(F, Some(c));
    assert P == S + Forest(F, F[c].sibling);
    if F[c].sibling.None? {
      assert P == S;
    } else {
      var s := F[c].sibling.value;
      ForestTraversal(F, s, p);
      var R := Forest(F, Some(s));
      assert P == S + R;
      forall i | 0 <= i < |P| - 1 ensures P[i] < |F| && NextUnit(F, P[i]) == Some(P[i + 1]) {
        if i < |S| - 1 {
          assert P[i] == S[i] && P[i + 1] == S[i + 1];
        } else if i == |S| - 1 {
          assert P[i] == Last(S) && P[i + 1] == R[0];
        } else {
          assert P[i] == R[i - |S|] && P[i + 1] == R[i + 1 - |S|];
        }
      }
      assert Last(P) == Last(R);
    }
  }

  /** `a` is `z` or an ancestor of `z` along `return` links. */
  ghost predicate Desc(F: seq<Fiber>, a: nat, z: nat)
    requires WF(F) && z < |F|
    decreases z
  {
    z == a || (F[z].parent.Some? && Desc(F, a, F[z].parent.value))
  }

  lemma {:induction false} DescLe(F: seq<Fiber>, a: nat, z: nat)
    requires WF(F) && z < |F| && Desc(F, a, z)
    ensures a <= z
    decreases z
  {
    if z != a { DescLe(F, a, F[z].parent.value); }
  }

  lemma {:induction false} DescStep(F: seq<Fiber>, c: nat, z: nat, p: nat)
    requires WF(F) && c < |F| && z < |F| && Desc(F, c, z) && F[c].parent == Some(p)
    ensures Desc(F, p, z)
    decreases z
  {
    if z != c { DescStep(F, c, F[z].parent.value, p); }
  }

  /** Two siblings (same `return`) never share a descendant. */
  lemma {:induction false} DescUnique(F: seq<Fiber>, a: nat, b: nat, z: nat, p: nat)
    requires WF(F) && a < |F| && b < |F| && z < |F|
    requires Desc(F, a, z) && Desc(F, b, z)
    requires F[a].parent == Some(p) && F[b].parent == Some(p)
    ensures a == b
    decreases z
  {
    if z == a {
      if a != b { DescLe(F, b, p); }
    } else if z == b {
      DescLe(F, a, p);
    } else {
      DescUnique(F, a, b, F[z].parent.value, p);
    }
  }

  lemma {:induction false} SubDesc(F: seq<Fiber>, r: nat)
    requires WF(F) && r < |F| && SubOk(F, r)
    ensures forall z :: z in Sub(F, r) ==> z < |F| && Desc(F, r, z)
    decreases |F| - r, 0
  {
    if F[r].child.Some? {
      ForestDesc(F, F[r].child, r);
    }
  }

  lemma {:induction false} ForestDesc(F: seq<Fiber>, o: Option<nat>, p: nat)
    requires WF(F) && InArena(F, o) && p < |F| && ForestOk(F, o, p)
    ensures forall z :: z in Forest(F, o) ==> z < |F| && Desc(F, p, z)
    decreases if o.Some? then |F| - o.value else 0, 1
  {
    if o.Some? {
      var c := o.value;
      SubDesc(F, c);
      ForestDesc(F, F[c].sibling, p);
      forall z | z in Sub(F, c) ensures Desc(F, p, z) {
        DescStep(F, c, z, p);
      }
    }
  }

  /** No fiber of a later sibling's forest descends from `c`. */
  lemma {:induction false} ForestNotDesc(F: seq<Fiber>, o: Option<nat>, p: nat, c: nat)
    requires WF(F) && InArena(F, o) && c < |F| && ForestOk(F, o, p)
    requires F[c].parent == Some(p) && (o.Some? ==> c < o.value)
    ensures forall z :: z in Forest(F, o) ==> z < |F| && !Desc(F, c, z)
    decreases if o.Some? then |F| - o.value else 0, 1
  {
    if o.Some? {
      var d := o.value;
      SubDesc(F, d);
      ForestNotDesc(F, F[d].sibling, p, c);
      forall z | z in Sub(F, d) ensures !Desc(F, c, z) {
        if Desc(F, c, z) { DescUnique(F, c, d, z, p); }
      }
    }
  }

  lemma DistinctConcat(a: seq<nat>, b: seq<nat>)
    requires Distinct(a) && Distinct(b) && forall x :: x in a ==> x !in b
    ensures Distinct(a + b)
  {
    forall i, j | 0 <= i < j < |a + b| ensures (a + b)[i] != (a + b)[j] {
      if j >= |a| && i < |a| { assert (a + b)[j] == b[j - |a|]; assert a[i] in a; }
    }
  }

  lemma {:induction false} SubDistinct(F: seq<Fiber>, r: nat)
    requires WF(F) && r < |F| && SubOk(F, r)
    ensures Distinct(Sub(F, r))
    decreases |F| - r, 0
  {
    if F[r].child.Some? {
      var c := F[r].child.value;
      ForestDistinct(F, Some(c), r);
      SubDesc(F, c);
      forall z | z in Forest(F, Some(c)) ensures z != r {
        ForestDesc(F, Some(c), r);
        SubDesc(F, c);
        if z in Sub(F, c) {
          DescLe(F, c, z);
        } else {
          assert z in Forest(F, F[c].sibling);
          ForestDesc(F, F[c].sibling, r);
          ForestNotDesc(F, F[c].sibling, r, c);
          // z descends from r through a sibling of c, all of which are newer than r
          DescWithin(F, F[c].sibling, r);
        }
      }
      DistinctConcat([r], Forest(F, Some(c)));
    }
  }

  /** Every fiber of the forest at `o` is newer than `o`'s head. */
  lemma {:induction false} DescWithin(F: seq<Fiber>, o: Option<nat>, p: nat)
    requires WF(F) && InArena(F, o) && ForestOk(F, o, p)
    ensures forall z :: z in Forest(F, o) ==> o.value <= z
    decreases if o.Some? then |F| - o.value else 0, 1
  {
    if o.Some? {
      var c := o.value;
      SubDesc(F, c);
      forall z | z in Sub(F, c) ensures c <= z { DescLe(F, c, z); }
      DescWithin(F, F[c].sibling, p);
    }
  }

  lemma {:induction false} ForestDistinct(F: seq<Fiber>, o: Option<nat>, p: nat)
    requires WF(F) && InArena(F, o) && ForestOk(F, o, p)
    ensures Distinct(Forest(F, o))
    decreases if o.Some? then |F| - o.value else 0, 1
  {
    if o.Some? {
      var c := o.value;
      SubDistinct(F, c);
      ForestDistinct(F, F[c].sibling, p);
      SubDesc(F, c);
      ForestNotDesc(F, F[c].sibling, p, c);
      DistinctConcat(Sub(F, c), Forest(F, F[c].sibling));
    }
  }

  /** From a root (no `return`, no `sibling`) over a well-formed tree, the
      next-unit function enumerates the pre-order of the tree, each fiber
      exactly once, and ends with no next unit. */
  lemma PreOrderTraversal(F: seq<Fiber>, r: nat)
    requires WF(F) && r < |F| && SubOk(F, r)
    requires F[r].parent.None? && F[r].sibling.None?
    ensures var P := Sub(F, r);
      P[0] == r && Distinct(P) &&
      (forall i :: 0 <= i < |P| - 1 ==> P[i] < |F| && NextUnit(F, P[i]) == Some(P[i + 1])) &&
      Last(P) < |F| && NextUnit(F, Last(P)) == None
  {
    SubTraversal(F, r);
    SubDistinct(F, r);
  }
}
