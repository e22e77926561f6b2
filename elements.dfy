/** JSX element values as the mini-react engine sees them, with the JavaScript
    truthiness tests the engine applies to them, and the normalisation of a
    fiber's `children` prop into the flat list that the reconciler walks. */
module Elements {

  datatype Option<T> = None | Some(value: T)

  /** The `type` field of an element: absent, a host tag (any string, the
      empty one included: `document.createElement` receives it as it is), or
      a function component, compared by identity (here: by its number). */
  datatype ElemType = NoType | Tag(name: string) | Fn(id: nat)

  /** A child value: a JSX object `{type, props}`, a string, a number,
      a boolean, or `null`/`undefined`. */
  datatype Element =
    | Node(ty: ElemType, props: Props)
    | Str(s: string)
    | Num(n: int)
    | Bool(b: bool)
    | Nil

  /** `props`: the attributes, which the engine never inspects, and `children`. */
  datatype Props = Props(attrs: map<string, string>, children: Children)

  /** The `children` prop: absent, a single non-array value, or an array whose
      entries are values or arrays of values (flattened one level). */
  datatype Children = Absent | One(e: Element) | Many(items: seq<Item>)
  datatype Item = Leaf(e: Element) | Group(es: seq<Element>)

  /** JavaScript truthiness of a child value. */
  predicate Truthy(e: Element)
  {
    match e
    case Node(_, _) => true
    case Str(s) => s != ""
    case Num(n) => n != 0
    case Bool(b) => b
    case Nil => false
  }

  /** `element || element === 0`: the test under which a child gets a fiber. */
  predicate Present(e: Element)
  {
    Truthy(e) || e == Num(0)
  }

  /** `element?.type`: only JSX objects have a type. */
  function TypeOf(e: Element): ElemType
  {
    if e.Node? then e.ty else NoType
  }

  /** JavaScript truthiness of `element?.type`: a missing type and the empty
      tag name are falsy, any other tag name and any function are truthy. */
  predicate TypeTruthy(t: ElemType)
  {
    t.Fn? || (t.Tag? && t.name != "")
  }

  /** `element?.props`, with absent props read as no children. */
  function ChildrenOf(e: Element): Children
  {
    if e.Node? then e.props.children else Absent
  }

  /** The values one array entry contributes: itself, or a group's members. */
  function ElemsOf(it: Item): seq<Element>
  {
    match it
    case Leaf(e) => [e]
    case Group(es) => es
  }

  /** `[children].flat()` on an array: every group is spliced in place. */
  function Flatten(items: seq<Item>): seq<Element>
  {
    if items == [] then [] else ElemsOf(items[0]) + Flatten(items[1..])
  }

  lemma {:induction false} FlattenAppend(a: seq<Item>, b: seq<Item>)
    ensures Flatten(a + b) == Flatten(a) + Flatten(b)
  {
    if a == [] {
      assert a + b == b;
    } else {
      assert (a + b)[1..] == a[1..] + b;
      FlattenAppend(a[1..], b);
    }
  }

  /** Each entry's values sit in the flat list between those of the entries
      before it and those of the entries after it. */
  lemma FlattenAt(items: seq<Item>, i: nat)
    requires i < |items|
    ensures Flatten(items) == Flatten(items[..i]) + (ElemsOf(items[i]) + Flatten(items[i + 1..]))
  {
    assert items == items[..i] + items[i..];
    FlattenAppend(items[..i], items[i..]);
    assert items[i..][1..] == items[i + 1..];
  }

  /** `FlattenAt` for every entry at once. */
  lemma FlattenSplit(items: seq<Item>)
    ensures forall i :: 0 <= i < |items| ==>
      Flatten(items) == Flatten(items[..i]) + (ElemsOf(items[i]) + Flatten(items[i + 1..]))
  {
    forall i | 0 <= i < |items|
      ensures Flatten(items) == Flatten(items[..i]) + (ElemsOf(items[i]) + Flatten(items[i + 1..]))
    {
      FlattenAt(items, i);
    }
  }

  /** Flattening a list that holds no groups leaves its values in order. */
  lemma {:induction false} FlattenLeaves(items: seq<Item>)
    requires forall i :: 0 <= i < |items| ==> items[i].Leaf?
    ensures |Flatten(items)| == |items|
    ensures forall i :: 0 <= i < |items| ==> Flatten(items)[i] == items[i].e
  {
    if items != [] {
      FlattenLeaves(items[1..]);
    }
  }

  /** The child list `performUnitOfWork` hands to the reconciler, or None when
      it skips reconciliation (`children` falsy and not 0). */
  function ChildElements(c: Children): (r: Option<seq<Element>>)
    ensures r.None? <==> c.Absent? || (c.One? && !Present(c.e))
    ensures c.One? && r.Some? ==> r.value == [c.e]
    ensures c.Many? ==> r == Some(Flatten(c.items))
    ensures c.Many? ==> forall i :: 0 <= i < |c.items| ==>
      r.value == Flatten(c.items[..i]) + (ElemsOf(c.items[i]) + Flatten(c.items[i + 1..]))
  {
    match c
    case Absent => None
    case One(e) => if Present(e) then Some([e]) else None
    case Many(items) => FlattenSplit(items); Some(Flatten(items))
  }

  /** A lone `0` child is still a child; any other falsy lone child is not,
      while an empty array is reconciled (and so removes old children). */
  lemma ZeroIsAChild()
    ensures ChildElements(One(Num(0))) == Some([Num(0)])
    ensures ChildElements(One(Str(""))) == None && ChildElements(One(Bool(false))) == None
    ensures ChildElements(One(Nil)) == None
    ensures ChildElements(Many([])) == Some([])
  {
  }
}
