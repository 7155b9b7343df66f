/** Virtual-DOM patching against mounting from scratch. Real nodes are values
    here: a node that is patched is put back where it was. */
module VirtualDom {
  import opened Wrappers

  type Props = map<string, string>

  /** A virtual node: a string or number leaf (by its text), or an element. */
  datatype VNode = VText(text: string) | VNumber(text: string) | VElement(tag: string, props: Props, children: seq<VNode>)

  datatype Node = TextNode(text: string) | Element(tag: string, attrs: Props, children: seq<Node>)

  /** Names the `in` operator finds on every object. */
  const INHERITED: set<string> := {
    "constructor", "hasOwnProperty", "isPrototypeOf", "propertyIsEnumerable", "toLocaleString", "toString", "valueOf",
    "__defineGetter__", "__defineSetter__", "__lookupGetter__", "__lookupSetter__"}

  // ----- mounting from scratch -----

  function Mount(v: VNode): Node
    decreases v, 0
  {
    match v
    case VText(t) => TextNode(t)
    case VNumber(t) => TextNode(t)
    case VElement(tag, props, cs) => Element(tag, props, MountAll(cs))
  }

  function MountAll(vs: seq<VNode>): (r: seq<Node>)
    ensures |r| == |vs|
    decreases vs, 1
  {
    if vs == [] then [] else MountAll(vs[..|vs| - 1]) + [Mount(vs[|vs| - 1])]
  }

  lemma {:induction false} MountAt(vs: seq<VNode>, i: nat)
    requires i < |vs|
    ensures MountAll(vs)[i] == Mount(vs[i])
  {
    hide Mount;
    if i < |vs| - 1 {
      MountAt(vs[..|vs| - 1], i);
    }
  }

  lemma {:induction false} MountNext(vs: seq<VNode>, i: nat)
    requires i < |vs|
    ensures MountAll(vs)[..i + 1] == MountAll(vs)[..i] + [Mount(vs[i])]
  {
    hide Mount, MountAll;
    MountAt(vs, i);
  }

  /** Sets every property as an attribute of a new element. */
  method SetAttributes(props: Props) returns (attrs: Props)
    ensures attrs == props
  {
    attrs := map[];
    var keys := props.Keys;
    while keys != {}
      invariant keys <= props.Keys && attrs == props - keys
      decreases |keys|
    {
      var k :| k in keys;
      attrs := attrs[k := props[k]];
      keys := keys - {k};
    }
  }

  /** Creates an element: attributes, then children one by one. */
  method CreateElementFromVNode(v: VNode) returns (r: Node)
    ensures r == Mount(v)
    decreases v
  {
    if !v.VElement? { return TextNode(v.text); }
    var attrs := SetAttributes(v.props);
    r := Element(v.tag, attrs, []);
    var i := 0;
    while i < |v.children|
      invariant i <= |v.children|
      invariant r == Element(v.tag, v.props, MountAll(v.children)[..i])
    {
      hide Mount, MountAll;
      var c := CreateElementFromVNode(v.children[i]);
      MountNext(v.children, i);
      r := r.(children := r.children + [c]);
      i := i + 1;
    }
  }

  // ----- patching -----

  predicate IsText(v: VNode) { !v.VElement? }

  predicate Changed(a: VNode, b: VNode) {
    if a.VText? != b.VText? || a.VNumber? != b.VNumber? then true
    else if IsText(a) then a.text != b.text
    else a.tag != b.tag
  }

  /** The attributes after an update. */
  function PropsAfter(attrs: Props, n: Props, o: Props): Props {
    attrs + (map k | k in n && Sets(n, o, k) :: n[k]) - (set k | k in o && Drops(n, o, k))
  }

  predicate Sets(n: Props, o: Props, k: string) { k in n && !(k in o && o[k] == n[k]) }

  predicate Drops(n: Props, o: Props, k: string) { k in o && !(k in n || k in INHERITED) }

  method UpdateProps(attrs: Props, n: Props, o: Props) returns (r: Props)
    ensures r == PropsAfter(attrs, n, o)
  {
    hide Sets, Drops;
    r := attrs;
    var keys := n.Keys;
    while keys != {}
      invariant keys <= n.Keys
      invariant forall k :: k in r <==> k in attrs || (k in n && k !in keys && Sets(n, o, k))
      invariant forall k :: k in r ==> r[k] == if k in n && k !in keys && Sets(n, o, k) then n[k] else attrs[k]
      decreases |keys|
    {
      var k :| k in keys;
      if Sets(n, o, k) { r := r[k := n[k]]; }
      keys := keys - {k};
    }
    ghost var merged := r;
    keys := o.Keys;
    while keys != {}
      invariant keys <= o.Keys
      invariant forall k :: k in r <==> k in merged && (k in o && k !in keys ==> !Drops(n, o, k))
      invariant forall k :: k in r ==> r[k] == merged[k]
      decreases |keys|
    {
      var k :| k in keys;
      if Drops(n, o, k) { r := r - {k}; }
      keys := keys - {k};
    }
    PropsPointwise(attrs, n, o, r);
  }

  lemma PropsPointwise(attrs: Props, n: Props, o: Props, r: Props)
    requires forall k :: k in r <==> (k in attrs || (k in n && Sets(n, o, k))) && (k in o ==> !Drops(n, o, k))
    requires forall k :: k in r ==> r[k] == if k in n && Sets(n, o, k) then n[k] else attrs[k]
    ensures r == PropsAfter(attrs, n, o)
  {
    var q := PropsAfter(attrs, n, o);
    assert forall k :: k in q <==> k in r;
    assert q.Keys == r.Keys;
    assert forall k :: k in r ==> r[k] == q[k];
  }

  /** Array splice with no deletions: past the end means at the end. */
  function InsertAt(cs: seq<Node>, node: Node, index: nat): seq<Node> {
    if index >= |cs| then cs + [node] else cs[..index] + [node] + cs[index..]
  }

  function RemoveAt(cs: seq<Node>, index: nat): seq<Node> {
    if index < |cs| then cs[..index] + cs[index + 1..] else cs
  }

  /** A matched pair of virtual nodes applied to a real node. */
  function Patch(el: Node, n: VNode, o: VNode): Node
    decreases n, 0
  {
    if Changed(n, o) then Mount(n)
    else if IsText(n) || el.TextNode? || !o.VElement? then el
    else
      var max := if |n.children| > |o.children| then |n.children| else |o.children|;
      Element(el.tag, PropsAfter(el.attrs, n.props, o.props), PatchChildren(el.children, n.children, o.children, max))
  }

  /** Children k - 1 down to 0. */
  function PatchChildren(cs: seq<Node>, ns: seq<VNode>, os: seq<VNode>, k: nat): seq<Node>
    decreases ns, 1, k
  {
    if k == 0 then cs
    else PatchChildren(PatchAt(cs, ns, os, k - 1), ns, os, k - 1)
  }

  /** Child i: added, removed or matched. */
  function PatchAt(cs: seq<Node>, ns: seq<VNode>, os: seq<VNode>, i: nat): seq<Node>
    decreases ns, 0
  {
    if i >= |os| then (if i < |ns| then InsertAt(cs, Mount(ns[i]), i) else cs)
    else if i >= |ns| then RemoveAt(cs, i)
    else if i < |cs| then cs[i := Patch(cs[i], ns[i], os[i])]
    else cs
  }

  /** The virtual child at an index, if there is one. */
  function Child(vs: seq<VNode>, i: nat): Option<VNode> { if i < |vs| then Some(vs[i]) else None }

  /** What one call does to a parent's children: with no old node the new one is
      added, with no new node the child is removed, otherwise it is patched. */
  function UpdateAt(cs: seq<Node>, n: Option<VNode>, o: Option<VNode>, i: nat): seq<Node> {
    if o.None? then (if n.Some? then InsertAt(cs, Mount(n.value), i) else cs)
    else if n.None? then RemoveAt(cs, i)
    else if i < |cs| then cs[i := Patch(cs[i], n.value, o.value)]
    else cs
  }

  lemma PatchIsUpdate(cs: seq<Node>, ns: seq<VNode>, os: seq<VNode>, i: nat)
    ensures PatchAt(cs, ns, os, i) == UpdateAt(cs, Child(ns, i), Child(os, i), i)
  {
    hide Patch;
  }

  /** Applies a pair of virtual nodes, either of which may be missing, to a parent's
      child `index`; children are walked from the last to the first. Without a
      real child to patch or remove nothing happens here; the source throws. */
  method UpdateElement(cs: seq<Node>, n: Option<VNode>, o: Option<VNode>, index: nat) returns (r: seq<Node>)
    requires n.Some? || o.Some?
    ensures r == UpdateAt(cs, n, o, index)
    decreases n.Some?, if n.Some? then n.value else VText("")
  {
    if o.None? {
      var c := CreateElementFromVNode(n.value);
      return InsertAt(cs, c, index);
    }
    if n.None? { return RemoveAt(cs, index); }
    if index >= |cs| { return cs; }
    if Changed(n.value, o.value) {
      var c := CreateElementFromVNode(n.value);
      return cs[index := c];
    }
    if IsText(n.value) || cs[index].TextNode? || !o.value.VElement? { return cs; }
    var ns, os := n.value.children, o.value.children;
    var el := cs[index];
    var attrs := UpdateProps(el.attrs, n.value.props, o.value.props);
    el := el.(attrs := attrs);
    var max := if |ns| > |os| then |ns| else |os|;
    var i: nat := max;
    while i > 0
      invariant i <= max && el.Element? && el.tag == cs[index].tag
      invariant el.attrs == PropsAfter(cs[index].attrs, n.value.props, o.value.props)
      invariant PatchChildren(el.children, ns, os, i) == PatchChildren(cs[index].children, ns, os, max)
    {
      i := i - 1;
      PatchIsUpdate(el.children, ns, os, i);
      var children := UpdateElement(el.children, Child(ns, i), Child(os, i), i);
      el := el.(children := children);
    }
    return cs[index := el];
  }

  /** Mounting a tree, replacing it by another and taking it away again, among the
      siblings that a parent has before and after it. */
  lemma RootCalls(before: seq<Node>, after: seq<Node>, n: VNode, o: VNode)
    ensures UpdateAt(before + after, Some(n), None, |before|) == before + [Mount(n)] + after
    ensures UpdateAt(before + [Mount(o)] + after, None, Some(o), |before|) == before + after
    ensures UpdateAt(before + [Mount(o)] + after, Some(n), Some(o), |before|) == before + [Mount(n)] + after <==> PatchOk(n, o)
  {
    hide Mount, Patch, PatchOk;
    PatchExact(n, o);
    var cs := before + [Mount(o)] + after;
    assert cs[|before|] == Mount(o);
    assert cs[|before| := Patch(Mount(o), n, o)] == before + [Patch(Mount(o), n, o)] + after;
    if cs[|before| := Patch(Mount(o), n, o)] == before + [Mount(n)] + after {
      assert (before + [Mount(n)] + after)[|before|] == Mount(n);
    }
  }

  // ----- the order new children end up in -----

  /** With g new children, the one that lands at place p. */
  function Landed(g: nat, p: nat): (r: nat)
    requires p < g
    ensures r < g && r == Place(g, 0, p)
  {
    if p % 2 == 0 then p / 2 else g - 1 - p / 2
  }

  /** The real children after adding new children g - 1 down to j behind m old ones. */
  function Added(base: seq<Node>, a: seq<Node>, j: nat): seq<Node>
    requires j <= |a|
    decreases |a| - j
  {
    if j == |a| then base else InsertAt(Added(base, a, j + 1), a[j], |base| + j)
  }

  /** Which new child stands at place p once j and later have been added. */
  function Place(g: nat, j: nat, p: nat): int {
    if p < j then g - 1 - p else if (p - j) % 2 == 0 then j + (p - j) / 2 else g - 1 - j - (p - j) / 2
  }

  ghost predicate InOrder(base: seq<Node>, a: seq<Node>, j: nat, r: seq<Node>)
    requires j <= |a|
  {
    && |r| == |base| + |a| - j && r[..|base|] == base
    && forall p :: 0 <= p < |a| - j ==> 0 <= Place(|a|, j, p) < |a| && r[|base| + p] == a[Place(|a|, j, p)]
  }

  lemma {:induction false} AddedOrder(base: seq<Node>, a: seq<Node>, j: nat)
    requires j <= |a|
    ensures InOrder(base, a, j, Added(base, a, j))
    decreases |a| - j
  {
    if j < |a| {
      AddedOrder(base, a, j + 1);
      OneMore(base, a, j, Added(base, a, j + 1));
    }
  }

  lemma OneMore(base: seq<Node>, a: seq<Node>, j: nat, was: seq<Node>)
    requires j < |a| && InOrder(base, a, j + 1, was)
    ensures InOrder(base, a, j, InsertAt(was, a[j], |base| + j))
  {
    hide Place;
    var g, b, now := |a|, |base|, InsertAt(was, a[j], |base| + j);
    forall p | 0 <= p < g - j ensures 0 <= Place(g, j, p) < g && now[b + p] == a[Place(g, j, p)] {
      PlaceStep(g, j, p);
      if p < j && p < g - 1 - j {
        assert now[b + p] == was[b + p];
      } else if p > j {
        assert now[b + p] == was[b + (p - 1)];
      }
    }
  }

  lemma PlaceStep(g: nat, j: nat, p: nat)
    requires j < g && p < g - j
    ensures 0 <= Place(g, j, p) < g
    ensures p < j ==> Place(g, j, p) == Place(g, j + 1, p)
    ensures p == j || (p == g - 1 - j && p < j) ==> Place(g, j, p) == j
    ensures p > j ==> Place(g, j, p) == Place(g, j + 1, p - 1)
  {
    if p > j {
      var d := p - j;
      assert d % 2 == 0 ==> (d - 1) % 2 == 1 || d == 1;
      assert p - 1 == j || (p - 1 - (j + 1)) == d - 2;
      assert (d - 2) % 2 == d % 2 && (d - 2) / 2 == d / 2 - 1;
    }
  }

  // ----- when patching gives the new tree -----

  /** New children standing where others should are all equal to those, which holds
      for one or two of them and fails for three or more different ones. */
  ghost predicate GainsOk(a: seq<Node>) {
    forall p {:trigger Landed(|a|, p)} :: 0 <= p < |a| ==> a[p] == a[Landed(|a|, p)]
  }

  /** Dropped properties are ones that `in` does not find anyway. */
  predicate PropsOk(n: Props, o: Props) { forall k :: k in o && k !in n ==> k !in INHERITED }

  function Tail(vs: seq<VNode>, m: nat): seq<VNode> { if m <= |vs| then vs[m..] else [] }

  ghost predicate PatchOk(n: VNode, o: VNode)
    decreases n
  {
    !Changed(n, o) && !IsText(n) ==>
    && o.VElement? && PropsOk(n.props, o.props)
    && (forall i :: 0 <= i < |n.children| && i < |o.children| ==> PatchOk(n.children[i], o.children[i]))
    && GainsOk(MountAll(Tail(n.children, |o.children|)))
  }

  lemma PropsExact(n: Props, o: Props)
    ensures PropsAfter(o, n, o) == n <==> PropsOk(n, o)
  {
    var r := PropsAfter(o, n, o);
    forall k ensures k in r <==> k in n || (k in o && k in INHERITED) {
    }
    forall k | k in n ensures k in r && r[k] == n[k] {
    }
    if PropsOk(n, o) {
      assert r.Keys == n.Keys;
    } else {
      var k :| k in o && k !in n && k in INHERITED;
      assert k in r;
    }
  }

  /** The additions, for i from |ns| - 1 down to |os|. */
  lemma {:induction false} AddPhase(ns: seq<VNode>, os: seq<VNode>, k: nat)
    requires |os| <= k <= |ns|
    ensures PatchChildren(MountAll(os), ns, os, |ns|)
         == PatchChildren(Added(MountAll(os), MountAll(ns[|os|..]), k - |os|), ns, os, k)
    decreases |ns| - k
  {
    hide Mount, MountAll, InsertAt;
    if k < |ns| {
      AddPhase(ns, os, k + 1);
      MountAt(ns[|os|..], k - |os|);
    }
  }

  /** The removals, for i from |os| - 1 down to |ns|. */
  lemma {:induction false} RemovePhase(ns: seq<VNode>, os: seq<VNode>, k: nat)
    requires |ns| <= k <= |os|
    ensures PatchChildren(MountAll(os), ns, os, |os|) == PatchChildren(MountAll(os)[..k], ns, os, k)
    decreases |os| - k
  {
    hide Mount, MountAll;
    if k < |os| {
      RemovePhase(ns, os, k + 1);
      var cs := MountAll(os)[..k + 1];
      assert RemoveAt(cs, k) == MountAll(os)[..k];
    } else {
      assert MountAll(os)[..k] == MountAll(os);
    }
  }

  /** The matched children: each is patched in its own place. */
  lemma {:induction false} MatchPhase(cs: seq<Node>, ns: seq<VNode>, os: seq<VNode>, k: nat)
    requires k <= |ns| && k <= |os| && k <= |cs|
    ensures var r := PatchChildren(cs, ns, os, k);
      && |r| == |cs| && r[k..] == cs[k..]
      && forall i :: 0 <= i < k ==> r[i] == Patch(cs[i], ns[i], os[i])
    decreases k
  {
    if k > 0 {
      MatchPhase(PatchAt(cs, ns, os, k - 1), ns, os, k - 1);
    }
  }

  function Least(a: nat, b: nat): nat { if a < b then a else b }

  /** The children before the matched ones are patched: the old ones that stay,
      then the new ones in the order they landed. */
  lemma ChildrenShape(ns: seq<VNode>, os: seq<VNode>) returns (cs: seq<Node>)
    ensures var max := if |ns| > |os| then |ns| else |os|; var m := Least(|ns|, |os|); var a := MountAll(Tail(ns, |os|));
      && PatchChildren(MountAll(os), ns, os, max) == PatchChildren(cs, ns, os, m)
      && |cs| == |ns| && cs[..m] == MountAll(os)[..m] && |a| == |ns| - m
      && forall p :: 0 <= p < |a| ==> cs[m + p] == a[Landed(|a|, p)]
  {
    hide Mount, MountAll, PatchChildren, Added;
    if |ns| > |os| {
      AddPhase(ns, os, |os|);
      cs := Added(MountAll(os), MountAll(ns[|os|..]), 0);
      AddedOrder(MountAll(os), MountAll(ns[|os|..]), 0);
      var a := MountAll(ns[|os|..]);
      forall p | 0 <= p < |a| ensures cs[|os| + p] == a[Landed(|a|, p)] {
        assert cs[|MountAll(os)| + p] == a[Place(|a|, 0, p)];
      }
    } else {
      RemovePhase(ns, os, |ns|);
      cs := MountAll(os)[..|ns|];
    }
  }

  /** Patching the mounted old tree gives the mounted new tree exactly when the
      condition holds. */
  lemma {:induction false} PatchExact(n: VNode, o: VNode)
    ensures Patch(Mount(o), n, o) == Mount(n) <==> PatchOk(n, o)
    decreases n
  {
    if !Changed(n, o) && !IsText(n) {
      hide Patch, Mount, PatchOk;
      var ns, os := n.children, o.children;
      forall i | 0 <= i < Least(|ns|, |os|) ensures Patch(Mount(os[i]), ns[i], os[i]) == Mount(ns[i]) <==> PatchOk(ns[i], os[i]) {
        PatchExact(ns[i], os[i]);
      }
      ChildrenExact(ns, os);
      PatchElement(n, o);
    } else {
      PatchOther(n, o);
    }
  }

  lemma {:induction false} PatchOther(n: VNode, o: VNode)
    requires Changed(n, o) || IsText(n)
    ensures Patch(Mount(o), n, o) == Mount(n) && PatchOk(n, o)
  {
  }

  /** Attributes and children, once the children are settled. */
  lemma {:induction false} PatchElement(n: VNode, o: VNode)
    requires !Changed(n, o) && !IsText(n)
    requires var ns, os := n.children, o.children; var max := if |ns| > |os| then |ns| else |os|;
      PatchChildren(MountAll(os), ns, os, max) == MountAll(ns)
      <==> (forall i :: 0 <= i < |ns| && i < |os| ==> PatchOk(ns[i], os[i])) && GainsOk(MountAll(Tail(ns, |os|)))
    ensures Patch(Mount(o), n, o) == Mount(n) <==> PatchOk(n, o)
  {
    hide PatchChildren, MountAll, PropsAfter, PropsOk, GainsOk, Tail;
    PropsExact(n.props, o.props);
  }

  lemma {:induction false} ChildrenExact(ns: seq<VNode>, os: seq<VNode>)
    requires forall i :: 0 <= i < Least(|ns|, |os|) ==> (Patch(Mount(os[i]), ns[i], os[i]) == Mount(ns[i]) <==> PatchOk(ns[i], os[i]))
    ensures var max := if |ns| > |os| then |ns| else |os|;
      PatchChildren(MountAll(os), ns, os, max) == MountAll(ns)
      <==> (forall i :: 0 <= i < |ns| && i < |os| ==> PatchOk(ns[i], os[i])) && GainsOk(MountAll(Tail(ns, |os|)))
  {
    hide Patch, Mount, MountAll, PatchOk, PatchChildren, GainsOk;
    var m, a := Least(|ns|, |os|), MountAll(Tail(ns, |os|));
    var cs := ChildrenShape(ns, os);
    MatchPhase(cs, ns, os, m);
    var r := PatchChildren(cs, ns, os, m);
    forall i | 0 <= i < m ensures r[i] == Mount(ns[i]) <==> PatchOk(ns[i], os[i]) {
      MountAt(os, i);
      assert cs[i] == cs[..m][i] == Mount(os[i]);
    }
    forall p | 0 <= p < |a| ensures r[m + p] == a[Landed(|a|, p)] && Mount(ns[m + p]) == a[p] {
      assert r[m + p] == r[m..][p] == cs[m..][p];
      MountAt(Tail(ns, |os|), p);
    }
    assert Patched(r, ns, os, a, m);
    ChildrenEqual(r, ns, os, a, m);
  }

  /** What the patched children are, place by place. */
  ghost predicate Patched(r: seq<Node>, ns: seq<VNode>, os: seq<VNode>, a: seq<Node>, m: nat) {
    && |r| == |ns| && m == Least(|ns|, |os|) && |a| == |ns| - m
    && (forall i :: 0 <= i < m ==> (r[i] == Mount(ns[i]) <==> PatchOk(ns[i], os[i])))
    && (forall p {:trigger Landed(|a|, p)} :: 0 <= p < |a| ==> r[m + p] == a[Landed(|a|, p)])
    && (forall p :: 0 <= p < |a| ==> Mount(ns[m + p]) == a[p])
  }

  lemma ChildrenEqual(r: seq<Node>, ns: seq<VNode>, os: seq<VNode>, a: seq<Node>, m: nat)
    requires Patched(r, ns, os, a, m)
    ensures r == MountAll(ns) <==> (forall i :: 0 <= i < m ==> PatchOk(ns[i], os[i])) && GainsOk(a)
  {
    hide *;
    Shapes(r, ns, os, a, m);
    if r == MountAll(ns) {
      EqualThenOk(r, ns, os, a, m);
    } else if (forall i :: 0 <= i < m ==> PatchOk(ns[i], os[i])) && GainsOk(a) {
      OkThenEqual(r, ns, os, a, m);
    }
  }

  lemma Shapes(r: seq<Node>, ns: seq<VNode>, os: seq<VNode>, a: seq<Node>, m: nat)
    requires Patched(r, ns, os, a, m)
    ensures m <= |ns| && m <= |os|
  {
  }

  lemma EqualThenOk(r: seq<Node>, ns: seq<VNode>, os: seq<VNode>, a: seq<Node>, m: nat)
    requires Patched(r, ns, os, a, m) && r == MountAll(ns)
    ensures (forall i :: 0 <= i < m ==> PatchOk(ns[i], os[i])) && GainsOk(a)
  {
    hide Mount, MountAll, PatchOk, Place;
    forall i | 0 <= i < |ns| ensures r[i] == Mount(ns[i]) {
      MountAt(ns, i);
    }
    forall p | 0 <= p < |a| ensures a[p] == a[Landed(|a|, p)] {
      assert r[m + p] == Mount(ns[m + p]);
    }
  }

  lemma OkThenEqual(r: seq<Node>, ns: seq<VNode>, os: seq<VNode>, a: seq<Node>, m: nat)
    requires Patched(r, ns, os, a, m) && GainsOk(a)
    requires forall i :: 0 <= i < m ==> PatchOk(ns[i], os[i])
    ensures r == MountAll(ns)
  {
    hide Mount, MountAll, PatchOk, Place;
    forall i | 0 <= i < |ns| ensures r[i] == MountAll(ns)[i] {
      MountAt(ns, i);
      if i >= m {
        var p := i - m;
        assert a[p] == a[Landed(|a|, p)];
        assert Mount(ns[m + p]) == a[p];
      } else {
        assert PatchOk(ns[i], os[i]);
      }
    }
  }

  /** Up to two new children always land in order. */
  lemma TwoGainsOk(a: seq<Node>)
    requires |a| <= 2
    ensures GainsOk(a)
  {
  }

  /** Three different ones never do. */
  lemma ThreeGainsFail()
    ensures var a, b, c := VText("a"), VText("b"), VText("c"); var o, n := VElement("p", map[], []), VElement("p", map[], [a, b, c]);
      Patch(Mount(o), n, o) == Element("p", map[], [Mount(a), Mount(c), Mount(b)]) != Mount(n)
  {
    var a, b, c := VText("a"), VText("b"), VText("c");
    var o, n := VElement("p", map[], []), VElement("p", map[], [a, b, c]);
    var ns := [a, b, c];
    assert PatchAt([], ns, [], 2) == [Mount(c)];
    assert PatchAt([Mount(c)], ns, [], 1) == [Mount(c), Mount(b)];
    assert PatchAt([Mount(c), Mount(b)], ns, [], 0) == [Mount(a), Mount(c), Mount(b)];
    assert PatchChildren([], ns, [], 3) == PatchChildren([Mount(c)], ns, [], 2);
    assert PatchChildren([Mount(c)], ns, [], 2) == PatchChildren([Mount(c), Mount(b)], ns, [], 1);
    assert PatchChildren([Mount(c), Mount(b)], ns, [], 1) == [Mount(a), Mount(c), Mount(b)];
    assert PropsAfter(map[], map[], map[]) == map[];
    assert Mount(a) == TextNode("a") && Mount(b) == TextNode("b") && Mount(c) == TextNode("c");
    assert MountAll([]) == [];
    assert Mount(o) == Element("p", map[], []);
    MountAt(ns, 1);
    assert Mount(n).children[1] == Mount(b) != Mount(c);
  }

  // ----- what a mounted tree says -----

  /** A page as a browser would write it out. */
  datatype Token = Open(tag: string, attrs: Props) | Chars(text: string) | Close(tag: string)

  function Written(n: Node): seq<Token>
    decreases n, 0
  {
    match n
    case TextNode(t) => [Chars(t)]
    case Element(tag, attrs, cs) => [Open(tag, attrs)] + WrittenAll(cs) + [Close(tag)]
  }

  function WrittenAll(ns: seq<Node>): seq<Token>
    decreases ns, 1
  {
    if ns == [] then [] else Written(ns[0]) + WrittenAll(ns[1..])
  }

  /** What a virtual node stands for: a number is shown as its text. */
  function Meant(v: VNode): seq<Token>
    decreases v, 0
  {
    match v
    case VText(t) => [Chars(t)]
    case VNumber(t) => [Chars(t)]
    case VElement(tag, props, cs) => [Open(tag, props)] + MeantAll(cs) + [Close(tag)]
  }

  function MeantAll(vs: seq<VNode>): seq<Token>
    decreases vs, 1
  {
    if vs == [] then [] else Meant(vs[0]) + MeantAll(vs[1..])
  }

  /** Mounting shows exactly that. */
  lemma {:induction false} MountMeans(v: VNode)
    ensures Written(Mount(v)) == Meant(v)
    decreases v, 0
  {
    if v.VElement? {
      MountAllMeans(v.children);
    }
  }

  lemma {:induction false} MountAllMeans(vs: seq<VNode>)
    ensures WrittenAll(MountAll(vs)) == MeantAll(vs)
    decreases vs, 1
  {
    hide Mount, Written, Meant;
    if vs != [] {
      MountMeans(vs[0]);
      MountAllMeans(vs[1..]);
      MountHead(vs);
    }
  }

  lemma {:induction false} MountHead(vs: seq<VNode>)
    requires vs != []
    ensures MountAll(vs) == [Mount(vs[0])] + MountAll(vs[1..])
  {
    hide Mount, MountAll;
    forall i | 0 <= i < |vs| ensures MountAll(vs)[i] == ([Mount(vs[0])] + MountAll(vs[1..]))[i] {
      MountAt(vs, i);
      if i > 0 {
        MountAt(vs[1..], i - 1);
      }
    }
    assert |MountAll(vs)| == |vs|;
  }

  /** An attribute goes when the new node has none of that name and no object has it
      by inheritance. */
  lemma DropsExactly(n: Props, o: Props, k: string)
    ensures Drops(n, o, k) <==> k in o && k !in n && k !in [
      "constructor", "hasOwnProperty", "isPrototypeOf", "propertyIsEnumerable", "toLocaleString", "toString", "valueOf",
      "__defineGetter__", "__defineSetter__", "__lookupGetter__", "__lookupSetter__"]
  {
  }
}
