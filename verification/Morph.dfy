/** In-place reconciliation of one tree with another (`morph`, `morphChildren`, `updateAttrs`). */
module Morph {
  import opened Dom
  import opened MorphSpec
  import opened KeyedPass

  // ---------- Attributes ----------

  /** Whether the attribute lists agree name by name and value by value, in order. */
  method SameAttrs(from: Node, to: Node) returns (same: bool)
    requires UniqueNames(from.attrs) && UniqueNames(to.attrs)
    ensures same <==> from.attrs == to.attrs
  {
    if |from.attrs| != |to.attrs| {
      return false;
    }
    var i := 0;
    while i < |to.attrs|
      invariant 0 <= i <= |to.attrs|
      invariant from.attrs[..i] == to.attrs[..i]
    {
      if from.attrs[i] != to.attrs[i] {
        return false;
      }
      i := i + 1;
    }
    assert from.attrs == from.attrs[..i] && to.attrs == to.attrs[..i];
    return true;
  }

  /** The shortcut of `updateAttrs`: lists of equal length that already hold the same map. */
  method AlreadyEqual(from: Node, to: Node) returns (same: bool)
    requires UniqueNames(from.attrs) && UniqueNames(to.attrs) && |from.attrs| == |to.attrs|
    ensures same ==> AttrMap(from.attrs) == AttrMap(to.attrs)
  {
    var re := false;
    same := true;
    var i := 0;
    while i < |to.attrs|
      invariant 0 <= i <= |to.attrs|
      invariant from.attrs[..i] == to.attrs[..i]
    {
      if from.attrs[i].name != to.attrs[i].name {
        same, re := false, true;
        break;
      }
      if from.attrs[i].value != to.attrs[i].value {
        same := false;
        break;
      }
      i := i + 1;
    }
    if same {
      assert from.attrs == from.attrs[..i] && to.attrs == to.attrs[..i];
      return;
    }
    if re {
      i := 0;
      while i < |to.attrs|
        invariant 0 <= i <= |to.attrs|
        invariant HoldsAll(from.attrs, to.attrs[..i])
      {
        var p := Find(from.attrs, to.attrs[i].name);
        if p < 0 || from.attrs[p].value != to.attrs[i].value {
          return false;
        }
        i := i + 1;
      }
      assert to.attrs[..i] == to.attrs;
      Pigeonhole(from.attrs, to.attrs);
      SameMap(from.attrs, to.attrs);
      return true;
    }
  }

  method UpdateAttrs(from: Node, to: Node)
    requires from != to && UniqueNames(from.attrs) && UniqueNames(to.attrs)
    modifies from`attrs
    ensures UniqueNames(from.attrs) && AttrMap(from.attrs) == AttrMap(to.attrs)
  {
    var tl, fl := |to.attrs|, |from.attrs|;
    if fl == 0 && tl == 0 {
      return;
    }
    if fl == tl {
      var same := AlreadyEqual(from, to);
      if same {
        return;
      }
    }
    if tl > 0 {
      SetAll(from, to);
    }
    DropMissing(from, to, fl);
  }

  method SetAll(from: Node, to: Node)
    requires from != to && UniqueNames(from.attrs) && UniqueNames(to.attrs)
    modifies from`attrs
    ensures UniqueNames(from.attrs) && |from.attrs| >= old(|from.attrs|)
    ensures HoldsAll(from.attrs, to.attrs) && NamesFrom(from.attrs, old(|from.attrs|), to.attrs)
  {
    ghost var fl := |from.attrs|;
    var i := 0;
    while i < |to.attrs|
      invariant 0 <= i <= |to.attrs|
      invariant UniqueNames(from.attrs) && |from.attrs| >= fl
      invariant forall k :: 0 <= k < i ==> Holds(from.attrs, to.attrs[k])
      invariant forall k :: fl <= k < |from.attrs| ==> Find(to.attrs, from.attrs[k].name) >= 0
    {
      var ta := to.attrs[i];
      var p := Find(from.attrs, ta.name);
      if p < 0 || from.attrs[p].value != ta.value {
        ghost var before := from.attrs;
        from.SetAttribute(ta.name, ta.value);
        HoldsAt(to.attrs, i);
        SetKeeps(before, from.attrs, ta, to.attrs, i);
      }
      i := i + 1;
    }
  }

  lemma SetKeeps(before: seq<Attr>, after: seq<Attr>, a: Attr, to: seq<Attr>, i: nat)
    requires UniqueNames(before) && UniqueNames(after) && UniqueNames(to)
    requires var p := Find(before, a.name);
             after == if p >= 0 then before[p := a] else before + [a]
    requires i < |to| && to[i] == a && forall k :: 0 <= k < i ==> Holds(before, to[k])
    ensures forall k :: 0 <= k <= i ==> Holds(after, to[k])
  {
    forall k | 0 <= k <= i
      ensures Holds(after, to[k])
    {
      var p := Find(before, to[k].name);
      if k < i {
        assert after[p] == to[k];
        HoldsAt(after, p);
      } else {
        HoldsAt(after, if p >= 0 then p else |before|);
      }
    }
  }

  /** Removes, from the last of the first `fl` attributes down, those whose name `to` lacks. */
  method DropMissing(from: Node, to: Node, fl: nat)
    requires from != to && UniqueNames(from.attrs) && UniqueNames(to.attrs) && fl <= |from.attrs|
    requires HoldsAll(from.attrs, to.attrs) && NamesFrom(from.attrs, fl, to.attrs)
    modifies from`attrs
    ensures UniqueNames(from.attrs) && AttrMap(from.attrs) == AttrMap(to.attrs)
  {
    var i := fl - 1;
    while i >= 0
      invariant -1 <= i < |from.attrs|
      invariant UniqueNames(from.attrs)
      invariant HoldsAll(from.attrs, to.attrs) && NamesFrom(from.attrs, i + 1, to.attrs)
    {
      DropIfMissing(from, to, i);
      i := i - 1;
    }
    NamesCovered(from.attrs, to.attrs);
    SameMap(from.attrs, to.attrs);
  }

  lemma NamesCovered(a: seq<Attr>, b: seq<Attr>)
    requires NamesFrom(a, 0, b)
    ensures Names(a) <= Names(b)
  {
    forall n | n in Names(a)
      ensures n in Names(b)
    {
      assert b[Find(b, n)].name == n;
    }
  }

  method DropIfMissing(from: Node, to: Node, i: nat)
    requires from != to && UniqueNames(from.attrs) && UniqueNames(to.attrs) && i < |from.attrs|
    requires HoldsAll(from.attrs, to.attrs) && NamesFrom(from.attrs, i + 1, to.attrs)
    modifies from`attrs
    ensures UniqueNames(from.attrs) && i <= |from.attrs|
    ensures HoldsAll(from.attrs, to.attrs) && NamesFrom(from.attrs, i, to.attrs)
  {
    var name := from.attrs[i].name;
    if !to.HasAttribute(name) {
      ghost var before := from.attrs;
      HoldsAt(before, i);
      from.RemoveAttribute(name);
      RemoveKeeps(before, from.attrs, i, to.attrs);
      NamesShift(before, from.attrs, i, to.attrs);
    }
  }

  lemma NamesShift(before: seq<Attr>, after: seq<Attr>, i: nat, to: seq<Attr>)
    requires i < |before| && after == before[..i] + before[i + 1..]
    requires NamesFrom(before, i + 1, to)
    ensures NamesFrom(after, i, to)
  {
    forall k | i <= k < |after|
      ensures Find(to, after[k].name) >= 0
    {
      assert after[k] == before[k + 1];
    }
  }

  /** From position `lo` on, `attrs` only has names of `to`. */
  ghost predicate NamesFrom(attrs: seq<Attr>, lo: nat, to: seq<Attr>) {
    forall k :: lo <= k < |attrs| ==> Find(to, attrs[k].name) >= 0
  }

  lemma RemoveKeeps(before: seq<Attr>, after: seq<Attr>, i: nat, to: seq<Attr>)
    requires UniqueNames(before) && UniqueNames(after) && i < |before|
    requires after == before[..i] + before[i + 1..] && Find(to, before[i].name) < 0
    requires HoldsAll(before, to)
    ensures HoldsAll(after, to)
  {
    forall k | 0 <= k < |to|
      ensures Holds(after, to[k])
    {
      RemoveKeepsOne(before, after, i, to[k]);
    }
  }

  lemma RemoveKeepsOne(before: seq<Attr>, after: seq<Attr>, i: nat, a: Attr)
    requires UniqueNames(after) && i < |before|
    requires after == before[..i] + before[i + 1..] && before[i].name != a.name && Holds(before, a)
    ensures Holds(after, a)
  {
    var p := Find(before, a.name);
    var p' := if p < i then p else p - 1;
    assert after[p'] == a;
    HoldsAt(after, p');
  }

  // ---------- Cloning ----------

  // The ghost node sets `world`, `owned` and `made` below only tell the verifier that the nodes of
  // some trees exist already; each may be any set that contains them.

  /** `cloneNode(true)`. */
  method CloneNode(n: Node, ghost s: Shape, ghost world: set<Node>)
    returns (c: Node, ghost r: Shape, ghost made: set<Node>)
    requires s.node == n && Rep(s) && Nodes(s) <= world
    ensures r.node == c && c.parent == null && Rep(r) && Copied(r, s)
    ensures Nodes(r) <= made && fresh(made)
    decreases s, 0
  {
    c := new Node(n.kind, n.tag, n.attrs, n.text);
    ghost var rs: seq<Shape>, below: set<Node> := [], {};
    var i := 0;
    while i < |n.kids|
      invariant 0 <= i <= |n.kids| && |rs| == i && Rep(s)
      invariant c.attrs == n.attrs && c.text == n.text && c.parent == null
      invariant NodesOf(rs) <= below && fresh(below) && c !in below && KidsOf(c, rs)
      invariant forall k :: 0 <= k < i ==> Copied(rs[k], s.kids[k])
      modifies c`kids
    {
      NodesAt(s.kids, i);
      assert Under(n, s.kids[i]);
      ghost var r', more := InsertClone(c, rs, i, null, n.kids[i], s.kids[i], world, below);
      rs, below := Insert(rs, i, r'), below + more;
      i := i + 1;
    }
    r, made := Shape(c, s.attrs, s.text, rs), below + {c};
  }

  /** `p.insertBefore(n.cloneNode(true), before)`, where `before` is the child at `at`, if any. */
  method InsertClone(p: Node, ghost cs: seq<Shape>, ghost at: nat, before: Node?,
                     n: Node, ghost s: Shape, ghost world: set<Node>, ghost owned: set<Node>)
    returns (ghost r: Shape, ghost made: set<Node>)
    requires at <= |cs| && KidsOf(p, cs) && NodesOf(cs) <= owned && before == At(p.kids, at)
    requires s.node == n && Rep(s) && Nodes(s) <= world
    modifies p`kids
    ensures Nodes(r) <= made && fresh(made) && Copied(r, s)
    ensures KidsOf(p, Insert(cs, at, r))
    ensures NodesOf(Insert(cs, at, r)) <= NodesOf(cs) + Nodes(r)
    decreases s, 1
  {
    var c;
    c, r, made := CloneNode(n, s, world);
    Attach(p, cs, at, before, c, r, owned + made);
  }

  /** Inserts the parentless node `c`, with everything below it, as a child of `p`. */
  method Attach(p: Node, ghost cs: seq<Shape>, ghost at: nat, before: Node?, c: Node, ghost r: Shape,
                ghost owned: set<Node>)
    requires at <= |cs| && KidsOf(p, cs) && before == At(p.kids, at)
    requires r.node == c && c.parent == null && Rep(r)
    requires Nodes(r) !! NodesOf(cs) && p !in Nodes(r) && NodesOf(cs) <= owned && Nodes(r) <= owned
    modifies p`kids, c`parent
    ensures KidsOf(p, Insert(cs, at, r))
    ensures NodesOf(Insert(cs, at, r)) <= NodesOf(cs) + Nodes(r)
  {
    KidsDistinct(p, cs);
    forall i | 0 <= i < |cs|
      ensures p.kids[i] != c
    {
      NodesAt(cs, i);
    }
    assert KidsOf(c, r.kids);
    p.InsertNew(c, at, before);
    KidsInserted(p, old(p.kids), cs, at, r);
  }

  // ---------- Morphing ----------

  function NoMorph(n: Node): bool
    reads n
  {
    n.kind == Element && (n.HasAttribute("data-m-no") || n.HasAttribute("data-m-no^morph"))
  }

  lemma NoMorphIsMarked(s: Shape)
    requires Rep(s) && s.node.kind == Element
    ensures NoMorph(s.node) <==> Marked(s.attrs)
  {
    var a := s.node.attrs;
    assert forall n :: n in Names(a) <==> Find(a, n) >= 0 by {
      forall n | Find(a, n) >= 0
        ensures n in Names(a)
      {
        assert a[Find(a, n)].name == n;
      }
    }
  }

  ghost function ParentOf(n: Node): set<Node>
    reads n
  {
    if n.parent == null then {} else {n.parent}
  }

  /** `from` can be morphed in place: it is a root or the child of its parent at `at`. */
  ghost predicate Placed(from: Node, at: nat)
    reads from, ParentOf(from)
  {
    from.parent != null ==>
      at < |from.parent.kids| && from.parent.kids[at] == from && DistinctNodes(from.parent.kids)
  }

  function SameSlot(a: Node, b: Node): bool
    reads a, b
  {
    && a.kind == b.kind
    && (a.kind != Element || if a.Id() != "" || b.Id() != "" then a.Id() == b.Id() else a.tag == b.tag)
  }

  function SameKind(a: Node, b: Node): bool
    reads a, b
  {
    && a.kind == b.kind
    && (a.kind != Element || if a.Id() != "" && b.Id() != "" then a.Id() == b.Id() else a.tag == b.tag)
  }

  /** What stays true of the trees while the children `fs` of a node are morphed to `ts`. */
  ghost predicate Inputs(fs: seq<Shape>, ts: seq<Shape>, strict: bool) {
    && UniqueIdsIn(fs)
    && DistinctRoots(fs)
    && (forall x :: x in fs ==> UniqueIds(x))
    && (strict ==> forall x :: x in fs ==> Unmarked(x))
    && (strict ==> forall x :: x in ts ==> Unmarked(x))
  }

  /** Makes the tree `f` under `from` look like the tree `t` under `to`, in place.  The tree that
      stands there afterwards is `r`; it is rooted in `from` unless the tags differ. */
  method Morph(from: Node, to: Node, ghost f: Shape, ghost t: Shape, ghost at: nat, ghost strict: bool,
               ghost owned: set<Node>, ghost world: set<Node>)
    returns (ghost r: Shape, ghost made: set<Node>)
    requires f.node == from && t.node == to && Rep(f) && Rep(t)
    requires Nodes(f) <= owned && Nodes(t) <= world && owned !! world
    requires UniqueIds(f) && (strict ==> Unmarked(f) && Unmarked(t))
    requires ParentOf(from) !! Nodes(f) + world && Placed(from, at)
    modifies Nodes(f), ParentOf(from)`kids
    ensures Rep(r) && fresh(made) && Nodes(r) <= Nodes(f) + made
    ensures r.node.parent == old(from.parent)
    ensures r.node == from || (from.parent == null && Nodes(r) <= made)
    ensures Loose(Nodes(f), Nodes(r), Nodes(f) + made)
    ensures old(from.parent) != null ==> old(from.parent).kids == old(from.parent.kids)[at := r.node]
    ensures (from.kind == to.kind && (from.kind != Element || from.tag == to.tag || old(from.parent) != null))
              ==> Synced(r, t, strict)
    ensures Kept(f, r, t)
    ensures from.kind != to.kind || (from.kind == Element && (Marked(f.attrs) || Marked(t.attrs))) ==> r == f
    decreases t, 4
  {
    r, made := f, {};
    assert KidsOf(from, f.kids) && KidsOf(to, t.kids);
    if from.kind == Text && to.kind == Text {
      if from.text != to.text {
        from.text := to.text;
      }
      r := f.(text := t.text);
      return;
    }
    if from.kind != Element || to.kind != Element {
      return;
    }
    NoMorphIsMarked(f);
    NoMorphIsMarked(t);
    if NoMorph(from) || NoMorph(to) {
      return;
    }
    if from.tag != to.tag {
      if from.parent != null {
        r, made := ReplaceByClone(from, to, f, t, at, strict, owned, world);
      }
      return;
    }
    r, made := MorphElement(from, to, f, t, strict, owned, world);
  }

  method ReplaceByClone(from: Node, to: Node, ghost f: Shape, ghost t: Shape, ghost at: nat, ghost strict: bool,
                        ghost owned: set<Node>, ghost world: set<Node>)
    returns (ghost r: Shape, ghost made: set<Node>)
    requires f.node == from && t.node == to && Rep(f) && Rep(t)
    requires Nodes(f) <= owned && Nodes(t) <= world
    requires from.parent != null && from.parent !in Nodes(f) + world && Placed(from, at)
    modifies from`parent, ParentOf(from)`kids
    ensures Rep(r) && fresh(made) && Nodes(r) <= made && Loose(Nodes(f), Nodes(r), Nodes(f) + made)
    ensures r.node.parent == old(from.parent) && from.parent == null
    ensures old(from.parent).kids == old(from.parent.kids)[at := r.node]
    ensures Synced(r, t, strict)
    decreases t, 1
  {
    var c;
    c, r, made := CloneNode(to, t, world);
    CopiedIsSynced(r, t, strict);
    ParentsInside(f);
    SwapIn(c, from, at, r, made);
  }

  method SwapIn(c: Node, from: Node, ghost at: nat, ghost r: Shape, ghost made: set<Node>)
    requires r.node == c && Rep(r) && Nodes(r) <= made && c.parent == null
    requires from.parent != null && from != from.parent && {from, from.parent} !! made && Placed(from, at)
    modifies from`parent, from.parent`kids, c`parent
    ensures Rep(r) && c.parent == old(from.parent) && from.parent == null
    ensures old(from.parent).kids == old(from.parent.kids)[at := c]
  {
    assert KidsOf(c, r.kids);
    from.parent.ReplaceChild(c, from, at);
  }

  /** The case of two elements with equal tags that both take part in morphing. */
  method MorphElement(from: Node, to: Node, ghost f: Shape, ghost t: Shape, ghost strict: bool,
                      ghost owned: set<Node>, ghost world: set<Node>)
    returns (ghost r: Shape, ghost made: set<Node>)
    requires f.node == from && t.node == to && Rep(f) && Rep(t)
    requires from.kind == to.kind == Element && from.tag == to.tag
    requires Nodes(f) <= owned && Nodes(t) <= world && owned !! world
    requires UniqueIds(f) && (strict ==> Unmarked(f) && Unmarked(t))
    modifies from`attrs, from`kids, NodesOf(f.kids)
    ensures Rep(r) && fresh(made) && Nodes(r) <= Nodes(f) + made
    ensures r.node == from && Synced(r, t, strict) && KidsKept(f.kids, r.kids, t.kids)
    ensures Loose(Nodes(f), Nodes(r), Nodes(f) + made)
    decreases t, 3
  {
    assert KidsOf(from, f.kids) && KidsOf(to, t.kids);
    var fromFirst := from.FirstChild();
    var toFirst := to.FirstChild();
    var textOnly := OneText(from) && OneText(to);
    var same := SameAttrs(from, to);
    if same && ((fromFirst == null && toFirst == null) || (textOnly && fromFirst.text == toFirst.text)) {
      r, made := f, {};
      NothingToDo(f, t, strict);
    } else {
      UpdateAttrs(from, to);
      r, made := MorphContents(from, to, textOnly, f, t, strict, owned, world);
    }
  }

  /** The node has one child, which is text. */
  function OneText(n: Node): bool
    reads n, n.kids
  {
    |n.kids| == 1 && n.kids[0].kind == Text
  }

  lemma NothingToDo(f: Shape, t: Shape, strict: bool)
    requires Rep(f) && Rep(t) && f.node.kind == t.node.kind == Element && f.node.tag == t.node.tag
    requires f.node.attrs == t.node.attrs
    requires (f.node.kids == [] && t.node.kids == [])
      || (OneText(f.node) && OneText(t.node) && f.node.kids[0].text == t.node.kids[0].text)
    ensures Synced(f, t, strict) && KidsKept(f.kids, f.kids, t.kids)
  {
    assert KidsOf(f.node, f.kids) && KidsOf(t.node, t.kids);
    if f.kids != [] {
      KidAt(f.node, f.kids, 0);
      KidAt(t.node, t.kids, 0);
      assert Key(f.kids[0]) == "";
    }
  }

  /** The children, once the attributes agree. */
  method MorphContents(from: Node, to: Node, textOnly: bool, ghost f: Shape, ghost t: Shape, ghost strict: bool,
                       ghost owned: set<Node>, ghost world: set<Node>)
    returns (ghost r: Shape, ghost made: set<Node>)
    requires f.node == from && t.node == to && Rep(t)
    requires UniqueNames(from.attrs) && AttrMap(from.attrs) == t.attrs && from.text == f.text
    requires KidsOf(from, f.kids) && KidsOf(to, t.kids)
    requires from.kind == to.kind == Element && from.tag == to.tag
    requires textOnly <==> OneText(from) && OneText(to)
    requires Nodes(f) <= owned && Nodes(t) <= world && owned !! world
    requires UniqueIds(f) && (strict ==> Unmarked(f) && Unmarked(t))
    modifies from`kids, NodesOf(f.kids)
    ensures Rep(r) && fresh(made) && Nodes(r) <= Nodes(f) + made
    ensures r.node == from && Synced(r, t, strict) && KidsKept(f.kids, r.kids, t.kids)
    ensures Loose(Nodes(f), Nodes(r), Nodes(f) + made)
    decreases t, 2
  {
    made := {};
    if textOnly {
      KidAt(from, f.kids, 0);
      r := SyncOnlyText(from, to, from.kids[0], to.kids[0], f, t, strict, owned);
    } else if from.kids != [] || to.kids != [] {
      DoingBelow(f, t, strict, world);
      ghost var rs;
      rs, made := MorphChildren(from, to, f.kids, t.kids, strict, NodesOf(f.kids), world);
      r := Shape(from, t.attrs, f.text, rs);
    } else {
      r := Shape(from, t.attrs, f.text, []);
    }
  }

  lemma DoingBelow(f: Shape, t: Shape, strict: bool, world: set<Node>)
    requires KidsOf(f.node, f.kids) && KidsOf(t.node, t.kids)
    requires Nodes(t) <= world && Nodes(f) !! world
    requires UniqueIds(f) && (strict ==> Unmarked(f) && Unmarked(t))
    ensures Doing(f.node, t.node, f.kids, t.kids, strict, f.kids, NodesOf(f.kids), world)
  {
    SeparateRoots(f.kids);
    RootsAmongNodes(f.kids);
  }

  /** The shortcut for one text child on each side. */
  method SyncOnlyText(from: Node, to: Node, fromFirst: Node, toFirst: Node,
                      ghost f: Shape, ghost t: Shape, ghost strict: bool, ghost owned: set<Node>)
    returns (ghost r: Shape)
    requires f.node == from && t.node == to && Rep(t) && Nodes(f) <= owned && Nodes(f) !! Nodes(t)
    requires from.kind == to.kind == Element && from.tag == to.tag
    requires UniqueNames(from.attrs) && AttrMap(from.attrs) == t.attrs && from.text == f.text
    requires KidsOf(from, f.kids) && KidsOf(to, t.kids)
    requires from.kids == [fromFirst] && to.kids == [toFirst] && fromFirst.kind == toFirst.kind == Text
    modifies fromFirst`text
    ensures Rep(r) && Nodes(r) <= Nodes(f) && r.node == from
    ensures Synced(r, t, strict) && KidsKept(f.kids, r.kids, t.kids)
  {
    var a, b := f.kids[0], t.kids[0];
    KidAt(from, f.kids, 0);
    KidAt(to, t.kids, 0);
    assert KidsOf(fromFirst, a.kids);
    if fromFirst.text != toFirst.text {
      fromFirst.text := toFirst.text;
    }
    var a' := a.(text := b.text);
    r := Shape(from, t.attrs, f.text, [a']);
    assert Nodes(a') == Nodes(a) && Rep(a');
    NodesOfOne(a');
    assert Under(from, a') && Stand(from, [a']) && KidsOf(from, [a']);
    assert Key(a) == "";
  }

  // ---------- Children ----------

  /** Morphs the child at `i` of `p`. */
  method MorphSlot(p: Node, cur: Node, toChild: Node, ghost fs: seq<Shape>, ghost cs: seq<Shape>, ghost i: nat,
                   ghost t: Shape, ghost strict: bool, ghost owned: set<Node>, ghost world: set<Node>)
    returns (ghost r: Shape, ghost made: set<Node>)
    requires i < |cs| && KidsOf(p, cs) && cs[i].node == cur && NodesOf(cs) <= owned && NodesOf(fs) <= owned
    requires Rep(t) && t.node == toChild && Nodes(t) <= world && owned !! world && p !in world
    requires UniqueIds(cs[i]) && (strict ==> Unmarked(cs[i]) && Unmarked(t)) && Accounted(fs, cs, owned)
    modifies p`kids, Nodes(cs[i])
    ensures fresh(made) && Nodes(r) <= Nodes(cs[i]) + made
    ensures KidsOf(p, Put(cs, i, r)) && NodesOf(Put(cs, i, r)) <= NodesOf(cs) + made
    ensures p.kids == old(p.kids)[i := r.node]
    ensures cur.kind == toChild.kind ==> Synced(r, t, strict)
    ensures (r.node == cur || Nodes(r) <= made) && Kept(cs[i], r, t)
    ensures Accounted(fs, Put(cs, i, r), owned + made)
    decreases t, 5
  {
    hide Kept, Synced, Unmarked, UniqueIds;
    hide KidsOf, Rep, Accounted, Loose, Stand;
    KidAt(p, cs, i);
    KidsDistinct(p, cs);
    KidsAround(p, cs, i);
    GoneApart(fs, cs, owned);
    r, made := Morph(cur, toChild, cs[i], t, i, strict, owned, world);
    KidsReplaced(p, old(p.kids), cs, i, r);
    AccountedAfterPut(fs, cs, i, r, made, owned);
  }

  lemma KidsAround(p: Node, cs: seq<Shape>, i: nat)
    requires KidsOf(p, cs) && i < |cs|
    ensures p !in NodesOf(cs) && Separate(cs) && Lists(p.kids, cs) && Stand(p, cs[..i]) && Stand(p, cs[i + 1..])
    ensures NodesOf(cs[..i]) !! Nodes(cs[i]) && NodesOf(cs[i + 1..]) !! Nodes(cs[i])
    ensures NodesOf(cs[..i]) <= NodesOf(cs) && NodesOf(cs[i + 1..]) <= NodesOf(cs)
  {
    OthersApart(cs, i);
    assert Stand(p, cs);
    MembersNodes(cs[..i], cs);
    MembersNodes(cs[i + 1..], cs);
  }

  lemma GoneApart(fs: seq<Shape>, cs: seq<Shape>, owned: set<Node>)
    requires Accounted(fs, cs, owned)
    ensures (Roots(fs) - Roots(cs)) !! NodesOf(cs)
  {
  }

  lemma AccountedAfterPut(fs: seq<Shape>, cs: seq<Shape>, i: nat, r: Shape, made: set<Node>, owned: set<Node>)
    requires i < |cs| && NodesOf(fs) <= owned && NodesOf(cs) <= owned && made !! owned
    requires NodesOf(Put(cs, i, r)) <= NodesOf(cs) - Nodes(cs[i]) + Nodes(r) && Nodes(r) <= Nodes(cs[i]) + made
    requires r.node == cs[i].node || (cs[i].node.parent == null && Nodes(r) <= made)
    requires Accounted(fs, cs, owned) && Loose(Nodes(cs[i]), Nodes(r), Nodes(cs[i]) + made)
    ensures Accounted(fs, Put(cs, i, r), owned + made)
  {
    RootsAfterPut(fs, cs, i, r, made, owned);
    LooseAfterPut(NodesOf(fs), cs, i, r, made, owned);
    hide Loose, NodesOf, Nodes, Roots;
  }

  lemma RootsAfterPut(fs: seq<Shape>, cs: seq<Shape>, i: nat, r: Shape, made: set<Node>, owned: set<Node>)
    requires i < |cs| && NodesOf(fs) <= owned && made !! owned
    requires NodesOf(Put(cs, i, r)) <= NodesOf(cs) - Nodes(cs[i]) + Nodes(r) && Nodes(r) <= Nodes(cs[i]) + made
    requires r.node == cs[i].node || (cs[i].node.parent == null && Nodes(r) <= made)
    requires Accounted(fs, cs, owned)
    ensures forall n :: n in Roots(fs) - Roots(Put(cs, i, r)) ==> n !in NodesOf(Put(cs, i, r)) && n.parent == null
  {
    hide Loose, Nodes, NodesOf, Roots, Put;
    RootsAmongNodes(fs);
    NodesAt(cs, i);
    RootsStay(cs, i, r);
    var cs' := Put(cs, i, r);
    forall n | n in Roots(fs) - Roots(cs')
      ensures n !in NodesOf(cs') && n.parent == null
    {
      assert n in owned;
      assert n in Roots(cs) ==> n == cs[i].node && n != r.node;
    }
  }

  lemma RootsStay(cs: seq<Shape>, i: nat, r: Shape)
    requires i < |cs|
    ensures r.node in Roots(Put(cs, i, r)) && cs[i].node in Nodes(cs[i])
    ensures forall n :: n in Roots(cs) && n != cs[i].node ==> n in Roots(Put(cs, i, r))
  {
    var cs' := Put(cs, i, r);
    assert cs'[i] == r;
    forall n | n in Roots(cs) && n != cs[i].node
      ensures n in Roots(cs')
    {
      var m :| 0 <= m < |cs| && cs[m].node == n;
      assert cs'[m].node == n;
    }
  }

  lemma LooseAfterPut(old_: set<Node>, cs: seq<Shape>, i: nat, r: Shape, made: set<Node>, owned: set<Node>)
    requires i < |cs| && NodesOf(cs) <= owned && made !! owned
    requires NodesOf(Put(cs, i, r)) <= NodesOf(cs) - Nodes(cs[i]) + Nodes(r) && Nodes(r) <= Nodes(cs[i]) + made
    requires Loose(old_, NodesOf(cs), owned) && Loose(Nodes(cs[i]), Nodes(r), Nodes(cs[i]) + made)
    ensures Loose(old_, NodesOf(Put(cs, i, r)), owned + made)
  {
    var cs' := Put(cs, i, r);
    NodesAt(cs, i);
    NodesAt(cs', i);
    NodesStay(cs, i, r);
    hide Nodes, NodesOf;
    forall n | n in old_ - NodesOf(cs')
      ensures n.parent == null || (n.parent in owned + made && n.parent !in NodesOf(cs'))
    {
      if n in NodesOf(cs) {
        assert n in Nodes(cs[i]);
      }
    }
  }

  lemma NodesStay(cs: seq<Shape>, i: nat, r: Shape)
    requires i < |cs|
    ensures forall n :: n in NodesOf(cs) && n !in Nodes(cs[i]) ==> n in NodesOf(Put(cs, i, r))
  {
    forall n | n in NodesOf(cs) && n !in Nodes(cs[i])
      ensures n in NodesOf(Put(cs, i, r))
    {
      var k :| 0 <= k < |cs| && n in Nodes(cs[k]);
      NodesAt(Put(cs, i, r), k);
    }
  }

  lemma DoingFacts(from: Node, to: Node, fs: seq<Shape>, ts: seq<Shape>, strict: bool, cs: seq<Shape>,
                   owned: set<Node>, world: set<Node>)
    requires Doing(from, to, fs, ts, strict, cs, owned, world)
    ensures KidsOf(from, cs) && KidsOf(to, ts) && NodesOf(cs) <= owned && NodesOf(fs) <= owned
    ensures NodesOf(ts) + {to} <= world && owned + {from} !! world && Roots(fs) <= owned
  {
    RootsAmongNodes(fs);
  }

  /** The children `fs` of `from` are being morphed to those of `to`; `cs` is the list now.  The
      node set `owned` belongs to the old side, `world` to the new side. */
  ghost predicate Doing(from: Node, to: Node, fs: seq<Shape>, ts: seq<Shape>, strict: bool, cs: seq<Shape>,
                        owned: set<Node>, world: set<Node>)
    reads from`kids, NodesOf(cs), to`kids, NodesOf(ts), (Roots(fs) - Roots(cs))`parent, (NodesOf(fs) - NodesOf(cs))`parent
  {
    && Inputs(fs, ts, strict)
    && KidsOf(from, cs) && KidsOf(to, ts) && Accounted(fs, cs, owned)
    && NodesOf(cs) <= owned && NodesOf(fs) <= owned
    && NodesOf(ts) + {to} <= world && owned + {from} !! world
  }

  /** The prefix pass: while old and new child fit the same slot, morph and step both. */
  method PrefixPass(from: Node, to: Node, ghost fs: seq<Shape>, ghost ts: seq<Shape>, ghost strict: bool,
                    ghost owned: set<Node>, ghost world: set<Node>)
    returns (cur: Node?, toChild: Node?, ghost cs: seq<Shape>, ghost q: nat, ghost made: set<Node>)
    requires Doing(from, to, fs, ts, strict, fs, owned, world)
    modifies from`kids, NodesOf(fs)
    ensures Doing(from, to, fs, ts, strict, cs, owned + made, world)
    ensures fresh(made) && NodesOf(cs) <= NodesOf(fs) + made
    ensures Prefix(fs, ts, q, cs, strict) && !InSlots(fs, ts, q)
    ensures cur == At(from.kids, q) && toChild == At(to.kids, q)
    decreases ts, 2
  {
    hide Doing, Prefix, InSlots;
    DoingFacts(from, to, fs, ts, strict, fs, owned, world);
    cur := from.FirstChild();
    toChild := to.FirstChild();
    cs, q, made := fs, 0, {};
    assert owned + {} == owned;
    PrefixNone(fs, ts, strict);
    while cur != null && toChild != null && SameSlot(cur, toChild)
      invariant Doing(from, to, fs, ts, strict, cs, owned + made, world)
      invariant fresh(made) && NodesOf(cs) <= NodesOf(fs) + made
      invariant Prefix(fs, ts, q, cs, strict)
      invariant cur == At(from.kids, q) && toChild == At(to.kids, q)
      decreases |fs| - q
    {
      ghost var more;
      PrefixBounds(from, to, fs, ts, cs, q, strict, owned + made, world);
      cur, toChild, cs, more := PrefixStep(from, to, cur, toChild, fs, ts, cs, q, strict, owned + made, world);
      assert owned + made + more == owned + (made + more);
      q, made := q + 1, made + more;
    }
    SlotsEnd(from, to, cur, toChild, fs, ts, cs, q, strict, owned + made, world);
  }

  lemma PrefixNone(fs: seq<Shape>, ts: seq<Shape>, strict: bool)
    ensures Prefix(fs, ts, 0, fs, strict)
  {
  }

  lemma PrefixBounds(from: Node, to: Node, fs: seq<Shape>, ts: seq<Shape>, cs: seq<Shape>, q: nat,
                     strict: bool, owned: set<Node>, world: set<Node>)
    requires Doing(from, to, fs, ts, strict, cs, owned, world) && Prefix(fs, ts, q, cs, strict)
    ensures q <= |fs| == |from.kids| && |to.kids| == |ts|
  {
  }

  lemma SlotsEnd(from: Node, to: Node, cur: Node?, toChild: Node?, fs: seq<Shape>, ts: seq<Shape>, cs: seq<Shape>, q: nat,
                 strict: bool, owned: set<Node>, world: set<Node>)
    requires Doing(from, to, fs, ts, strict, cs, owned, world) && Prefix(fs, ts, q, cs, strict)
    requires cur == At(from.kids, q) && toChild == At(to.kids, q)
    requires cur == null || toChild == null || !SameSlot(cur, toChild)
    ensures !InSlots(fs, ts, q)
  {
    hide Served, PrefixKept, Accounted, Inputs;
    if q < |fs| && q < |ts| {
      KidAt(from, cs, q);
      KidAt(to, ts, q);
      IdIsKey(cs[q]);
      IdIsKey(ts[q]);
      assert !Slots(fs[q], ts[q]);
    }
  }

  lemma RootsAmongNodes(cs: seq<Shape>)
    ensures Roots(cs) <= NodesOf(cs)
  {
    forall k | 0 <= k < |cs|
      ensures cs[k].node in NodesOf(cs)
    {
      NodesAt(cs, k);
    }
  }

  method PrefixStep(from: Node, to: Node, cur: Node, toChild: Node, ghost fs: seq<Shape>, ghost ts: seq<Shape>,
                    ghost cs: seq<Shape>, ghost q: nat, ghost strict: bool, ghost owned: set<Node>, ghost world: set<Node>)
    returns (next: Node?, toNext: Node?, ghost cs': seq<Shape>, ghost made: set<Node>)
    requires Doing(from, to, fs, ts, strict, cs, owned, world)
    requires Prefix(fs, ts, q, cs, strict) && q < |from.kids| && q < |to.kids|
    requires cur == from.kids[q] && toChild == to.kids[q] && SameSlot(cur, toChild)
    modifies from`kids, NodesOf(cs)
    ensures Doing(from, to, fs, ts, strict, cs', owned + made, world)
    ensures fresh(made) && NodesOf(cs') <= NodesOf(cs) + made
    ensures Prefix(fs, ts, q + 1, cs', strict)
    ensures next == At(from.kids, q + 1) && toNext == At(to.kids, q + 1)
    decreases ts, 1
  {
    hide Doing, Prefix, InSlots, KidsOf, Rep;
    DoingFacts(from, to, fs, ts, strict, cs, owned, world);
    PrefixBounds(from, to, fs, ts, cs, q, strict, owned, world);
    DoingIds(from, to, fs, ts, strict, cs, owned, world);
    BehindPrefix(fs, ts, q, cs, strict);
    KidAt(from, cs, q);
    KidAt(to, ts, q);
    SlotsMeet(cs[q], ts[q]);
    next := NextOf(from, cur, cs, q);
    toNext := NextOf(to, toChild, ts, q);
    ghost var r;
    r, made := MorphChild(from, to, cur, toChild, fs, ts, strict, cs, q, q, owned, world);
    PrefixNext(fs, ts, q, cs, strict, r);
    cs' := Put(cs, q, r);
  }

  lemma DoingIds(from: Node, to: Node, fs: seq<Shape>, ts: seq<Shape>, strict: bool, cs: seq<Shape>,
                 owned: set<Node>, world: set<Node>)
    requires Doing(from, to, fs, ts, strict, cs, owned, world)
    ensures UniqueIdsIn(fs)
  {
    hide KidsOf, Accounted, UniqueIdsIn;
  }

  /** Morphs the child at `i` of `from` to the child at `j` of `to`. */
  method MorphChild(from: Node, to: Node, cur: Node, toChild: Node, ghost fs: seq<Shape>, ghost ts: seq<Shape>,
                    ghost strict: bool, ghost cs: seq<Shape>, ghost i: nat, ghost j: nat,
                    ghost owned: set<Node>, ghost world: set<Node>)
    returns (ghost r: Shape, ghost made: set<Node>)
    requires Doing(from, to, fs, ts, strict, cs, owned, world)
    requires i < |cs| && cs[i].node == cur && cs[i] in fs && j < |ts| && ts[j].node == toChild
    modifies from`kids, NodesOf(cs)
    ensures Doing(from, to, fs, ts, strict, Put(cs, i, r), owned + made, world)
    ensures fresh(made) && NodesOf(Put(cs, i, r)) <= NodesOf(cs) + made
    ensures DistinctRoots(Put(cs, i, r)) && from.kids == old(from.kids)[i := r.node]
    ensures cur.kind == toChild.kind ==> Synced(r, ts[j], strict)
    ensures r.node == cur || r.node in made
    ensures Serves(fs, r, ts[j]) && (Stays(cs[i], ts[j]) ==> r.node == cur)
    decreases ts[j], 6
  {
    KidAt(from, cs, i);
    KidAt(to, ts, j);
    r, made := MorphSlot(from, cur, toChild, fs, cs, i, ts[j], strict, owned, world);
    SeparateRoots(Put(cs, i, r));
    ServesMorphed(fs, cs[i], r, ts[j], made, owned);
  }

  /** What a child was morphed into serves for the new child. */
  lemma ServesMorphed(fs: seq<Shape>, f: Shape, r: Shape, t: Shape, made: set<Node>, owned: set<Node>)
    requires DistinctRoots(fs) && f in fs && NodesOf(fs) <= owned && made !! owned
    requires Kept(f, r, t) && Nodes(r) <= Nodes(f) + made && (r.node == f.node || Nodes(r) <= made)
    ensures Serves(fs, r, t) && (r.node == f.node || r.node in made)
  {
    assert r.node in Nodes(r);
    RootsAmongNodes(fs);
    hide Kept, Nodes, NodesOf;
  }

  /** A copy serves for the new child. */
  lemma ServesFresh(fs: seq<Shape>, r: Shape, t: Shape)
    requires Nodes(r) !! NodesOf(fs)
    ensures Serves(fs, r, t)
  {
    assert r.node in Nodes(r);
    forall i | 0 <= i < |fs|
      ensures r.node != fs[i].node
    {
      NodesAt(fs, i);
    }
  }

  lemma SlotsMeet(a: Shape, b: Shape)
    requires Rep(a) && Rep(b)
    ensures SameSlot(a.node, b.node) <==> Slots(a, b)
    ensures Key(a) == "" ==> (SameKind(a.node, b.node) <==> SameSort(a, b))
  {
    IdIsKey(a);
    IdIsKey(b);
  }

  method NextOf(p: Node, n: Node, ghost cs: seq<Shape>, ghost i: nat) returns (next: Node?)
    requires KidsOf(p, cs) && i < |cs| && cs[i].node == n
    ensures next == At(p.kids, i + 1)
  {
    KidAt(p, cs, i);
    KidsDistinct(p, cs);
    next := n.NextSibling(i);
  }

  /** The table of the old children from `cur` on that have an id. */
  method CollectIds(from: Node, to: Node, cur: Node?, ghost fs: seq<Shape>, ghost ts: seq<Shape>, ghost strict: bool,
                    ghost cs: seq<Shape>, ghost q: nat, ghost owned: set<Node>, ghost world: set<Node>)
    returns (ids: map<string, Node>)
    requires Doing(from, to, fs, ts, strict, cs, owned, world) && Prefix(fs, ts, q, cs, strict)
    requires cur == At(from.kids, q)
    ensures ids == Table(fs, q, |fs|)
  {
    hide Doing, Prefix, Table;
    DoingFacts(from, to, fs, ts, strict, cs, owned, world);
    BehindPrefix(fs, ts, q, cs, strict);
    ids := map[];
    var n := cur;
    ghost var m := q;
    TableNone(fs, q);
    while n != null
      invariant KidsOf(from, cs) && q <= m <= |fs| && n == At(from.kids, m) && ids == Table(fs, q, m)
      decreases |fs| - m
    {
      KidAt(from, cs, m);
      IdIsKey(cs[m]);
      TableNext(fs, q, m);
      if n.kind == Element && n.Id() != "" {
        ids := ids[n.Id() := n];
      }
      n := NextOf(from, n, cs, m);
      m := m + 1;
    }
  }

  lemma BehindPrefix(fs: seq<Shape>, ts: seq<Shape>, q: nat, cs: seq<Shape>, strict: bool)
    requires Prefix(fs, ts, q, cs, strict)
    ensures q <= |fs| == |cs| && forall k :: q <= k < |cs| ==> cs[k] == fs[k]
  {
  }

  lemma TableNone(fs: seq<Shape>, q: nat)
    requires q <= |fs|
    ensures Table(fs, q, q) == map[]
  {
  }

  lemma TableNext(fs: seq<Shape>, q: nat, m: nat)
    requires q <= m < |fs|
    ensures Table(fs, q, m + 1) == if Key(fs[m]) != "" then Table(fs, q, m)[Key(fs[m]) := fs[m].node] else Table(fs, q, m)
    ensures Key(fs[m]) != "" ==> fs[m].node.kind == Element
  {
  }

  /** Uses the old child that the table has for the new one: if the cursor is on it, the cursor
      steps on; otherwise the child moves to just before the cursor. */
  method TakeKeyed(from: Node, to: Node, found: Node, cur: Node?, ghost fs: seq<Shape>, ghost ts: seq<Shape>,
                   ghost strict: bool, ghost cs: seq<Shape>, ghost c: nat, ghost s: nat,
                   ghost owned: set<Node>, ghost world: set<Node>)
    returns (next: Node?, ghost cs': seq<Shape>)
    requires Doing(from, to, fs, ts, strict, cs, owned, world)
    requires s < |cs| && c <= |cs| && cs[s].node == found && cur == At(from.kids, c)
    modifies from`kids
    ensures cs' == if s == c then cs else Moved(cs, s, c)
    ensures Doing(from, to, fs, ts, strict, cs', owned, world) && NodesOf(cs') <= NodesOf(cs)
    ensures next == At(from.kids, Landing(s, c) + 1)
  {
    KidAt(from, cs, s);
    KidsDistinct(from, cs);
    if found != cur {
      cs' := MoveKeyed(from, to, found, cur, fs, ts, strict, cs, c, s, owned, world);
      next := cur;
    } else {
      cs' := cs;
      next := NextOf(from, found, cs, s);
    }
  }

  method MoveKeyed(from: Node, to: Node, found: Node, cur: Node?, ghost fs: seq<Shape>, ghost ts: seq<Shape>,
                   ghost strict: bool, ghost cs: seq<Shape>, ghost c: nat, ghost s: nat,
                   ghost owned: set<Node>, ghost world: set<Node>)
    returns (ghost cs': seq<Shape>)
    requires Doing(from, to, fs, ts, strict, cs, owned, world)
    requires s < |cs| && c <= |cs| && s != c && cs[s].node == found && cur == At(from.kids, c)
    modifies from`kids
    ensures cs' == Moved(cs, s, c)
    ensures Doing(from, to, fs, ts, strict, cs', owned, world) && NodesOf(cs') <= NodesOf(cs)
    ensures cur == At(from.kids, Landing(s, c) + 1)
  {
    hide Doing, Accounted, Inputs;
    DoingFacts(from, to, fs, ts, strict, cs, owned, world);
    DoingParts(from, to, fs, ts, strict, cs, owned, world);
    KidAt(from, cs, s);
    KidsDistinct(from, cs);
    from.MoveBefore(found, s, c, cur);
    assert Stand(from, cs) && Stand(to, ts);
    cs' := Moved(cs, s, c);
    KidsMoved(from, old(from.kids), cs, s, c);
    MovedRoots(cs, s, c);
    hide Moved;
    CursorStays(old(from.kids), s, c);
    Reordered(from, to, fs, ts, strict, cs, cs', owned, world);
  }

  lemma DoingParts(from: Node, to: Node, fs: seq<Shape>, ts: seq<Shape>, strict: bool, cs: seq<Shape>,
                   owned: set<Node>, world: set<Node>)
    requires Doing(from, to, fs, ts, strict, cs, owned, world)
    ensures Inputs(fs, ts, strict) && Accounted(fs, cs, owned)
  {
  }

  lemma Reordered(from: Node, to: Node, fs: seq<Shape>, ts: seq<Shape>, strict: bool, cs: seq<Shape>, cs': seq<Shape>,
                  owned: set<Node>, world: set<Node>)
    requires Inputs(fs, ts, strict) && Accounted(fs, cs, owned) && KidsOf(from, cs') && KidsOf(to, ts)
    requires Roots(cs') == Roots(cs) && NodesOf(cs') == NodesOf(cs) && NodesOf(cs) <= owned && NodesOf(fs) <= owned
    requires NodesOf(ts) + {to} <= world && owned + {from} !! world
    ensures Doing(from, to, fs, ts, strict, cs', owned, world)
  {
    hide KidsOf, Inputs;
  }

  lemma CursorStays(ks: seq<Node>, s: nat, c: nat)
    requires s < |ks| && c <= |ks| && s != c
    ensures At(Moved(ks, s, c), Landing(s, c) + 1) == At(ks, c)
  {
    MovedAt(ks, s, c);
  }

  lemma MovedRoots(cs: seq<Shape>, s: nat, c: nat)
    requires s < |cs| && c <= |cs| && s != c
    ensures Roots(Moved(cs, s, c)) == Roots(cs)
  {
    MovedMembers(cs, s, c);
    var m := Moved(cs, s, c);
    forall k | 0 <= k < |cs|
      ensures cs[k].node in Roots(m) && m[k].node in Roots(cs)
    {
      assert cs[k] in m && m[k] in cs;
    }
  }

  /** Removes the old children from `cur` on. */
  method RemoveFrom(from: Node, to: Node, cur: Node?, ghost fs: seq<Shape>, ghost ts: seq<Shape>, ghost strict: bool,
                    ghost cs: seq<Shape>, ghost c: nat, ghost owned: set<Node>, ghost world: set<Node>)
    returns (ghost cs': seq<Shape>)
    requires Doing(from, to, fs, ts, strict, cs, owned, world)
    requires c <= |cs| && cur == At(from.kids, c)
    modifies from`kids, NodesOf(cs)
    ensures Doing(from, to, fs, ts, strict, cs', owned, world)
    ensures cs' == cs[..c] && NodesOf(cs') <= NodesOf(cs)
  {
    cs' := cs;
    var n := cur;
    while n != null
      invariant Doing(from, to, fs, ts, strict, cs', owned, world) && NodesOf(cs') <= NodesOf(cs)
      invariant c <= |cs'| && cs'[..c] == cs[..c] && n == At(from.kids, c)
      decreases |cs'| - c
    {
      n, cs' := RemoveOne(from, to, n, fs, ts, strict, cs', c, owned, world);
    }
  }

  /** Removes the child at `i`; the result is its former sibling. */
  method RemoveOne(from: Node, to: Node, n: Node, ghost fs: seq<Shape>, ghost ts: seq<Shape>, ghost strict: bool,
                   ghost cs: seq<Shape>, ghost i: nat, ghost owned: set<Node>, ghost world: set<Node>)
    returns (next: Node?, ghost cs': seq<Shape>)
    requires Doing(from, to, fs, ts, strict, cs, owned, world)
    requires i < |cs| && cs[i].node == n
    modifies from`kids, NodesOf(cs)
    ensures Doing(from, to, fs, ts, strict, cs', owned, world)
    ensures cs' == Drop(cs, i) && NodesOf(cs') <= NodesOf(cs) - Nodes(cs[i])
    ensures next == At(from.kids, i)
  {
    KidAt(from, cs, i);
    KidsDistinct(from, cs);
    OthersApart(cs, i);
    next := NextOf(from, n, cs, i);
    assert KidsOf(from, cs) && Stand(from, cs);
    assert Stand(from, cs[..i]) && Stand(from, cs[i + 1..]);
    from.RemoveChild(n, i);
    KidsRemoved(from, old(from.kids), cs, i);
    cs' := Drop(cs, i);
    DropAt(old(from.kids), i);
    AccountedAfterDrop(fs, cs, i, owned);
  }

  lemma AccountedAfterDrop(fs: seq<Shape>, cs: seq<Shape>, i: nat, owned: set<Node>)
    requires i < |cs| && NodesOf(Drop(cs, i)) <= NodesOf(cs) - Nodes(cs[i]) && cs[i].node.parent == null
    requires Rep(cs[i]) && NodesOf(cs) <= owned && Accounted(fs, cs, owned)
    ensures Accounted(fs, Drop(cs, i), owned)
  {
    RootsAfterDrop(cs, i);
    LooseAfterDrop(NodesOf(fs), cs, i, owned);
    hide Loose, NodesOf, Nodes, Roots, Drop, Rep;
  }

  lemma RootsAfterDrop(cs: seq<Shape>, i: nat)
    requires i < |cs|
    ensures cs[i].node in Nodes(cs[i])
    ensures forall n :: n in Roots(cs) && n != cs[i].node ==> n in Roots(Drop(cs, i))
  {
    var cs' := Drop(cs, i);
    DropAt(cs, i);
    forall n | n in Roots(cs) && n != cs[i].node
      ensures n in Roots(cs')
    {
      var m :| 0 <= m < |cs| && cs[m].node == n;
      assert cs'[if m < i then m else m - 1].node == n;
    }
  }

  lemma LooseAfterDrop(old_: set<Node>, cs: seq<Shape>, i: nat, owned: set<Node>)
    requires i < |cs| && NodesOf(Drop(cs, i)) <= NodesOf(cs) - Nodes(cs[i]) && NodesOf(cs) <= owned
    requires Rep(cs[i]) && cs[i].node.parent == null && Loose(old_, NodesOf(cs), owned)
    ensures Loose(old_, NodesOf(Drop(cs, i)), owned)
  {
    NodesAt(cs, i);
    NodesStayBehind(cs, i);
    ParentsInside(cs[i]);
    hide Nodes, NodesOf, Rep;
    forall n | n in old_ - NodesOf(Drop(cs, i))
      ensures n.parent == null || (n.parent in owned && n.parent !in NodesOf(Drop(cs, i)))
    {
      if n in NodesOf(cs) {
        assert n in Nodes(cs[i]);
      }
    }
  }

  lemma NodesStayBehind(cs: seq<Shape>, i: nat)
    requires i < |cs|
    ensures forall n :: n in NodesOf(cs) && n !in Nodes(cs[i]) ==> n in NodesOf(Drop(cs, i))
  {
    DropAt(cs, i);
    forall n | n in NodesOf(cs) && n !in Nodes(cs[i])
      ensures n in NodesOf(Drop(cs, i))
    {
      var k :| 0 <= k < |cs| && n in Nodes(cs[k]);
      NodesAt(Drop(cs, i), if k < i then k else k - 1);
    }
  }

  /** Every node of a tree but its root has its parent in the tree. */
  lemma {:induction false} ParentsInside(s: Shape)
    requires Rep(s)
    ensures forall n :: n in Nodes(s) && n != s.node ==> n.parent in Nodes(s)
    decreases s
  {
    assert KidsOf(s.node, s.kids);
    forall n | n in Nodes(s) && n != s.node
      ensures n.parent in Nodes(s)
    {
      var k :| 0 <= k < |s.kids| && n in Nodes(s.kids[k]);
      KidAt(s.node, s.kids, k);
      ParentsInside(s.kids[k]);
    }
  }

  /** Removes the keyed old children that no new child used. */
  method RemoveLeft(from: Node, to: Node, ids: map<string, Node>, ghost fs: seq<Shape>, ghost ts: seq<Shape>,
                    ghost strict: bool, ghost cs: seq<Shape>, ghost owned: set<Node>, ghost world: set<Node>)
    returns (ghost cs': seq<Shape>)
    requires Doing(from, to, fs, ts, strict, cs, owned, world) && ids.Values <= Roots(fs)
    modifies from`kids, NodesOf(cs)
    ensures Doing(from, to, fs, ts, strict, cs', owned, world)
    ensures cs' == Without(cs, ids.Values) && NodesOf(cs') <= NodesOf(cs)
  {
    hide Doing, Without, NodesOf;
    cs' := cs;
    var rest := ids.Keys;
    assert NodesIn(ids, rest) == ids.Values;
    while rest != {}
      invariant rest <= ids.Keys
      invariant Doing(from, to, fs, ts, strict, cs', owned, world) && NodesOf(cs') <= NodesOf(cs)
      invariant Without(cs', NodesIn(ids, rest)) == Without(cs, ids.Values)
      decreases rest
    {
      var id :| id in rest;
      assert NodesIn(ids, rest) == NodesIn(ids, rest - {id}) + {ids[id]};
      cs' := RemoveIfChild(from, to, ids[id], fs, ts, strict, cs', NodesIn(ids, rest), NodesIn(ids, rest - {id}), owned, world);
      rest := rest - {id};
    }
    WithoutNone(cs', NodesIn(ids, rest));
  }

  ghost function NodesIn(ids: map<string, Node>, some: set<string>): set<Node>
    requires some <= ids.Keys
  {
    set id | id in some :: ids[id]
  }

  method RemoveIfChild(from: Node, to: Node, n: Node, ghost fs: seq<Shape>, ghost ts: seq<Shape>, ghost strict: bool,
                       ghost cs: seq<Shape>, ghost left: set<Node>, ghost less: set<Node>,
                       ghost owned: set<Node>, ghost world: set<Node>)
    returns (ghost cs': seq<Shape>)
    requires Doing(from, to, fs, ts, strict, cs, owned, world) && n in Roots(fs)
    requires left == less + {n}
    modifies from`kids, NodesOf(cs)
    ensures Doing(from, to, fs, ts, strict, cs', owned, world) && NodesOf(cs') <= NodesOf(cs)
    ensures Without(cs', less) == Without(cs, left)
  {
    cs' := cs;
    SeparateRoots(cs);
    ChildIffRoot(from, fs, cs, n, owned);
    if n.parent == from {
      ghost var i :| 0 <= i < |cs| && cs[i].node == n;
      ghost var next;
      next, cs' := RemoveOne(from, to, n, fs, ts, strict, cs, i, owned, world);
      WithoutDropped(cs, i, left, less);
    } else {
      WithoutSame(cs, left, less);
    }
  }

  lemma ChildIffRoot(from: Node, fs: seq<Shape>, cs: seq<Shape>, n: Node, owned: set<Node>)
    requires KidsOf(from, cs) && Accounted(fs, cs, owned) && n in Roots(fs)
    ensures n.parent == from <==> n in Roots(cs)
  {
    if n in Roots(cs) {
      var k :| 0 <= k < |cs| && cs[k].node == n;
      KidAt(from, cs, k);
    }
  }

  /** Serves the new child at `j` with the old child of the same id. */
  method PlaceKeyed(from: Node, to: Node, toChild: Node, cur: Node?, ids0: map<string, Node>,
                    ghost fs: seq<Shape>, ghost ts: seq<Shape>, ghost strict: bool, ghost q: nat,
                    ghost cs0: seq<Shape>, ghost c0: nat, ghost j: nat, ghost done: seq<Shape>,
                    ghost owned: set<Node>, ghost world: set<Node>)
    returns (next: Node?, ids: map<string, Node>, ghost cs: seq<Shape>, ghost c: nat, ghost r: Shape, ghost made: set<Node>)
    requires Doing(from, to, fs, ts, strict, cs0, owned, world)
    requires Pass(fs, ts, q, cs0, c0, j, ids0, done, strict) && cur == At(from.kids, c0)
    requires j < |ts| && toChild == ts[j].node && toChild.Id() == Key(ts[j]) && toChild.Id() in ids0
    modifies from`kids, NodesOf(cs0)
    ensures Doing(from, to, fs, ts, strict, cs, owned + made, world)
    ensures fresh(made) && NodesOf(cs) <= NodesOf(cs0) + made
    ensures Pass(fs, ts, q, cs, c, j + 1, ids, done + [r], strict) && next == At(from.kids, c)
    decreases ts, 1
  {
    hide Doing, Pass, Chosen;
    DoingFacts(from, to, fs, ts, strict, cs0, owned, world);
    var found := ids0[toChild.Id()];
    ids := ids0 - {toChild.Id()};
    ghost var s;
    s, cs, c := ChooseByKey(fs, ts, strict, q, cs0, c0, j, ids0, done);
    KidAt(to, ts, j);
    ghost var moved;
    next, moved := TakeKeyed(from, to, found, cur, fs, ts, strict, cs0, c0, s, owned, world);
    cs, r, made := FinishChosen(from, to, found, toChild, ids, fs, ts, strict, q, cs, c, j, done, owned, world);
    c := c + 1;
  }

  /** The old child that the table names, and where it will stand. */
  lemma ChooseByKey(fs: seq<Shape>, ts: seq<Shape>, strict: bool, q: nat, cs: seq<Shape>, c: nat, j: nat,
                    ids: map<string, Node>, done: seq<Shape>)
    returns (s: nat, cs': seq<Shape>, c': nat)
    requires Pass(fs, ts, q, cs, c, j, ids, done, strict) && j < |ts| && Key(ts[j]) in ids
    ensures s < |cs| && c <= |cs| && cs[s].node == ids[Key(ts[j])]
    ensures cs' == (if s == c then cs else Moved(cs, s, c)) && c' == Landing(s, c) < |cs'|
    ensures cs'[c'] == cs[s] && cs[s] in fs && cs[s].node.kind == ts[j].node.kind
    ensures Chosen(fs, ts, q, cs', c', j, ids - {Key(ts[j])}, done, strict) && ById(fs, ts, j)
  {
    InTableIsById(fs, ts, q, j, cs, ids);
    s := TableSpot(fs, ts, q, j, cs, ids, Key(ts[j]));
    cs', c' := if s == c then cs else Moved(cs, s, c), Landing(s, c);
    ChooseKeyed(fs, ts, q, cs, c, j, ids, done, strict, s);
    LandsThere(cs, s, c);
  }

  lemma TableSpot(fs: seq<Shape>, ts: seq<Shape>, q: nat, j: nat, cs: seq<Shape>, ids: map<string, Node>, id: string)
    returns (s: nat)
    requires TableOk(fs, ts, q, j, cs, ids) && id in ids
    ensures s < |cs| && cs[s].node == ids[id] && Key(cs[s]) == id != "" && cs[s] in fs
  {
    var x :| x in cs && x.node == ids[id] && Key(x) == id && x in fs;
    s :| 0 <= s < |cs| && cs[s] == x;
  }

  lemma LandsThere(cs: seq<Shape>, s: nat, c: nat)
    requires s < |cs| && c <= |cs|
    ensures var cs' := if s == c then cs else Moved(cs, s, c);
            Landing(s, c) < |cs'| && cs'[Landing(s, c)] == cs[s]
  {
  }

  /** Morphs the chosen old child. */
  method FinishChosen(from: Node, to: Node, found: Node, toChild: Node, ids: map<string, Node>,
                      ghost fs: seq<Shape>, ghost ts: seq<Shape>, ghost strict: bool, ghost q: nat,
                      ghost cs: seq<Shape>, ghost c: nat, ghost j: nat, ghost done: seq<Shape>,
                      ghost owned: set<Node>, ghost world: set<Node>)
    returns (ghost cs': seq<Shape>, ghost r: Shape, ghost made: set<Node>)
    requires Doing(from, to, fs, ts, strict, cs, owned, world)
    requires Chosen(fs, ts, q, cs, c, j, ids, done, strict)
    requires cs[c].node == found && cs[c] in fs && found.kind == toChild.kind && toChild == ts[j].node
    requires ById(fs, ts, j) || (SameSort(cs[c], ts[j]) && Takes(Unused(fs, ts, q, j), fs, ts, j) && Unused(fs, ts, q, j)[0] == cs[c])
    modifies from`kids, NodesOf(cs)
    ensures Doing(from, to, fs, ts, strict, cs', owned + made, world)
    ensures fresh(made) && NodesOf(cs') <= NodesOf(cs) + made
    ensures Pass(fs, ts, q, cs', c + 1, j + 1, ids, done + [r], strict)
    ensures At(from.kids, c + 1) == old(At(from.kids, c + 1))
    decreases ts, 0, 0
  {
    LeftoversExist(fs, ts, q, j + 1, cs, ids);
    KidAt(to, ts, j);
    r, made := MorphChild(from, to, found, toChild, fs, ts, strict, cs, c, j, owned, world);
    assert SameSort(cs[c], ts[j]) ==> Stays(cs[c], ts[j]);
    Finish(fs, ts, q, cs, c, j, ids, done, strict, r);
    cs' := Put(cs, c, r);
  }

  lemma LeftoversExist(fs: seq<Shape>, ts: seq<Shape>, q: nat, j: nat, cs: seq<Shape>, ids: map<string, Node>)
    requires TableOk(fs, ts, q, j, cs, ids)
    ensures ids.Values <= Roots(fs)
  {
    forall n | n in ids.Values
      ensures n in Roots(fs)
    {
      var id :| id in ids && ids[id] == n;
      var x :| x in cs && x.node == n && Key(x) == id && x in fs;
      var k :| 0 <= k < |fs| && fs[k] == x;
    }
  }

  /** Steps the cursor over keyed children that the table still holds. */
  method SkipKept(from: Node, to: Node, cur: Node?, ids: map<string, Node>,
                  ghost fs: seq<Shape>, ghost ts: seq<Shape>, ghost strict: bool, ghost q: nat,
                  ghost cs: seq<Shape>, ghost c0: nat, ghost j: nat, ghost done: seq<Shape>,
                  ghost owned: set<Node>, ghost world: set<Node>)
    returns (n: Node?, ghost c: nat)
    requires Doing(from, to, fs, ts, strict, cs, owned, world)
    requires Pass(fs, ts, q, cs, c0, j, ids, done, strict) && cur == At(from.kids, c0)
    ensures Pass(fs, ts, q, cs, c, j, ids, done, strict) && n == At(from.kids, c)
    ensures c < |cs| ==> Key(cs[c]) == ""
    ensures Doing(from, to, fs, ts, strict, cs, owned, world)
  {
    hide Doing, Pass;
    DoingFacts(from, to, fs, ts, strict, cs, owned, world);
    n, c := cur, c0;
    while n != null && n.kind == Element && n.Id() != "" && n.Id() in ids
      invariant Doing(from, to, fs, ts, strict, cs, owned, world)
      invariant Pass(fs, ts, q, cs, c, j, ids, done, strict) && n == At(from.kids, c)
      decreases |cs| - c
    {
      AtCursor(from, to, fs, ts, strict, cs, c, owned, world);
      SkipKeyed(fs, ts, q, cs, c, j, ids, done, strict);
      n := NextOf(from, n, cs, c);
      c := c + 1;
    }
    if c < |cs| {
      AtCursor(from, to, fs, ts, strict, cs, c, owned, world);
      UnlessInTable(fs, ts, q, cs, c, j, ids, done, strict);
    }
  }

  /** The child that the cursor is on. */
  lemma AtCursor(from: Node, to: Node, fs: seq<Shape>, ts: seq<Shape>, strict: bool, cs: seq<Shape>, c: nat,
                 owned: set<Node>, world: set<Node>)
    requires Doing(from, to, fs, ts, strict, cs, owned, world) && (At(from.kids, c) != null || c < |cs|)
    ensures c < |cs| && KidsOf(from, cs) && At(from.kids, c) == cs[c].node && cs[c].node.Id() == Key(cs[c])
    ensures Key(cs[c]) != "" ==> cs[c].node.kind == Element
  {
    hide Accounted, Inputs;
    KidAt(from, cs, c);
    IdIsKey(cs[c]);
  }

  lemma UnlessInTable(fs: seq<Shape>, ts: seq<Shape>, q: nat, cs: seq<Shape>, c: nat, j: nat,
                      ids: map<string, Node>, done: seq<Shape>, strict: bool)
    requires Pass(fs, ts, q, cs, c, j, ids, done, strict) && c < |cs|
    ensures Key(cs[c]) != "" ==> Key(cs[c]) in ids
  {
    assert Waiting(fs, q, ids, cs[c]);
  }

  /** Serves the new child at `j` with a copy of it, put before the cursor. */
  method PlaceCopy(from: Node, to: Node, toChild: Node, cur: Node?, ids: map<string, Node>,
                   ghost fs: seq<Shape>, ghost ts: seq<Shape>, ghost strict: bool, ghost q: nat,
                   ghost cs: seq<Shape>, ghost c: nat, ghost j: nat, ghost done: seq<Shape>,
                   ghost owned: set<Node>, ghost world: set<Node>)
    returns (ghost cs': seq<Shape>, ghost r: Shape, ghost made: set<Node>)
    requires Doing(from, to, fs, ts, strict, cs, owned, world)
    requires Pass(fs, ts, q, cs, c, j, ids, done, strict) && cur == At(from.kids, c)
    requires j < |ts| && toChild == ts[j].node && Key(ts[j]) !in ids && !Takes(Unused(fs, ts, q, j), fs, ts, j)
    modifies from`kids
    ensures Doing(from, to, fs, ts, strict, cs', owned + made, world)
    ensures fresh(made) && NodesOf(cs') <= NodesOf(cs) + made
    ensures Pass(fs, ts, q, cs', c + 1, j + 1, ids, done + [r], strict)
    ensures cur == At(from.kids, c + 1) && |cs'| == |cs| + 1
  {
    hide Served, PrefixKept, PrefixEnds, InPlace, InReserve, Takes, TableOk, Without, Waiting, Accounted, Inputs, Synced, Serves, Copied;
    DoingFacts(from, to, fs, ts, strict, cs, owned, world);
    KidAt(to, ts, j);
    r, made := InsertClone(from, cs, c, cur, toChild, ts[j], world, owned);
    cs' := Insert(cs, c, r);
    CopiedIsSynced(r, ts[j], strict);
    ServesFresh(fs, r, ts[j]);
    NoRoot(fs, r);
    SeparateRoots(cs');
    AccountedAfterInsert(fs, cs, c, r, made, owned);
    PassInsert(fs, ts, q, cs, c, j, ids, done, strict, r);
    CursorAfterInsert(from, old(from.kids), cs, c, r);
  }

  lemma NoRoot(fs: seq<Shape>, r: Shape)
    requires Nodes(r) !! NodesOf(fs)
    ensures r.node !in Roots(fs)
  {
    RootsAmongNodes(fs);
    assert r.node in Nodes(r);
  }

  lemma CursorAfterInsert(from: Node, ks: seq<Node>, cs: seq<Shape>, c: nat, r: Shape)
    requires c <= |cs| && Lists(ks, cs) && KidsOf(from, Insert(cs, c, r))
    ensures At(from.kids, c + 1) == At(ks, c)
  {
    InsertAt(cs, c, r);
  }

  lemma AccountedAfterInsert(fs: seq<Shape>, cs: seq<Shape>, c: nat, r: Shape, made: set<Node>, owned: set<Node>)
    requires c <= |cs| && Accounted(fs, cs, owned) && NodesOf(fs) <= owned && made !! owned && Nodes(r) <= made
    requires NodesOf(Insert(cs, c, r)) <= NodesOf(cs) + Nodes(r)
    ensures Accounted(fs, Insert(cs, c, r), owned + made)
  {
    RootsAmongNodes(fs);
    RootsAfterInsert(cs, c, r);
    NodesStayAround(cs, c, r);
    hide Nodes, NodesOf, Roots, Insert;
  }

  lemma RootsAfterInsert(cs: seq<Shape>, c: nat, r: Shape)
    requires c <= |cs|
    ensures Roots(cs) <= Roots(Insert(cs, c, r))
  {
    var cs' := Insert(cs, c, r);
    InsertAt(cs, c, r);
    forall m | 0 <= m < |cs|
      ensures cs[m].node in Roots(cs')
    {
      assert cs'[if m < c then m else m + 1].node == cs[m].node;
    }
  }

  lemma NodesStayAround(cs: seq<Shape>, c: nat, r: Shape)
    requires c <= |cs|
    ensures NodesOf(cs) <= NodesOf(Insert(cs, c, r))
  {
    hide *;
    InsertMembers(cs, c, r);
    MembersNodes(cs, Insert(cs, c, r));
  }

  lemma PassInsert(fs: seq<Shape>, ts: seq<Shape>, q: nat, cs: seq<Shape>, c: nat, j: nat,
                   ids: map<string, Node>, done: seq<Shape>, strict: bool, r: Shape)
    requires Pass(fs, ts, q, cs, c, j, ids, done, strict) && j < |ts| && Key(ts[j]) !in ids
    requires DistinctRoots(Insert(cs, c, r)) && Synced(r, ts[j], strict) && Serves(fs, r, ts[j])
    requires r.node !in Roots(fs) && !Takes(Unused(fs, ts, q, j), fs, ts, j)
    ensures Pass(fs, ts, q, Insert(cs, c, r), c + 1, j + 1, ids, done + [r], strict)
  {
    var cs' := Insert(cs, c, r);
    InsertAt(cs, c, r);
    ChooseUnkeyed(fs, ts, q, cs, c, j, ids, done, strict, cs');
    NoFirst(fs, ts, q, cs, c, j, ids, done, strict);
    assert Put(cs', c, r) == cs';
    assert |cs'| != |cs| && PlacedRight(fs, ts, q, j, r.node);
    Finish(fs, ts, q, cs', c, j, ids, done, strict, r);
  }

  /** Serves the new child at `j`, whose id the table does not have: by the next unkeyed old child
      if it is of the same kind, else by a copy. */
  method PlaceUnkeyed(from: Node, to: Node, toChild: Node, cur: Node?, ids: map<string, Node>,
                      ghost fs: seq<Shape>, ghost ts: seq<Shape>, ghost strict: bool, ghost q: nat,
                      ghost cs0: seq<Shape>, ghost c0: nat, ghost j: nat, ghost done: seq<Shape>,
                      ghost owned: set<Node>, ghost world: set<Node>)
    returns (next: Node?, ghost cs: seq<Shape>, ghost c: nat, ghost r: Shape, ghost made: set<Node>)
    requires Doing(from, to, fs, ts, strict, cs0, owned, world)
    requires Pass(fs, ts, q, cs0, c0, j, ids, done, strict) && cur == At(from.kids, c0)
    requires j < |ts| && toChild == ts[j].node && Key(ts[j]) !in ids
    modifies from`kids, NodesOf(cs0)
    ensures Doing(from, to, fs, ts, strict, cs, owned + made, world)
    ensures fresh(made) && NodesOf(cs) <= NodesOf(cs0) + made
    ensures Pass(fs, ts, q, cs, c, j + 1, ids, done + [r], strict) && next == At(from.kids, c)
    decreases ts, 1
  {
    hide Doing, Pass, KidsOf, Rep, Takes, SameSort;
    DoingFacts(from, to, fs, ts, strict, cs0, owned, world);
    var n;
    n, c := SkipKept(from, to, cur, ids, fs, ts, strict, q, cs0, c0, j, done, owned, world);
    CursorIsNext(from, to, n, fs, ts, strict, q, cs0, c, j, ids, done, owned, world);
    if n != null && SameKind(n, toChild) {
      AtCursor(from, to, fs, ts, strict, cs0, c, owned, world);
      next, cs, r, made := Reuse(from, to, n, toChild, ids, fs, ts, strict, q, cs0, c, j, done, owned, world);
    } else {
      next := n;
      cs, r, made := PlaceCopy(from, to, toChild, n, ids, fs, ts, strict, q, cs0, c, j, done, owned, world);
    }
    c := c + 1;
  }

  /** The child that the cursor is on, if it has no id, is the next unused one. */
  lemma CursorIsNext(from: Node, to: Node, n: Node?, fs: seq<Shape>, ts: seq<Shape>, strict: bool, q: nat,
                     cs: seq<Shape>, c: nat, j: nat, ids: map<string, Node>, done: seq<Shape>,
                     owned: set<Node>, world: set<Node>)
    requires Doing(from, to, fs, ts, strict, cs, owned, world) && Pass(fs, ts, q, cs, c, j, ids, done, strict)
    requires n == At(from.kids, c) && (c < |cs| ==> Key(cs[c]) == "") && j < |ts| && Key(ts[j]) !in ids
    ensures n != null <==> c < |cs|
    ensures n != null ==> n == cs[c].node && (SameKind(n, ts[j].node) <==> SameSort(cs[c], ts[j]))
    ensures Takes(Unused(fs, ts, q, j), fs, ts, j) <==> n != null && SameKind(n, ts[j].node)
  {
    hide Served, PrefixKept, PrefixEnds, InPlace, TableOk, Waiting, Without, Accounted, Inputs, Unkeyed;
    NoFirst(fs, ts, q, cs, c, j, ids, done, strict);
    KidAt(to, ts, j);
    if c < |cs| {
      KidAt(from, cs, c);
      SlotsMeet(cs[c], ts[j]);
      UnkeyedFrom(cs, c);
    } else {
      assert cs[c..] == [];
      UnkeyedFirst(cs[c..]);
    }
    hide Slots, SameSort, KidsOf, Rep;
  }

  /** Serves the new child at `j` with the unkeyed old child at the cursor. */
  method Reuse(from: Node, to: Node, n: Node, toChild: Node, ids: map<string, Node>,
               ghost fs: seq<Shape>, ghost ts: seq<Shape>, ghost strict: bool, ghost q: nat,
               ghost cs0: seq<Shape>, ghost c: nat, ghost j: nat, ghost done: seq<Shape>,
               ghost owned: set<Node>, ghost world: set<Node>)
    returns (next: Node?, ghost cs: seq<Shape>, ghost r: Shape, ghost made: set<Node>)
    requires Doing(from, to, fs, ts, strict, cs0, owned, world)
    requires Pass(fs, ts, q, cs0, c, j, ids, done, strict) && c < |cs0| && n == cs0[c].node && Key(cs0[c]) == ""
    requires j < |ts| && toChild == ts[j].node && Key(ts[j]) !in ids && SameSort(cs0[c], ts[j])
    modifies from`kids, NodesOf(cs0)
    ensures Doing(from, to, fs, ts, strict, cs, owned + made, world)
    ensures fresh(made) && NodesOf(cs) <= NodesOf(cs0) + made
    ensures Pass(fs, ts, q, cs, c + 1, j + 1, ids, done + [r], strict) && next == At(from.kids, c + 1)
    decreases ts, 0, 1
  {
    hide Doing, Pass, Chosen, KidsOf, Rep;
    DoingFacts(from, to, fs, ts, strict, cs0, owned, world);
    DistinctNow(fs, ts, q, cs0, c, j, ids, done, strict);
    WaitingIsOld(fs, ts, q, cs0, c, j, ids, done, strict);
    ChooseUnkeyed(fs, ts, q, cs0, c, j, ids, done, strict, cs0);
    next := NextOf(from, n, cs0, c);
    cs, r, made := FinishChosen(from, to, n, toChild, ids, fs, ts, strict, q, cs0, c, j, done, owned, world);
  }

  lemma DistinctNow(fs: seq<Shape>, ts: seq<Shape>, q: nat, cs: seq<Shape>, c: nat, j: nat,
                    ids: map<string, Node>, done: seq<Shape>, strict: bool)
    requires Pass(fs, ts, q, cs, c, j, ids, done, strict)
    ensures DistinctRoots(cs)
  {
  }

  lemma WaitingIsOld(fs: seq<Shape>, ts: seq<Shape>, q: nat, cs: seq<Shape>, c: nat, j: nat,
                     ids: map<string, Node>, done: seq<Shape>, strict: bool)
    requires Pass(fs, ts, q, cs, c, j, ids, done, strict) && c < |cs|
    ensures cs[c] in fs
  {
    assert Waiting(fs, q, ids, cs[c]);
  }

  /** The state of the keyed pass: cursor and next new child stand at `c` and `j`. */
  ghost predicate AtRound(from: Node, to: Node, toChild: Node?, cur: Node?, ids: map<string, Node>,
                          fs: seq<Shape>, ts: seq<Shape>, strict: bool, q: nat,
                          cs: seq<Shape>, c: nat, j: nat, done: seq<Shape>,
                          owned: set<Node>, world: set<Node>)
    reads from`kids, NodesOf(cs), to`kids, NodesOf(ts), (Roots(fs) - Roots(cs))`parent, (NodesOf(fs) - NodesOf(cs))`parent
  {
    && Doing(from, to, fs, ts, strict, cs, owned, world)
    && Pass(fs, ts, q, cs, c, j, ids, done, strict)
    && cur == At(from.kids, c) && toChild == At(to.kids, j)
  }

  lemma RoundBounds(from: Node, to: Node, toChild: Node?, cur: Node?, ids: map<string, Node>,
                    fs: seq<Shape>, ts: seq<Shape>, strict: bool, q: nat,
                    cs: seq<Shape>, c: nat, j: nat, done: seq<Shape>,
                    owned: set<Node>, world: set<Node>)
    requires AtRound(from, to, toChild, cur, ids, fs, ts, strict, q, cs, c, j, done, owned, world)
    ensures j <= |ts| && (j == |ts| <==> toChild == null)
  {
  }

  lemma NoEmptyId(fs: seq<Shape>, ts: seq<Shape>, q: nat, cs: seq<Shape>, c: nat, j: nat,
                  ids: map<string, Node>, done: seq<Shape>, strict: bool)
    requires Pass(fs, ts, q, cs, c, j, ids, done, strict)
    ensures "" !in ids
  {
    hide Served, PrefixKept, PrefixEnds, InPlace, InReserve, Without, Waiting;
  }

  /** One round of the keyed pass. */
  method PlaceNext(from: Node, to: Node, toChild: Node, cur: Node?, ids0: map<string, Node>,
                   ghost fs: seq<Shape>, ghost ts: seq<Shape>, ghost strict: bool, ghost q: nat,
                   ghost cs0: seq<Shape>, ghost c0: nat, ghost j: nat, ghost done: seq<Shape>,
                   ghost owned: set<Node>, ghost world: set<Node>)
    returns (toNext: Node?, next: Node?, ids: map<string, Node>, ghost cs: seq<Shape>, ghost c: nat, ghost r: Shape,
             ghost made: set<Node>)
    requires AtRound(from, to, toChild, cur, ids0, fs, ts, strict, q, cs0, c0, j, done, owned, world)
    modifies from`kids, NodesOf(cs0)
    ensures AtRound(from, to, toNext, next, ids, fs, ts, strict, q, cs, c, j + 1, done + [r], owned + made, world)
    ensures fresh(made) && NodesOf(cs) <= NodesOf(cs0) + made
    decreases ts, 2
  {
    hide Served, PrefixKept, PrefixEnds, InPlace, InReserve, TableOk, Doing, Without;
    DoingFacts(from, to, fs, ts, strict, cs0, owned, world);
    KidAt(to, ts, j);
    IdIsKey(ts[j]);
    toNext := NextOf(to, toChild, ts, j);
    NoEmptyId(fs, ts, q, cs0, c0, j, ids0, done, strict);
    if toChild.Id() != "" && toChild.Id() in ids0 {
      next, ids, cs, c, r, made := PlaceKeyed(from, to, toChild, cur, ids0, fs, ts, strict, q, cs0, c0, j, done, owned, world);
    } else {
      ids := ids0;
      next, cs, c, r, made := PlaceUnkeyed(from, to, toChild, cur, ids, fs, ts, strict, q, cs0, c0, j, done, owned, world);
    }
  }

  /** The keyed pass and the two removals after it. */
  method KeyedChildren(from: Node, to: Node, toFirst: Node, curFirst: Node, table: map<string, Node>,
                       ghost fs: seq<Shape>, ghost ts: seq<Shape>, ghost strict: bool, ghost q: nat,
                       ghost cs0: seq<Shape>, ghost owned: set<Node>, ghost world: set<Node>)
    returns (ghost rs: seq<Shape>, ghost made: set<Node>)
    requires q <= |cs0|
    requires AtRound(from, to, toFirst, curFirst, table, fs, ts, strict, q, cs0, q, q, cs0[..q], owned, world)
    modifies from`kids, NodesOf(cs0)
    ensures Doing(from, to, fs, ts, strict, rs, owned + made, world)
    ensures fresh(made) && NodesOf(rs) <= NodesOf(cs0) + made
    ensures AllSynced(rs, ts, strict) && KidsKept(fs, rs, ts)
    decreases ts, 3
  {
    hide Doing, AtRound, AllSynced, KidsKept;
    var cur: Node?, toChild: Node?, ids := curFirst, toFirst, table;
    ghost var cs, c, j, done := cs0, q, q, cs0[..q];
    ghost var mine := owned;
    made := {};
    RoundBounds(from, to, toChild, cur, ids, fs, ts, strict, q, cs, c, j, done, mine, world);
    while toChild != null
      invariant AtRound(from, to, toChild, cur, ids, fs, ts, strict, q, cs, c, j, done, mine, world)
      invariant mine == owned + made && fresh(made) && NodesOf(cs) <= NodesOf(cs0) + made
      invariant j <= |ts| && (j == |ts| <==> toChild == null)
      decreases |ts| - j
    {
      ghost var r, more;
      toChild, cur, ids, cs, c, r, more :=
        PlaceNext(from, to, toChild, cur, ids, fs, ts, strict, q, cs, c, j, done, mine, world);
      j, done := j + 1, done + [r];
      mine, made := mine + more, made + more;
      RoundBounds(from, to, toChild, cur, ids, fs, ts, strict, q, cs, c, j, done, mine, world);
    }
    rs := RemoveUnused(from, to, cur, ids, fs, ts, strict, q, cs, c, j, done, mine, world);
  }

  /** What the keyed pass leaves behind: the rest from the cursor on, then the unused keyed ones. */
  method RemoveUnused(from: Node, to: Node, cur: Node?, ids: map<string, Node>,
                      ghost fs: seq<Shape>, ghost ts: seq<Shape>, ghost strict: bool, ghost q: nat,
                      ghost cs: seq<Shape>, ghost c: nat, ghost j: nat, ghost done: seq<Shape>,
                      ghost owned: set<Node>, ghost world: set<Node>)
    returns (ghost rs: seq<Shape>)
    requires AtRound(from, to, null, cur, ids, fs, ts, strict, q, cs, c, j, done, owned, world) && j == |ts|
    modifies from`kids, NodesOf(cs)
    ensures Doing(from, to, fs, ts, strict, rs, owned, world) && NodesOf(rs) <= NodesOf(cs)
    ensures AllSynced(rs, ts, strict) && KidsKept(fs, rs, ts)
  {
    End(fs, ts, q, cs, c, ids, done, strict);
    LeftoversExist(fs, ts, q, |ts|, cs, ids);
    rs := RemoveFrom(from, to, cur, fs, ts, strict, cs, c, owned, world);
    rs := RemoveLeft(from, to, ids, fs, ts, strict, rs, owned, world);
  }

  /** All old children are in place: the rest of the new ones are copied behind them. */
  method AppendRest(from: Node, to: Node, toFirst: Node?, ghost fs: seq<Shape>, ghost ts: seq<Shape>, ghost strict: bool,
                    ghost cs0: seq<Shape>, ghost owned: set<Node>, ghost world: set<Node>)
    returns (ghost rs: seq<Shape>, ghost made: set<Node>)
    requires AtRound(from, to, toFirst, null, map[], fs, ts, strict, |fs|, cs0, |cs0|, |fs|, cs0, owned, world)
    modifies from`kids
    ensures Doing(from, to, fs, ts, strict, rs, owned + made, world)
    ensures fresh(made) && NodesOf(rs) <= NodesOf(cs0) + made
    ensures AllSynced(rs, ts, strict) && KidsKept(fs, rs, ts)
  {
    hide AtRound;
    var toChild := toFirst;
    ghost var j, done := |fs|, cs0;
    ghost var mine := owned;
    rs, made := cs0, {};
    RoundBounds(from, to, toChild, null, map[], fs, ts, strict, |fs|, rs, |rs|, j, done, mine, world);
    while toChild != null
      invariant AtRound(from, to, toChild, null, map[], fs, ts, strict, |fs|, rs, |rs|, j, done, mine, world)
      invariant mine == owned + made && fresh(made) && NodesOf(rs) <= NodesOf(cs0) + made
      invariant j <= |ts| && (j == |ts| <==> toChild == null)
      decreases |ts| - j
    {
      ghost var r, more;
      toChild, rs, r, more := AppendCopy(from, to, toChild, fs, ts, strict, rs, j, done, mine, world);
      j, done := j + 1, done + [r];
      mine, made := mine + more, made + more;
      RoundBounds(from, to, toChild, null, map[], fs, ts, strict, |fs|, rs, |rs|, j, done, mine, world);
    }
    AppendedAll(from, to, fs, ts, strict, rs, j, done, mine, world);
  }

  method AppendCopy(from: Node, to: Node, toChild: Node, ghost fs: seq<Shape>, ghost ts: seq<Shape>, ghost strict: bool,
                    ghost rs0: seq<Shape>, ghost j: nat, ghost done: seq<Shape>, ghost owned: set<Node>, ghost world: set<Node>)
    returns (toNext: Node?, ghost rs: seq<Shape>, ghost r: Shape, ghost made: set<Node>)
    requires AtRound(from, to, toChild, null, map[], fs, ts, strict, |fs|, rs0, |rs0|, j, done, owned, world)
    modifies from`kids
    ensures AtRound(from, to, toNext, null, map[], fs, ts, strict, |fs|, rs, |rs|, j + 1, done + [r], owned + made, world)
    ensures fresh(made) && NodesOf(rs) <= NodesOf(rs0) + made
  {
    hide Synced, Kept, Serves, Served, Unused, TableOk, PrefixKept, InPlace;
    toNext := NextOf(to, toChild, ts, j);
    NoneUnused(fs, ts, j);
    rs, r, made := PlaceCopy(from, to, toChild, null, map[], fs, ts, strict, |fs|, rs0, |rs0|, j, done, owned, world);
  }

  lemma {:induction false} NoneUnused(fs: seq<Shape>, ts: seq<Shape>, j: nat)
    ensures Unused(fs, ts, |fs|, j) == []
  {
    if j > |fs| {
      NoneUnused(fs, ts, j - 1);
    }
  }

  lemma AppendedAll(from: Node, to: Node, fs: seq<Shape>, ts: seq<Shape>, strict: bool,
                    rs: seq<Shape>, j: nat, done: seq<Shape>, owned: set<Node>, world: set<Node>)
    requires AtRound(from, to, null, null, map[], fs, ts, strict, |fs|, rs, |rs|, j, done, owned, world) && j == |ts|
    ensures Doing(from, to, fs, ts, strict, rs, owned, world)
    ensures AllSynced(rs, ts, strict) && KidsKept(fs, rs, ts)
  {
    EmptyTableEnd(fs, ts, |fs|, rs, j, done, strict);
    End(fs, ts, |fs|, rs, |rs|, map[], done, strict);
  }

  /** Makes the children of `from` match those of `to`. */
  method MorphChildren(from: Node, to: Node, ghost fs: seq<Shape>, ghost ts: seq<Shape>, ghost strict: bool,
                       ghost owned: set<Node>, ghost world: set<Node>)
    returns (ghost rs: seq<Shape>, ghost made: set<Node>)
    requires Doing(from, to, fs, ts, strict, fs, owned, world)
    modifies from`kids, NodesOf(fs)
    ensures Doing(from, to, fs, ts, strict, rs, owned + made, world)
    ensures fresh(made) && NodesOf(rs) <= NodesOf(fs) + made
    ensures AllSynced(rs, ts, strict) && KidsKept(fs, rs, ts)
    decreases ts, 4
  {
    hide Doing, Prefix, AtRound, AllSynced, KidsKept, InSlots;
    var cur, toChild;
    ghost var cs, q, more;
    cur, toChild, cs, q, made := PrefixPass(from, to, fs, ts, strict, owned, world);
    ghost var mine := owned + made;
    DoingFacts(from, to, fs, ts, strict, cs, mine, world);
    AfterPrefix(from, to, toChild, cur, fs, ts, strict, q, cs, mine, world);
    if cur == null {
      rs, more := AppendRest(from, to, toChild, fs, ts, strict, cs, mine, world);
    } else if toChild == null {
      more := {};
      rs := RemoveFrom(from, to, cur, fs, ts, strict, cs, q, mine, world);
      assert mine + more == mine;
    } else {
      var ids := CollectIds(from, to, cur, fs, ts, strict, cs, q, mine, world);
      rs, more := KeyedChildren(from, to, toChild, cur, ids, fs, ts, strict, q, cs, mine, world);
    }
    assert mine + more == owned + (made + more);
    made := made + more;
  }

  lemma AfterPrefix(from: Node, to: Node, toChild: Node?, cur: Node?, fs: seq<Shape>, ts: seq<Shape>, strict: bool,
                    q: nat, cs: seq<Shape>, owned: set<Node>, world: set<Node>)
    requires Doing(from, to, fs, ts, strict, cs, owned, world) && Prefix(fs, ts, q, cs, strict)
    requires cur == At(from.kids, q) && toChild == At(to.kids, q) && !InSlots(fs, ts, q)
    ensures q <= |fs| == |cs|
    ensures AtRound(from, to, toChild, cur, Table(fs, q, |fs|), fs, ts, strict, q, cs, q, q, cs[..q], owned, world)
    ensures cur == null ==>
              AtRound(from, to, toChild, null, map[], fs, ts, strict, |fs|, cs, |cs|, |fs|, cs, owned, world)
    ensures toChild == null ==>
              AllSynced(cs[..q], ts, strict) && KidsKept(fs, cs[..q], ts)
  {
    SeparateRoots(cs);
    Begin(fs, ts, q, cs, strict);
    if toChild == null {
      End(fs, ts, q, cs, q, Table(fs, q, |fs|), cs[..q], strict);
    }
    if cur == null {
      assert cs[..q] == cs && Table(fs, q, |fs|) == map[];
    }
  }

  // ---------- The promise for whole trees ----------

  /** Morphing an element tree towards one with the same root tag, when neither side opts out and
      old siblings have unique ids: afterwards the two trees look alike, every node that can stay is the
      same object as before at every depth, children with unwanted ids are detached at every depth, and
      the new tree is untouched. */
  method MorphTree(from: Node, to: Node, ghost f: Shape, ghost t: Shape, ghost at: nat,
                   ghost owned: set<Node>, ghost world: set<Node>)
    returns (ghost r: Shape, ghost made: set<Node>)
    requires f.node == from && t.node == to && Rep(f) && Rep(t)
    requires Nodes(f) <= owned && Nodes(t) <= world && owned !! world
    requires from.kind == to.kind == Element && from.tag == to.tag
    requires UniqueIds(f) && Unmarked(f) && Unmarked(t)
    requires ParentOf(from) !! Nodes(f) + world && Placed(from, at)
    modifies Nodes(f), ParentOf(from)`kids
    ensures Rep(r) && Rep(t) && ViewOf(r) == ViewOf(t)
    ensures r.node == from && Kept(f, r, t)
    ensures forall n :: n in Nodes(f) && AbsentBelow(f, r, t, n) ==>
              n !in Nodes(r) && (n.parent == null || n.parent !in Nodes(r))
    ensures Nodes(r) <= Nodes(f) + made && fresh(made)
    ensures from.parent == old(from.parent)
    ensures from.parent != null ==> from.parent.kids == old(from.parent.kids)
  {
    RepIsClear(f);
    r, made := Morph(from, to, f, t, at, true, owned, world);
    hide Kept, ViewOf, Synced, AbsentBelow, Nodes;
    SyncedIsSameView(r, t);
    RepIsClear(r);
    forall n | n in Nodes(f) && AbsentBelow(f, r, t, n)
      ensures n !in Nodes(r)
    {
      AbsentIsGone(f, r, t, n);
    }
  }
}
