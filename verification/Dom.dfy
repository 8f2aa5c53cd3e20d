/** A small document tree: the nodes, attribute lists and child-list operations that `morph` uses.

    A `Node` is mutable.  A `Shape` is a ghost snapshot of the subtree under a node: which node
    object sits where, and what it holds.  `Rep(s)` says that the heap looks like `s`. */
module Dom {

  datatype Kind = Element | Text | Comment

  datatype Attr = Attr(name: string, value: string)

  ghost predicate UniqueNames(attrs: seq<Attr>) {
    forall i, j :: 0 <= i < j < |attrs| ==> attrs[i].name != attrs[j].name
  }

  /** Index of the attribute called `name` (`getNamedItem`), or -1. */
  function Find(attrs: seq<Attr>, name: string): (r: int)
    ensures -1 <= r < |attrs|
    ensures r >= 0 ==> attrs[r].name == name
    ensures r < 0 ==> forall i :: 0 <= i < |attrs| ==> attrs[i].name != name
  {
    if attrs == [] then -1
    else if attrs[|attrs| - 1].name == name then |attrs| - 1
    else Find(attrs[..|attrs| - 1], name)
  }

  /** The attribute list as a map; the order of attributes carries no meaning. */
  ghost function AttrMap(attrs: seq<Attr>): map<string, string> {
    map n | n in Names(attrs) :: attrs[Find(attrs, n)].value
  }

  ghost function Names(attrs: seq<Attr>): set<string> {
    set i | 0 <= i < |attrs| :: attrs[i].name
  }

  /** `attrs` gives `a.name` the value `a.value`. */
  ghost predicate Holds(attrs: seq<Attr>, a: Attr) {
    Find(attrs, a.name) >= 0 && attrs[Find(attrs, a.name)] == a
  }

  lemma HoldsAt(attrs: seq<Attr>, i: nat)
    requires UniqueNames(attrs) && i < |attrs|
    ensures Find(attrs, attrs[i].name) == i && Holds(attrs, attrs[i])
  {
    var k := Find(attrs, attrs[i].name);
    assert attrs[k].name == attrs[i].name;
  }

  /** `attrs` has every attribute of `to`. */
  ghost predicate HoldsAll(attrs: seq<Attr>, to: seq<Attr>) {
    forall k :: 0 <= k < |to| ==> Holds(attrs, to[k])
  }

  /** The first list holds each attribute of the second and has no other names: same map. */
  lemma SameMap(a: seq<Attr>, b: seq<Attr>)
    requires HoldsAll(a, b) && Names(a) <= Names(b)
    ensures AttrMap(a) == AttrMap(b)
  {
    NamesInclude(a, b);
    assert Names(a) == Names(b);
    assert AttrMap(a).Keys == Names(a) && AttrMap(b).Keys == Names(b);
  }

  lemma NamesInclude(a: seq<Attr>, b: seq<Attr>)
    requires HoldsAll(a, b)
    ensures forall n :: n in Names(b) ==> n in Names(a) && AttrMap(a)[n] == AttrMap(b)[n]
  {
    forall n | n in Names(b)
      ensures n in Names(a) && AttrMap(a)[n] == AttrMap(b)[n]
    {
      var i := Find(b, n);
      assert Holds(a, b[i]) && a[Find(a, n)] == b[i];
    }
  }

  /** Distinct names of one list that all occur in a list of the same length fill it. */
  lemma Pigeonhole(a: seq<Attr>, b: seq<Attr>)
    requires UniqueNames(a) && UniqueNames(b) && |a| == |b| && HoldsAll(a, b)
    ensures Names(a) <= Names(b)
  {
    NameCount(a);
    NameCount(b);
    NamesInclude(a, b);
    SubsetOfSameSize(Names(b), Names(a));
  }

  lemma {:induction false} NameCount(a: seq<Attr>)
    requires UniqueNames(a)
    ensures |Names(a)| == |a|
  {
    if a != [] {
      NameCount(a[..|a| - 1]);
      NamesNext(a);
      hide Names;
    }
  }

  lemma NamesNext(a: seq<Attr>)
    requires UniqueNames(a) && a != []
    ensures var front, last := a[..|a| - 1], a[|a| - 1];
            Names(a) == Names(front) + {last.name} && last.name !in Names(front)
  {
    var front := a[..|a| - 1];
    assert a == front + [a[|a| - 1]];
  }

  lemma SubsetOfSameSize<T>(x: set<T>, y: set<T>)
    requires x <= y && |x| == |y|
    ensures x == y
  {
    assert y == x + (y - x);
    assert |y - x| == 0;
  }

  class Node {
    const kind: Kind
    const tag: string
    var attrs: seq<Attr>
    var text: string
    var kids: seq<Node>
    var parent: Node?

    constructor (kind: Kind, tag: string, attrs: seq<Attr>, text: string)
      ensures this.kind == kind && this.tag == tag && this.attrs == attrs && this.text == text
      ensures kids == [] && parent == null
    {
      this.kind, this.tag, this.attrs, this.text := kind, tag, attrs, text;
      kids, parent := [], null;
    }

    /** The `id` property: the value of the `id` attribute, or the empty string. */
    function Id(): string
      reads this
    {
      var i := Find(attrs, "id");
      if kind == Element && i >= 0 then attrs[i].value else ""
    }

    function HasAttribute(name: string): bool
      reads this
    {
      Find(attrs, name) >= 0
    }

    method SetAttribute(name: string, value: string)
      requires UniqueNames(attrs)
      modifies this`attrs
      ensures UniqueNames(attrs)
      ensures var i := Find(old(attrs), name);
              attrs == if i >= 0 then old(attrs)[i := Attr(name, value)] else old(attrs) + [Attr(name, value)]
    {
      var i := Find(attrs, name);
      if i >= 0 {
        attrs := attrs[i := Attr(name, value)];
      } else {
        attrs := attrs + [Attr(name, value)];
      }
    }

    method RemoveAttribute(name: string)
      requires UniqueNames(attrs)
      modifies this`attrs
      ensures UniqueNames(attrs)
      ensures var i := Find(old(attrs), name);
              attrs == if i >= 0 then old(attrs)[..i] + old(attrs)[i + 1..] else old(attrs)
    {
      var i := Find(attrs, name);
      if i >= 0 {
        attrs := attrs[..i] + attrs[i + 1..];
      }
    }

    // Child-list operations.  `at` and `src` name positions that the browser finds through its
    // sibling links.

    /** `appendChild` / `insertBefore` of a node that is nobody's child yet. */
    method InsertNew(n: Node, ghost at: nat, before: Node?)
      requires n != this && n.parent == null && n !in kids
      requires at <= |kids| && before == At(kids, at) && DistinctNodes(kids)
      modifies this`kids, n`parent
      ensures kids == Insert(old(kids), at, n)
      ensures n.parent == this
    {
      if before == null {
        kids := kids + [n];
      } else {
        var k :| 0 <= k < |kids| && kids[k] == before;
        kids := kids[..k] + [n] + kids[k..];
      }
      n.parent := this;
    }

    /** `insertBefore` of a node that already is a child: it leaves its place first. */
    method MoveBefore(n: Node, ghost src: nat, ghost at: nat, before: Node?)
      requires src < |kids| && kids[src] == n && n.parent == this && src != at
      requires at <= |kids| && before == At(kids, at) && DistinctNodes(kids)
      modifies this`kids
      ensures kids == Moved(old(kids), src, at)
    {
      var s :| 0 <= s < |kids| && kids[s] == n;
      assert s == src;
      var k := |kids|;
      if before != null {
        k :| 0 <= k < |kids| && kids[k] == before;
      }
      assert k == at;
      var rest := kids[..s] + kids[s + 1..];
      var k' := if s < k then k - 1 else k;
      MovedIsRemoveThenInsert(kids, s, k);
      kids := rest[..k'] + [n] + rest[k'..];
    }

    method RemoveChild(n: Node, ghost at: nat)
      requires at < |kids| && kids[at] == n && DistinctNodes(kids) && n != this
      modifies this`kids, n`parent
      ensures kids == Drop(old(kids), at)
      ensures n.parent == null
    {
      var k :| 0 <= k < |kids| && kids[k] == n;
      kids := kids[..k] + kids[k + 1..];
      n.parent := null;
    }

    method ReplaceChild(n: Node, o: Node, ghost at: nat)
      requires at < |kids| && kids[at] == o && DistinctNodes(kids)
      requires n.parent == null && n != o && n != this && o != this
      modifies this`kids, n`parent, o`parent
      ensures kids == old(kids)[at := n]
      ensures n.parent == this && o.parent == null
    {
      var k :| 0 <= k < |kids| && kids[k] == o;
      kids := kids[k := n];
      n.parent := this;
      o.parent := null;
    }

    method FirstChild() returns (c: Node?)
      ensures c == At(kids, 0)
    {
      c := if kids == [] then null else kids[0];
    }

    method NextSibling(ghost at: nat) returns (c: Node?)
      requires parent != null && at < |parent.kids| && parent.kids[at] == this
      requires DistinctNodes(parent.kids)
      ensures c == At(parent.kids, at + 1)
    {
      var k :| 0 <= k < |parent.kids| && parent.kids[k] == this;
      c := if k + 1 < |parent.kids| then parent.kids[k + 1] else null;
    }
  }

  function At(kids: seq<Node>, i: nat): Node? {
    if i < |kids| then kids[i] else null
  }

  ghost predicate DistinctNodes(kids: seq<Node>) {
    forall i, j :: 0 <= i < j < |kids| ==> kids[i] != kids[j]
  }

  /** The list `ks` after its element at `src` was moved to just before the element at `at`. */
  function Moved<T>(ks: seq<T>, src: nat, at: nat): seq<T>
    requires src < |ks| && at <= |ks| && src != at
  {
    if src < at then ks[..src] + ks[src + 1..at] + [ks[src]] + ks[at..]
    else ks[..at] + [ks[src]] + ks[at..src] + ks[src + 1..]
  }

  lemma MovedIsRemoveThenInsert<T>(ks: seq<T>, s: nat, k: nat)
    requires s < |ks| && k <= |ks| && s != k
    ensures var rest := ks[..s] + ks[s + 1..];
            var k' := if s < k then k - 1 else k;
            rest[..k'] + [ks[s]] + rest[k'..] == Moved(ks, s, k)
  {
    var rest := ks[..s] + ks[s + 1..];
    if s < k {
      assert rest[..k - 1] == ks[..s] + ks[s + 1..k];
      assert rest[k - 1..] == ks[k..];
    } else {
      assert rest[..k] == ks[..k];
      assert rest[k..] == ks[k..s] + ks[s + 1..];
    }
  }

  // ---------- Shapes ----------

  datatype Shape = Shape(node: Node, attrs: map<string, string>, text: string, kids: seq<Shape>)

  ghost function Nodes(s: Shape): set<Node>
    decreases s, 1
  {
    {s.node} + NodesOf(s.kids)
  }

  ghost function NodesOf(cs: seq<Shape>): set<Node>
    decreases cs, 0
  {
    set i, n | 0 <= i < |cs| && n in Nodes(cs[i]) :: n
  }

  /** No node occurs twice among the trees `cs`. */
  ghost predicate Separate(cs: seq<Shape>) {
    forall i, j :: 0 <= i < |cs| && 0 <= j < |cs| && i != j ==> Nodes(cs[i]) !! Nodes(cs[j])
  }

  ghost predicate Rep(s: Shape)
    reads s.node`attrs, s.node`text, s.node`kids, NodesOf(s.kids)
    decreases s, 1
  {
    && UniqueNames(s.node.attrs)
    && s.attrs == AttrMap(s.node.attrs)
    && s.text == s.node.text
    && (s.node.kind != Element ==> s.kids == [])
    && KidsOf(s.node, s.kids)
  }

  /** The children of `p` are exactly the trees `cs`, in order. */
  ghost predicate KidsOf(p: Node, cs: seq<Shape>)
    reads p`kids, NodesOf(cs)
    decreases cs, 1
  {
    p !in NodesOf(cs) && Separate(cs) && Lists(p.kids, cs) && Stand(p, cs)
  }

  ghost predicate Lists(ks: seq<Node>, cs: seq<Shape>) {
    |ks| == |cs| && forall i {:trigger ks[i]} {:trigger cs[i]} :: 0 <= i < |cs| ==> ks[i] == cs[i].node
  }

  ghost predicate Stand(p: Node, cs: seq<Shape>)
    reads NodesOf(cs)
    decreases cs, 0
  {
    forall i :: 0 <= i < |cs| ==> Under(p, cs[i])
  }

  /** The tree `s` hangs under `p`. */
  ghost predicate Under(p: Node, s: Shape)
    reads Nodes(s)
    decreases s, 2
  {
    s.node.parent == p && Rep(s)
  }

  ghost function Key(s: Shape): string {
    if s.node.kind == Element && "id" in s.attrs then s.attrs["id"] else ""
  }

  ghost predicate UniqueIdsIn(cs: seq<Shape>)
  {
    forall i, j :: 0 <= i < j < |cs| && Key(cs[i]) != "" ==> Key(cs[i]) != Key(cs[j])
  }

  /** Every sibling list below `s` has unique non-empty ids. */
  ghost predicate UniqueIds(s: Shape) {
    && UniqueIdsIn(s.kids)
    && forall i :: 0 <= i < |s.kids| ==> UniqueIds(s.kids[i])
  }

  lemma IdIsKey(s: Shape)
    requires Rep(s)
    ensures s.node.Id() == Key(s)
  {
    var a := s.node.attrs;
    var i := Find(a, "id");
    if i >= 0 {
      assert a[i].name == "id";
    }
  }

  // ---------- What the child-list operations do to the trees under a node ----------

  lemma NodesAt(cs: seq<Shape>, i: nat)
    requires i < |cs|
    ensures Nodes(cs[i]) <= NodesOf(cs) && cs[i].node in NodesOf(cs)
  {
  }

  lemma NodesOfOne(s: Shape)
    ensures NodesOf([s]) == Nodes(s)
  {
    assert [s][0] == s;
  }

  lemma KidAt(p: Node, cs: seq<Shape>, i: nat)
    requires KidsOf(p, cs) && i < |cs|
    ensures p.kids[i] == cs[i].node && cs[i].node.parent == p && Under(p, cs[i]) && Rep(cs[i])
    ensures Nodes(cs[i]) <= NodesOf(cs) && cs[i].node in NodesOf(cs)
  {
    assert Stand(p, cs);
    assert Under(p, cs[i]);
  }

  lemma KidsDistinct(p: Node, cs: seq<Shape>)
    requires KidsOf(p, cs)
    ensures DistinctNodes(p.kids)
  {
    forall i, j | 0 <= i < j < |cs|
      ensures cs[i].node != cs[j].node
    {
      assert cs[i].node in Nodes(cs[i]) && cs[j].node in Nodes(cs[j]);
    }
    assert forall i :: 0 <= i < |cs| ==> p.kids[i] == cs[i].node;
  }

  function Put<T>(ks: seq<T>, i: nat, x: T): seq<T>
    requires i < |ks|
  {
    ks[i := x]
  }

  lemma KidsReplaced(p: Node, ks: seq<Node>, cs: seq<Shape>, i: nat, r: Shape)
    requires i < |cs| && p !in NodesOf(cs) && Separate(cs) && Lists(ks, cs)
    requires Stand(p, cs[..i]) && Stand(p, cs[i + 1..]) && Under(p, r) && p.kids == ks[i := r.node]
    requires p !in Nodes(r) && Nodes(r) !! NodesOf(cs) - Nodes(cs[i])
    ensures KidsOf(p, Put(cs, i, r))
    ensures NodesOf(Put(cs, i, r)) <= NodesOf(cs) - Nodes(cs[i]) + Nodes(r)
  {
    var cs' := Put(cs, i, r);
    forall k | 0 <= k < |cs| && k != i
      ensures Under(p, cs[k])
      ensures Nodes(cs[k]) <= NodesOf(cs) - Nodes(cs[i])
    {
      NodesAt(cs, k);
      assert cs[k] == if k < i then cs[..i][k] else cs[i + 1..][k - i - 1];
    }
  }

  /** The trees other than `cs[i]` use other nodes. */
  lemma OthersApart(cs: seq<Shape>, i: nat)
    requires i < |cs| && Separate(cs)
    ensures NodesOf(cs[..i]) <= NodesOf(cs) - Nodes(cs[i])
    ensures NodesOf(cs[i + 1..]) <= NodesOf(cs) - Nodes(cs[i])
  {
    forall k | 0 <= k < |cs| && k != i
      ensures Nodes(cs[k]) <= NodesOf(cs) - Nodes(cs[i])
    {
      NodesAt(cs, k);
    }
  }

  /** The place in `ks` that the element at `k` of `Moved(ks, src, at)` came from. */
  function Origin(src: nat, at: nat, k: nat): (o: nat)
    requires src != at
  {
    if src < at then (if k < src || k >= at then k else if k < at - 1 then k + 1 else src)
    else (if k < at || k > src then k else if k == at then src else k - 1)
  }

  lemma MovedAt<T>(ks: seq<T>, src: nat, at: nat)
    requires src < |ks| && at <= |ks| && src != at
    ensures |Moved(ks, src, at)| == |ks|
    ensures forall k :: 0 <= k < |ks| ==> Origin(src, at, k) < |ks| && Moved(ks, src, at)[k] == ks[Origin(src, at, k)]
  {
    forall k | 0 <= k < |ks|
      ensures Origin(src, at, k) < |ks| && Moved(ks, src, at)[k] == ks[Origin(src, at, k)]
    {
      MovedAtOne(ks, src, at, k);
    }
  }

  lemma MovedAtOne<T>(ks: seq<T>, src: nat, at: nat, k: nat)
    requires src < |ks| && at <= |ks| && src != at && k < |ks|
    ensures Origin(src, at, k) < |ks| && |Moved(ks, src, at)| == |ks|
    ensures Moved(ks, src, at)[k] == ks[Origin(src, at, k)]
  {
    if src < at {
      var a, b, c := ks[..src], ks[src + 1..at], ks[at..];
      PiecesAt(a, b, [ks[src]], c, k);
    } else {
      var a, b, c := ks[..at], ks[at..src], ks[src + 1..];
      PiecesAt(a, [ks[src]], b, c, k);
    }
  }

  lemma PiecesAt<T>(a: seq<T>, b: seq<T>, c: seq<T>, d: seq<T>, k: nat)
    requires k < |a| + |b| + |c| + |d|
    ensures (a + b + c + d)[k] == if k < |a| then a[k]
                                  else if k < |a| + |b| then b[k - |a|]
                                  else if k < |a| + |b| + |c| then c[k - |a| - |b|]
                                  else d[k - |a| - |b| - |c|]
  {
  }

  lemma MovedMembers<T>(ks: seq<T>, src: nat, at: nat)
    requires src < |ks| && at <= |ks| && src != at
    ensures forall x :: x in ks <==> x in Moved(ks, src, at)
  {
    forall k | 0 <= k < |ks|
      ensures ks[k] in Moved(ks, src, at)
    {
      if src < at {
        MovedForth(ks, src, at, k);
      } else {
        MovedBack(ks, src, at, k);
      }
    }
    MovedAt(ks, src, at);
    hide Moved;
  }

  lemma MovedForth<T>(ks: seq<T>, src: nat, at: nat, k: nat)
    requires src < at <= |ks| && k < |ks|
    ensures ks[k] in Moved(ks, src, at)
  {
    MovedAt(ks, src, at);
    hide Moved;
    assert ks[k] == Moved(ks, src, at)[if k < src || k >= at then k else if k == src then at - 1 else k - 1];
  }

  lemma MovedBack<T>(ks: seq<T>, src: nat, at: nat, k: nat)
    requires at < src < |ks| && k < |ks|
    ensures ks[k] in Moved(ks, src, at)
  {
    MovedAt(ks, src, at);
    hide Moved;
    assert ks[k] == Moved(ks, src, at)[if k < at || k > src then k else if k == src then at else k + 1];
  }

  lemma SameMembersSameNodes(cs: seq<Shape>, cs': seq<Shape>)
    requires forall x :: x in cs <==> x in cs'
    ensures NodesOf(cs) == NodesOf(cs')
  {
    MembersNodes(cs, cs');
    MembersNodes(cs', cs);
  }

  lemma MembersNodes(cs: seq<Shape>, cs': seq<Shape>)
    requires forall x :: x in cs ==> x in cs'
    ensures NodesOf(cs) <= NodesOf(cs')
  {
    forall i | 0 <= i < |cs|
      ensures Nodes(cs[i]) <= NodesOf(cs')
    {
      assert cs[i] in cs';
      var k :| 0 <= k < |cs'| && cs'[k] == cs[i];
      NodesAt(cs', k);
    }
  }

  lemma KidsMoved(p: Node, ks: seq<Node>, cs: seq<Shape>, src: nat, at: nat)
    requires src < |cs| && at <= |cs| && src != at && p !in NodesOf(cs) && Separate(cs) && Lists(ks, cs)
    requires Stand(p, cs) && p.kids == Moved(ks, src, at)
    ensures KidsOf(p, Moved(cs, src, at))
    ensures NodesOf(Moved(cs, src, at)) == NodesOf(cs)
  {
    var cs' := Moved(cs, src, at);
    MovedAt(cs, src, at);
    MovedAt(ks, src, at);
    forall k | 0 <= k < |cs'|
      ensures Under(p, cs'[k]) && Nodes(cs'[k]) <= NodesOf(cs) && p.kids[k] == cs'[k].node
    {
      NodesAt(cs, Origin(src, at, k));
    }
    MovedMembers(cs, src, at);
    SameMembersSameNodes(cs, cs');
    MovedSeparate(cs, src, at);
  }

  lemma MovedSeparate(cs: seq<Shape>, src: nat, at: nat)
    requires src < |cs| && at <= |cs| && src != at && Separate(cs)
    ensures Separate(Moved(cs, src, at))
  {
    var cs' := Moved(cs, src, at);
    MovedAt(cs, src, at);
    forall i, j | 0 <= i < |cs'| && 0 <= j < |cs'| && i != j
      ensures Nodes(cs'[i]) !! Nodes(cs'[j])
    {
      assert Origin(src, at, i) != Origin(src, at, j);
    }
  }

  function Insert<T>(ks: seq<T>, at: nat, x: T): seq<T>
    requires at <= |ks|
  {
    ks[..at] + [x] + ks[at..]
  }

  lemma InsertAt<T>(ks: seq<T>, at: nat, x: T)
    requires at <= |ks|
    ensures |Insert(ks, at, x)| == |ks| + 1
    ensures forall k :: 0 <= k <= |ks| ==>
              Insert(ks, at, x)[k] == if k < at then ks[k] else if k == at then x else ks[k - 1]
  {
  }

  lemma InsertMembers<T>(ks: seq<T>, at: nat, x: T)
    requires at <= |ks|
    ensures forall y :: y in ks ==> y in Insert(ks, at, x)
  {
    InsertAt(ks, at, x);
    forall k | 0 <= k < |ks|
      ensures ks[k] in Insert(ks, at, x)
    {
      assert Insert(ks, at, x)[if k < at then k else k + 1] == ks[k];
    }
  }

  function Drop<T>(ks: seq<T>, at: nat): seq<T>
    requires at < |ks|
  {
    ks[..at] + ks[at + 1..]
  }

  lemma DropAt<T>(ks: seq<T>, at: nat)
    requires at < |ks|
    ensures |Drop(ks, at)| == |ks| - 1
    ensures forall k :: 0 <= k < |ks| - 1 ==> Drop(ks, at)[k] == ks[if k < at then k else k + 1]
  {
  }

  lemma KidsInserted(p: Node, ks: seq<Node>, cs: seq<Shape>, at: nat, r: Shape)
    requires at <= |cs| && p !in NodesOf(cs) && Separate(cs) && Lists(ks, cs)
    requires Stand(p, cs) && Under(p, r) && p.kids == Insert(ks, at, r.node)
    requires p !in Nodes(r) && Nodes(r) !! NodesOf(cs)
    ensures KidsOf(p, Insert(cs, at, r))
    ensures NodesOf(Insert(cs, at, r)) <= NodesOf(cs) + Nodes(r)
  {
    var cs' := Insert(cs, at, r);
    InsertAt(cs, at, r);
    InsertAt(ks, at, r.node);
    forall k | 0 <= k < |cs'|
      ensures Under(p, cs'[k]) && Nodes(cs'[k]) <= NodesOf(cs) + Nodes(r) && p.kids[k] == cs'[k].node
    {
      if k != at {
        NodesAt(cs, if k < at then k else k - 1);
      }
    }
    InsertSeparate(cs, at, r);
  }

  lemma InsertSeparate(cs: seq<Shape>, at: nat, r: Shape)
    requires at <= |cs| && Separate(cs) && Nodes(r) !! NodesOf(cs)
    ensures Separate(Insert(cs, at, r))
  {
    var cs' := Insert(cs, at, r);
    InsertAt(cs, at, r);
    forall i, j | 0 <= i < |cs'| && 0 <= j < |cs'| && i != j
      ensures Nodes(cs'[i]) !! Nodes(cs'[j])
    {
      if i != at {
        NodesAt(cs, if i < at then i else i - 1);
      }
      if j != at {
        NodesAt(cs, if j < at then j else j - 1);
      }
    }
  }

  lemma KidsRemoved(p: Node, ks: seq<Node>, cs: seq<Shape>, at: nat)
    requires at < |cs| && p !in NodesOf(cs) && Separate(cs) && Lists(ks, cs)
    requires Stand(p, cs[..at]) && Stand(p, cs[at + 1..]) && p.kids == Drop(ks, at)
    ensures KidsOf(p, Drop(cs, at))
    ensures NodesOf(Drop(cs, at)) <= NodesOf(cs) - Nodes(cs[at])
  {
    var cs' := Drop(cs, at);
    DropAt(cs, at);
    DropAt(ks, at);
    forall k | 0 <= k < |cs'|
      ensures Under(p, cs'[k]) && Nodes(cs'[k]) <= NodesOf(cs) - Nodes(cs[at])
      ensures p.kids[k] == cs'[k].node
    {
      NodesAt(cs, if k < at then k else k + 1);
      assert cs'[k] == if k < at then cs[..at][k] else cs[at + 1..][k - at];
    }
  }
}
