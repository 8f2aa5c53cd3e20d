/** What morphing one tree towards another promises, as predicates on snapshots. */
module MorphSpec {
  import opened Dom

  ghost predicate Marked(attrs: map<string, string>) {
    "data-m-no" in attrs || "data-m-no^morph" in attrs
  }

  /** No element of the tree opts out of morphing. */
  ghost predicate Unmarked(s: Shape) {
    && (s.node.kind == Element ==> !Marked(s.attrs))
    && forall i :: 0 <= i < |s.kids| ==> Unmarked(s.kids[i])
  }

  /** `s` has the structure of `t`: kinds, tags, attribute maps, text and child order at every
      depth.  The text of comments is not compared.  Unless `strict`, an element that opts out
      (on either side) is not compared either. */
  ghost predicate Synced(s: Shape, t: Shape, strict: bool)
    decreases t
  {
    && s.node.kind == t.node.kind
    && (s.node.kind == Text ==> s.text == t.text)
    && (s.node.kind == Element ==>
          || (!strict && (Marked(s.attrs) || Marked(t.attrs)))
          || (s.node.tag == t.node.tag && s.attrs == t.attrs && AllSynced(s.kids, t.kids, strict)))
  }

  ghost predicate AllSynced(ss: seq<Shape>, ts: seq<Shape>, strict: bool)
    decreases ts
  {
    |ss| == |ts| && forall i :: 0 <= i < |ts| ==> Synced(ss[i], ts[i], strict)
  }

  /** `ts[j]` is the first of `ts` to carry the id of `fs[i]`. */
  ghost predicate SameKeyFirst(fs: seq<Shape>, i: int, ts: seq<Shape>, j: int) {
    && 0 <= i < |fs| && 0 <= j < |ts|
    && Key(fs[i]) != "" && Key(fs[i]) == Key(ts[j])
    && forall k :: 0 <= k < j ==> Key(ts[k]) != Key(ts[j])
  }

  /** Both are elements that take part in morphing. */
  ghost predicate TakePart(a: Shape, b: Shape) {
    a.node.kind == b.node.kind == Element && !Marked(a.attrs) && !Marked(b.attrs)
  }

  /** The node of `a` can stay when `a` is morphed towards `b`: only elements with different tags are
      replaced. */
  ghost predicate Stays(a: Shape, b: Shape) {
    TakePart(a, b) ==> a.node.tag == b.node.tag
  }

  /** `a` and `b` fit the same slot: equal ids, or, without ids, equal kinds and tags. */
  ghost predicate Slots(a: Shape, b: Shape) {
    && a.node.kind == b.node.kind
    && (a.node.kind != Element || if Key(a) != "" || Key(b) != "" then Key(a) == Key(b) else a.node.tag == b.node.tag)
  }

  /** Old and new children fit the same slots up to position `i`. */
  ghost predicate InSlots(fs: seq<Shape>, ts: seq<Shape>, i: int) {
    0 <= i < |fs| && i < |ts| && forall k :: 0 <= k <= i ==> Slots(fs[k], ts[k])
  }

  /** The prefix of pairs that fit the same slot ends at `q`. */
  ghost predicate PrefixEnds(fs: seq<Shape>, ts: seq<Shape>, q: nat) {
    q <= |fs| && q <= |ts| && (forall k :: 0 <= k < q ==> Slots(fs[k], ts[k])) && !InSlots(fs, ts, q)
  }

  /** The new child at `j` is matched by id. */
  ghost predicate ById(fs: seq<Shape>, ts: seq<Shape>, j: int) {
    exists i :: SameKeyFirst(fs, i, ts, j)
  }

  /** The children without ids, in order. */
  ghost function Unkeyed(cs: seq<Shape>): seq<Shape> {
    if cs == [] then [] else (if Key(cs[0]) == "" then [cs[0]] else []) + Unkeyed(cs[1..])
  }

  /** An old child without an id can be taken for a new child of its kind, and of its tag. */
  ghost predicate SameSort(a: Shape, b: Shape) {
    a.node.kind == b.node.kind && (a.node.kind == Element ==> a.node.tag == b.node.tag)
  }

  /** Without a match by id, the new child at `j` takes the first of `left` if it is of its sort. */
  ghost predicate Takes(left: seq<Shape>, fs: seq<Shape>, ts: seq<Shape>, j: nat) {
    j < |ts| && !ById(fs, ts, j) && left != [] && SameSort(left[0], ts[j])
  }

  /** The old children without ids behind the prefix that the new ones from `q` to `j` have not taken. */
  ghost function Unused(fs: seq<Shape>, ts: seq<Shape>, q: nat, j: nat): seq<Shape> {
    if j <= q then (if q <= |fs| then Unkeyed(fs[q..]) else [])
    else
      var left := Unused(fs, ts, q, j - 1);
      if Takes(left, fs, ts, j - 1) then left[1..] else left
  }

  /** Behind the prefix, `n` stands rightly for the new child at `j`: it is the next unused old child if
      that is to be taken, and none of the old children if the new one has no match at all. */
  ghost predicate PlacedRight(fs: seq<Shape>, ts: seq<Shape>, q: nat, j: nat, n: Node) {
    var left := Unused(fs, ts, q, j);
    && (Takes(left, fs, ts, j) ==> n == left[0].node)
    && (!ById(fs, ts, j) && !Takes(left, fs, ts, j) ==> n !in Roots(fs))
  }

  ghost predicate AllPlaced(fs: seq<Shape>, rs: seq<Shape>, ts: seq<Shape>) {
    forall q: nat, j: nat :: PrefixEnds(fs, ts, q) && q <= j < |ts| && j < |rs| ==> PlacedRight(fs, ts, q, j, rs[j].node)
  }

  /** From the old tree `f`, morphed towards `t`, came `r`: the node object stayed if it could, and
      below it the children were kept as they can be, at every depth. */
  ghost predicate Kept(f: Shape, r: Shape, t: Shape)
    decreases t, 0
  {
    && (Stays(f, t) ==> r.node == f.node)
    && (TakePart(f, t) && f.node.tag == t.node.tag ==> KidsKept(f.kids, r.kids, t.kids))
  }

  /** `r` stands where the new child `t` is wanted. It is either an old child, kept as it can be, whose
      old nodes are its own, or it has no old nodes at all. */
  ghost predicate Serves(fs: seq<Shape>, r: Shape, t: Shape)
    decreases t, 1
  {
    && (forall i :: 0 <= i < |fs| && r.node == fs[i].node ==> Kept(fs[i], r, t) && Nodes(r) * NodesOf(fs) <= Nodes(fs[i]))
    && (r.node !in Roots(fs) ==> Nodes(r) !! NodesOf(fs))
  }

  /** Children matched by id, and those in the same slots from the start, are the same nodes; behind
      these, the others take the old children without ids in order, or are new; whatever old child is
      still there is kept in turn; an old child whose id is not wanted is gone. */
  ghost predicate KidsKept(fs: seq<Shape>, rs: seq<Shape>, ts: seq<Shape>)
    decreases ts, 0
  {
    && |rs| == |ts|
    && (forall j :: 0 <= j < |ts| ==> Serves(fs, rs[j], ts[j]))
    && (forall i, j :: SameKeyFirst(fs, i, ts, j) && Stays(fs[i], ts[j]) ==> rs[j].node == fs[i].node)
    && (forall i :: InSlots(fs, ts, i) && Stays(fs[i], ts[i]) ==> rs[i].node == fs[i].node)
    && AllPlaced(fs, rs, ts) && AbsentDropped(fs, rs, ts)
  }

  ghost function Roots(cs: seq<Shape>): set<Node> {
    set k | 0 <= k < |cs| :: cs[k].node
  }

  /** Old nodes that are not in the trees any more have no parent there. */
  ghost predicate Loose(old_: set<Node>, now: set<Node>, pool: set<Node>)
    reads (old_ - now)`parent
  {
    forall n :: n in old_ - now ==> n.parent == null || (n.parent in pool && n.parent !in now)
  }

  /** Each old child either still is a child, or is detached and occurs nowhere in the trees; and so
      with the nodes below. */
  ghost predicate Accounted(fs: seq<Shape>, cs: seq<Shape>, pool: set<Node>)
    reads (Roots(fs) - Roots(cs))`parent, (NodesOf(fs) - NodesOf(cs))`parent
  {
    && (Roots(fs) - Roots(cs)) !! NodesOf(cs)
    && (forall n :: n in Roots(fs) - Roots(cs) ==> n.parent == null)
    && Loose(NodesOf(fs), NodesOf(cs), pool)
  }

  /** The id of the old child at `i` is one that no new child carries. */
  ghost predicate Absent(fs: seq<Shape>, ts: seq<Shape>, i: int) {
    0 <= i < |fs| && Key(fs[i]) != "" && forall j :: 0 <= j < |ts| ==> Key(ts[j]) != Key(fs[i])
  }

  /** An old child whose id no new child carries is no longer a child. */
  ghost predicate AbsentDropped(fs: seq<Shape>, rs: seq<Shape>, ts: seq<Shape>) {
    forall i :: Absent(fs, ts, i) ==> fs[i].node !in Roots(rs)
  }

  /** `n` was a child, of some node that was kept, with an id that is not wanted there any more. */
  ghost predicate AbsentBelow(f: Shape, r: Shape, t: Shape, n: Node)
    decreases t
  {
    && TakePart(f, t) && f.node.tag == t.node.tag && |r.kids| == |t.kids|
    && ((exists i :: Absent(f.kids, t.kids, i) && f.kids[i].node == n)
        || exists i, j :: 0 <= i < |f.kids| && 0 <= j < |t.kids| && r.kids[j].node == f.kids[i].node
                          && AbsentBelow(f.kids[i], r.kids[j], t.kids[j], n))
  }

  /** `r` is a node-by-node copy of `s`. */
  ghost predicate Copied(r: Shape, s: Shape)
    decreases s
  {
    && r.node.kind == s.node.kind && r.node.tag == s.node.tag && r.attrs == s.attrs && r.text == s.text
    && |r.kids| == |s.kids|
    && forall i :: 0 <= i < |s.kids| ==> Copied(r.kids[i], s.kids[i])
  }

  lemma {:induction false} CopiedIsSynced(r: Shape, s: Shape, strict: bool)
    requires Copied(r, s)
    ensures Synced(r, s, strict)
    decreases s
  {
    forall i | 0 <= i < |s.kids|
      ensures Synced(r.kids[i], s.kids[i], strict)
    {
      CopiedIsSynced(r.kids[i], s.kids[i], strict);
    }
  }

  // ---------- What a tree looks like ----------

  datatype View = ElementView(tag: string, attrs: map<string, string>, kids: seq<View>)
                | TextView(text: string)
                | CommentView

  /** The tree without node identity; of a comment only its presence counts. */
  ghost function ViewOf(s: Shape): View {
    match s.node.kind
    case Element => ElementView(s.node.tag, s.attrs, seq(|s.kids|, i requires 0 <= i < |s.kids| => ViewOf(s.kids[i])))
    case Text => TextView(s.text)
    case Comment => CommentView
  }

  /** Strict synchrony is equality of the views. */
  lemma {:induction false} SyncedIsSameView(s: Shape, t: Shape)
    ensures Synced(s, t, true) <==> ViewOf(s) == ViewOf(t)
    decreases t
  {
    if s.node.kind == t.node.kind == Element && |s.kids| == |t.kids| {
      var vs, vt := ViewOf(s).kids, ViewOf(t).kids;
      forall i | 0 <= i < |t.kids|
        ensures Synced(s.kids[i], t.kids[i], true) <==> vs[i] == vt[i]
      {
        SyncedIsSameView(s.kids[i], t.kids[i]);
      }
    } else if s.node.kind == t.node.kind == Element {
      assert |ViewOf(s).kids| != |ViewOf(t).kids|;
    }
  }

  // ---------- What stays ----------

  /** A wrapper without an id does not break the chain: in the same slot it is the same node, and its
      children with matching ids are too. */
  lemma KeptUnderWrapper(f: Shape, r: Shape, t: Shape, i: nat, k: nat, m: nat)
    requires Kept(f, r, t) && TakePart(f, t) && f.node.tag == t.node.tag && InSlots(f.kids, t.kids, i)
    requires TakePart(f.kids[i], t.kids[i]) && f.kids[i].node.tag == t.kids[i].node.tag
    requires SameKeyFirst(f.kids[i].kids, k, t.kids[i].kids, m) && Stays(f.kids[i].kids[k], t.kids[i].kids[m])
    ensures i < |r.kids| && r.kids[i].node == f.kids[i].node
    ensures m < |r.kids[i].kids| && r.kids[i].kids[m].node == f.kids[i].kids[k].node
  {
    KidKept(f.kids, r.kids, t.kids, i, i);
  }

  // ---------- Unwanted children are gone ----------

  /** No node occurs twice in the tree. */
  ghost predicate Clear(s: Shape) {
    s.node !in NodesOf(s.kids) && Separate(s.kids) && forall i :: 0 <= i < |s.kids| ==> Clear(s.kids[i])
  }

  lemma {:induction false} RepIsClear(s: Shape)
    requires Rep(s)
    ensures Clear(s)
    decreases s
  {
    assert KidsOf(s.node, s.kids);
    forall i | 0 <= i < |s.kids|
      ensures Clear(s.kids[i])
    {
      KidAt(s.node, s.kids, i);
      RepIsClear(s.kids[i]);
    }
  }

  /** At every depth, an old child with an id that is not wanted is not in the new tree at all. */
  lemma {:induction false} AbsentIsGone(f: Shape, r: Shape, t: Shape, n: Node)
    requires Kept(f, r, t) && Clear(f) && Clear(r) && AbsentBelow(f, r, t, n)
    ensures n in Nodes(f) && n !in Nodes(r)
    decreases t
  {
    var fs, rs, ts := f.kids, r.kids, t.kids;
    assert KidsKept(fs, rs, ts);
    hide KidsKept, Serves, Absent, TakePart;
    if i :| Absent(fs, ts, i) && fs[i].node == n {
      AbsentRoot(fs, rs, ts, i);
      NodesAt(fs, i);
      GoneFrom(fs, rs, ts, i, n);
    } else {
      var i, j :| 0 <= i < |fs| && 0 <= j < |ts| && rs[j].node == fs[i].node && AbsentBelow(fs[i], rs[j], ts[j], n);
      KidKept(fs, rs, ts, i, j);
      AbsentIsGone(fs[i], rs[j], ts[j], n);
      NodesAt(fs, i);
      OnlyThere(r, j);
      GoneFrom(fs, rs, ts, i, n);
    }
  }

  lemma KidKept(fs: seq<Shape>, rs: seq<Shape>, ts: seq<Shape>, i: nat, j: nat)
    requires KidsKept(fs, rs, ts) && i < |fs| && j < |ts| && rs[j].node == fs[i].node
    ensures Kept(fs[i], rs[j], ts[j])
  {
    assert Serves(fs, rs[j], ts[j]);
  }

  lemma AbsentRoot(fs: seq<Shape>, rs: seq<Shape>, ts: seq<Shape>, i: int)
    requires KidsKept(fs, rs, ts) && Absent(fs, ts, i)
    ensures 0 <= i < |fs| && forall j :: 0 <= j < |rs| ==> rs[j].node != fs[i].node
  {
    assert forall j :: 0 <= j < |rs| ==> rs[j].node in Roots(rs);
  }

  /** A node of the old child at `i` that is not in what this child became is not there at all. */
  lemma GoneFrom(fs: seq<Shape>, rs: seq<Shape>, ts: seq<Shape>, i: nat, n: Node)
    requires KidsKept(fs, rs, ts) && Separate(fs) && i < |fs| && n in Nodes(fs[i])
    requires forall j :: 0 <= j < |rs| && rs[j].node == fs[i].node ==> n !in Nodes(rs[j])
    ensures n !in NodesOf(rs)
  {
    hide Nodes, NodesOf, Separate, Serves;
    forall j | 0 <= j < |rs|
      ensures n !in Nodes(rs[j])
    {
      if rs[j].node != fs[i].node {
        NotThere(fs, rs[j], ts[j], i, n);
      }
    }
    NotInAny(rs, n);
  }

  lemma OnlyThere(r: Shape, j: nat)
    requires Clear(r) && j < |r.kids|
    ensures forall k :: 0 <= k < |r.kids| && r.kids[k].node == r.kids[j].node ==> k == j
  {
    assert forall k :: 0 <= k < |r.kids| ==> r.kids[k].node in Nodes(r.kids[k]);
  }

  lemma NotInAny(rs: seq<Shape>, n: Node)
    requires forall j :: 0 <= j < |rs| ==> n !in Nodes(rs[j])
    ensures n !in NodesOf(rs)
  {
  }

  /** A node of the old child at `i` is not in a tree that another child became. */
  lemma NotThere(fs: seq<Shape>, r: Shape, t: Shape, i: nat, n: Node)
    requires Separate(fs) && Serves(fs, r, t) && i < |fs| && n in Nodes(fs[i]) && r.node != fs[i].node
    ensures n !in Nodes(r)
  {
    NodesAt(fs, i);
    if r.node in Roots(fs) {
      var m :| 0 <= m < |fs| && fs[m].node == r.node;
    }
  }
}
