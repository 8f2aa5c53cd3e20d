/** The keyed pass of `morphChildren`, as a statement about lists of trees.

    While the pass runs, the child list `cs` is split by the cursor position `c`: behind it stand
    the finished children `done`, in order, interleaved with keyed children that were skipped and
    still are in the table `ids`; from it on stand old children that were not touched yet. */
module KeyedPass {
  import opened Dom
  import opened MorphSpec

  /** The trees whose root is not one of `left`, in order. */
  ghost function Without(cs: seq<Shape>, left: set<Node>): seq<Shape> {
    if cs == [] then []
    else
      var front := Without(cs[..|cs| - 1], left);
      if cs[|cs| - 1].node in left then front else front + [cs[|cs| - 1]]
  }

  ghost predicate DistinctRoots(cs: seq<Shape>) {
    forall i, j :: 0 <= i < |cs| && 0 <= j < |cs| && i != j ==> cs[i].node != cs[j].node
  }

  lemma SeparateRoots(cs: seq<Shape>)
    requires Separate(cs)
    ensures DistinctRoots(cs)
  {
    forall i, j | 0 <= i < |cs| && 0 <= j < |cs| && i != j
      ensures cs[i].node != cs[j].node
    {
      assert cs[i].node in Nodes(cs[i]) && cs[j].node in Nodes(cs[j]);
    }
  }

  lemma {:induction false} WithoutConcat(a: seq<Shape>, b: seq<Shape>, left: set<Node>)
    ensures Without(a + b, left) == Without(a, left) + Without(b, left)
  {
    if b == [] {
      assert a + b == a;
    } else {
      var front := b[..|b| - 1];
      WithoutConcat(a, front, left);
      assert (a + b)[..|a + b| - 1] == a + front;
    }
  }

  /** Only membership of the roots matters. */
  lemma {:induction false} WithoutSame(a: seq<Shape>, x: set<Node>, y: set<Node>)
    requires forall i :: 0 <= i < |a| ==> (a[i].node in x <==> a[i].node in y)
    ensures Without(a, x) == Without(a, y)
  {
    if a != [] {
      WithoutSame(a[..|a| - 1], x, y);
    }
  }

  lemma {:induction false} WithoutNone(a: seq<Shape>, left: set<Node>)
    requires forall i :: 0 <= i < |a| ==> a[i].node !in left
    ensures Without(a, left) == a
  {
    if a != [] {
      WithoutNone(a[..|a| - 1], left);
      assert a == a[..|a| - 1] + [a[|a| - 1]];
    }
  }

  lemma {:induction false} WithoutMembers(a: seq<Shape>, left: set<Node>)
    ensures forall x :: x in Without(a, left) ==> x in a && x.node !in left
  {
    if a != [] {
      WithoutMembers(a[..|a| - 1], left);
    }
  }

  /** Taking a leftover out of the list, and off the leftovers, changes nothing. */
  lemma WithoutDrop(a: seq<Shape>, s: nat, left: set<Node>)
    requires s < |a| && DistinctRoots(a) && a[s].node in left
    ensures Without(Drop(a, s), left - {a[s].node}) == Without(a, left)
  {
    DropAt(a, s);
    WithoutSame(Drop(a, s), left, left - {a[s].node});
    WithoutConcat(a[..s], a[s + 1..], left);
    WithoutOne(a, s, left);
  }

  lemma WithoutOne(a: seq<Shape>, s: nat, left: set<Node>)
    requires s < |a| && a[s].node in left
    ensures Without(a, left) == Without(a[..s], left) + Without(a[s + 1..], left)
  {
    WithoutConcat(a[..s + 1], a[s + 1..], left);
    assert a == a[..s + 1] + a[s + 1..];
    assert a[..s + 1][..s] == a[..s];
  }

  /** The same, when the leftovers may list the node more than once. */
  lemma WithoutDropped(a: seq<Shape>, s: nat, left: set<Node>, less: set<Node>)
    requires s < |a| && DistinctRoots(a) && left == less + {a[s].node}
    ensures Without(Drop(a, s), less) == Without(a, left)
  {
    WithoutDrop(a, s, left);
    DropAt(a, s);
    WithoutSame(Drop(a, s), left - {a[s].node}, less);
  }

  // ---------- The invariant ----------

  /** `s` is an old child, not processed yet; if it has an id, the table knows it. */
  ghost predicate Waiting(fs: seq<Shape>, q: nat, ids: map<string, Node>, s: Shape)
  {
    q <= |fs| && s in fs[q..] && (Key(s) != "" ==> Key(s) in ids && ids[Key(s)] == s.node)
  }

  ghost predicate KeySeen(ts: seq<Shape>, j: int, key: string)
  {
    exists k :: 0 <= k < j <= |ts| && Key(ts[k]) == key
  }

  /** The first `j` new children are served by `done`: same structure, identity kept. */
  ghost predicate Served(fs: seq<Shape>, ts: seq<Shape>, j: nat, done: seq<Shape>, strict: bool)
  {
    && |done| == j <= |ts|
    && (forall k :: 0 <= k < j ==> Synced(done[k], ts[k], strict))
    && (forall k :: 0 <= k < j ==> Serves(fs, done[k], ts[k]))
    && forall i, k :: k < j && SameKeyFirst(fs, i, ts, k) && Stays(fs[i], ts[k]) ==> done[k].node == fs[i].node
  }

  /** The children of the prefix pass are the same nodes. */
  ghost predicate PrefixKept(fs: seq<Shape>, ts: seq<Shape>, q: nat, done: seq<Shape>)
  {
    && q <= |fs| && q <= |ts| && q <= |done|
    && forall i :: 0 <= i < q && Stays(fs[i], ts[i]) ==> done[i].node == fs[i].node
  }

  /** The table holds exactly the old keyed children from `q` on whose id was not met yet, and
      each of them is still in the list `cs`. */
  ghost predicate TableOk(fs: seq<Shape>, ts: seq<Shape>, q: nat, j: nat, cs: seq<Shape>, ids: map<string, Node>)
  {
    && (forall id :: id in ids ==>
          id != "" && !KeySeen(ts, j, id) && exists x :: x in cs && x.node == ids[id] && Key(x) == id && x in fs)
    && (forall i :: q <= i < |fs| && Key(fs[i]) != "" ==>
          (Key(fs[i]) in ids && ids[Key(fs[i])] == fs[i].node) || KeySeen(ts, j, Key(fs[i])))
  }

  /** The new children from `q` to `j` stand rightly. */
  ghost predicate InPlace(fs: seq<Shape>, ts: seq<Shape>, q: nat, j: nat, done: seq<Shape>) {
    && j <= |done|
    && forall k :: q <= k < j ==> PlacedRight(fs, ts, q, k, done[k].node)
  }

  /** The rest `cs` holds the unused old children without ids, in order. */
  ghost predicate InReserve(fs: seq<Shape>, ts: seq<Shape>, q: nat, j: nat, cs: seq<Shape>) {
    Unkeyed(cs) == Unused(fs, ts, q, j)
  }

  ghost predicate Pass(fs: seq<Shape>, ts: seq<Shape>, q: nat, cs: seq<Shape>, c: nat, j: nat,
                       ids: map<string, Node>, done: seq<Shape>, strict: bool)
  {
    && q <= |fs| && q <= j <= |ts| && c <= |cs|
    && UniqueIdsIn(fs) && DistinctRoots(fs) && DistinctRoots(cs)
    && PrefixEnds(fs, ts, q) && Served(fs, ts, j, done, strict) && PrefixKept(fs, ts, q, done)
    && InPlace(fs, ts, q, j, done) && InReserve(fs, ts, q, j, cs[c..])
    && TableOk(fs, ts, q, j, cs, ids)
    && Without(cs[..c], ids.Values) == done
    && forall k :: c <= k < |cs| ==> Waiting(fs, q, ids, cs[k])
  }

  /** Between choosing the child `cs[c]` for the `j`-th new child and morphing it. */
  ghost predicate Chosen(fs: seq<Shape>, ts: seq<Shape>, q: nat, cs: seq<Shape>, c: nat, j: nat,
                         ids: map<string, Node>, done: seq<Shape>, strict: bool)
  {
    && q <= |fs| && q <= j < |ts| && c < |cs|
    && UniqueIdsIn(fs) && DistinctRoots(fs) && DistinctRoots(cs)
    && PrefixEnds(fs, ts, q) && Served(fs, ts, j, done, strict) && PrefixKept(fs, ts, q, done)
    && InPlace(fs, ts, q, j, done) && InReserve(fs, ts, q, j + 1, cs[c + 1..])
    && TableOk(fs, ts, q, j + 1, cs, ids)
    && cs[c].node !in ids.Values
    && Without(cs[..c], ids.Values) == done
    && (forall k :: c < k < |cs| ==> Waiting(fs, q, ids, cs[k]))
    && forall i :: SameKeyFirst(fs, i, ts, j) ==> cs[c] == fs[i]
  }

  lemma UnkeyedFirst(cs: seq<Shape>)
    ensures cs == [] ==> Unkeyed(cs) == []
    ensures cs != [] ==> Unkeyed(cs) == (if Key(cs[0]) == "" then [cs[0]] else []) + Unkeyed(cs[1..])
  {
  }

  lemma {:induction false} UnkeyedConcat(a: seq<Shape>, b: seq<Shape>)
    ensures Unkeyed(a + b) == Unkeyed(a) + Unkeyed(b)
  {
    hide Key, Unkeyed;
    UnkeyedFirst(a);
    if a == [] {
      assert a + b == b;
    } else {
      UnkeyedConcat(a[1..], b);
      UnkeyedFirst(a + b);
      assert (a + b)[1..] == a[1..] + b;
      var x, y, z := if Key(a[0]) == "" then [a[0]] else [], Unkeyed(a[1..]), Unkeyed(b);
      assert x + (y + z) == x + y + z;
    }
  }

  lemma UnkeyedFrom(cs: seq<Shape>, c: nat)
    requires c < |cs|
    ensures Unkeyed(cs[c..]) == (if Key(cs[c]) == "" then [cs[c]] else []) + Unkeyed(cs[c + 1..])
  {
    assert cs[c..][1..] == cs[c + 1..];
  }

  /** A keyed child at the cursor is in the table, so the cursor steps over it. */
  lemma SkipKeyed(fs: seq<Shape>, ts: seq<Shape>, q: nat, cs: seq<Shape>, c: nat, j: nat,
                  ids: map<string, Node>, done: seq<Shape>, strict: bool)
    requires Pass(fs, ts, q, cs, c, j, ids, done, strict) && c < |cs| && Key(cs[c]) != ""
    ensures Pass(fs, ts, q, cs, c + 1, j, ids, done, strict)
  {
    hide Served, PrefixKept, PrefixEnds, TableOk, InPlace, Unkeyed, Unused;
    assert Waiting(fs, q, ids, cs[c]);
    assert cs[c].node in ids.Values;
    assert cs[..c + 1][..c] == cs[..c];
    UnkeyedFrom(cs, c);
  }

  /** The first old child with the id of `ts[j]`, if the table lost it, was met before. */
  lemma FirstIsInTable(fs: seq<Shape>, ts: seq<Shape>, q: nat, cs: seq<Shape>, c: nat, j: nat,
                       ids: map<string, Node>, done: seq<Shape>, strict: bool, i: int)
    requires Pass(fs, ts, q, cs, c, j, ids, done, strict) && SameKeyFirst(fs, i, ts, j)
    ensures q <= i && Key(ts[j]) in ids && ids[Key(ts[j])] == fs[i].node
  {
    hide Served, PrefixKept, InPlace, InReserve, Without, Waiting, Slots;
    assert !KeySeen(ts, j, Key(fs[i]));
    PrefixKeys(fs, ts, q);
  }

  lemma PrefixKeys(fs: seq<Shape>, ts: seq<Shape>, q: nat)
    requires PrefixEnds(fs, ts, q)
    ensures q <= |fs| && q <= |ts| && forall k :: 0 <= k < q ==> Key(fs[k]) == Key(ts[k])
  {
    SlotKeys();
    hide Slots, Key;
  }

  lemma SlotKeys()
    ensures forall a, b :: Slots(a, b) ==> Key(a) == Key(b)
  {
  }

  /** A child whose id the table has is matched by it. */
  lemma InTableIsById(fs: seq<Shape>, ts: seq<Shape>, q: nat, j: nat, cs: seq<Shape>, ids: map<string, Node>)
    requires TableOk(fs, ts, q, j, cs, ids) && j < |ts| && Key(ts[j]) in ids
    ensures ById(fs, ts, j)
  {
    var id := Key(ts[j]);
    var x :| x in cs && x.node == ids[id] && Key(x) == id && x in fs;
    var i :| 0 <= i < |fs| && fs[i] == x;
    assert SameKeyFirst(fs, i, ts, j);
  }

  lemma NoFirst(fs: seq<Shape>, ts: seq<Shape>, q: nat, cs: seq<Shape>, c: nat, j: nat,
                ids: map<string, Node>, done: seq<Shape>, strict: bool)
    requires Pass(fs, ts, q, cs, c, j, ids, done, strict) && j < |ts| && Key(ts[j]) !in ids
    ensures forall i :: !SameKeyFirst(fs, i, ts, j)
  {
    forall i | SameKeyFirst(fs, i, ts, j)
      ensures false
    {
      FirstIsInTable(fs, ts, q, cs, c, j, ids, done, strict, i);
    }
  }

  lemma SameRootSameTree(cs: seq<Shape>, x: Shape, y: Shape)
    requires DistinctRoots(cs) && x in cs && y in cs && x.node == y.node
    ensures x == y
  {
    var i :| 0 <= i < |cs| && cs[i] == x;
    var k :| 0 <= k < |cs| && cs[k] == y;
  }

  /** Deleting one id from the table drops exactly its node. */
  lemma TableMinus(fs: seq<Shape>, ts: seq<Shape>, q: nat, j: nat, cs: seq<Shape>, ids: map<string, Node>, id: string)
    requires DistinctRoots(cs) && TableOk(fs, ts, q, j, cs, ids) && id in ids
    ensures (ids - {id}).Values == ids.Values - {ids[id]}
  {
    var ids' := ids - {id};
    forall o | o in ids'
      ensures ids'[o] != ids[id]
    {
      var x :| x in cs && x.node == ids[id] && Key(x) == id && x in fs;
      var y :| y in cs && y.node == ids[o] && Key(y) == o && y in fs;
      if x.node == y.node {
        SameRootSameTree(cs, x, y);
      }
    }
    forall n | n in ids.Values - {ids[id]}
      ensures n in ids'.Values
    {
      var o :| o in ids && ids[o] == n;
      assert o in ids' && ids'[o] == n;
    }
  }

  /** The table after the id of `ts[j]` was met and deleted. */
  lemma TableAfter(fs: seq<Shape>, ts: seq<Shape>, q: nat, j: nat, cs: seq<Shape>, cs': seq<Shape>,
                   ids: map<string, Node>, id: string)
    requires j < |ts| && TableOk(fs, ts, q, j, cs, ids) && id == Key(ts[j])
    requires forall x :: x in cs ==> x in cs'
    ensures TableOk(fs, ts, q, j + 1, cs', ids - {id})
  {
    forall i | q <= i < |fs| && Key(fs[i]) != "" && Key(fs[i]) !in ids - {id}
      ensures KeySeen(ts, j + 1, Key(fs[i]))
    {
      if Key(fs[i]) == id {
        assert Key(ts[j]) == id;
      } else {
        var k :| 0 <= k < j && Key(ts[k]) == Key(fs[i]);
      }
    }
  }

  // ---------- Choosing the child for `ts[j]` ----------

  /** The unkeyed child at the cursor is reused, or a new tree is put there.  Either way `cs'` has
      the chosen tree at `c` and otherwise the trees of `cs`. */
  lemma ChooseUnkeyed(fs: seq<Shape>, ts: seq<Shape>, q: nat, cs: seq<Shape>, c: nat, j: nat,
                      ids: map<string, Node>, done: seq<Shape>, strict: bool, cs': seq<Shape>)
    requires Pass(fs, ts, q, cs, c, j, ids, done, strict) && j < |ts|
    requires Key(ts[j]) !in ids && DistinctRoots(cs')
    requires if cs' == cs then c < |cs| && Key(cs[c]) == "" && SameSort(cs[c], ts[j])
             else (exists r :: cs' == Insert(cs, c, r)) && !Takes(Unused(fs, ts, q, j), fs, ts, j)
    ensures Chosen(fs, ts, q, cs', c, j, ids, done, strict)
    ensures cs' == cs ==> Takes(Unused(fs, ts, q, j), fs, ts, j) && Unused(fs, ts, q, j)[0] == cs[c]
  {
    hide Served, PrefixKept, PrefixEnds, InPlace, TableOk, UniqueIdsIn, DistinctRoots, Waiting, SameKeyFirst, Without, Key, SameSort;
    ReserveUnkeyed(fs, ts, q, cs, c, j, ids, done, strict, cs');
    NoFirst(fs, ts, q, cs, c, j, ids, done, strict);
    StillThere(cs, c, cs');
    assert ids - {Key(ts[j])} == ids;
    TableAfter(fs, ts, q, j, cs, cs', ids, Key(ts[j]));
    NotInTable(fs, ts, q, j, cs, cs', c, ids);
    StillWaiting(fs, q, cs, c, ids, cs');
  }

  /** The rest behind the chosen child holds what is unused after it. */
  lemma ReserveUnkeyed(fs: seq<Shape>, ts: seq<Shape>, q: nat, cs: seq<Shape>, c: nat, j: nat,
                     ids: map<string, Node>, done: seq<Shape>, strict: bool, cs': seq<Shape>)
    requires Pass(fs, ts, q, cs, c, j, ids, done, strict) && j < |ts| && Key(ts[j]) !in ids
    requires if cs' == cs then c < |cs| && Key(cs[c]) == "" && SameSort(cs[c], ts[j])
             else (exists r :: cs' == Insert(cs, c, r)) && !Takes(Unused(fs, ts, q, j), fs, ts, j)
    ensures c < |cs'| && InReserve(fs, ts, q, j + 1, cs'[c + 1..])
    ensures cs' == cs ==> Takes(Unused(fs, ts, q, j), fs, ts, j) && Unused(fs, ts, q, j)[0] == cs[c]
  {
    hide Served, PrefixKept, PrefixEnds, InPlace, TableOk, UniqueIdsIn, DistinctRoots, Waiting, SameKeyFirst, Without, Key, SameSort, Unkeyed;
    NoFirst(fs, ts, q, cs, c, j, ids, done, strict);
    if cs' == cs {
      UnkeyedFrom(cs, c);
    } else {
      var r :| cs' == Insert(cs, c, r);
      InsertAt(cs, c, r);
      assert cs'[c + 1..] == cs[c..];
    }
  }

  lemma StillWaiting(fs: seq<Shape>, q: nat, cs: seq<Shape>, c: nat, ids: map<string, Node>, cs': seq<Shape>)
    requires (c < |cs| && cs' == cs) || (c <= |cs| && exists r :: cs' == Insert(cs, c, r))
    requires forall k :: c <= k < |cs| ==> Waiting(fs, q, ids, cs[k])
    ensures c < |cs'| && cs'[..c] == cs[..c] && forall k :: c < k < |cs'| ==> Waiting(fs, q, ids, cs'[k])
  {
    hide Waiting;
    forall k | c < k < |cs'|
      ensures Waiting(fs, q, ids, cs'[k])
    {
      assert cs'[k] == cs[if cs' == cs then k else k - 1];
    }
  }

  lemma StillThere(cs: seq<Shape>, c: nat, cs': seq<Shape>)
    requires c <= |cs| && (cs' == cs || (exists r :: cs' == Insert(cs, c, r)))
    ensures forall x :: x in cs ==> x in cs'
  {
    forall x | x in cs
      ensures x in cs'
    {
      if cs' != cs {
        var k :| 0 <= k < |cs| && cs[k] == x;
        assert cs'[if k < c then k else k + 1] == x;
      }
    }
  }

  /** A chosen child that is new, or has no id, is not in the table. */
  lemma NotInTable(fs: seq<Shape>, ts: seq<Shape>, q: nat, j: nat, cs: seq<Shape>, cs': seq<Shape>, c: nat,
                   ids: map<string, Node>)
    requires TableOk(fs, ts, q, j, cs, ids) && c <= |cs| && DistinctRoots(cs')
    requires (c < |cs| && cs' == cs && Key(cs[c]) == "") || (exists r :: cs' == Insert(cs, c, r))
    ensures cs'[c].node !in ids.Values
  {
    forall o | o in ids
      ensures ids[o] != cs'[c].node
    {
      var x :| x in cs && x.node == ids[o] && Key(x) == o && x in fs;
      var k :| 0 <= k < |cs| && cs[k] == x;
      var k' := if cs' == cs || k < c then k else k + 1;
      assert cs'[k'] == x && (k' == c ==> cs' == cs);
    }
  }

  /** Where the chosen tree stands after the tree at `s` was moved before the one at `c`. */
  function Landing(s: nat, c: nat): nat {
    if s < c then c - 1 else c
  }

  /** The old child that the table has under the id of `ts[j]` is reused, wherever it stands. */
  lemma ChooseKeyed(fs: seq<Shape>, ts: seq<Shape>, q: nat, cs: seq<Shape>, c: nat, j: nat,
                    ids: map<string, Node>, done: seq<Shape>, strict: bool, s: nat)
    requires Pass(fs, ts, q, cs, c, j, ids, done, strict) && j < |ts|
    requires s < |cs| && Key(ts[j]) in ids && cs[s].node == ids[Key(ts[j])]
    ensures cs[s] in fs
    ensures var cs' := if s == c then cs else Moved(cs, s, c);
            Chosen(fs, ts, q, cs', Landing(s, c), j, ids - {Key(ts[j])}, done, strict)
  {
    hide Served, PrefixKept, PrefixEnds, InPlace, InReserve, TableOk, UniqueIdsIn, DistinctRoots, Waiting, SameKeyFirst, Without;
    var id := Key(ts[j]);
    var cs' := if s == c then cs else Moved(cs, s, c);
    ReserveKeyed(fs, ts, q, cs, c, j, ids, done, strict, s);
    TheOneWithId(fs, ts, q, cs, c, j, ids, done, strict, s);
    if s != c {
      MovedMembers(cs, s, c);
      MovedDistinct(cs, s, c);
    }
    TableAfter(fs, ts, q, j, cs, cs', ids, id);
    TableMinus(fs, ts, q, j, cs, ids, id);
    KeyedPrefix(cs, c, ids.Values, s);
    KeyedSuffix(fs, q, cs, c, ids, id, s);
    assert cs'[Landing(s, c)] == cs[s];
  }

  lemma ReserveKeyed(fs: seq<Shape>, ts: seq<Shape>, q: nat, cs: seq<Shape>, c: nat, j: nat,
                   ids: map<string, Node>, done: seq<Shape>, strict: bool, s: nat)
    requires Pass(fs, ts, q, cs, c, j, ids, done, strict) && j < |ts|
    requires s < |cs| && Key(ts[j]) in ids && cs[s].node == ids[Key(ts[j])]
    ensures var cs' := if s == c then cs else Moved(cs, s, c);
            Landing(s, c) < |cs'| && InReserve(fs, ts, q, j + 1, cs'[Landing(s, c) + 1..])
  {
    hide Served, PrefixKept, PrefixEnds, InPlace, UniqueIdsIn, DistinctRoots, Waiting, Without, Unkeyed;
    InTableIsById(fs, ts, q, j, cs, ids);
    KeyedThere(fs, ts, q, cs, c, j, ids, done, strict, s);
    hide TableOk;
    if s == c {
      UnkeyedFrom(cs, c);
    } else {
      UnkeyedMoved(cs, s, c);
    }
  }

  lemma KeyedThere(fs: seq<Shape>, ts: seq<Shape>, q: nat, cs: seq<Shape>, c: nat, j: nat,
                   ids: map<string, Node>, done: seq<Shape>, strict: bool, s: nat)
    requires Pass(fs, ts, q, cs, c, j, ids, done, strict) && j < |ts|
    requires s < |cs| && Key(ts[j]) in ids && cs[s].node == ids[Key(ts[j])]
    ensures Key(cs[s]) != ""
  {
    hide Served, PrefixKept, PrefixEnds, InPlace, UniqueIdsIn, Waiting, Without, InReserve;
    var x :| x in cs && x.node == ids[Key(ts[j])] && Key(x) == Key(ts[j]) && x in fs;
    SameRootSameTree(cs, x, cs[s]);
  }

  /** Moving a keyed child before the cursor leaves the unkeyed ones behind it. */
  lemma UnkeyedMoved(cs: seq<Shape>, s: nat, c: nat)
    requires s < |cs| && c <= |cs| && s != c && Key(cs[s]) != ""
    ensures Landing(s, c) < |cs| && Unkeyed(Moved(cs, s, c)[Landing(s, c) + 1..]) == Unkeyed(cs[c..])
  {
    hide Key, Unkeyed;
    if s < c {
      assert Moved(cs, s, c)[c..] == cs[c..];
    } else {
      assert Moved(cs, s, c)[c + 1..] == cs[c..s] + cs[s + 1..];
      assert cs[c..] == cs[c..s] + cs[s..];
      UnkeyedFrom(cs, s);
      UnkeyedConcat(cs[c..s], cs[s + 1..]);
      UnkeyedConcat(cs[c..s], cs[s..]);
    }
  }

  lemma TheOneWithId(fs: seq<Shape>, ts: seq<Shape>, q: nat, cs: seq<Shape>, c: nat, j: nat,
                     ids: map<string, Node>, done: seq<Shape>, strict: bool, s: nat)
    requires Pass(fs, ts, q, cs, c, j, ids, done, strict) && j < |ts|
    requires s < |cs| && Key(ts[j]) in ids && cs[s].node == ids[Key(ts[j])]
    ensures cs[s] in fs && forall i :: SameKeyFirst(fs, i, ts, j) ==> cs[s] == fs[i]
  {
    hide Served, PrefixKept, PrefixEnds, InPlace, InReserve, UniqueIdsIn, Without;
    var id := Key(ts[j]);
    var x :| x in cs && x.node == ids[id] && Key(x) == id && x in fs;
    SameRootSameTree(cs, x, cs[s]);
    forall i | SameKeyFirst(fs, i, ts, j)
      ensures cs[s] == fs[i]
    {
      FirstIsInTable(fs, ts, q, cs, c, j, ids, done, strict, i);
      SameRootSameTree(fs, x, fs[i]);
    }
  }

  lemma MovedDistinct(cs: seq<Shape>, s: nat, c: nat)
    requires s < |cs| && c <= |cs| && s != c && DistinctRoots(cs)
    ensures DistinctRoots(Moved(cs, s, c))
  {
    MovedAt(cs, s, c);
    forall i, j | 0 <= i < |cs| && 0 <= j < |cs| && i != j
      ensures Moved(cs, s, c)[i].node != Moved(cs, s, c)[j].node
    {
      assert Origin(s, c, i) != Origin(s, c, j);
    }
  }

  lemma KeyedPrefix(cs: seq<Shape>, c: nat, left: set<Node>, s: nat)
    requires c <= |cs| && s < |cs| && DistinctRoots(cs) && cs[s].node in left
    ensures var cs' := if s == c then cs else Moved(cs, s, c);
            Without(cs'[..Landing(s, c)], left - {cs[s].node}) == Without(cs[..c], left)
  {
    if s < c {
      assert Moved(cs, s, c)[..c - 1] == Drop(cs[..c], s);
      WithoutDrop(cs[..c], s, left);
    } else {
      if s > c {
        assert Moved(cs, s, c)[..c] == cs[..c];
      }
      WithoutSame(cs[..c], left, left - {cs[s].node});
    }
  }

  lemma KeyedSuffix(fs: seq<Shape>, q: nat, cs: seq<Shape>, c: nat, ids: map<string, Node>, id: string, s: nat)
    requires c <= |cs| && s < |cs| && DistinctRoots(cs) && id in ids && cs[s].node == ids[id]
    requires forall k :: c <= k < |cs| ==> Waiting(fs, q, ids, cs[k])
    ensures var cs' := if s == c then cs else Moved(cs, s, c);
            forall k :: Landing(s, c) < k < |cs'| ==> Waiting(fs, q, ids - {id}, cs'[k])
  {
    var cs' := if s == c then cs else Moved(cs, s, c);
    if s != c {
      MovedAt(cs, s, c);
    }
    forall k | Landing(s, c) < k < |cs'|
      ensures Waiting(fs, q, ids - {id}, cs'[k])
    {
      var o := if s == c then k else Origin(s, c, k);
      assert cs'[k] == cs[o] && c <= o && o != s;
      assert Waiting(fs, q, ids, cs[o]);
    }
  }

  /** Morphing the chosen child finishes the `j`-th new child. */
  lemma Finish(fs: seq<Shape>, ts: seq<Shape>, q: nat, cs: seq<Shape>, c: nat, j: nat,
               ids: map<string, Node>, done: seq<Shape>, strict: bool, r: Shape)
    requires Chosen(fs, ts, q, cs, c, j, ids, done, strict)
    requires DistinctRoots(Put(cs, c, r)) && r.node !in ids.Values
    requires Synced(r, ts[j], strict) && Serves(fs, r, ts[j])
    requires forall i :: SameKeyFirst(fs, i, ts, j) && Stays(fs[i], ts[j]) ==> r.node == fs[i].node
    requires PlacedRight(fs, ts, q, j, r.node)
    ensures Pass(fs, ts, q, Put(cs, c, r), c + 1, j + 1, ids, done + [r], strict)
  {
    hide Served, PrefixKept, PrefixEnds, InPlace, InReserve, PlacedRight, UniqueIdsIn, Synced, Serves, Stays, TableOk, Waiting, Without,
      DistinctRoots, SameKeyFirst;
    ServedSize(fs, ts, j, done, strict);
    PlacedNext(fs, ts, q, j, done, r);
    assert Put(cs, c, r)[c + 1..] == cs[c + 1..];
    ServedNext(fs, ts, j, done, strict, r);
    PrefixStays(fs, ts, q, done, r);
    WithoutPlaced(cs, c, r, ids.Values);
    TableStays(fs, ts, q, j + 1, cs, c, ids, r);
  }

  lemma PlacedNext(fs: seq<Shape>, ts: seq<Shape>, q: nat, j: nat, done: seq<Shape>, r: Shape)
    requires InPlace(fs, ts, q, j, done) && |done| == j && PlacedRight(fs, ts, q, j, r.node)
    ensures InPlace(fs, ts, q, j + 1, done + [r])
  {
    hide PlacedRight;
  }

  lemma WithoutPlaced(cs: seq<Shape>, c: nat, r: Shape, gone: set<Node>)
    requires c < |cs| && r.node !in gone
    ensures Without(Put(cs, c, r)[..c + 1], gone) == Without(cs[..c], gone) + [r]
  {
    var cs' := Put(cs, c, r);
    assert cs'[..c + 1] == cs[..c] + [r];
    assert cs'[..c + 1][..c] == cs[..c];
  }

  lemma ServedSize(fs: seq<Shape>, ts: seq<Shape>, j: nat, done: seq<Shape>, strict: bool)
    requires Served(fs, ts, j, done, strict)
    ensures |done| == j <= |ts|
  {
  }

  lemma ServedNext(fs: seq<Shape>, ts: seq<Shape>, j: nat, done: seq<Shape>, strict: bool, r: Shape)
    requires Served(fs, ts, j, done, strict) && j < |ts| && Synced(r, ts[j], strict) && Serves(fs, r, ts[j])
    requires forall i :: SameKeyFirst(fs, i, ts, j) && Stays(fs[i], ts[j]) ==> r.node == fs[i].node
    ensures Served(fs, ts, j + 1, done + [r], strict)
  {
    hide Synced, Serves, SameKeyFirst, Stays;
  }

  lemma PrefixStays(fs: seq<Shape>, ts: seq<Shape>, q: nat, done: seq<Shape>, r: Shape)
    requires PrefixKept(fs, ts, q, done)
    ensures PrefixKept(fs, ts, q, done + [r])
  {
    hide Stays;
  }

  lemma TableStays(fs: seq<Shape>, ts: seq<Shape>, q: nat, j: nat, cs: seq<Shape>, c: nat, ids: map<string, Node>, r: Shape)
    requires TableOk(fs, ts, q, j, cs, ids) && c < |cs| && cs[c].node !in ids.Values
    ensures TableOk(fs, ts, q, j, Put(cs, c, r), ids)
  {
    var cs' := Put(cs, c, r);
    forall id | id in ids
      ensures exists x :: x in cs' && x.node == ids[id] && Key(x) == id && x in fs
    {
      var x :| x in cs && x.node == ids[id] && Key(x) == id && x in fs;
      var k :| 0 <= k < |cs| && cs[k] == x;
      assert cs'[k] == x;
    }
  }

  // ---------- The prefix pass ----------

  /** The first `q` old children serve the first `q` new ones; the others were not touched. */
  ghost predicate Prefix(fs: seq<Shape>, ts: seq<Shape>, q: nat, cs: seq<Shape>, strict: bool) {
    && q <= |ts| && q <= |fs| == |cs|
    && (forall k :: q <= k < |cs| ==> cs[k] == fs[k])
    && Served(fs, ts, q, cs[..q], strict) && PrefixKept(fs, ts, q, cs[..q])
    && forall i :: 0 <= i < q ==> Slots(fs[i], ts[i])
  }

  lemma PrefixNext(fs: seq<Shape>, ts: seq<Shape>, q: nat, cs: seq<Shape>, strict: bool, r: Shape)
    requires Prefix(fs, ts, q, cs, strict) && q < |fs| && q < |ts| && UniqueIdsIn(fs)
    requires Slots(fs[q], ts[q]) && Synced(r, ts[q], strict) && Serves(fs, r, ts[q])
    requires Stays(fs[q], ts[q]) ==> r.node == fs[q].node
    ensures Prefix(fs, ts, q + 1, Put(cs, q, r), strict)
  {
    var done := cs[..q];
    forall i | SameKeyFirst(fs, i, ts, q)
      ensures i == q
    {
      assert Key(fs[i]) == Key(fs[q]);
    }
    ServedNext(fs, ts, q, done, strict, r);
    hide Served, Synced, Serves, Stays, SameKeyFirst, Slots;
    assert Put(cs, q, r)[..q + 1] == done + [r];
  }

  // ---------- Beginning and end ----------

  /** The table built from the old children at `q` up to `m`. */
  ghost function Table(fs: seq<Shape>, q: nat, m: nat): map<string, Node>
    requires q <= m <= |fs|
  {
    if m == q then map[]
    else
      var t := Table(fs, q, m - 1);
      if Key(fs[m - 1]) != "" then t[Key(fs[m - 1]) := fs[m - 1].node] else t
  }

  lemma {:induction false} TableHolds(fs: seq<Shape>, q: nat, m: nat)
    requires q <= m <= |fs| && UniqueIdsIn(fs)
    ensures forall i :: q <= i < m && Key(fs[i]) != "" ==>
              Key(fs[i]) in Table(fs, q, m) && Table(fs, q, m)[Key(fs[i])] == fs[i].node
    ensures forall id :: id in Table(fs, q, m) ==>
              id != "" && exists i :: q <= i < m && Key(fs[i]) == id && fs[i].node == Table(fs, q, m)[id]
  {
    if m > q {
      TableHolds(fs, q, m - 1);
    }
  }

  /** After the prefix pass the table makes the invariant true. */
  lemma Begin(fs: seq<Shape>, ts: seq<Shape>, q: nat, cs: seq<Shape>, strict: bool)
    requires Prefix(fs, ts, q, cs, strict) && UniqueIdsIn(fs) && DistinctRoots(fs) && DistinctRoots(cs)
    requires !InSlots(fs, ts, q)
    ensures Pass(fs, ts, q, cs, q, q, Table(fs, q, |fs|), cs[..q], strict)
  {
    hide Served, PrefixKept, InSlots, Slots, TableOk, UniqueIdsIn, DistinctRoots, Waiting, Without, Unkeyed;
    assert cs[q..] == fs[q..];
    TableBegins(fs, ts, q, cs, strict);
    WaitingBegins(fs, ts, q, cs, strict);
  }

  lemma TableBegins(fs: seq<Shape>, ts: seq<Shape>, q: nat, cs: seq<Shape>, strict: bool)
    requires Prefix(fs, ts, q, cs, strict) && UniqueIdsIn(fs) && DistinctRoots(cs)
    ensures TableOk(fs, ts, q, q, cs, Table(fs, q, |fs|))
    ensures Without(cs[..q], Table(fs, q, |fs|).Values) == cs[..q]
  {
    hide Served, PrefixKept, UniqueIdsIn, Table, Slots, KeySeen, Key;
    var ids := Table(fs, q, |fs|);
    TableHolds(fs, q, |fs|);
    NoneSeen(fs, ts, q, cs, strict);
    forall id | id in ids
      ensures exists x :: x in cs && x.node == ids[id] && Key(x) == id && x in fs
    {
      var i :| q <= i < |fs| && Key(fs[i]) == id && fs[i].node == ids[id];
      assert cs[i] in cs && cs[i] == fs[i];
    }
    forall k, id | 0 <= k < q && id in ids
      ensures cs[..q][k].node != ids[id]
    {
      var i :| q <= i < |fs| && Key(fs[i]) == id && fs[i].node == ids[id];
      assert cs[k].node != cs[i].node;
    }
    WithoutNone(cs[..q], ids.Values);
  }

  lemma NoneSeen(fs: seq<Shape>, ts: seq<Shape>, q: nat, cs: seq<Shape>, strict: bool)
    requires Prefix(fs, ts, q, cs, strict) && UniqueIdsIn(fs)
    ensures forall i :: q <= i < |fs| && Key(fs[i]) != "" ==> !KeySeen(ts, q, Key(fs[i]))
  {
    SlotKeys();
    hide Served, PrefixKept, Slots, Key;
  }

  lemma WaitingBegins(fs: seq<Shape>, ts: seq<Shape>, q: nat, cs: seq<Shape>, strict: bool)
    requires Prefix(fs, ts, q, cs, strict) && UniqueIdsIn(fs)
    ensures forall k :: q <= k < |cs| ==> Waiting(fs, q, Table(fs, q, |fs|), cs[k])
  {
    hide Served, PrefixKept, UniqueIdsIn, Table;
    TableHolds(fs, q, |fs|);
    forall k | q <= k < |cs|
      ensures Waiting(fs, q, Table(fs, q, |fs|), cs[k])
    {
      assert fs[k] == fs[q..][k - q];
    }
  }

  /** When every new child is served, the finished children are the answer. */
  lemma End(fs: seq<Shape>, ts: seq<Shape>, q: nat, cs: seq<Shape>, c: nat,
            ids: map<string, Node>, done: seq<Shape>, strict: bool)
    requires Pass(fs, ts, q, cs, c, |ts|, ids, done, strict)
    ensures AllSynced(done, ts, strict) && KidsKept(fs, done, ts)
  {
    EndPlaced(fs, ts, q, done);
    EndPrefix(fs, ts, q);
    PrefixKeys(fs, ts, q);
    hide Serves, Synced, PlacedRight, Slots, AllPlaced, Unused, Unkeyed, PrefixEnds, Stays, Waiting;
    forall i | Absent(fs, ts, i)
      ensures fs[i].node !in Roots(done)
    {
      assert i >= q;
      assert Key(fs[i]) in ids && ids[Key(fs[i])] in ids.Values;
      WithoutMembers(cs[..c], ids.Values);
      assert forall k :: 0 <= k < |done| ==> done[k] in Without(cs[..c], ids.Values);
    }
  }

  lemma EndPrefix(fs: seq<Shape>, ts: seq<Shape>, q: nat)
    requires PrefixEnds(fs, ts, q)
    ensures forall i :: InSlots(fs, ts, i) ==> i < q
  {
    hide Slots;
  }

  /** The prefix ends at one place only. */
  lemma EndPlaced(fs: seq<Shape>, ts: seq<Shape>, q: nat, done: seq<Shape>)
    requires PrefixEnds(fs, ts, q) && InPlace(fs, ts, q, |ts|, done)
    ensures AllPlaced(fs, done, ts)
  {
    hide Slots, PlacedRight;
    forall p: nat | PrefixEnds(fs, ts, p)
      ensures p == q
    {
      assert p < q ==> InSlots(fs, ts, p);
      assert q < p ==> InSlots(fs, ts, q);
    }
  }

  /** With an empty table and the cursor at the end, the whole list is finished. */
  lemma EmptyTableEnd(fs: seq<Shape>, ts: seq<Shape>, q: nat, cs: seq<Shape>, j: nat, done: seq<Shape>, strict: bool)
    requires Pass(fs, ts, q, cs, |cs|, j, map[], done, strict)
    ensures cs == done
  {
    var none: map<string, Node> := map[];
    assert none.Values == {} && cs[..|cs|] == cs;
    WithoutNone(cs, none.Values);
  }

  // ---------- One more child in front ----------

  /** `ts` is `n` followed by children that fit the slots of `fs`, and `n` fits no old child. */
  ghost predicate OneInFront(fs: seq<Shape>, ts: seq<Shape>, n: Shape) {
    && |ts| == |fs| + 1 && ts[0] == n && UniqueIdsIn(fs)
    && (forall i :: 0 <= i < |fs| ==> Slots(fs[i], ts[i + 1]) && (Key(n) == "" || Key(fs[i]) != Key(n)))
    && (fs != [] ==> !Slots(fs[0], n)) && (Unkeyed(fs) != [] ==> !SameSort(Unkeyed(fs)[0], n))
  }

  /** Then every old child that can stay is the same node, one place further. */
  lemma OneInFrontKeepsAll(fs: seq<Shape>, rs: seq<Shape>, ts: seq<Shape>, n: Shape)
    requires KidsKept(fs, rs, ts) && OneInFront(fs, ts, n)
    ensures forall i :: 0 <= i < |fs| && Stays(fs[i], ts[i + 1]) ==> rs[i + 1].node == fs[i].node
  {
    hide Stays, AllPlaced, AbsentDropped, SameKeyFirst, InSlots, Serves, OneInFront, Key;
    assert |ts| == |fs| + 1 by {
      FrontIsOneMore(fs, ts, n);
    }
    forall i | 0 <= i < |fs| && Stays(fs[i], ts[i + 1])
      ensures rs[i + 1].node == fs[i].node
    {
      if Key(fs[i]) != "" {
        FrontKeyed(fs, ts, n, i);
      } else {
        PlacedIs(fs, rs, ts, n, i + 1);
        FrontNext(fs, ts, n, i);
      }
    }
  }

  lemma FrontIsOneMore(fs: seq<Shape>, ts: seq<Shape>, n: Shape)
    requires OneInFront(fs, ts, n)
    ensures |ts| == |fs| + 1
  {
  }

  lemma PlacedIs(fs: seq<Shape>, rs: seq<Shape>, ts: seq<Shape>, n: Shape, j: nat)
    requires AllPlaced(fs, rs, ts) && OneInFront(fs, ts, n) && j < |ts| == |rs|
    ensures PlacedRight(fs, ts, 0, j, rs[j].node)
  {
    hide PlacedRight, Slots, Key, Unkeyed, SameSort;
    assert PrefixEnds(fs, ts, 0);
  }

  /** The next unused old child is the one that fits. */
  lemma FrontNext(fs: seq<Shape>, ts: seq<Shape>, n: Shape, i: nat)
    requires OneInFront(fs, ts, n) && i < |fs| && Key(fs[i]) == ""
    ensures var left := Unused(fs, ts, 0, i + 1); Takes(left, fs, ts, i + 1) && left[0] == fs[i]
  {
    FrontUnused(fs, ts, n, i);
    UnkeyedFrom(fs, i);
    FrontTakes(fs, ts, n, i);
    hide OneInFront, Unused, Unkeyed, SameSort, ById, Key;
  }

  lemma FrontKeyed(fs: seq<Shape>, ts: seq<Shape>, n: Shape, i: nat)
    requires OneInFront(fs, ts, n) && i < |fs| && Key(fs[i]) != ""
    ensures SameKeyFirst(fs, i, ts, i + 1)
  {
    SlotKeys();
    hide Slots, Key, Unkeyed;
    forall k | 0 <= k < i + 1
      ensures Key(ts[k]) != Key(ts[i + 1])
    {
      assert k > 0 ==> Key(fs[k - 1]) == Key(ts[k - 1 + 1]);
      assert Key(fs[i]) == Key(ts[i + 1]);
    }
  }

  lemma FrontTakes(fs: seq<Shape>, ts: seq<Shape>, n: Shape, i: nat)
    requires OneInFront(fs, ts, n) && i < |fs| && Key(fs[i]) == ""
    ensures SameSort(fs[i], ts[i + 1]) && !ById(fs, ts, i + 1)
  {
    assert Slots(fs[i], ts[i + 1]);
  }

  lemma {:induction false} FrontUnused(fs: seq<Shape>, ts: seq<Shape>, n: Shape, i: nat)
    requires OneInFront(fs, ts, n) && i <= |fs|
    ensures Unused(fs, ts, 0, i + 1) == Unkeyed(fs[i..])
  {
    hide Slots, Unkeyed, Key, SameSort, ById;
    assert fs[0..] == fs;
    if i > 0 {
      FrontUnused(fs, ts, n, i - 1);
      UnkeyedFrom(fs, i - 1);
      if Key(fs[i - 1]) != "" {
        FrontKeyed(fs, ts, n, i - 1);
        KeyFirstIsById(fs, ts, i - 1, i);
      } else {
        FrontTakes(fs, ts, n, i - 1);
      }
    }
  }

  lemma KeyFirstIsById(fs: seq<Shape>, ts: seq<Shape>, i: int, j: int)
    requires SameKeyFirst(fs, i, ts, j)
    ensures ById(fs, ts, j)
  {
  }
}
