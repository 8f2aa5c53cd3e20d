/** Change detection between two signal values: `valChangedDeep` and `diffShapeShallow`. */
module Compare {
  import opened JsValues

  const DEPTH_MAX := 32

  // ---------- valChangedDeep ----------

  /** Whether the comparison reports a change.  The counter advances once per compared child, not
      once per level. */
  predicate Changed(before: Value, after: Value, depth: nat)
    decreases before, 1
  {
    depth >= DEPTH_MAX ||
    match before
    case Arr(items) =>
      !after.Arr? || |items| != |after.items| || ChangedItems(items, after.items, depth)
    case Obj(fields, _) =>
      !IsObject(after) || ChangedFields(fields, after, depth)
      || exists i :: 0 <= i < |Keys(after)| && !Has(before, Keys(after)[i])
    case _ => !StrictEqual(after, before)
  }

  predicate ChangedItems(before: seq<Value>, after: seq<Value>, depth: nat)
    requires |before| == |after|
    decreases before, 0
  {
    before != [] &&
    (Changed(before[0], after[0], depth + 1) || ChangedItems(before[1..], after[1..], depth + 1))
  }

  predicate ChangedFields(before: seq<Field>, after: Value, depth: nat)
    decreases before, 0
  {
    before != [] &&
    (!Has(after, before[0].key)
     || Changed(before[0].val, Prop(after, before[0].key), depth + 1)
     || ChangedFields(before[1..], after, depth + 1))
  }

  method ValChangedDeep(before: Value, after: Value, depth0: nat) returns (changed: bool)
    ensures changed == Changed(before, after, depth0)
    decreases before, 1
  {
    var depth := depth0;
    if depth >= DEPTH_MAX {
      return true;
    }
    if before.Arr? {
      if !after.Arr? || |before.items| != |after.items| {
        return true;
      }
      changed := ItemsChanged(before, after, depth);
      return;
    } else if before.Obj? {
      if !IsObject(after) {
        return true;
      }
      changed := FieldsChanged(before, after, depth);
      if changed {
        return true;
      }
      changed := NewKeys(before, after);
      return;
    } else if !StrictEqual(after, before) {
      return true;
    }
    return false;
  }

  method NewKeys(before: Value, after: Value) returns (some: bool)
    ensures some == exists i :: 0 <= i < |Keys(after)| && !Has(before, Keys(after)[i])
  {
    var ks, i := Keys(after), 0;
    while i < |ks|
      invariant 0 <= i <= |ks| && forall k :: 0 <= k < i ==> Has(before, ks[k])
    {
      if !Has(before, ks[i]) {
        return true;
      }
      i := i + 1;
    }
    return false;
  }

  method ItemsChanged(before: Value, after: Value, depth0: nat) returns (changed: bool)
    requires before.Arr? && after.Arr? && |before.items| == |after.items|
    ensures changed == ChangedItems(before.items, after.items, depth0)
    decreases before, 0
  {
    var depth, i := depth0, 0;
    while i < |before.items|
      invariant 0 <= i <= |before.items| && depth == depth0 + i
      invariant ChangedItems(before.items, after.items, depth0)
                == ChangedItems(before.items[i..], after.items[i..], depth)
    {
      depth := depth + 1;
      var c := ValChangedDeep(before.items[i], after.items[i], depth);
      if c {
        return true;
      }
      i := i + 1;
    }
    return false;
  }

  method FieldsChanged(before: Value, after: Value, depth0: nat) returns (changed: bool)
    requires before.Obj?
    ensures changed == ChangedFields(before.fields, after, depth0)
    decreases before, 0
  {
    hide Changed, Has, Prop;
    var depth, i := depth0, 0;
    assert before.fields[0..] == before.fields;
    while i < |before.fields|
      invariant 0 <= i <= |before.fields| && depth == depth0 + i
      invariant ChangedFields(before.fields, after, depth0) == ChangedFields(before.fields[i..], after, depth)
    {
      var k := before.fields[i].key;
      assert before.fields[i..][0] == before.fields[i] && before.fields[i..][1..] == before.fields[i + 1..];
      if !Has(after, k) {
        return true;
      }
      depth := depth + 1;
      var c := ValChangedDeep(before.fields[i].val, Prop(after, k), depth);
      if c {
        return true;
      }
      i := i + 1;
    }
    return false;
  }

  // ---------- When it reports no change ----------

  /** The running counter stays below the limit at every node of `v`. */
  ghost predicate Within(v: Value, depth: nat)
    decreases v, 1
  {
    && depth < DEPTH_MAX
    && (v.Arr? ==> WithinItems(v.items, depth))
    && (v.Obj? ==> WithinFields(v.fields, depth))
  }

  ghost predicate WithinItems(items: seq<Value>, depth: nat)
    decreases items, 0
  {
    items != [] ==> Within(items[0], depth + 1) && WithinItems(items[1..], depth + 1)
  }

  ghost predicate WithinFields(fields: seq<Field>, depth: nat)
    decreases fields, 0
  {
    fields != [] ==> Within(fields[0].val, depth + 1) && WithinFields(fields[1..], depth + 1)
  }

  /** `after` has at least what `before` has, and nothing that `before` does not know. */
  ghost predicate Matches(before: Value, after: Value)
    decreases before, 1
  {
    match before
    case Arr(items) => after.Arr? && |items| == |after.items| && AllMatch(items, after.items)
    case Obj(fields, _) =>
      IsObject(after) && FieldsMatch(fields, after)
      && forall i :: 0 <= i < |Keys(after)| ==> Has(before, Keys(after)[i])
    case _ => StrictEqual(after, before)
  }

  ghost predicate AllMatch(before: seq<Value>, after: seq<Value>)
    requires |before| == |after|
    decreases before, 0
  {
    forall i :: 0 <= i < |before| ==> Matches(before[i], after[i])
  }

  ghost predicate FieldsMatch(before: seq<Field>, after: Value)
    decreases before, 0
  {
    forall i :: 0 <= i < |before| ==>
      Has(after, before[i].key) && Matches(before[i].val, Prop(after, before[i].key))
  }

  /** The comparison reports no change exactly when the values match and the counter never runs out. */
  lemma {:induction false} UnchangedIff(before: Value, after: Value, depth: nat)
    ensures !Changed(before, after, depth) <==> Within(before, depth) && Matches(before, after)
    decreases before, 1
  {
    if depth < DEPTH_MAX {
      if before.Arr? && after.Arr? && |before.items| == |after.items| {
        ItemsIff(before.items, after.items, depth);
      } else if before.Obj? && IsObject(after) {
        FieldsIff(before.fields, after, depth);
      }
    }
  }

  lemma {:induction false} ItemsIff(before: seq<Value>, after: seq<Value>, depth: nat)
    requires |before| == |after|
    ensures !ChangedItems(before, after, depth) <==> WithinItems(before, depth) && AllMatch(before, after)
    decreases before, 0
  {
    if before != [] {
      UnchangedIff(before[0], after[0], depth + 1);
      ItemsIff(before[1..], after[1..], depth + 1);
      hide Within, Matches, Changed;
      assert AllMatch(before, after) <==> Matches(before[0], after[0]) && AllMatch(before[1..], after[1..]) by {
        assert forall i :: 0 < i < |before| ==> before[i] == before[1..][i - 1] && after[i] == after[1..][i - 1];
      }
    }
  }

  lemma {:induction false} FieldsIff(before: seq<Field>, after: Value, depth: nat)
    ensures !ChangedFields(before, after, depth) <==> WithinFields(before, depth) && FieldsMatch(before, after)
    decreases before, 0
  {
    if before != [] {
      UnchangedIff(before[0].val, Prop(after, before[0].key), depth + 1);
      FieldsIff(before[1..], after, depth + 1);
      hide Within, Matches, Changed, Has, Prop;
      FieldsMatchSplit(before, after);
    }
  }

  lemma FieldsMatchSplit(before: seq<Field>, after: Value)
    requires before != []
    ensures FieldsMatch(before, after) <==>
              (Has(after, before[0].key) && Matches(before[0].val, Prop(after, before[0].key))
               && FieldsMatch(before[1..], after))
  {
    hide Matches, Has, Prop;
    var rest := before[1..];
    assert forall i :: 0 < i < |before| ==> before[i] == rest[i - 1];
    assert forall i :: 0 <= i < |rest| ==> rest[i] == before[i + 1];
  }

  lemma {:induction false} WithinLess(v: Value, depth: nat, less: nat)
    requires Within(v, depth) && less <= depth
    ensures Within(v, less)
    decreases v, 1
  {
    if v.Arr? {
      WithinItemsLess(v.items, depth, less);
    } else if v.Obj? {
      WithinFieldsLess(v.fields, depth, less);
    }
  }

  lemma {:induction false} WithinItemsLess(items: seq<Value>, depth: nat, less: nat)
    requires WithinItems(items, depth) && less <= depth
    ensures WithinItems(items, less)
    decreases items, 0
  {
    if items != [] {
      WithinLess(items[0], depth + 1, less + 1);
      WithinItemsLess(items[1..], depth + 1, less + 1);
    }
  }

  lemma {:induction false} WithinFieldsLess(fields: seq<Field>, depth: nat, less: nat)
    requires WithinFields(fields, depth) && less <= depth
    ensures WithinFields(fields, less)
    decreases fields, 0
  {
    if fields != [] {
      WithinLess(fields[0].val, depth + 1, less + 1);
      WithinFieldsLess(fields[1..], depth + 1, less + 1);
    }
  }

  lemma {:induction false} WithinItemAt(items: seq<Value>, depth: nat, i: nat)
    requires WithinItems(items, depth) && i < |items|
    ensures Within(items[i], 0)
  {
    if i == 0 {
      WithinLess(items[0], depth + 1, 0);
    } else {
      WithinItemAt(items[1..], depth + 1, i - 1);
    }
  }

  lemma {:induction false} WithinFieldAt(fields: seq<Field>, depth: nat, i: nat)
    requires WithinFields(fields, depth) && i < |fields|
    ensures Within(fields[i].val, 0)
  {
    if i == 0 {
      WithinLess(fields[0].val, depth + 1, 0);
    } else {
      WithinFieldAt(fields[1..], depth + 1, i - 1);
    }
  }

  // ---------- Against equality of JSON values ----------

  /** A value that JSON can express, with each key once. */
  ghost predicate IsJson(v: Value)
    decreases v
  {
    match v
    case Arr(items) => forall i :: 0 <= i < |items| ==> IsJson(items[i])
    case Obj(fields, _) => UniqueKeys(fields) && forall i :: 0 <= i < |fields| ==> IsJson(fields[i].val)
    case _ => !v.Undef? && !v.NaN? && !v.Native?
  }

  /** Equality of JSON values: objects as sets of members, arrays in order. */
  ghost predicate JsonEqual(b: Value, a: Value)
    decreases b, 2
  {
    match b
    case Arr(items) => a.Arr? && |items| == |a.items| && forall i :: 0 <= i < |items| ==> JsonEqual(items[i], a.items[i])
    case Obj(fields, _) => a.Obj? && MembersIn(fields, a.fields) && KeysIn(a.fields, fields)
    case _ => a == b
  }

  /** Each member of `fs` has an equal one in `gs`. */
  ghost predicate MembersIn(fs: seq<Field>, gs: seq<Field>)
    decreases fs, 1
  {
    forall i :: 0 <= i < |fs| ==> MemberIn(fs[i], gs)
  }

  ghost predicate MemberIn(f: Field, gs: seq<Field>)
    decreases f, 0
  {
    FindKey(gs, f.key) >= 0 && JsonEqual(f.val, gs[FindKey(gs, f.key)].val)
  }

  ghost predicate KeysIn(fs: seq<Field>, gs: seq<Field>) {
    forall i :: 0 <= i < |fs| ==> FindKey(gs, fs[i].key) >= 0
  }

  /** No object was replaced by an array, and no object gained a key that it answers for anyway
      because it inherits it. */
  ghost predicate NothingHidden(b: Value, a: Value)
    decreases b
  {
    match b
    case Arr(items) =>
      a.Arr? ==> forall i :: 0 <= i < |items| && i < |a.items| ==> NothingHidden(items[i], a.items[i])
    case Obj(fields, proto) =>
      !a.Arr?
      && (a.Obj? && proto ==> InheritedIn(a.fields, fields))
      && forall i :: 0 <= i < |fields| ==> NothingHidden(fields[i].val, Prop(a, fields[i].key))
    case _ => true
  }

  ghost predicate InheritedIn(fs: seq<Field>, gs: seq<Field>) {
    forall i :: 0 <= i < |fs| ==> fs[i].key in INHERITED ==> FindKey(gs, fs[i].key) >= 0
  }

  /** Of two JSON values, the comparison says `unchanged` and nothing is hidden exactly when they
      are equal and small enough to be compared in full. */
  lemma UnchangedIsEqual(b: Value, a: Value)
    requires IsJson(b) && IsJson(a)
    ensures !Changed(b, a, 0) && NothingHidden(b, a) <==> JsonEqual(b, a) && Within(b, 0)
  {
    UnchangedIff(b, a, 0);
    MatchesIsEqual(b, a);
  }

  lemma {:induction false} MatchesIsEqual(b: Value, a: Value)
    requires IsJson(b) && (IsJson(a) || a.Undef? || a.Native? || a.Num?)
    ensures Matches(b, a) && NothingHidden(b, a) <==> JsonEqual(b, a)
    decreases b
  {
    match b
    case Arr(items) =>
      if a.Arr? && |items| == |a.items| {
        forall i | 0 <= i < |items|
          ensures Matches(items[i], a.items[i]) && NothingHidden(items[i], a.items[i]) <==> JsonEqual(items[i], a.items[i])
        {
          MatchesIsEqual(items[i], a.items[i]);
        }
      }
    case Obj(fields, proto) =>
      if a.Obj? {
        forall i | 0 <= i < |fields|
          ensures MemberMatches(fields[i], a) && NothingHidden(fields[i].val, Prop(a, fields[i].key))
                  <==> MemberIn(fields[i], a.fields)
        {
          MatchesIsEqual(fields[i].val, Prop(a, fields[i].key));
        }
        KeysKnown(b, a);
        MembersEqual(b, a);
      }
    case _ =>
  }

  ghost predicate MemberMatches(f: Field, a: Value) {
    Has(a, f.key) && Matches(f.val, Prop(a, f.key))
  }

  lemma MembersEqual(b: Value, a: Value)
    requires b.Obj? && a.Obj?
    requires forall i :: 0 <= i < |b.fields| ==>
               (MemberMatches(b.fields[i], a) && NothingHidden(b.fields[i].val, Prop(a, b.fields[i].key))
                <==> MemberIn(b.fields[i], a.fields))
    requires (forall i :: 0 <= i < |Keys(a)| ==> Has(b, Keys(a)[i])) && (b.proto ==> InheritedIn(a.fields, b.fields))
             <==> KeysIn(a.fields, b.fields)
    ensures Matches(b, a) && NothingHidden(b, a) <==> JsonEqual(b, a)
  {
    hide InheritedIn, KeysIn, MemberIn, Has, Prop, Keys;
    assert FieldsMatch(b.fields, a) <==> forall i :: 0 <= i < |b.fields| ==> MemberMatches(b.fields[i], a);
  }

  lemma KeysKnown(b: Value, a: Value)
    requires b.Obj? && a.Obj?
    ensures (forall i :: 0 <= i < |Keys(a)| ==> Has(b, Keys(a)[i])) && (b.proto ==> InheritedIn(a.fields, b.fields))
            <==> KeysIn(a.fields, b.fields)
  {
    var ks := Keys(a);
    forall i | 0 <= i < |ks|
      ensures Has(b, ks[i]) && (b.proto && a.fields[i].key in INHERITED ==> FindKey(b.fields, a.fields[i].key) >= 0)
              <==> FindKey(b.fields, a.fields[i].key) >= 0
    {
    }
  }

  /** A new key named like an inherited member goes unnoticed. */
  lemma HiddenKeyUnnoticed()
    ensures var b, a := Obj([], true), Obj([Field("toString", Num(1.0))], true);
            IsJson(b) && IsJson(a) && !JsonEqual(b, a) && !Changed(b, a, 0)
  {
    var b, a := Obj([], true), Obj([Field("toString", Num(1.0))], true);
    assert Keys(a) == ["toString"];
    assert FindKey(b.fields, a.fields[0].key) < 0;
  }

  /** An object and an array with the same members pass for the same value. */
  lemma ArrayForObjectUnnoticed()
    ensures var b, a := Obj([Field("0", Null)], true), Arr([Null]);
            IsJson(b) && IsJson(a) && !JsonEqual(b, a) && !Changed(b, a, 0)
  {
    var b, a := Obj([Field("0", Null)], true), Arr([Null]);
    assert b.fields[1..] == [] && ArrayIndex("0") == 0;
    assert Keys(a) == ["0"] by {
      assert IndexKey(0) == "0";
    }
    assert FindKey(b.fields, "0") == 0;
  }

  /** An array of as many elements as the limit counts as changed whatever it is compared with. */
  lemma LongArraysAlwaysChange(items: seq<Value>, after: Value)
    requires |items| >= DEPTH_MAX
    ensures Changed(Arr(items), after, 0)
  {
    UnchangedIff(Arr(items), after, 0);
    LongItemsNotWithin(items, 0);
  }

  lemma {:induction false} LongItemsNotWithin(items: seq<Value>, depth: nat)
    requires depth + |items| >= DEPTH_MAX && items != []
    ensures !WithinItems(items, depth)
  {
    if depth + 1 < DEPTH_MAX {
      LongItemsNotWithin(items[1..], depth + 1);
    }
  }

  // ---------- diffShapeShallow ----------

  /** What was added or removed on the top level: keys of objects, index ranges of arrays as first
      index and length. */
  datatype Diff = Diff(added: seq<string>, removed: seq<string>, addedRange: (nat, nat), removedRange: (nat, nat))

  datatype Shape = NoDiff | SomeDiff(d: Diff)

  function AsContainer(v: Value): Value {
    if IsObject(v) then v else Arr([])
  }

  /** The keys of `a` that `b` does not have, in order. */
  function KeysNotIn(ks: seq<string>, b: Value): (r: seq<string>)
    ensures forall k :: k in r <==> k in ks && !Has(b, k)
  {
    if ks == [] then []
    else
      var front := KeysNotIn(ks[..|ks| - 1], b);
      if Has(b, ks[|ks| - 1]) then front else front + [ks[|ks| - 1]]
  }

  function DiffShape(before: Value, after: Value): Shape {
    var b, a := AsContainer(before), AsContainer(after);
    if b.Arr? && a.Arr? then
      if |a.items| == |b.items| then NoDiff
      else if |a.items| > |b.items| then SomeDiff(Diff([], [], (|b.items|, |a.items| - |b.items|), (0, 0)))
      else SomeDiff(Diff([], [], (0, 0), (|a.items|, |b.items| - |a.items|)))
    else if b.Arr? then SomeDiff(Diff(Keys(a), [], (0, 0), (0, |b.items|)))
    else if a.Arr? then SomeDiff(Diff([], Keys(b), (0, |a.items|), (0, 0)))
    else
      var added, removed := KeysNotIn(Keys(a), b), KeysNotIn(Keys(b), a);
      if added == [] && removed == [] then NoDiff else SomeDiff(Diff(added, removed, (0, 0), (0, 0)))
  }

  /** No diff means: two arrays of one length (anything that is no container counts as an empty
      array), or two objects each of which answers for the keys of the other. */
  lemma NoDiffIff(before: Value, after: Value)
    ensures DiffShape(before, after).NoDiff? <==>
              var b, a := AsContainer(before), AsContainer(after);
              b.Arr? == a.Arr?
              && (b.Arr? ==> |b.items| == |a.items|)
              && (b.Obj? ==> (forall k :: k in Keys(a) ==> Has(b, k)) && (forall k :: k in Keys(b) ==> Has(a, k)))
  {
    var b, a := AsContainer(before), AsContainer(after);
    var added, removed := KeysNotIn(Keys(a), b), KeysNotIn(Keys(b), a);
    if added != [] {
      assert added[0] in added;
    }
    if removed != [] {
      assert removed[0] in removed;
    }
  }

  predicate Covers(range: (nat, nat), i: nat) {
    range.0 <= i < range.0 + range.1
  }

  /** `ks` are the elements of `all` at these places, in order. */
  ghost predicate TakenAt(ks: seq<string>, all: seq<string>, at: seq<nat>) {
    && |at| == |ks| && (forall i :: 0 <= i < |ks| ==> at[i] < |all| && ks[i] == all[at[i]])
    && forall i, j :: 0 <= i < j < |ks| ==> at[i] < at[j]
  }

  lemma {:induction false} KeysInOrder(ks: seq<string>, b: Value) returns (at: seq<nat>)
    ensures TakenAt(KeysNotIn(ks, b), ks, at)
  {
    at := [];
    if ks != [] {
      var n := |ks| - 1;
      at := KeysInOrder(ks[..n], b);
      hide Has, TakenAt;
      TakenFurther(KeysNotIn(ks[..n], b), ks, n, at);
      if !Has(b, ks[n]) {
        at := at + [n];
      }
    }
  }

  lemma TakenFurther(taken: seq<string>, ks: seq<string>, n: nat, at: seq<nat>)
    requires n < |ks| && TakenAt(taken, ks[..n], at)
    ensures TakenAt(taken, ks, at) && TakenAt(taken + [ks[n]], ks, at + [n])
  {
  }

  lemma AllInOrder(ks: seq<string>) returns (at: seq<nat>)
    ensures TakenAt(ks, ks, at)
  {
    at := seq(|ks|, i requires 0 <= i < |ks| => i);
  }

  /** A shape difference lists as added, in the new order, exactly the keys of the new object that the old
      one does not answer for (all, if there was no object), and covers exactly the indices that only the
      new array has; and as removed the converse. */
  lemma DiffLists(before: Value, after: Value) returns (addedAt: seq<nat>, removedAt: seq<nat>)
    requires DiffShape(before, after).SomeDiff?
    ensures var b, a, d := AsContainer(before), AsContainer(after), DiffShape(before, after).d;
            && (forall k :: k in d.added <==> a.Obj? && k in Keys(a) && (b.Obj? ==> !Has(b, k)))
            && (forall k :: k in d.removed <==> b.Obj? && k in Keys(b) && (a.Obj? ==> !Has(a, k)))
            && TakenAt(d.added, Keys(a), addedAt) && TakenAt(d.removed, Keys(b), removedAt)
            && (forall i: nat :: Covers(d.addedRange, i) <==> a.Arr? && i < |a.items| && !(b.Arr? && i < |b.items|))
            && forall i: nat :: Covers(d.removedRange, i) <==> b.Arr? && i < |b.items| && !(a.Arr? && i < |a.items|)
  {
    var b, a := AsContainer(before), AsContainer(after);
    hide Has, Keys;
    addedAt, removedAt := [], [];
    if a.Obj? && b.Obj? {
      addedAt := KeysInOrder(Keys(a), b);
      removedAt := KeysInOrder(Keys(b), a);
    } else if a.Obj? {
      addedAt := AllInOrder(Keys(a));
    } else if b.Obj? {
      removedAt := AllInOrder(Keys(b));
    }
  }
}
