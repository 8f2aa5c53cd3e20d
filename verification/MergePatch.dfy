/** Patching signals: the JSON merge patch and the store under it (`applyJsonMergePatch`,
    `applyPatchSigs`). */
module MergePatch {
  import opened Compare
  import opened JsValues
  import Names
  import opened Options
  import opened Signals
  import SyncDepth

  datatype Merged = Delete | Keep(value: Value)

  // ---------- The merge ----------

  function RemoveField(fields: seq<Field>, k: string): seq<Field> {
    var i := FindKey(fields, k);
    if i >= 0 then fields[..i] + fields[i + 1..] else fields
  }

  /** The members to start from: a copy of an object's own, or none. */
  function OwnFields(v: Value): seq<Field> {
    if v.Obj? then v.fields else []
  }

  function Lookup(fields: seq<Field>, k: string): Value {
    var i := FindKey(fields, k);
    if i >= 0 then fields[i].val else Undef
  }

  function Merge(prev: Value, patch: Value): Merged
    decreases patch, 1
  {
    if patch.Null? then Delete
    else if !patch.Obj? then Keep(patch)
    else Keep(Obj(MergeFields(OwnFields(prev), patch.fields), false))
  }

  function MergeFields(out: seq<Field>, patch: seq<Field>): seq<Field>
    decreases patch, 0
  {
    if patch == [] then out
    else
      var before, f := MergeFields(out, patch[..|patch| - 1]), patch[|patch| - 1];
      match Merge(Lookup(before, f.key), f.val)
      case Delete => RemoveField(before, f.key)
      case Keep(x) => SetField(before, f.key, x)
  }

  method ApplyJsonMergePatch(prev: Value, patch: Value) returns (r: Merged)
    ensures r == Merge(prev, patch)
    decreases patch
  {
    if patch.Null? {
      return Delete;
    }
    if !patch.Obj? {
      return Keep(patch);
    }
    var out := OwnFields(prev);
    var i := 0;
    while i < |patch.fields|
      invariant 0 <= i <= |patch.fields| && out == MergeFields(OwnFields(prev), patch.fields[..i])
      decreases |patch.fields| - i
    {
      var f := patch.fields[i];
      assert patch.fields[..i + 1][..i] == patch.fields[..i];
      var next := ApplyJsonMergePatch(Lookup(out, f.key), f.val);
      match next {
        case Delete => out := RemoveField(out, f.key);
        case Keep(x) => out := SetField(out, f.key, x);
      }
      i := i + 1;
    }
    assert patch.fields[..i] == patch.fields;
    return Keep(Obj(out, false));
  }

  // ---------- What a merge is ----------

  datatype Member = Absent | Present(value: Value)

  /** The member of an object called `k`; what is no object has none. */
  function Own(v: Value, k: string): Member {
    var i := FindKey(OwnFields(v), k);
    if i >= 0 then Present(OwnFields(v)[i].val) else Absent
  }

  function OwnOrUndef(v: Value, k: string): Value {
    Lookup(OwnFields(v), k)
  }

  /** `r` is what section 2 of RFC 7396 makes of target `t` and patch `p`: a patch that is no object
      replaces the target; an object keeps what it does not name, removes what it names with null, and
      merges the rest member by member. */
  ghost predicate MergeOf(r: Value, t: Value, p: Value)
    decreases p
  {
    if !p.Obj? then r == p
    else
      r.Obj? && forall k: string ::
        match Own(p, k)
        case Absent => Own(r, k) == Own(t, k)
        case Present(x) =>
          if x.Null? then Own(r, k) == Absent
          else Own(r, k).Present? && MergeOf(Own(r, k).value, OwnOrUndef(t, k), x)
  }

  lemma SetThenFind(fields: seq<Field>, k: string, x: Value, o: string)
    ensures Lookup(SetField(fields, k, x), o) == if o == k then x else Lookup(fields, o)
    ensures FindKey(SetField(fields, k, x), o) >= 0 <==> o == k || FindKey(fields, o) >= 0
  {
    FindAfterSet(fields, k, x, o);
  }

  lemma RemovedMembers(fields: seq<Field>, k: string)
    requires UniqueKeys(fields)
    ensures forall f :: f in RemoveField(fields, k) <==> f in fields && f.key != k
  {
    var i, after := FindKey(fields, k), RemoveField(fields, k);
    forall f | f in fields && f.key != k
      ensures f in after
    {
      var j :| 0 <= j < |fields| && fields[j] == f;
      assert i < 0 || after[if j < i then j else j - 1] == f;
    }
  }

  lemma RemoveThenFind(fields: seq<Field>, k: string, o: string)
    requires UniqueKeys(fields)
    ensures Lookup(RemoveField(fields, k), o) == if o == k then Undef else Lookup(fields, o)
    ensures FindKey(RemoveField(fields, k), o) >= 0 <==> o != k && FindKey(fields, o) >= 0
  {
    RemovedMembers(fields, k);
    var after := RemoveField(fields, k);
    hide RemoveField;
    assert forall j :: 0 <= j < |after| ==> after[j] in fields && after[j].key != k;
    var a, b := FindKey(after, o), FindKey(fields, o);
    if o != k && b >= 0 {
      assert fields[b] in after;
      SameKeySame(fields, after[a], fields[b]);
    }
  }

  lemma SameKeySame(fields: seq<Field>, f: Field, g: Field)
    requires UniqueKeys(fields) && f in fields && g in fields && f.key == g.key
    ensures f == g
  {
  }

  lemma StaysUnique(fields: seq<Field>, k: string, x: Value)
    requires UniqueKeys(fields)
    ensures UniqueKeys(SetField(fields, k, x)) && UniqueKeys(RemoveField(fields, k))
  {
  }

  lemma {:induction false} MergedUnique(out: seq<Field>, patch: seq<Field>)
    requires UniqueKeys(out)
    ensures UniqueKeys(MergeFields(out, patch))
    decreases |patch|
  {
    if patch != [] {
      var before, f := MergeFields(out, patch[..|patch| - 1]), patch[|patch| - 1];
      MergedUnique(out, patch[..|patch| - 1]);
      var m := Merge(Lookup(before, f.key), f.val);
      StaysUnique(before, f.key, if m.Keep? then m.value else Null);
    }
  }

  /** What the merge leaves under a key. */
  ghost predicate MergedAt(r: seq<Field>, out: seq<Field>, patch: seq<Field>, k: string) {
    var i := FindKey(patch, k);
    if i < 0 then (FindKey(r, k) >= 0 <==> FindKey(out, k) >= 0) && Lookup(r, k) == Lookup(out, k)
    else
      var m := Merge(Lookup(out, k), patch[i].val);
      if m.Delete? then FindKey(r, k) < 0 else FindKey(r, k) >= 0 && Lookup(r, k) == m.value
  }

  lemma {:induction false} MergedByKey(out: seq<Field>, patch: seq<Field>, k: string)
    requires UniqueKeys(out) && UniqueKeys(patch)
    ensures MergedAt(MergeFields(out, patch), out, patch, k)
    decreases |patch|
  {
    if patch != [] {
      var front, f := patch[..|patch| - 1], patch[|patch| - 1];
      var before := MergeFields(out, front);
      MergedByKey(out, front, k);
      MergedUnique(out, front);
      LastKeyIsNew(patch);
      var m := Merge(Lookup(before, f.key), f.val);
      SetThenFind(before, f.key, if m.Keep? then m.value else Null, k);
      RemoveThenFind(before, f.key, k);
      hide RemoveField, SetField, UniqueKeys;
    }
  }

  lemma LastKeyIsNew(patch: seq<Field>)
    requires UniqueKeys(patch) && patch != []
    ensures FindKey(patch[..|patch| - 1], patch[|patch| - 1].key) < 0
  {
  }

  /** Each object lists a key once. */
  ghost predicate Keyed(v: Value)
    decreases v
  {
    match v
    case Arr(items) => forall i :: 0 <= i < |items| ==> Keyed(items[i])
    case Obj(fields, _) => UniqueKeys(fields) && forall i :: 0 <= i < |fields| ==> Keyed(fields[i].val)
    case _ => true
  }

  /** The merge is the merge patch of RFC 7396, for every target and patch. */
  lemma {:induction false} MergeIsMergePatch(prev: Value, patch: Value)
    requires Keyed(prev) && Keyed(patch) && !patch.Null?
    ensures Merge(prev, patch).Keep? && MergeOf(Merge(prev, patch).value, prev, patch)
    decreases patch
  {
    if patch.Obj? {
      var out := OwnFields(prev);
      var r := Obj(MergeFields(out, patch.fields), false);
      forall k: string
        ensures match Own(patch, k)
                case Absent => Own(r, k) == Own(prev, k)
                case Present(x) =>
                  if x.Null? then Own(r, k) == Absent
                  else Own(r, k).Present? && MergeOf(Own(r, k).value, OwnOrUndef(prev, k), x)
      {
        MergedByKey(out, patch.fields, k);
        var i := FindKey(patch.fields, k);
        if i >= 0 && !patch.fields[i].val.Null? {
          MergeIsMergePatch(Lookup(out, k), patch.fields[i].val);
        }
      }
    }
  }

  /** The patch leaves every member that it does not name as it was. */
  lemma UnnamedStays(prev: Value, patch: Value, k: string)
    requires Keyed(prev) && Keyed(patch) && patch.Obj? && FindKey(patch.fields, k) < 0
    ensures Own(Merge(prev, patch).value, k) == Own(prev, k)
  {
    MergeIsMergePatch(prev, patch);
    assert Own(patch, k) == Absent;
  }

  // ---------- Patching again ----------

  /** The result of a patch is what the patch makes of that result. */
  lemma {:induction false} PatchedIsFixed(r: Value, t: Value, p: Value)
    requires MergeOf(r, t, p)
    ensures MergeOf(r, r, p)
    decreases p
  {
    if p.Obj? {
      forall k: string
        ensures match Own(p, k)
                case Absent => true
                case Present(x) =>
                  if x.Null? then Own(r, k) == Absent
                  else Own(r, k).Present? && MergeOf(Own(r, k).value, OwnOrUndef(r, k), x)
      {
        var i := FindKey(p.fields, k);
        if i >= 0 && !p.fields[i].val.Null? {
          assert Own(p, k) == Present(p.fields[i].val);
          PatchedIsFixed(Own(r, k).value, OwnOrUndef(t, k), p.fields[i].val);
        }
      }
    }
  }

  lemma {:induction false} EqualToItself(v: Value)
    requires Keyed(v)
    ensures JsonEqual(v, v)
    decreases v
  {
    match v
    case Arr(items) =>
      forall i | 0 <= i < |items|
        ensures JsonEqual(items[i], items[i])
      {
        EqualToItself(items[i]);
      }
    case Obj(fields, _) =>
      forall i | 0 <= i < |fields|
        ensures MemberIn(fields[i], fields)
      {
        FindUnique(fields, i);
        EqualToItself(fields[i].val);
      }
    case _ =>
  }

  /** A target and a patch determine the result, up to the order of members. */
  lemma {:induction false} MergeIsDetermined(r: Value, s: Value, t: Value, p: Value)
    requires MergeOf(r, t, p) && MergeOf(s, t, p) && Keyed(r) && Keyed(s)
    ensures JsonEqual(r, s)
    decreases p
  {
    if p.Obj? {
      forall i | 0 <= i < |r.fields|
        ensures MemberIn(r.fields[i], s.fields)
      {
        var k := r.fields[i].key;
        FindUnique(r.fields, i);
        assert Own(r, k) == Present(r.fields[i].val);
        var j := FindKey(p.fields, k);
        if j < 0 {
          assert Own(p, k) == Absent && Own(s, k) == Own(r, k);
          EqualToItself(r.fields[i].val);
        } else {
          assert Own(p, k) == Present(p.fields[j].val);
          MergeIsDetermined(Own(r, k).value, Own(s, k).value, OwnOrUndef(t, k), p.fields[j].val);
        }
      }
      forall i | 0 <= i < |s.fields|
        ensures FindKey(r.fields, s.fields[i].key) >= 0
      {
        var k := s.fields[i].key;
        FindUnique(s.fields, i);
        assert Own(s, k).Present?;
        assert Own(p, k).Absent? ==> Own(r, k) == Own(t, k) == Own(s, k);
      }
    } else {
      EqualToItself(r);
    }
  }

  lemma {:induction false} MergeStaysKeyed(prev: Value, patch: Value)
    requires Keyed(prev) && Keyed(patch) && !patch.Null?
    ensures Merge(prev, patch).Keep? && Keyed(Merge(prev, patch).value)
    decreases patch, 1
  {
    if patch.Obj? {
      FieldsStayKeyed(OwnFields(prev), patch.fields);
    }
  }

  ghost predicate AllKeyed(fields: seq<Field>) {
    UniqueKeys(fields) && forall i :: 0 <= i < |fields| ==> Keyed(fields[i].val)
  }

  lemma StaysKeyed(fields: seq<Field>, k: string, x: Value)
    requires AllKeyed(fields) && Keyed(x)
    ensures AllKeyed(SetField(fields, k, x)) && AllKeyed(RemoveField(fields, k))
  {
    hide Keyed, UniqueKeys, SetField, RemoveField;
    StaysUnique(fields, k, x);
    SetMembers(fields, k, x);
    RemovedMembers(fields, k);
    var removed := RemoveField(fields, k);
    assert forall i :: 0 <= i < |removed| ==> removed[i] in removed;
  }

  lemma SetMembers(fields: seq<Field>, k: string, x: Value)
    ensures var after := SetField(fields, k, x); forall i :: 0 <= i < |after| ==> after[i] == Field(k, x) || after[i] in fields
  {
  }

  lemma {:induction false} FieldsStayKeyed(out: seq<Field>, patch: seq<Field>)
    requires AllKeyed(out) && forall i :: 0 <= i < |patch| ==> Keyed(patch[i].val)
    ensures AllKeyed(MergeFields(out, patch))
    decreases patch, 0
  {
    if patch != [] {
      var front, f := patch[..|patch| - 1], patch[|patch| - 1];
      var before := MergeFields(out, front);
      FieldsStayKeyed(out, front);
      assert Keyed(Lookup(before, f.key)) && Keyed(Null);
      hide AllKeyed, Keyed, SetField, RemoveField;
      if !f.val.Null? {
        MergeStaysKeyed(Lookup(before, f.key), f.val);
      }
      var m := Merge(Lookup(before, f.key), f.val);
      StaysKeyed(before, f.key, if m.Keep? then m.value else Null);
    }
  }

  /** Applying a patch twice is applying it once. */
  lemma PatchTwice(prev: Value, patch: Value)
    requires Keyed(prev) && Keyed(patch) && !patch.Null?
    ensures var once := Merge(prev, patch).value;
            Merge(once, patch).Keep? && JsonEqual(Merge(once, patch).value, once)
  {
    MergeStaysKeyed(prev, patch);
    MergeIsMergePatch(prev, patch);
    var once := Merge(prev, patch).value;
    MergeStaysKeyed(once, patch);
    MergeIsMergePatch(once, patch);
    PatchedIsFixed(once, prev, patch);
    MergeIsDetermined(Merge(once, patch).value, once, once, patch);
  }

  // ---------- Patching the store ----------

  const KEY_SIS := "dmSignals"
  const KEY_ONLY_IF_MISSING := "onlyIfMissing"

  /** A whole write behind the depth guard, with handlers that write nothing themselves: the store, the
      handler calls and the depth after it. */
  function GuardedWrite(dm: map<string, Value>, depth: nat, subs: map<string, seq<Sub>>, root: string, val: Value)
    : (map<string, Value>, nat, seq<Call>)
  {
    var (depth', refused) := SyncDepth.After(SyncDepth.Run([]), depth);
    if refused > 0 then (dm, depth', [])
    else
      var (dm', calls) := Write(dm, subs, root, Whole, val);
      (dm', depth', calls)
  }

  /** The same after one member of a patch; a refused removal still removes. */
  function PatchOne(dm: map<string, Value>, depth: nat, subs: map<string, seq<Sub>>, f: Field, onlyIfMissing: bool)
    : (map<string, Value>, nat, seq<Call>)
  {
    if onlyIfMissing && f.key in dm then (dm, depth, [])
    else match Merge(Read(dm, f.key, Whole), f.val)
      case Keep(next) => GuardedWrite(dm, depth, subs, f.key, next)
      case Delete =>
        if f.key in dm then
          var (dm', depth', calls) := GuardedWrite(dm, depth, subs, f.key, Undef);
          (dm' - {f.key}, depth', calls)
        else (dm, depth, [])
  }

  function PatchAll(dm: map<string, Value>, depth: nat, subs: map<string, seq<Sub>>, fields: seq<Field>, onlyIfMissing: bool)
    : (map<string, Value>, nat, seq<Call>)
  {
    if fields == [] then (dm, depth, [])
    else
      var (before, between, calls) := PatchAll(dm, depth, subs, fields[..|fields| - 1], onlyIfMissing);
      var (after, depth', more) := PatchOne(before, between, subs, fields[|fields| - 1], onlyIfMissing);
      (after, depth', calls + more)
  }

  /** The members that an event asks to patch: none without text, or when it is no JSON object. */
  function Asked(args: map<string, string>, parse: string -> Option<Value>): seq<Field> {
    var raw := if KEY_SIS in args then args[KEY_SIS] else "";
    if raw == "" then []
    else match parse(raw)
      case None => []
      case Some(patch) => OwnFields(patch)
  }

  /** Whether the event asks for missing signals only, in whatever case it says `true`. */
  function OnlyMissing(args: map<string, string>): bool {
    var text := if KEY_ONLY_IF_MISSING in args then args[KEY_ONLY_IF_MISSING] else "";
    seq(|text|, i requires 0 <= i < |text| => Names.ToLower(text[i])) == "true"
  }

  method ApplyPatchSigs(store: Store, depth: nat, args: map<string, string>, parse: string -> Option<Value>) returns (depth': nat)
    modifies store`dm, store`calls
    ensures var (dm, d, calls) := PatchAll(old(store.dm), depth, store.subs, Asked(args, parse), OnlyMissing(args));
            store.dm == dm && depth' == d && store.calls == old(store.calls) + calls
  {
    hide PatchAll, OnlyMissing;
    depth' := depth;
    NoneAsked(store.dm, depth, store.subs, OnlyMissing(args));
    assert store.calls + [] == store.calls;
    if KEY_SIS !in args || args[KEY_SIS] == "" {
      return;
    }
    var parsed := parse(args[KEY_SIS]);
    if parsed.None? || !parsed.value.Obj? {
      return;
    }
    depth' := ApplyFields(store, depth, parsed.value.fields, OnlyMissing(args));
  }

  lemma NoneAsked(dm: map<string, Value>, depth: nat, subs: map<string, seq<Sub>>, onlyIfMissing: bool)
    ensures PatchAll(dm, depth, subs, [], onlyIfMissing) == (dm, depth, [])
  {
  }

  method ApplyFields(store: Store, depth: nat, fields: seq<Field>, onlyIfMissing: bool) returns (depth': nat)
    modifies store`dm, store`calls
    ensures var (dm, d, calls) := PatchAll(old(store.dm), depth, store.subs, fields, onlyIfMissing);
            store.dm == dm && depth' == d && store.calls == old(store.calls) + calls
  {
    hide PatchOne, Merge;
    depth' := depth;
    ghost var made: seq<Call> := [];
    var i := 0;
    while i < |fields|
      invariant 0 <= i <= |fields| && store.calls == old(store.calls) + made
      invariant (store.dm, depth', made) == PatchAll(old(store.dm), depth, store.subs, fields[..i], onlyIfMissing)
    {
      assert fields[..i + 1][..i] == fields[..i];
      made := made + PatchOne(store.dm, depth', store.subs, fields[i], onlyIfMissing).2;
      depth' := ApplyOne(store, depth', fields[i], onlyIfMissing);
      i := i + 1;
    }
    assert fields[..i] == fields;
  }

  method ApplyOne(store: Store, depth: nat, f: Field, onlyIfMissing: bool) returns (depth': nat)
    modifies store`dm, store`calls
    ensures var (dm, d, calls) := PatchOne(old(store.dm), depth, store.subs, f, onlyIfMissing);
            store.dm == dm && depth' == d && store.calls == old(store.calls) + calls
  {
    hide Merge, GuardedWrite;
    depth' := depth;
    if onlyIfMissing && f.key in store.dm {
      return;
    }
    var next := ApplyJsonMergePatch(Read(store.dm, f.key, Whole), f.val);
    if next.Keep? {
      depth' := SetNDeep(store, depth, f.key, next.value);
    } else if f.key in store.dm {
      depth' := SetNDeep(store, depth, f.key, Undef);
      store.dm := store.dm - {f.key};
    }
  }

  method SetNDeep(store: Store, depth: nat, root: string, val: Value) returns (depth': nat)
    modifies store`dm, store`calls
    ensures var (dm, d, calls) := GuardedWrite(old(store.dm), depth, store.subs, root, val);
            store.dm == dm && depth' == d && store.calls == old(store.calls) + calls
  {
    hide Write;
    NestsNothing(depth);
    depth' := depth + 1;
    if depth > SyncDepth.MAX_DEPTH {
      return;
    }
    store.SetAndNotify(root, Whole, val);
    depth' := depth' - 1;
  }

  lemma NestsNothing(depth: nat)
    ensures SyncDepth.After(SyncDepth.Run([]), depth) == if depth > SyncDepth.MAX_DEPTH then (depth + 1, 1) else (depth, 0)
  {
  }

  /** A signal after a patch: absent, or holding a value. */
  function Signal(dm: map<string, Value>, root: string): Member {
    if root in dm then Present(dm[root]) else Absent
  }

  /** What a patch makes of one signal. */
  function Patched(dm: map<string, Value>, refused: bool, fields: seq<Field>, onlyIfMissing: bool, root: string): Member {
    var i := FindKey(fields, root);
    if i < 0 || (onlyIfMissing && root in dm) then Signal(dm, root)
    else match Merge(Read(dm, root, Whole), fields[i].val)
      case Delete => Absent
      case Keep(next) =>
        if !refused && root != "" && Changed(Read(dm, root, Whole), next, 0) then Present(next) else Signal(dm, root)
  }

  lemma PatchOneAt(dm: map<string, Value>, depth: nat, subs: map<string, seq<Sub>>, f: Field, onlyIfMissing: bool, root: string)
    ensures var (dm', depth', _) := PatchOne(dm, depth, subs, f, onlyIfMissing);
            && (depth' > SyncDepth.MAX_DEPTH <==> depth > SyncDepth.MAX_DEPTH)
            && Signal(dm', root) == if f.key == root then Patched(dm, depth > SyncDepth.MAX_DEPTH, [f], onlyIfMissing, root)
                                    else Signal(dm, root)
  {
    hide Merge, Changed, CallAll, WakeAll;
    NestsNothing(depth);
    assert FindKey([f], f.key) == 0;
  }

  /** Each signal ends up as its own member of the patch says, and a signal that the patch does not
      name, or that exists when only missing ones are wanted, stays as it was. Once the depth guard
      refuses, only removals are carried out. */
  lemma {:induction false} PatchBySignal(dm: map<string, Value>, depth: nat, subs: map<string, seq<Sub>>, fields: seq<Field>,
                                         onlyIfMissing: bool, root: string)
    requires UniqueKeys(fields)
    ensures var (after, depth', _) := PatchAll(dm, depth, subs, fields, onlyIfMissing);
            && (depth' > SyncDepth.MAX_DEPTH <==> depth > SyncDepth.MAX_DEPTH)
            && Signal(after, root) == Patched(dm, depth > SyncDepth.MAX_DEPTH, fields, onlyIfMissing, root)
    decreases |fields|
  {
    hide Merge, Changed, PatchOne;
    if fields != [] {
      var front, f := fields[..|fields| - 1], fields[|fields| - 1];
      var (before, between, _) := PatchAll(dm, depth, subs, front, onlyIfMissing);
      PatchBySignal(dm, depth, subs, front, onlyIfMissing, root);
      LastKeyIsNew(fields);
      PatchOneAt(before, between, subs, f, onlyIfMissing, root);
      hide UniqueKeys;
      assert FindKey([f], f.key) == 0;
    }
  }

  // ---------- Whom a patch calls ----------

  /** What a member of a patch writes: its merge, or nothing for a removal. */
  function Written(dm: map<string, Value>, f: Field): Value {
    var m := Merge(Read(dm, f.key, Whole), f.val);
    if m.Keep? then m.value else Undef
  }

  /** The member is carried out as a write that the comparison notices. */
  ghost predicate Notifies(dm: map<string, Value>, depth: nat, f: Field, onlyIfMissing: bool) {
    && depth <= SyncDepth.MAX_DEPTH && f.key != ""
    && (f.key in dm ==> !onlyIfMissing)
    && Changed(Read(dm, f.key, Whole), Written(dm, f), 0)
  }

  /** A member of a patch, a removal as well, calls the subscribers of its signal that the change of the
      value affects, in order, each with what it then finds; a removed signal is read as missing. */
  lemma MemberCalls(dm: map<string, Value>, depth: nat, subs: map<string, seq<Sub>>, f: Field, onlyIfMissing: bool)
    ensures var calls := PatchOne(dm, depth, subs, f, onlyIfMissing).2;
            var cur, next := Read(dm, f.key, Whole), Written(dm, f);
            var due := AffectedOf(Listeners(subs, f.key), cur, next);
            if !Notifies(dm, depth, f, onlyIfMissing) then calls == []
            else
              && |calls| == |due|
              && forall i :: 0 <= i < |due| ==>
                   && calls[i].sub == due[i]
                   && calls[i].seen == ValueAt(next, due[i].path)
                   && calls[i].detail == if due[i].mode.AnyChange? then NoDiff
                                         else DiffShape(ValueAt(cur, due[i].path), ValueAt(next, due[i].path))
  {
    var cur, next := Read(dm, f.key, Whole), Written(dm, f);
    NestsNothing(depth);
    if f.key !in dm {
      NothingToNothing();
    }
    if f.key != "" && Changed(cur, next, 0) {
      hide Merge, Changed, DiffShape, AffectedOf, Write;
      WholeWriteIsExact(dm, subs, f.key, next);
    } else {
      hide Merge, Changed, DiffShape, AffectedOf, WakeAll, CallAll;
    }
  }

  lemma NothingToNothing()
    ensures !Changed(Undef, Undef, 0)
  {
  }

  /** The calls of the members, each as if it were the only one. */
  function CallsOf(dm: map<string, Value>, depth: nat, subs: map<string, seq<Sub>>, fields: seq<Field>, onlyIfMissing: bool): seq<Call> {
    if fields == [] then []
    else CallsOf(dm, depth, subs, fields[..|fields| - 1], onlyIfMissing)
         + PatchOne(dm, depth, subs, fields[|fields| - 1], onlyIfMissing).2
  }

  /** Below the guard a patch calls, member by member, whom each of them alone would call. */
  lemma {:induction false} PatchCalls(dm: map<string, Value>, depth: nat, subs: map<string, seq<Sub>>, fields: seq<Field>,
                                      onlyIfMissing: bool)
    requires UniqueKeys(fields) && depth <= SyncDepth.MAX_DEPTH
    ensures var (_, depth', calls) := PatchAll(dm, depth, subs, fields, onlyIfMissing);
            depth' == depth && calls == CallsOf(dm, depth, subs, fields, onlyIfMissing)
    decreases |fields|
  {
    hide Merge, Changed, PatchOne, Patched;
    if fields != [] {
      var n := |fields| - 1;
      var front, f := fields[..n], fields[n];
      var before := PatchAll(dm, depth, subs, front, onlyIfMissing).0;
      PatchCalls(dm, depth, subs, front, onlyIfMissing);
      PatchBySignal(dm, depth, subs, front, onlyIfMissing, f.key);
      LastKeyIsNew(fields);
      assert Signal(before, f.key) == Signal(dm, f.key) by {
        NotNamed(dm, front, onlyIfMissing, f.key);
      }
      CallsBySignal(dm, before, depth, subs, f, onlyIfMissing);
    }
  }

  lemma NotNamed(dm: map<string, Value>, fields: seq<Field>, onlyIfMissing: bool, root: string)
    requires FindKey(fields, root) < 0
    ensures Patched(dm, false, fields, onlyIfMissing, root) == Signal(dm, root)
  {
  }

  lemma CallsBySignal(dm: map<string, Value>, dm': map<string, Value>, depth: nat, subs: map<string, seq<Sub>>, f: Field, onlyIfMissing: bool)
    requires depth <= SyncDepth.MAX_DEPTH && Signal(dm, f.key) == Signal(dm', f.key)
    ensures PatchOne(dm, depth, subs, f, onlyIfMissing).1 == PatchOne(dm', depth, subs, f, onlyIfMissing).1 == depth
    ensures PatchOne(dm, depth, subs, f, onlyIfMissing).2 == PatchOne(dm', depth, subs, f, onlyIfMissing).2
  {
    hide Merge, Changed, WakeAll, CallAll;
    NestsNothing(depth);
    forall next
      ensures Write(dm, subs, f.key, Whole, next).1 == Write(dm', subs, f.key, Whole, next).1
    {
      SameCallsWritten(dm, dm', subs, f.key, next);
    }
    hide Write;
  }

  lemma SameCallsWritten(dm: map<string, Value>, dm': map<string, Value>, subs: map<string, seq<Sub>>, root: string, next: Value)
    requires Signal(dm, root) == Signal(dm', root)
    ensures Write(dm, subs, root, Whole, next).1 == Write(dm', subs, root, Whole, next).1
  {
    hide Changed, WakeAll;
    var cur := Read(dm, root, Whole);
    var ws := if root in subs then WakeAll(subs[root], Whole, cur, cur, next) else [];
    assert CallAll(ws, dm[root := next], root) == CallAll(ws, dm'[root := next], root);
  }

  // ---------- What an event asks for ----------

  /** Only missing signals are asked for by the four letters `true`, in whatever case. */
  lemma OnlyMissingIff(args: map<string, string>)
    ensures OnlyMissing(args) <==>
            && KEY_ONLY_IF_MISSING in args && |args[KEY_ONLY_IF_MISSING]| == 4
            && var t := args[KEY_ONLY_IF_MISSING];
               t[0] in {'t', 'T'} && t[1] in {'r', 'R'} && t[2] in {'u', 'U'} && t[3] in {'e', 'E'}
  {
    var text := if KEY_ONLY_IF_MISSING in args then args[KEY_ONLY_IF_MISSING] else "";
    var low := seq(|text|, i requires 0 <= i < |text| => Names.ToLower(text[i]));
    if |text| == 4 {
      assert low == [Names.ToLower(text[0]), Names.ToLower(text[1]), Names.ToLower(text[2]), Names.ToLower(text[3])];
    }
    assert "true"[0] == 't' && "true"[1] == 'r' && "true"[2] == 'u' && "true"[3] == 'e';
  }

  /** An event whose text is that of a JSON object patches every signal as its own member says; any other
      event changes nothing and calls nobody. */
  lemma EventBySignal(dm: map<string, Value>, depth: nat, subs: map<string, seq<Sub>>, args: map<string, string>,
                      parse: string -> Option<Value>, root: string)
    requires forall text :: parse(text).Some? && parse(text).value.Obj? ==> UniqueKeys(parse(text).value.fields)
    ensures var (after, _, calls) := PatchAll(dm, depth, subs, Asked(args, parse), OnlyMissing(args));
            if KEY_SIS in args && args[KEY_SIS] != "" && parse(args[KEY_SIS]).Some? && parse(args[KEY_SIS]).value.Obj?
            then Signal(after, root)
                 == Patched(dm, depth > SyncDepth.MAX_DEPTH, parse(args[KEY_SIS]).value.fields, OnlyMissing(args), root)
            else after == dm && calls == []
  {
    hide PatchAll, Patched, OnlyMissing, UniqueKeys;
    NoneAsked(dm, depth, subs, OnlyMissing(args));
    if KEY_SIS in args && parse(args[KEY_SIS]).Some? && parse(args[KEY_SIS]).value.Obj? {
      PatchBySignal(dm, depth, subs, parse(args[KEY_SIS]).value.fields, OnlyMissing(args), root);
    }
  }

  // ---------- Patching twice ----------

  /** Both absent, or both there and equal up to the order of members. */
  ghost predicate SameSignal(a: Member, b: Member) {
    if a.Absent? then b.Absent? else b.Present? && JsonEqual(a.value, b.value)
  }

  ghost predicate AllSignalsKeyed(dm: map<string, Value>) {
    forall root :: root in dm ==> Keyed(dm[root])
  }

  /** Below the guard, applying a patch to its own result leaves every signal as it was, and the removed
      ones away. */
  lemma PatchStoreTwice(dm: map<string, Value>, depth: nat, subs: map<string, seq<Sub>>, fields: seq<Field>,
                        onlyIfMissing: bool, root: string)
    requires depth <= SyncDepth.MAX_DEPTH && AllSignalsKeyed(dm) && AllKeyed(fields)
    ensures var (once, depth', _) := PatchAll(dm, depth, subs, fields, onlyIfMissing);
            var (twice, _, _) := PatchAll(once, depth', subs, fields, onlyIfMissing);
            SameSignal(Signal(twice, root), Signal(once, root))
  {
    hide Merge, Changed, PatchAll, JsonEqual, Keyed;
    var (once, depth', _) := PatchAll(dm, depth, subs, fields, onlyIfMissing);
    PatchBySignal(dm, depth, subs, fields, onlyIfMissing, root);
    PatchBySignal(once, depth', subs, fields, onlyIfMissing, root);
    PatchedTwice(dm, once, fields, onlyIfMissing, root);
  }

  lemma PatchedTwice(dm: map<string, Value>, once: map<string, Value>, fields: seq<Field>, onlyIfMissing: bool, root: string)
    requires AllSignalsKeyed(dm) && AllKeyed(fields)
    requires Signal(once, root) == Patched(dm, false, fields, onlyIfMissing, root)
    ensures SameSignal(Patched(once, false, fields, onlyIfMissing, root), Signal(once, root))
  {
    hide Merge, Changed, JsonEqual, Keyed;
    var i := FindKey(fields, root);
    UndefKeyed();
    if i >= 0 {
      var v, patch := Read(dm, root, Whole), fields[i].val;
      NullDeletes(v, patch);
      NullDeletes(Undef, patch);
      if !patch.Null? {
        PatchTwice(v, patch);
        MergeStaysKeyed(v, patch);
      }
    }
    if root in once {
      EqualToItself(once[root]);
    }
  }

  lemma UndefKeyed()
    ensures Keyed(Undef)
  {
  }

  lemma NullDeletes(v: Value, patch: Value)
    ensures patch.Null? ==> Merge(v, patch).Delete?
  {
  }

  /** Of JSON values, a named signal ends up equal to its merge exactly when the comparison reports the
      change, or when it hides nothing; a refused write leaves it alone. */
  lemma SignalIsMergedIff(dm: map<string, Value>, depth: nat, subs: map<string, seq<Sub>>, fields: seq<Field>, root: string)
    requires UniqueKeys(fields) && root != "" && root in dm && FindKey(fields, root) >= 0
    requires var m := Merge(dm[root], Lookup(fields, root)); m.Keep? && IsJson(m.value) && IsJson(dm[root])
    ensures var after, next := PatchAll(dm, depth, subs, fields, false).0, Merge(dm[root], Lookup(fields, root)).value;
            && root in after
            && if depth > SyncDepth.MAX_DEPTH then after[root] == dm[root]
               else JsonEqual(after[root], next) <==> Changed(dm[root], next, 0) || NothingHidden(dm[root], next)
  {
    PatchBySignal(dm, depth, subs, fields, false, root);
    var next := Merge(dm[root], Lookup(fields, root)).value;
    UnchangedIsEqual(dm[root], next);
    JsonKeyed(next);
    EqualToItself(next);
    if !Changed(dm[root], next, 0) {
      UnchangedIff(dm[root], next, 0);
    }
  }

  lemma {:induction false} JsonKeyed(v: Value)
    requires IsJson(v)
    ensures Keyed(v)
    decreases v
  {
    match v
    case Arr(items) =>
      forall i | 0 <= i < |items|
        ensures Keyed(items[i])
      {
        JsonKeyed(items[i]);
      }
    case Obj(fields, _) =>
      forall i | 0 <= i < |fields|
        ensures Keyed(fields[i].val)
      {
        JsonKeyed(fields[i].val);
      }
    case _ =>
  }

  /** A patch that only adds a member named like an inherited one is lost. */
  lemma PatchIsLost(subs: map<string, seq<Sub>>)
    ensures var dm, patch := map["s" := Obj([], true)], [Field("s", Obj([Field("toString", Num(1.0))], true))];
            Merge(dm["s"], patch[0].val) == Keep(Obj([Field("toString", Num(1.0))], false))
            && PatchAll(dm, 0, subs, patch, false).0 == dm
  {
    hide Merge, Changed;
    HiddenByMerge();
    var dm, patch := map["s" := Obj([], true)], [Field("s", Obj([Field("toString", Num(1.0))], true))];
    assert patch[..0] == [];
    NestsNothing(0);
    assert PatchOne(dm, 0, subs, patch[0], false).0 == dm;
  }

  lemma HiddenByMerge()
    ensures var prev, p, next := Obj([], true), Obj([Field("toString", Num(1.0))], true), Obj([Field("toString", Num(1.0))], false);
            Merge(prev, p) == Keep(next) && !Changed(prev, next, 0)
  {
    MergeAdds("toString", Num(1.0));
    HiddenFromCompare(Num(1.0));
    hide Merge, Changed;
  }

  lemma MergeAdds(k: string, x: Value)
    requires !x.Null? && !x.Obj?
    ensures Merge(Obj([], true), Obj([Field(k, x)], true)) == Keep(Obj([Field(k, x)], false))
  {
    var inner := [Field(k, x)];
    assert inner[..0] == [] && FindKey([], k) < 0 && MergeFields([], []) == [];
    assert MergeFields([], inner) == inner;
  }

  lemma HiddenFromCompare(x: Value)
    ensures !Changed(Obj([], true), Obj([Field("toString", x)], false), 0)
  {
    assert Keys(Obj([Field("toString", x)], false)) == ["toString"];
  }
}
