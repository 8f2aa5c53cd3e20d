/** The signal store: writing a signal, or a path inside it, and waking its subscribers
    (`setSiAndNotifySubs`). */
module Signals {
  import opened JsValues
  import opened Compare

  datatype Path = Whole | At(keys: seq<string>)

  /** How a subscriber wants to be woken: on any change, on any change with the shape difference,
      or on a difference in shape only. */
  datatype Mode = AnyChange | WithShape | ShapeOnly

  datatype Sub = Sub(id: nat, path: Path, mode: Mode)

  /** One handler invocation: what the handler was told, and what it finds at its path. */
  datatype Call = Call(sub: Sub, detail: Shape, seen: Value)

  // ---------- Writing inside a value ----------

  function SetField(fields: seq<Field>, k: string, x: Value): seq<Field> {
    var i := FindKey(fields, k);
    if i >= 0 then fields[i := Field(k, x)] else fields + [Field(k, x)]
  }

  /** The write gives the array a length it has room for, which cuts it there. */
  predicate Cuts(items: seq<Value>, k: string, x: Value) {
    k == "length" && x.Num? && 0.0 <= x.n <= |items| as real && x.n.Floor as real == x.n
  }

  function SetProp(v: Value, k: string, x: Value): Value {
    match v
    case Obj(fields, proto) => Obj(SetField(fields, k, x), proto)
    case Arr(items) =>
      var i := ArrayIndex(k);
      if i < 0 then (if Cuts(items, k, x) then Arr(items[..x.n.Floor]) else v)
      else if i < |items| then Arr(items[i := x])
      else Arr(items + seq(i - |items|, _ => Undef) + [x])
    case _ => v
  }

  function Container(v: Value): Value {
    if IsObject(v) then v else Obj([], true)
  }

  /** The value with all objects on the way to the last key of the path in place. */
  function Vivify(v: Value, path: seq<string>): Value
    requires path != []
    decreases |path|
  {
    var o := Container(v);
    if |path| == 1 then o else SetProp(o, path[0], Vivify(Prop(o, path[0]), path[1..]))
  }

  function PutPath(v: Value, path: seq<string>, x: Value): Value
    requires path != []
    decreases |path|
  {
    var o := Container(v);
    if |path| == 1 then SetProp(o, path[0], x)
    else SetProp(o, path[0], PutPath(Prop(o, path[0]), path[1..], x))
  }

  // ---------- Who is woken ----------

  datatype Verdict = Asleep | Wake(detail: Shape)

  function ByShape(mode: Mode, d: Shape): Verdict {
    match mode
    case AnyChange => Wake(NoDiff)
    case WithShape => Wake(d)
    case ShapeOnly => if d.NoDiff? then Asleep else Wake(d)
  }

  predicate Diverge(p: seq<string>, q: seq<string>) {
    !(p <= q) && !(q <= p)
  }

  /** The verdict on one subscriber when `val` is written at `path` of a signal that held `si`; the
      value at the path was `cur`. */
  function Decide(h: Sub, path: Path, si: Value, cur: Value, val: Value): Verdict {
    match h.path
    case Whole => if path.At? then Wake(NoDiff) else ByShape(h.mode, DiffShape(cur, val))
    case At(hp) =>
      if path.At? && Diverge(path.keys, hp) then Asleep
      else if path.At? && |hp| < |path.keys| then Wake(NoDiff)
      else if path.At? && |hp| == |path.keys| then ByShape(h.mode, DiffShape(cur, val))
      else if !Changed(Get(si, hp), Get(val, hp), 0) then Asleep
      else ByShape(h.mode, DiffShape(Get(si, hp), Get(val, hp)))
  }

  datatype Woken = Woken(sub: Sub, detail: Shape)

  /** The woken subscribers, in subscription order, each with what it will be told. */
  function WakeAll(hs: seq<Sub>, path: Path, si: Value, cur: Value, val: Value): seq<Woken> {
    if hs == [] then []
    else
      var front := WakeAll(hs[..|hs| - 1], path, si, cur, val);
      match Decide(hs[|hs| - 1], path, si, cur, val)
      case Asleep => front
      case Wake(d) => front + [Woken(hs[|hs| - 1], d)]
  }

  function Read(dm: map<string, Value>, root: string, path: Path): Value {
    var v := if root in dm then dm[root] else Undef;
    match path
    case Whole => v
    case At(keys) => Get(v, keys)
  }

  function CallAll(ws: seq<Woken>, dm: map<string, Value>, root: string): seq<Call> {
    seq(|ws|, i requires 0 <= i < |ws| => Call(ws[i].sub, ws[i].detail, Read(dm, root, ws[i].sub.path)))
  }

  // ---------- A write as a function ----------

  /** What the write finds: the signal value (made into an object on a path write) and the value
      at the path. */
  function Before(dm: map<string, Value>, root: string, path: Path): (Value, Value)
    requires path != At([])
  {
    var v := Read(dm, root, Whole);
    match path
    case Whole => (v, v)
    case At(keys) => var si := Vivify(v, keys); (si, Get(si, keys))
  }

  function After(si: Value, path: Path, val: Value): Value
    requires path != At([])
  {
    match path
    case Whole => val
    case At(keys) => PutPath(si, keys, val)
  }

  /** The store and the handler calls after a write. */
  function Write(dm: map<string, Value>, subs: map<string, seq<Sub>>, root: string, path: Path, val: Value)
    : (map<string, Value>, seq<Call>)
  {
    if root == "" || path == At([]) then (dm, [])
    else
      var (si, cur) := Before(dm, root, path);
      if !Changed(cur, val, 0) then (if path.At? then dm[root := si] else dm, [])
      else
        var dm' := dm[root := After(si, path, val)];
        (dm', if root in subs then CallAll(WakeAll(subs[root], path, si, cur, val), dm', root) else [])
  }

  // ---------- The store ----------

  class Store {
    var dm: map<string, Value>
    var subs: map<string, seq<Sub>>
    var calls: seq<Call>

    constructor ()
      ensures dm == map[] && subs == map[] && calls == []
    {
      dm, subs, calls := map[], map[], [];
    }

    /** Stores the value, then calls the handlers of the woken subscribers. */
    method SetAndNotify(root: string, path: Path, val: Value)
      modifies this`dm, this`calls
      ensures dm == Write(old(dm), subs, root, path, val).0
      ensures calls == old(calls) + Write(old(dm), subs, root, path, val).1
    {
      hide Changed, Get, Vivify, PutPath, WakeAll, Told;
      if root == "" || path == At([]) {
        return;
      }
      var siVal := Read(dm, root, Whole);
      var curVal := siVal;
      if path.At? {
        siVal := Vivify(siVal, path.keys);
        dm := dm[root := siVal];
        curVal := Get(siVal, path.keys);
      }
      var changed := ValChangedDeep(curVal, val, 0);
      if !changed {
        return;
      }
      if root !in subs {
        dm := dm[root := After(siVal, path, val)];
        return;
      }
      var collected := Collect(subs[root], path, siVal, curVal, val);
      dm := dm[root := After(siVal, path, val)];
      Notify(collected, root);
    }

    method Notify(collected: seq<Entry>, root: string)
      modifies this`calls
      ensures calls == old(calls) + CallAll(Told(collected), dm, root)
    {
      var i := 0;
      while i < |collected|
        invariant 0 <= i <= |collected|
        invariant calls == old(calls) + CallAll(Told(collected), dm, root)[..i]
      {
        var h := collected[i].sub;
        calls := calls + [Call(h, if h.mode.AnyChange? then NoDiff else collected[i].diff, Read(dm, root, h.path))];
        i := i + 1;
      }
    }
  }

  /** An entry of the list of subscribers to call; `pathVal` remembers the value read for a path. */
  datatype Entry = Entry(sub: Sub, diff: Shape, pathVal: Value)

  function Told(es: seq<Entry>): seq<Woken> {
    seq(|es|, i requires 0 <= i < |es| => Woken(es[i].sub, if es[i].sub.mode.AnyChange? then NoDiff else es[i].diff))
  }

  /** The remembered values and differences are right. */
  ghost predicate CachesOk(es: seq<Entry>, pathDiffs: seq<(seq<string>, Shape)>, si: Value, val: Value) {
    && (forall i :: 0 <= i < |es| && !es[i].pathVal.Undef? ==>
          es[i].sub.path.At? && es[i].pathVal == Get(val, es[i].sub.path.keys)
          && Changed(Get(si, es[i].sub.path.keys), es[i].pathVal, 0))
    && forall i :: 0 <= i < |pathDiffs| ==> pathDiffs[i].1 == DiffShape(Get(si, pathDiffs[i].0), Get(val, pathDiffs[i].0))
  }

  /** Collects the subscribers to wake; the shape difference of the written value and of each path
      is computed at most once. */
  method Collect(hs: seq<Sub>, path: Path, si: Value, cur: Value, val: Value) returns (es: seq<Entry>)
    ensures Told(es) == WakeAll(hs, path, si, cur, val)
  {
    var diffed, diff := false, NoDiff;
    var pathDiffs: seq<(seq<string>, Shape)> := [];
    es := [];
    var i := 0;
    while i < |hs|
      invariant 0 <= i <= |hs| && diff == (if diffed then DiffShape(cur, val) else NoDiff)
      invariant CachesOk(es, pathDiffs, si, val)
      invariant Told(es) == WakeAll(hs[..i], path, si, cur, val)
    {
      hide CachesOk, Decide, DiffShape;
      assert hs[..i + 1][..i] == hs[..i];
      es, pathDiffs, diffed, diff := CollectOne(hs[i], path, si, cur, val, es, pathDiffs, diffed, diff);
      i := i + 1;
    }
    assert hs[..i] == hs;
  }

  method CollectOne(h: Sub, path: Path, si: Value, cur: Value, val: Value, es0: seq<Entry>,
                    pathDiffs0: seq<(seq<string>, Shape)>, diffed0: bool, diff0: Shape)
    returns (es: seq<Entry>, pathDiffs: seq<(seq<string>, Shape)>, diffed: bool, diff: Shape)
    requires CachesOk(es0, pathDiffs0, si, val) && diff0 == (if diffed0 then DiffShape(cur, val) else NoDiff)
    ensures CachesOk(es, pathDiffs, si, val) && diff == (if diffed then DiffShape(cur, val) else NoDiff)
    ensures var v := Decide(h, path, si, cur, val);
            Told(es) == Told(es0) + (if v.Wake? then [Woken(h, v.detail)] else [])
  {
    hide CachesOk, Get, Changed, DiffShape, Told;
    es, pathDiffs, diffed, diff := es0, pathDiffs0, diffed0, diff0;
    if h.path.At? && path.At? && Diverge(path.keys, h.path.keys) {
      return;
    }
    if h.path.Whole? || (path.At? && |h.path.keys| <= |path.keys|) {
      var above := path.At? && (h.path.Whole? || |h.path.keys| < |path.keys|);
      if !above && !diffed && !h.mode.AnyChange? {
        diffed, diff := true, DiffShape(cur, val);
      }
      if above || !h.mode.ShapeOnly? || !diff.NoDiff? {
        AddEntry(es, pathDiffs, si, val, Entry(h, if above then NoDiff else diff, Undef));
        es := es + [Entry(h, if above then NoDiff else diff, Undef)];
      }
    } else {
      es, pathDiffs := CollectDeep(h, si, val, es, pathDiffs);
    }
  }

  lemma AddEntry(es: seq<Entry>, pathDiffs: seq<(seq<string>, Shape)>, si: Value, val: Value, e: Entry)
    requires CachesOk(es, pathDiffs, si, val)
    requires !e.pathVal.Undef? ==>
               e.sub.path.At? && e.pathVal == Get(val, e.sub.path.keys) && Changed(Get(si, e.sub.path.keys), e.pathVal, 0)
    ensures CachesOk(es + [e], pathDiffs, si, val)
    ensures Told(es + [e]) == Told(es) + [Woken(e.sub, if e.sub.mode.AnyChange? then NoDiff else e.diff)]
  {
  }

  method CollectDeep(h: Sub, si: Value, val: Value, es0: seq<Entry>, pathDiffs0: seq<(seq<string>, Shape)>)
    returns (es: seq<Entry>, pathDiffs: seq<(seq<string>, Shape)>)
    requires h.path.At? && CachesOk(es0, pathDiffs0, si, val)
    ensures CachesOk(es, pathDiffs, si, val)
    ensures var pc, pv := Get(si, h.path.keys), Get(val, h.path.keys);
            var v := if Changed(pc, pv, 0) then ByShape(h.mode, DiffShape(pc, pv)) else Asleep;
            Told(es) == Told(es0) + (if v.Wake? then [Woken(h, v.detail)] else [])
  {
    hide Get, Changed, DiffShape, CachesOk, Told, Remembered;
    es, pathDiffs := es0, pathDiffs0;
    var hp := h.path.keys;
    RememberedIsChanged(es, pathDiffs, si, val, hp);
    var pathCur := Get(si, hp);
    var pathVal := Remembered(es, hp);
    if pathVal.Undef? {
      pathVal := Get(val, hp);
      var changed := ValChangedDeep(pathCur, pathVal, 0);
      if !changed {
        return;
      }
    }
    var pathDiff := NoDiff;
    if !h.mode.AnyChange? {
      var k := DiffIndex(pathDiffs, hp);
      DiffsRight(es, pathDiffs, si, val, hp);
      if k >= 0 {
        pathDiff := pathDiffs[k].1;
      } else {
        pathDiff := DiffShape(pathCur, pathVal);
        pathDiffs := pathDiffs + [(hp, pathDiff)];
      }
    }
    if !h.mode.ShapeOnly? || !pathDiff.NoDiff? {
      AddEntry(es, pathDiffs, si, val, Entry(h, pathDiff, pathVal));
      es := es + [Entry(h, pathDiff, pathVal)];
    }
  }

  /** A remembered value is the new one, and had changed. */
  lemma RememberedIsChanged(es: seq<Entry>, pathDiffs: seq<(seq<string>, Shape)>, si: Value, val: Value, hp: seq<string>)
    requires CachesOk(es, pathDiffs, si, val)
    ensures var v := Remembered(es, hp); !v.Undef? ==> v == Get(val, hp) && Changed(Get(si, hp), v, 0)
  {
  }

  lemma DiffsRight(es: seq<Entry>, pathDiffs: seq<(seq<string>, Shape)>, si: Value, val: Value, hp: seq<string>)
    requires CachesOk(es, pathDiffs, si, val)
    ensures var k := DiffIndex(pathDiffs, hp); k >= 0 ==> pathDiffs[k].1 == DiffShape(Get(si, hp), Get(val, hp))
    ensures CachesOk(es, pathDiffs + [(hp, DiffShape(Get(si, hp), Get(val, hp)))], si, val)
  {
  }

  /** The value remembered by the first entry with this path, if any. */
  function Remembered(es: seq<Entry>, hp: seq<string>): (v: Value)
    ensures !v.Undef? ==> exists i :: 0 <= i < |es| && es[i].sub.path == At(hp) && es[i].pathVal == v
  {
    if es == [] then Undef
    else if es[0].sub.path == At(hp) then es[0].pathVal
    else
      var v := Remembered(es[1..], hp);
      assert forall i :: 0 <= i < |es[1..]| ==> es[1..][i] == es[i + 1];
      v
  }

  function DiffIndex(ds: seq<(seq<string>, Shape)>, hp: seq<string>): (k: int)
    ensures -1 <= k < |ds| && (k >= 0 ==> ds[k].0 == hp)
  {
    if ds == [] then -1
    else if ds[|ds| - 1].0 == hp then |ds| - 1
    else DiffIndex(ds[..|ds| - 1], hp)
  }

  // ---------- What a write does to reads ----------

  /** An array takes the key: an index, or its length if that only cuts it. */
  predicate Takes(v: Value, k: string, x: Value) {
    v.Arr? ==> ArrayIndex(k) >= 0 || Cuts(v.items, k, x)
  }

  /** Every array on the path takes its key. */
  ghost predicate Settable(v: Value, path: seq<string>, x: Value)
    decreases |path|
  {
    path != []
    && if |path| == 1 then Takes(v, path[0], x)
       else (v.Arr? ==> ArrayIndex(path[0]) >= 0) && Settable(Prop(Container(v), path[0]), path[1..], x)
  }

  lemma PropAfterSet(v: Value, k: string, x: Value)
    requires IsObject(v) && Takes(v, k, x)
    ensures IsObject(SetProp(v, k, x)) && Prop(SetProp(v, k, x), k) == x
  {
    if v.Obj? {
      FindAfterSet(v.fields, k, x, k);
    } else if Cuts(v.items, k, x) {
      LengthNoIndex();
    }
  }

  lemma LengthNoIndex()
    ensures ArrayIndex("length") == -1
  {
  }

  lemma FindAfterSet(fields: seq<Field>, k: string, x: Value, o: string)
    ensures var i, after := FindKey(fields, k), SetField(fields, k, x);
            if o == k then FindKey(after, o) == (if i >= 0 then i else |fields|) && after[FindKey(after, o)] == Field(k, x)
            else FindKey(after, o) == FindKey(fields, o)
                 && (FindKey(fields, o) >= 0 ==> after[FindKey(after, o)] == fields[FindKey(fields, o)])
  {
    var i, after := FindKey(fields, k), SetField(fields, k, x);
    if i < 0 {
      assert after[..|after| - 1] == fields;
    } else {
      SameKeysSameIndex(after, fields, o);
      assert o != k && FindKey(fields, o) >= 0 ==> FindKey(fields, o) != i;
    }
  }

  lemma {:induction false} SameKeysSameIndex(a: seq<Field>, b: seq<Field>, o: string)
    requires |a| == |b| && forall j :: 0 <= j < |a| ==> a[j].key == b[j].key
    ensures FindKey(a, o) == FindKey(b, o)
  {
    if a != [] {
      SameKeysSameIndex(a[..|a| - 1], b[..|b| - 1], o);
    }
  }

  /** Reading back the written path gives the written value. */
  lemma {:induction false} ReadBack(v: Value, path: seq<string>, x: Value)
    requires Settable(v, path, x)
    ensures Get(PutPath(v, path, x), path) == x
    decreases |path|
  {
    var o := Container(v);
    if |path| == 1 {
      PropAfterSet(o, path[0], x);
      assert path[1..] == [];
    } else {
      var below := PutPath(Prop(o, path[0]), path[1..], x);
      PropAfterSet(o, path[0], below);
      ReadBack(Prop(o, path[0]), path[1..], x);
    }
  }

  /** Putting the objects of the path in place first makes no difference to the write. */
  lemma {:induction false} PutAfterVivify(v: Value, path: seq<string>, x: Value)
    requires Settable(v, path, x)
    ensures Settable(Vivify(v, path), path, x) && PutPath(Vivify(v, path), path, x) == PutPath(v, path, x)
    decreases |path|
  {
    var o := Container(v);
    if |path| > 1 {
      var below := Vivify(Prop(o, path[0]), path[1..]);
      PropAfterSet(o, path[0], below);
      PutAfterVivify(Prop(o, path[0]), path[1..], x);
      SetTwice(o, path[0], below, PutPath(Prop(o, path[0]), path[1..], x));
    }
  }

  lemma SetTwice(v: Value, k: string, x: Value, y: Value)
    requires IsObject(v) && (v.Arr? ==> ArrayIndex(k) >= 0)
    ensures SetProp(SetProp(v, k, x), k, y) == SetProp(v, k, y)
  {
    if v.Obj? {
      FindAfterSet(v.fields, k, x, k);
      assert SetField(SetField(v.fields, k, x), k, y) == SetField(v.fields, k, y);
    }
  }

  // ---------- Paths that diverge from the written one ----------

  /** A key that no object inherits. */
  predicate Plain(k: string) {
    k !in INHERITED
  }

  ghost predicate AllPlain(path: seq<string>) {
    forall i :: 0 <= i < |path| ==> Plain(path[i])
  }

  /** No null stands where the path goes on. */
  ghost predicate NoNullOn(v: Value, path: seq<string>)
    decreases |path|
  {
    path != [] ==> !v.Null? && NoNullOn(Prop(Container(v), path[0]), path[1..])
  }

  /** A string shows characters or a length beside the key `k`. */
  predicate ShowsBeside(v: Value, k: string) {
    v.Str? && (v.s != "" || k != "length")
  }

  /** No string stands where the path goes on, but for an empty one whose length is written. */
  ghost predicate NoStringOn(v: Value, path: seq<string>)
    decreases |path|
  {
    path != [] ==> !ShowsBeside(v, path[0]) && NoStringOn(Prop(Container(v), path[0]), path[1..])
  }

  predicate GrowsAt(v: Value, k: string) {
    v.Arr? && ArrayIndex(k) >= |v.items|
  }

  /** No array on the path gets longer. */
  ghost predicate NoGrowthOn(v: Value, path: seq<string>)
    decreases |path|
  {
    path != [] ==> !GrowsAt(v, path[0]) && NoGrowthOn(Prop(Container(v), path[0]), path[1..])
  }

  /** Cutting the array loses an element that is not undefined. */
  ghost predicate LosesAt(v: Value, k: string, x: Value) {
    v.Arr? && Cuts(v.items, k, x) && exists i :: x.n.Floor <= i < |v.items| && !v.items[i].Undef?
  }

  /** No array is cut short of an element. */
  ghost predicate NoLossOn(v: Value, path: seq<string>, x: Value)
    decreases |path|
  {
    path != [] ==> !(|path| == 1 && LosesAt(v, path[0], x)) && NoLossOn(Prop(Container(v), path[0]), path[1..], x)
  }

  ghost predicate DivergingReadsStay(v: Value, path: seq<string>, x: Value)
    requires path != []
  {
    forall hp :: AllPlain(hp) && Diverge(path, hp) ==> Get(PutPath(v, path, x), hp) == Get(v, hp)
  }

  lemma OtherPropAfterSet(v: Value, k: string, x: Value, o: string)
    requires IsObject(v) && Takes(v, k, x) && k != o && Plain(o) && !LosesAt(v, k, x)
    requires o == "length" ==> !GrowsAt(v, k)
    ensures Prop(SetProp(v, k, x), o) == Prop(v, o)
  {
    hide ArrayIndex, FindKey, SetField;
    if v.Obj? {
      FindAfterSet(v.fields, k, x, o);
    } else {
      LengthNoIndex();
      if ArrayIndex(o) == ArrayIndex(k) >= 0 {
        ArrayIndexInjective(k, o);
      }
    }
  }

  lemma ContainerProp(v: Value, k: string)
    requires Plain(k)
    ensures Prop(Container(v), k) == if IsObject(v) then Prop(v, k) else Undef
  {
  }

  /** What the write puts under the first key. */
  function Below(v: Value, path: seq<string>, x: Value): Value
    requires path != []
  {
    if |path| == 1 then x else PutPath(Prop(Container(v), path[0]), path[1..], x)
  }

  /** What is put below the first key can be put there. */
  lemma TakesBelow(v: Value, path: seq<string>, x: Value)
    requires Settable(v, path, x)
    ensures Takes(Container(v), path[0], Below(v, path, x))
    ensures LosesAt(Container(v), path[0], Below(v, path, x)) ==> |path| == 1 && LosesAt(v, path[0], x)
  {
    hide Prop, PutPath, ArrayIndex;
    LengthNoIndex();
  }

  lemma GetAfterPut(v: Value, path: seq<string>, x: Value, hp: seq<string>)
    requires Settable(v, path, x) && hp != [] && (hp[0] != path[0] ==> Plain(hp[0]))
    requires hp[0] == "length" && hp[0] != path[0] ==> !GrowsAt(v, path[0])
    requires |path| == 1 && hp[0] != path[0] ==> !LosesAt(v, path[0], x)
    ensures Get(PutPath(v, path, x), hp)
            == Get(if hp[0] == path[0] then Below(v, path, x) else Prop(Container(v), hp[0]), hp[1..])
  {
    var o, b := Container(v), Below(v, path, x);
    TakesBelow(v, path, x);
    PropAfterSet(o, path[0], b);
    if hp[0] != path[0] {
      OtherPropAfterSet(o, path[0], b, hp[0]);
    }
    hide Prop, SetProp;
    assert PutPath(v, path, x) == SetProp(o, path[0], b);
  }

  lemma {:induction false} DivergingRead(v: Value, path: seq<string>, x: Value, hp: seq<string>)
    requires Settable(v, path, x) && NoStringOn(v, path) && NoNullOn(v, path) && NoGrowthOn(v, path) && NoLossOn(v, path, x)
    requires AllPlain(hp) && Diverge(path, hp)
    ensures Get(PutPath(v, path, x), hp) == Get(v, hp)
    decreases |path|
  {
    hide Prop, SetProp, PutPath, Get;
    var o, k := Container(v), hp[0];
    ContainerProp(v, k);
    GetAfterPut(v, path, x, hp);
    if path[0] == k {
      assert path == [k] + path[1..] && hp == [k] + hp[1..];
      DivergingRead(Prop(o, k), path[1..], x, hp[1..]);
      GetOfUndef(hp[1..]);
      if v.Str? {
        GetOfEmptyLength(v, hp);
      } else {
        GetOfPlain(v, hp);
      }
    } else {
      GetOfUndef(hp[1..]);
      GetOfPlain(v, hp);
    }
  }

  lemma GetOfUndef(hp: seq<string>)
    ensures Get(Undef, hp) == Undef
  {
  }

  /** What is no object and no null answers every plain path with undefined, unless it is a string that
      shows something there. */
  lemma GetOfPlain(v: Value, hp: seq<string>)
    requires AllPlain(hp) && hp != [] && !v.Null? && (v.Str? ==> v.s == "" && hp[0] != "length")
    ensures Get(v, hp) == if IsObject(v) then Get(Prop(v, hp[0]), hp[1..]) else Undef
  {
  }

  /** Below the length of an empty string there is nothing. */
  lemma GetOfEmptyLength(v: Value, hp: seq<string>)
    requires v == Str("") && AllPlain(hp) && |hp| > 1 && hp[0] == "length"
    ensures Get(v, hp) == Undef
  {
    assert Prop(v, "length") == Num(0.0);
    var rest := hp[1..];
    assert Get(v, hp) == Get(Num(0.0), rest) && rest[0] == hp[1];
    assert Get(Num(0.0), rest) == Get(Prop(Num(0.0), rest[0]), rest[1..]);
    GetOfUndef(rest[1..]);
  }

  lemma {:induction false} NothingOnUndef(path: seq<string>, x: Value)
    requires AllPlain(path)
    ensures NoNullOn(Undef, path) && NoStringOn(Undef, path) && NoGrowthOn(Undef, path) && NoLossOn(Undef, path, x)
    decreases |path|
  {
    if path != [] {
      ContainerProp(Undef, path[0]);
      NothingOnUndef(path[1..], x);
    }
  }

  /** A null is replaced, and reads that ended there now end in undefined. */
  lemma NullBreaks(v: Value, path: seq<string>, x: Value) returns (hp: seq<string>)
    requires v.Null? && Settable(v, path, x)
    ensures AllPlain(hp) && Diverge(path, hp) && Get(v, hp) == Null && Get(PutPath(v, path, x), hp) == Undef
  {
    var k := if path[0] == "a" then "b" else "a";
    hp := [k];
    GetAfterPut(v, path, x, hp);
  }

  /** A string is replaced, and its length or its first character with it. */
  lemma StringBreaks(v: Value, path: seq<string>, x: Value) returns (hp: seq<string>)
    requires Settable(v, path, x) && ShowsBeside(v, path[0])
    ensures AllPlain(hp) && Diverge(path, hp) && Get(v, hp) != Undef && Get(PutPath(v, path, x), hp) == Undef
  {
    hide SetProp, PutPath, Get, Prop, ArrayIndex;
    var k := if path[0] != "length" then "length" else "0";
    hp := [k];
    GetAfterPut(v, path, x, hp);
    ContainerProp(v, k);
    StringShows(v, k);
    GetOfUndef([]);
    assert hp[1..] == [];
  }

  lemma StringShows(v: Value, k: string)
    requires v.Str? && (k == "length" || (v.s != "" && k == "0"))
    ensures Prop(v, k) != Undef && Get(v, [k]) == Prop(v, k)
  {
    assert [k][1..] == [] && Get(v, [k]) == Get(Prop(v, k), []);
    assert ArrayIndex("0") == 0;
  }

  /** An array gets longer, and its length shows it. */
  lemma GrowthBreaks(v: Value, path: seq<string>, x: Value) returns (hp: seq<string>)
    requires Settable(v, path, x) && GrowsAt(v, path[0])
    ensures AllPlain(hp) && Diverge(path, hp) && Get(v, hp) == Num(|v.items| as real)
    ensures Get(PutPath(v, path, x), hp) == Num((ArrayIndex(path[0]) + 1) as real)
  {
    hp := ["length"];
    var after := PutPath(v, path, x);
    assert after == SetProp(v, path[0], Below(v, path, x)) && |after.items| == ArrayIndex(path[0]) + 1;
    assert ArrayIndex("length") == -1;
    assert hp[1..] == [] && Get(v, hp) == Get(Prop(v, "length"), []) && Get(after, hp) == Get(Prop(after, "length"), []);
  }

  lemma NoInheritedIndex(k: string)
    requires ArrayIndex(k) >= 0
    ensures Plain(k)
  {
  }

  /** An array is cut, and the element it loses reads as undefined. */
  lemma LossBreaks(v: Value, path: seq<string>, x: Value) returns (hp: seq<string>)
    requires |path| == 1 && LosesAt(v, path[0], x)
    ensures AllPlain(hp) && Diverge(path, hp) && Get(v, hp) != Undef && Get(PutPath(v, path, x), hp) == Undef
  {
    var i :| x.n.Floor <= i < |v.items| && !v.items[i].Undef?;
    var k := IndexKey(i);
    hp := [k];
    IndexKeyRoundTrip(i);
    NoInheritedIndex(k);
    LengthNoIndex();
    var after := PutPath(v, path, x);
    assert after == Arr(v.items[..x.n.Floor]) && k != "length";
    assert hp[1..] == [] && Get(v, hp) == Get(Prop(v, k), []) && Get(after, hp) == Get(Prop(after, k), []);
  }

  /** The first disturbance on the path shows in some diverging read. */
  lemma {:induction false} DisturbanceShows(v: Value, path: seq<string>, x: Value) returns (hp: seq<string>)
    requires Settable(v, path, x) && AllPlain(path)
    requires !NoNullOn(v, path) || !NoStringOn(v, path) || !NoGrowthOn(v, path) || !NoLossOn(v, path, x)
    ensures AllPlain(hp) && Diverge(path, hp) && Get(PutPath(v, path, x), hp) != Get(v, hp)
    decreases |path|
  {
    hide SetProp, PutPath, Get, Prop, ArrayIndex;
    if v.Null? {
      hp := NullBreaks(v, path, x);
    } else if ShowsBeside(v, path[0]) {
      hp := StringBreaks(v, path, x);
    } else if GrowsAt(v, path[0]) {
      hp := GrowthBreaks(v, path, x);
      SameNum(|v.items|, ArrayIndex(path[0]) + 1);
    } else if |path| == 1 && LosesAt(v, path[0], x) {
      hp := LossBreaks(v, path, x);
    } else {
      ContainerProp(v, path[0]);
      NothingOnUndef(path[1..], x);
      Onward(v, path, x);
      var rest := DisturbanceShows(Prop(Container(v), path[0]), path[1..], x);
      hp := [path[0]] + rest;
      assert hp[1..] == rest && path == [path[0]] + path[1..];
      GetAfterPut(v, path, x, hp);
      if !v.Str? {
        GetOfPlain(v, hp);
      }
    }
  }

  lemma Onward(v: Value, path: seq<string>, x: Value)
    requires path != [] && !v.Null? && !ShowsBeside(v, path[0]) && !GrowsAt(v, path[0])
    requires !(|path| == 1 && LosesAt(v, path[0], x))
    ensures var below := Prop(Container(v), path[0]);
            && (NoNullOn(v, path) <==> NoNullOn(below, path[1..]))
            && (NoStringOn(v, path) <==> NoStringOn(below, path[1..]))
            && (NoGrowthOn(v, path) <==> NoGrowthOn(below, path[1..]))
            && (NoLossOn(v, path, x) <==> NoLossOn(below, path[1..], x))
  {
    hide Prop, ShowsBeside, GrowsAt, LosesAt;
  }

  lemma SameNum(a: nat, b: nat)
    ensures Num(a as real) == Num(b as real) <==> a == b
  {
  }

  /** A write at a plain path leaves all diverging plain reads as they were exactly when, on the way, it
      meets no null and no string, makes no array longer, and cuts none short of an element. */
  lemma DivergingReadsIff(v: Value, path: seq<string>, x: Value)
    requires Settable(v, path, x) && AllPlain(path)
    ensures DivergingReadsStay(v, path, x) <==> NoNullOn(v, path) && NoStringOn(v, path) && NoGrowthOn(v, path)
                                                 && NoLossOn(v, path, x)
  {
    if NoNullOn(v, path) && NoStringOn(v, path) && NoGrowthOn(v, path) && NoLossOn(v, path, x) {
      forall hp | AllPlain(hp) && Diverge(path, hp)
        ensures Get(PutPath(v, path, x), hp) == Get(v, hp)
      {
        DivergingRead(v, path, x, hp);
      }
    } else {
      var hp := DisturbanceShows(v, path, x);
    }
  }

  // ---------- Writes that change nothing ----------

  /** Nothing stands on the path that shows something below it without being an object or array, and
      nothing has to be put behind the end of an array on the way. */
  ghost predicate Open(v: Value, path: seq<string>)
    decreases |path|
  {
    path != [] ==>
      && !v.Null? && !v.Str?
      && (|path| > 1 ==> !GrowsAt(v, path[0]) && Open(Prop(Container(v), path[0]), path[1..]))
  }

  lemma SetSame(v: Value, k: string)
    requires IsObject(v) && IsObject(Prop(v, k))
    ensures SetProp(v, k, Prop(v, k)) == v
  {
    if v.Obj? {
      var i := FindKey(v.fields, k);
      assert v.fields[i := Field(k, v.fields[i].val)] == v.fields;
    } else {
      var i := ArrayIndex(k);
      assert v.items[i := v.items[i]] == v.items;
    }
  }

  /** Where objects stand all along the path, there is nothing to put in place. */
  lemma {:induction false} PavedStays(v: Value, path: seq<string>)
    requires Paved(v, path)
    ensures Vivify(v, path) == v
    decreases |path|
  {
    if |path| > 1 {
      PavedStays(Prop(v, path[0]), path[1..]);
      PavedHead(v, path);
      SetSame(v, path[0]);
    }
  }

  lemma PavedHead(v: Value, path: seq<string>)
    requires Paved(v, path) && |path| > 1
    ensures IsObject(Prop(v, path[0]))
  {
  }

  /** Putting objects in place on an open path changes no read but those of the places themselves. */
  lemma {:induction false} VivifyKeepsReads(v: Value, path: seq<string>, x: Value, hp: seq<string>)
    requires Settable(v, path, x) && Open(v, path) && AllPlain(hp) && !(hp < path)
    ensures Get(Vivify(v, path), hp) == Get(v, hp)
    decreases |path|
  {
    hide Prop, SetProp, Get;
    var o := Container(v);
    assert hp != [];
    ContainerProp(v, hp[0]);
    ObjectOrNot(v, hp);
    if |path| > 1 {
      var k, b := path[0], Vivify(Prop(o, path[0]), path[1..]);
      IndexTakes(o, k, b);
      PropAfterSet(o, k, b);
      if hp[0] == k {
        assert path == [k] + path[1..] && hp == [k] + hp[1..];
        VivifyKeepsReads(Prop(o, k), path[1..], x, hp[1..]);
      } else {
        OtherPropAfterSet(o, k, b, hp[0]);
      }
      ObjectOrNot(SetProp(o, k, b), hp);
    } else {
      ObjectOrNot(o, hp);
    }
  }

  lemma IndexTakes(o: Value, k: string, b: Value)
    ensures (o.Arr? ==> ArrayIndex(k) >= 0) ==> Takes(o, k, b) && !LosesAt(o, k, b)
  {
    LengthNoIndex();
  }

  lemma ObjectOrNot(v: Value, hp: seq<string>)
    requires hp != [] && AllPlain(hp) && !v.Null? && !v.Str?
    ensures Get(v, hp) == if IsObject(v) then Get(Prop(v, hp[0]), hp[1..]) else Undef
    ensures Get(Undef, hp[1..]) == Undef
  {
    GetOfPlain(v, hp);
    GetOfUndef(hp[1..]);
  }

  /** A write that changes nothing, or has no target, calls nobody and leaves every other signal and, but
      for the places it puts in order, the signal itself as they were. */
  lemma UnchangedIsSilent(dm: map<string, Value>, subs: map<string, seq<Sub>>, root: string, path: Path, val: Value)
    requires root == "" || path == At([])
             || var cur := Before(dm, root, path).1; Within(cur, 0) && Matches(cur, val)
    ensures var (dm', calls) := Write(dm, subs, root, path, val);
            && calls == []
            && (forall other :: other != root ==> (other in dm' <==> other in dm) && (other in dm ==> dm'[other] == dm[other]))
            && (root == "" || path == At([]) || path.Whole? || Paved(Read(dm, root, Whole), path.keys) ==> dm' == dm)
  {
    if root != "" && path != At([]) {
      var (si, cur) := Before(dm, root, path);
      UnchangedIff(cur, val, 0);
      if path.At? && Paved(Read(dm, root, Whole), path.keys) {
        PavedStays(Read(dm, root, Whole), path.keys);
        assert dm[root := si] == dm;
      }
    }
    hide Changed, Within, Matches, WakeAll, Vivify, Paved;
  }

  lemma UnchangedKeepsReads(dm: map<string, Value>, subs: map<string, seq<Sub>>, root: string, path: seq<string>, val: Value,
                            hp: seq<string>)
    requires root != "" && Settable(Read(dm, root, Whole), path, val) && Open(Read(dm, root, Whole), path)
    requires var cur := Before(dm, root, At(path)).1; Within(cur, 0) && Matches(cur, val)
    requires AllPlain(hp) && !(hp < path)
    ensures var dm' := Write(dm, subs, root, At(path), val).0; Read(dm', root, At(hp)) == Read(dm, root, At(hp))
  {
    assert path != [];
    UnchangedIff(Before(dm, root, At(path)).1, val, 0);
    VivifyKeepsReads(Read(dm, root, Whole), path, val, hp);
    hide Changed, Within, Matches, WakeAll, Vivify, Get;
  }

  // ---------- A write at a path against a write of the whole signal ----------

  /** A change below a key is a change of the object or array. */
  lemma ChangeShowsAbove(o: Value, k: string, x: Value)
    requires IsObject(o) && Takes(o, k, x) && Plain(k) && Changed(Prop(o, k), x, 0)
    ensures Changed(o, SetProp(o, k, x), 0)
  {
    var o' := SetProp(o, k, x);
    UnchangedIff(o, o', 0);
    UnchangedIff(Prop(o, k), x, 0);
    if o.Obj? {
      FindAfterSet(o.fields, k, x, k);
      var i := FindKey(o.fields, k);
      if i < 0 {
        assert Keys(o')[|o.fields|] == k;
      } else if WithinFields(o.fields, 0) {
        WithinFieldAt(o.fields, 0, i);
      }
    } else {
      var i := ArrayIndex(k);
      if i < 0 {
        assert Keys(o)[x.n.Floor] == IndexKey(x.n.Floor);
        IndexKeyRoundTrip(x.n.Floor);
      } else if i < |o.items| && WithinItems(o.items, 0) {
        WithinItemAt(o.items, 0, i);
      }
    }
  }

  /** Objects and arrays stand all along the path. */
  ghost predicate Paved(v: Value, path: seq<string>)
    decreases |path|
  {
    path != [] && IsObject(v) && (|path| > 1 ==> Paved(Prop(v, path[0]), path[1..]))
  }

  lemma {:induction false} VivifyPaves(v: Value, path: seq<string>, x: Value)
    requires Settable(v, path, x)
    ensures Paved(Vivify(v, path), path) && Settable(Vivify(v, path), path, x)
    decreases |path|
  {
    var o := Container(v);
    if |path| > 1 {
      VivifyPaves(Prop(o, path[0]), path[1..], x);
      PropAfterSet(o, path[0], Vivify(Prop(o, path[0]), path[1..]));
    }
  }

  lemma {:induction false} ChangeShowsAtRoot(v: Value, path: seq<string>, x: Value)
    requires Paved(v, path) && Settable(v, path, x) && AllPlain(path) && Changed(Get(v, path), x, 0)
    ensures Changed(v, PutPath(v, path, x), 0)
    decreases |path|
  {
    assert Get(v, path) == Get(Prop(v, path[0]), path[1..]);
    if |path| > 1 {
      ChangeShowsAtRoot(Prop(v, path[0]), path[1..], x);
    }
    TakesBelow(v, path, x);
    ChangeShowsAbove(v, path[0], Below(v, path, x));
  }

  /** Reading a strict prefix of the written path shows the same write, relative to that place. */
  lemma {:induction false} PrefixRead(v: Value, path: seq<string>, x: Value, n: nat)
    requires Paved(v, path) && Settable(v, path, x) && AllPlain(path) && n < |path|
    ensures Paved(Get(v, path[..n]), path[n..]) && Settable(Get(v, path[..n]), path[n..], x)
    ensures Get(PutPath(v, path, x), path[..n]) == PutPath(Get(v, path[..n]), path[n..], x)
    decreases n
  {
    hide *;
    if n == 0 {
      AtRoot(v, path);
      AtRoot(PutPath(v, path, x), path);
    } else {
      PrefixSlices(path, n);
      BelowRoot(v, path, path[..n], x);
      PrefixRead(Prop(v, path[0]), path[1..], x, n - 1);
      GetAfterPut(v, path, x, path[..n]);
    }
  }

  lemma AtRoot(v: Value, path: seq<string>)
    ensures Get(v, path[..0]) == v && path[0..] == path
  {
    assert path[..0] == [] && path[0..] == path;
  }

  lemma PrefixSlices(path: seq<string>, n: nat)
    requires 0 < n < |path|
    ensures path[..n][0] == path[0] && path[..n][1..] == path[1..][..n - 1] && path[n..] == path[1..][n - 1..]
  {
  }

  lemma BelowRoot(v: Value, path: seq<string>, hp: seq<string>, x: Value)
    requires Paved(v, path) && Settable(v, path, x) && AllPlain(path) && |path| > 1 && hp != [] && hp[0] == path[0]
    ensures var k := path[0];
            && Plain(k) && AllPlain(path[1..]) && Paved(Prop(v, k), path[1..]) && Settable(Prop(v, k), path[1..], x)
            && Get(v, hp) == Get(Prop(v, k), hp[1..]) && Below(v, path, x) == PutPath(Prop(v, k), path[1..], x)
  {
    hide Prop, Plain, PutPath;
    assert forall i :: 0 <= i < |path[1..]| ==> path[1..][i] == path[i + 1];
  }

  /** A subscriber not below the written path, compared with a write of the resulting value to the whole
      signal: beside the path it is not woken, though the whole write wakes it when its value changed or
      is too large to compare; anywhere else both wake it, a shape-only one by each write's own shapes. */
  lemma PathWriteWakesLikeWholeWrite(h: Sub, v: Value, path: seq<string>, x: Value)
    requires Settable(v, path, x) && AllPlain(path) && NotBelow(h, path)
    requires var si := Vivify(v, path); Changed(Get(si, path), x, 0)
    ensures var si := Vivify(v, path);
            var after := PutPath(si, path, x);
            var byPath := Decide(h, At(path), si, Get(si, path), x).Wake?;
            var byWhole := Decide(h, Whole, si, si, after).Wake?;
            if h.path.At? && Diverge(path, h.path.keys)
            then !byPath && (byWhole <==> Affected(h, si, after))
            else && (byPath <==> AffectedByPath(h, path, Get(si, path), x))
                 && (byWhole <==> (h.mode.ShapeOnly? ==> !DiffShape(ValueAt(si, h.path), ValueAt(after, h.path)).NoDiff?))
  {
    assert path != [];
    hide Changed, Get, PutPath, Vivify, Paved, Settable, DiffShape, AllPlain, Plain, Diverge, Decide, AffectedByPath;
    var si := Vivify(v, path);
    VivifyPaves(v, path, x);
    ChangeShowsAtRoot(si, path, x);
    OneByPath(h, path, si, Get(si, path), x);
    BesideIsAsleep(h, path, si, Get(si, path), x);
    WokenByWhole(h, si, PutPath(si, path, x));
    if h.path.At? {
      var hp := h.path.keys;
      if hp == path {
        ReadBack(si, path, x);
      } else if !Diverge(path, hp) {
        StrictPrefix(hp, path);
        PrefixChanged(si, path, x, |hp|);
      }
    }
  }

  /** Beside the written path, and with no array made longer or cut there, the value is the same, so the whole
      write wakes the subscriber only when a value counts as changed against itself. */
  lemma BesideIsUnchanged(v: Value, path: seq<string>, x: Value, hp: seq<string>)
    requires Settable(v, path, x) && AllPlain(path) && AllPlain(hp) && Diverge(path, hp)
    requires NoGrowthOn(Vivify(v, path), path) && NoLossOn(Vivify(v, path), path, x)
    ensures var si := Vivify(v, path); Get(PutPath(si, path, x), hp) == Get(si, hp)
  {
    VivifyPaves(v, path, x);
    PavedIsCalm(Vivify(v, path), path);
    DivergingRead(Vivify(v, path), path, x, hp);
  }

  lemma {:induction false} PavedIsCalm(v: Value, path: seq<string>)
    requires Paved(v, path)
    ensures NoNullOn(v, path) && NoStringOn(v, path)
    decreases |path|
  {
    hide Prop;
    if |path| > 1 {
      PavedIsCalm(Prop(v, path[0]), path[1..]);
    }
  }

  lemma BesideIsAsleep(h: Sub, path: seq<string>, si: Value, cur: Value, x: Value)
    ensures h.path.At? && Diverge(path, h.path.keys) ==> !Decide(h, At(path), si, cur, x).Wake?
  {
  }

  lemma WokenByWhole(h: Sub, si: Value, val: Value)
    ensures Decide(h, Whole, si, si, val).Wake? <==> Affected(h, si, val)
  {
    hide Get, Changed, DiffShape;
  }

  lemma StrictPrefix(hp: seq<string>, path: seq<string>)
    requires !Diverge(path, hp) && !(path < hp) && hp != path
    ensures |hp| < |path| && hp == path[..|hp|]
  {
  }

  lemma PrefixChanged(v: Value, path: seq<string>, x: Value, n: nat)
    requires Paved(v, path) && Settable(v, path, x) && AllPlain(path) && n < |path|
    requires Changed(Get(v, path), x, 0)
    ensures Changed(Get(v, path[..n]), Get(PutPath(v, path, x), path[..n]), 0)
  {
    PrefixRead(v, path, x, n);
    GetSplit(v, path, n);
    ChangeShowsAtRoot(Get(v, path[..n]), path[n..], x);
  }

  lemma {:induction false} GetSplit(v: Value, path: seq<string>, n: nat)
    requires Paved(v, path) && n < |path|
    ensures Get(v, path) == Get(Get(v, path[..n]), path[n..])
    decreases n
  {
    if n == 0 {
      assert path[..0] == [] && path[0..] == path;
    } else {
      assert path[..n][1..] == path[1..][..n - 1] && path[n..] == path[1..][n - 1..];
      GetSplit(Prop(v, path[0]), path[1..], n - 1);
    }
  }

  // ---------- Whole writes ----------

  function ValueAt(v: Value, path: Path): Value {
    if path.Whole? then v else Get(v, path.keys)
  }

  /** The rule for a write of the whole signal. */
  predicate Affected(h: Sub, old_: Value, val: Value) {
    && (h.path.Whole? || Changed(ValueAt(old_, h.path), ValueAt(val, h.path), 0))
    && (h.mode.ShapeOnly? ==> !DiffShape(ValueAt(old_, h.path), ValueAt(val, h.path)).NoDiff?)
  }

  function AffectedOf(hs: seq<Sub>, old_: Value, val: Value): seq<Sub> {
    if hs == [] then []
    else AffectedOf(hs[..|hs| - 1], old_, val)
         + (if Affected(hs[|hs| - 1], old_, val) then [hs[|hs| - 1]] else [])
  }

  /** A changing write of a whole signal stores the value and calls exactly the affected
      subscribers, in subscription order; each handler already finds the new value. */
  lemma WholeWriteIsExact(dm: map<string, Value>, subs: map<string, seq<Sub>>, root: string, val: Value)
    requires root != "" && Changed(Read(dm, root, Whole), val, 0)
    ensures var (dm', calls) := Write(dm, subs, root, Whole, val);
            var old_, due := Read(dm, root, Whole), AffectedOf(Listeners(subs, root), Read(dm, root, Whole), val);
            && dm' == dm[root := val]
            && |calls| == |due|
            && forall i :: 0 <= i < |due| ==>
                 && calls[i].sub == due[i]
                 && calls[i].seen == ValueAt(val, due[i].path)
                 && calls[i].detail == if due[i].mode.AnyChange? then NoDiff
                                       else DiffShape(ValueAt(old_, due[i].path), ValueAt(val, due[i].path))
  {
    WakesAffected(Listeners(subs, root), Read(dm, root, Whole), val);
  }

  function Listeners(subs: map<string, seq<Sub>>, root: string): seq<Sub> {
    if root in subs then subs[root] else []
  }

  lemma {:induction false} WakesAffected(hs: seq<Sub>, old_: Value, val: Value)
    ensures var ws, due := WakeAll(hs, Whole, old_, old_, val), AffectedOf(hs, old_, val);
            && |ws| == |due|
            && forall i :: 0 <= i < |due| ==>
                 && ws[i].sub == due[i]
                 && ws[i].detail == if due[i].mode.AnyChange? then NoDiff
                                    else DiffShape(ValueAt(old_, due[i].path), ValueAt(val, due[i].path))
  {
    if hs != [] {
      WakesAffected(hs[..|hs| - 1], old_, val);
      hide Changed, DiffShape, Get;
    }
  }

  // ---------- Path writes ----------

  /** The rule for a write at a path, for a subscriber not below it: those above are always told, those
      at the path as they want, those beside it never. */
  predicate AffectedByPath(h: Sub, path: seq<string>, cur: Value, val: Value) {
    h.path.Whole? || h.path.keys < path
    || (h.path.keys == path && (h.mode.ShapeOnly? ==> !DiffShape(cur, val).NoDiff?))
  }

  function AffectedByPathOf(hs: seq<Sub>, path: seq<string>, cur: Value, val: Value): seq<Sub> {
    if hs == [] then []
    else AffectedByPathOf(hs[..|hs| - 1], path, cur, val)
         + (if AffectedByPath(hs[|hs| - 1], path, cur, val) then [hs[|hs| - 1]] else [])
  }

  function DetailByPath(h: Sub, path: seq<string>, cur: Value, val: Value): Shape {
    if h.path == At(path) && !h.mode.AnyChange? then DiffShape(cur, val) else NoDiff
  }

  predicate NotBelow(h: Sub, path: seq<string>) {
    h.path.At? ==> !(path < h.path.keys)
  }

  /** The calls of handlers that are not below the path, in order. */
  function CallsNotBelow(calls: seq<Call>, path: seq<string>): seq<Call> {
    if calls == [] then []
    else CallsNotBelow(calls[..|calls| - 1], path)
         + (if NotBelow(calls[|calls| - 1].sub, path) then [calls[|calls| - 1]] else [])
  }

  function WokenNotBelow(ws: seq<Woken>, path: seq<string>): seq<Woken> {
    if ws == [] then []
    else WokenNotBelow(ws[..|ws| - 1], path) + (if NotBelow(ws[|ws| - 1].sub, path) then [ws[|ws| - 1]] else [])
  }

  /** A changing write at a path puts the value there. Of the subscribers not below the path it calls
      exactly the affected ones, in subscription order, whoever else listens; each handler already finds
      the new value at its own path. */
  lemma PathWriteIsExact(dm: map<string, Value>, subs: map<string, seq<Sub>>, root: string, path: seq<string>, val: Value)
    requires root != "" && Settable(Read(dm, root, Whole), path, val)
    requires Changed(Get(Vivify(Read(dm, root, Whole), path), path), val, 0)
    ensures var (dm', calls) := Write(dm, subs, root, At(path), val);
            var before := Read(dm, root, Whole);
            var cur, after := Get(Vivify(before, path), path), PutPath(before, path, val);
            var due, made := AffectedByPathOf(Listeners(subs, root), path, cur, val), CallsNotBelow(calls, path);
            && dm' == dm[root := after]
            && |made| == |due|
            && forall i :: 0 <= i < |due| ==>
                 && made[i].sub == due[i]
                 && made[i].seen == ValueAt(after, due[i].path)
                 && made[i].detail == DetailByPath(due[i], path, cur, val)
  {
    var v := Read(dm, root, Whole);
    PutAfterVivify(v, path, val);
    var si := Vivify(v, path);
    WakesByPath(Listeners(subs, root), path, si, Get(si, path), val);
    var ws := WakeAll(Listeners(subs, root), At(path), si, Get(si, path), val);
    CallsOfWoken(ws, dm[root := PutPath(si, path, val)], root, path);
    hide WakeAll, AffectedByPathOf, DetailByPath, Changed, DiffShape, Get, PutPath, Vivify, CallsNotBelow, WokenNotBelow;
  }

  lemma {:induction false} CallsOfWoken(ws: seq<Woken>, dm: map<string, Value>, root: string, path: seq<string>)
    ensures CallsNotBelow(CallAll(ws, dm, root), path) == CallAll(WokenNotBelow(ws, path), dm, root)
  {
    hide Read, NotBelow;
    if ws != [] {
      var front := ws[..|ws| - 1];
      CallsOfWoken(front, dm, root, path);
      assert CallAll(ws, dm, root)[..|ws| - 1] == CallAll(front, dm, root);
    }
  }

  lemma {:induction false} WakesByPath(hs: seq<Sub>, path: seq<string>, si: Value, cur: Value, val: Value)
    ensures var ws, due := WokenNotBelow(WakeAll(hs, At(path), si, cur, val), path), AffectedByPathOf(hs, path, cur, val);
            && |ws| == |due|
            && forall i :: 0 <= i < |due| ==> ws[i].sub == due[i] && ws[i].detail == DetailByPath(due[i], path, cur, val)
  {
    if hs != [] {
      var h := hs[|hs| - 1];
      WakesByPath(hs[..|hs| - 1], path, si, cur, val);
      OneByPath(h, path, si, cur, val);
      hide Decide, AffectedByPath, DetailByPath, NotBelow;
      var front := WakeAll(hs[..|hs| - 1], At(path), si, cur, val);
      forall w: Woken
        ensures (front + [w])[..|front|] == front
      {
      }
    }
  }

  lemma OneByPath(h: Sub, path: seq<string>, si: Value, cur: Value, val: Value)
    ensures var d := Decide(h, At(path), si, cur, val);
            if NotBelow(h, path)
            then (d.Wake? <==> AffectedByPath(h, path, cur, val)) && (d.Wake? ==> d.detail == DetailByPath(h, path, cur, val))
            else !AffectedByPath(h, path, cur, val)
  {
    hide Get, Changed, DiffShape;
  }

  // ---------- Subscribers below the written path ----------

  /** What the subscriber's value becomes: the rest of its path, read in the written value. */
  lemma {:induction false} ReadBelow(v: Value, path: seq<string>, x: Value, hp: seq<string>)
    requires Settable(v, path, x) && path < hp
    ensures Get(PutPath(v, path, x), hp) == Get(x, hp[|path|..])
    decreases |path|
  {
    hide Prop, SetProp, PutPath, Get;
    assert hp[0] == path[0];
    GetAfterPut(v, path, x, hp);
    if |path| > 1 {
      assert path[1..] < hp[1..] && hp[1..][|path| - 1..] == hp[|path|..];
      ReadBelow(Prop(Container(v), path[0]), path[1..], x, hp[1..]);
    }
  }

  predicate Wants(mode: Mode, old_: Value, new_: Value) {
    Changed(old_, new_, 0) && (mode.ShapeOnly? ==> !DiffShape(old_, new_).NoDiff?)
  }

  /** A subscriber below the written path is decided, and told, as if the written value replaced the whole
      signal: its full path is looked up there. */
  lemma DeeperIsDecidedAsWhole(h: Sub, path: seq<string>, si: Value, cur: Value, x: Value)
    requires h.path.At? && path < h.path.keys
    ensures Decide(h, At(path), si, cur, x) == Decide(h, Whole, si, si, x)
    ensures Decide(h, At(path), si, cur, x).Wake? <==> Wants(h.mode, Get(si, h.path.keys), Get(x, h.path.keys))
  {
    hide Get, Changed, DiffShape;
  }

  /** It had something whose loss it wants to hear of: a value, or, for shapes only, an object or an array
      with elements. */
  predicate HadFor(mode: Mode, v: Value) {
    if mode.ShapeOnly? then v.Obj? || (v.Arr? && v.items != []) else v != Undef
  }

  /** When nothing is found there, it is woken exactly when it had something before, which is right exactly
      when having had something and having a change it wants to hear of come to the same. */
  lemma DeeperWakesIffHadValue(h: Sub, path: seq<string>, si: Value, x: Value)
    requires h.path.At? && path < h.path.keys && Get(x, h.path.keys) == Undef && Settable(si, path, x)
    ensures var woken := Decide(h, At(path), si, Get(si, path), x).Wake?;
            var had := HadFor(h.mode, Get(si, h.path.keys));
            var due := Wants(h.mode, Get(si, h.path.keys), Get(PutPath(si, path, x), h.path.keys));
            && (woken <==> had)
            && ((woken <==> due) <==> (had <==> Wants(h.mode, Get(si, h.path.keys), Get(x, h.path.keys[|path|..]))))
  {
    DeeperIsDecidedAsWhole(h, path, si, Get(si, path), x);
    LostForIt(h.mode, Get(si, h.path.keys));
    ReadBelow(si, path, x, h.path.keys);
    hide Decide, Get, Changed, PutPath, DiffShape;
  }

  lemma HadAny(v: Value)
    ensures HadFor(AnyChange, v) <==> v != Undef
  {
  }

  lemma LostForIt(mode: Mode, v: Value)
    ensures Wants(mode, v, Undef) <==> HadFor(mode, v)
  {
    NoDiffIff(v, Undef);
    if v.Arr? {
      assert Keys(v) == [] <==> v.items == [];
    }
  }

  /** So it can miss a value that appeared. */
  lemma DeeperSubscriberMissesChange()
    ensures var h := Sub(0, At(["a", "b"]), AnyChange);
            var before, x := Obj([Field("a", Obj([], true))], true), Obj([Field("b", Num(2.0))], true);
            Get(before, ["a", "b"]) != Get(PutPath(before, ["a"], x), ["a", "b"])
            && Decide(h, At(["a"]), before, Get(before, ["a"]), x) == Asleep
  {
    hide *;
    var none := Obj([], true);
    var before, x := Obj([Field("a", none)], true), Obj([Field("b", Num(2.0))], true);
    var after := Obj([Field("a", x)], true);
    PutsOne(before, "a", x);
    OnlyField("a", none);
    OnlyField("a", x);
    OnlyField("b", Num(2.0));
    TwoStep(before);
    TwoStep(x);
    TwoStep(after);
    NoMember();
    IsNilMeans(none);
    IsNilMeans(x);
    IsNilMeans(Undef);
    ObjSettable(before, "a", x);
    HadAny(Undef);
    DeeperWakesIffHadValue(Sub(0, At(["a", "b"]), AnyChange), ["a"], before, x);
    NotAwake(Sub(0, At(["a", "b"]), AnyChange), ["a"], before, Get(before, ["a"]), x);
  }

  lemma OnlyField(k: string, x: Value)
    ensures Prop(Obj([Field(k, x)], true), k) == x
    ensures k != "a" ==> Prop(Obj([Field(k, x)], true), "a") == Undef
  {
    var fields := [Field(k, x)];
    assert FindKey(fields, k) == 0;
    assert k != "a" ==> FindKey(fields, "a") < 0;
  }

  lemma ObjSettable(v: Value, k: string, x: Value)
    requires v.Obj?
    ensures Settable(v, [k], x)
  {
  }

  lemma NoMember()
    ensures Prop(Obj([], true), "b") == Undef
  {
  }

  lemma IsNilMeans(v: Value)
    ensures IsNil(v) <==> v.Undef? || v.Null?
  {
  }

  lemma NotAwake(h: Sub, path: seq<string>, si: Value, cur: Value, x: Value)
    ensures !Decide(h, At(path), si, cur, x).Wake? ==> Decide(h, At(path), si, cur, x) == Asleep
  {
  }

  lemma PutsOne(v: Value, k: string, x: Value)
    requires v.Obj? && |v.fields| == 1 && v.fields[0].key == k
    ensures PutPath(v, [k], x) == Obj([Field(k, x)], v.proto)
  {
    assert FindKey(v.fields, k) == 0 && v.fields[0 := Field(k, x)] == [Field(k, x)];
  }

  /** And it can be woken for a value that stayed. */
  lemma DeeperSubscriberWokenForNothing()
    ensures var h := Sub(0, At(["a", "b"]), AnyChange);
            var before := Obj([Field("a", Obj([Field("b", Num(1.0))], true))], true);
            var x := Obj([Field("b", Num(1.0)), Field("c", Num(2.0))], true);
            Get(before, ["a", "b"]) == Get(PutPath(before, ["a"], x), ["a", "b"])
            && Decide(h, At(["a"]), before, Get(before, ["a"]), x).Wake?
  {
    hide *;
    var h := Sub(0, At(["a", "b"]), AnyChange);
    var one := Obj([Field("b", Num(1.0))], true);
    var before := Obj([Field("a", one)], true);
    var x := Obj([Field("b", Num(1.0)), Field("c", Num(2.0))], true);
    PutsOne(before, "a", x);
    OnlyField("a", one);
    OnlyField("a", x);
    OnlyField("b", Num(1.0));
    TwoFields();
    TwoStep(before);
    TwoStep(x);
    TwoStep(Obj([Field("a", x)], true));
    IsNilMeans(one);
    IsNilMeans(x);
    IsNilMeans(Undef);
    ObjSettable(before, "a", x);
    HadAny(Num(1.0));
    DeeperWakesIffHadValue(h, ["a"], before, x);
  }

  lemma TwoFields()
    ensures var x := Obj([Field("b", Num(1.0)), Field("c", Num(2.0))], true);
            Prop(x, "b") == Num(1.0) && Prop(x, "a") == Undef
  {
    var fields := [Field("b", Num(1.0)), Field("c", Num(2.0))];
    assert fields[..1] == [Field("b", Num(1.0))];
    assert FindKey(fields[..1], "b") == 0 && FindKey(fields, "a") < 0;
  }

  lemma TwoStep(v: Value)
    requires v.Obj?
    ensures Get(v, ["a", "b"]) == if IsNil(Prop(v, "a")) then Prop(v, "a") else Prop(Prop(v, "a"), "b")
  {
    var w := Prop(v, "a");
    assert ["a", "b"][1..] == ["b"] && ["b"][1..] == [];
    assert Get(v, ["a", "b"]) == Get(w, ["b"]);
    if !IsNil(w) {
      assert Get(w, ["b"]) == Get(Prop(w, "b"), []);
    }
  }
}
