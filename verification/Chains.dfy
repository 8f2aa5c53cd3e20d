/** Chains of writes: handlers that write signals while they run, under the depth guard
    (`setSiAndNotifySubsNDeep` around `setSiAndNotifySubs`). */
module Chains {
  import opened Compare
  import opened JsValues
  import opened Signals
  import SyncDepth

  datatype Request = Request(root: string, path: Path, val: Value)

  /** What a handler writes once it is called: each write is made up from the store as it then stands. */
  type Reaction = Call -> seq<map<string, Value> -> Request>

  // ---------- A guarded write as a function ----------

  /** The store after a write on its own, and the subscribers it wakes. */
  function Stored(dm: map<string, Value>, subs: map<string, seq<Sub>>, w: Request): (map<string, Value>, seq<Woken>) {
    if w.root == "" || w.path == At([]) then (dm, [])
    else
      var (si, cur) := Before(dm, w.root, w.path);
      if !Changed(cur, w.val, 0) then (if w.path.At? then dm[w.root := si] else dm, [])
      else
        (dm[w.root := After(si, w.path, w.val)], if w.root in subs then WakeAll(subs[w.root], w.path, si, cur, w.val) else [])
  }

  datatype State = State(dm: map<string, Value>, depth: nat, calls: seq<Call>)

  /** The levels still allowed. */
  function Room(depth: nat): nat {
    if depth > SyncDepth.MAX_DEPTH then 0 else SyncDepth.MAX_DEPTH + 1 - depth
  }

  /** A guarded write: refused above the limit; else the store is written first, and then the handlers are
      called, one after the other, each with all that it writes in turn. */
  function Fire(s: State, subs: map<string, seq<Sub>>, react: Reaction, w: Request): (t: State)
    ensures t.depth >= s.depth
    decreases Room(s.depth), 0, 0
  {
    if s.depth > SyncDepth.MAX_DEPTH then s.(depth := s.depth + 1)
    else
      var (dm, ws) := Stored(s.dm, subs, w);
      var t := Notify(s.(dm := dm, depth := s.depth + 1), subs, react, w.root, ws);
      t.(depth := t.depth - 1)
  }

  function Notify(s: State, subs: map<string, seq<Sub>>, react: Reaction, root: string, ws: seq<Woken>): (t: State)
    ensures t.depth >= s.depth
    decreases Room(s.depth), 2, |ws|
  {
    if ws == [] then s
    else
      var call := Call(ws[0].sub, ws[0].detail, Read(s.dm, root, ws[0].sub.path));
      Notify(FireAll(s.(calls := s.calls + [call]), subs, react, react(call)), subs, react, root, ws[1..])
  }

  function FireAll(s: State, subs: map<string, seq<Sub>>, react: Reaction, writes: seq<map<string, Value> -> Request>): (t: State)
    ensures t.depth >= s.depth
    decreases Room(s.depth), 1, |writes|
  {
    if writes == [] then s else FireAll(Fire(s, subs, react, writes[0](s.dm)), subs, react, writes[1..])
  }

  // ---------- The store with its guard ----------

  class Live {
    const react: Reaction
    var dm: map<string, Value>
    var subs: map<string, seq<Sub>>
    var calls: seq<Call>
    var syncDepth: nat

    function Current(): State
      reads this
    {
      State(dm, syncDepth, calls)
    }

    constructor (reaction: Reaction, listeners: map<string, seq<Sub>>)
      ensures Current() == State(map[], 0, []) && react == reaction && subs == listeners
    {
      react, dm, subs, calls, syncDepth := reaction, map[], listeners, [], 0;
    }

    method SetNDeep(w: Request)
      modifies this`dm, this`calls, this`syncDepth
      ensures Current() == Fire(old(Current()), subs, react, w)
      decreases Room(syncDepth), 0, 0
    {
      hide Stored, Notify, FireAll;
      var before := syncDepth;
      syncDepth := syncDepth + 1;
      if before > SyncDepth.MAX_DEPTH {
        return;
      }
      var ws := Set(w);
      NotifyAll(w.root, ws);
      syncDepth := syncDepth - 1;
    }

    /** Stores the value and collects whom to wake, before anyone is called. */
    method Set(w: Request) returns (ws: seq<Woken>)
      modifies this`dm
      ensures (dm, ws) == Stored(old(dm), subs, w)
    {
      hide Changed, Get, Vivify, PutPath, WakeAll, Told;
      ws := [];
      if w.root == "" || w.path == At([]) {
        return;
      }
      var siVal := Read(dm, w.root, Whole);
      var curVal := siVal;
      if w.path.At? {
        siVal := Vivify(siVal, w.path.keys);
        dm := dm[w.root := siVal];
        curVal := Get(siVal, w.path.keys);
      }
      var changed := ValChangedDeep(curVal, w.val, 0);
      if !changed {
        return;
      }
      if w.root in subs {
        var collected := Collect(subs[w.root], w.path, siVal, curVal, w.val);
        ws := Told(collected);
      }
      dm := dm[w.root := After(siVal, w.path, w.val)];
      assert dm == old(dm)[w.root := After(siVal, w.path, w.val)];
    }

    method NotifyAll(root: string, ws: seq<Woken>)
      modifies this`dm, this`calls, this`syncDepth
      ensures Current() == Notify(old(Current()), subs, react, root, ws)
      decreases Room(syncDepth), 2, |ws|
    {
      hide Fire, FireAll;
      var i := 0;
      assert ws[0..] == ws;
      while i < |ws|
        invariant 0 <= i <= |ws| && syncDepth >= old(syncDepth)
        invariant Notify(old(Current()), subs, react, root, ws) == Notify(Current(), subs, react, root, ws[i..])
      {
        var call := Call(ws[i].sub, ws[i].detail, Read(dm, root, ws[i].sub.path));
        calls := calls + [call];
        assert ws[i..][1..] == ws[i + 1..];
        WriteAll(react(call));
        i := i + 1;
      }
    }

    method WriteAll(writes: seq<map<string, Value> -> Request>)
      modifies this`dm, this`calls, this`syncDepth
      ensures Current() == FireAll(old(Current()), subs, react, writes)
      decreases Room(syncDepth), 1, |writes|
    {
      hide Fire, Notify;
      var i := 0;
      assert writes[0..] == writes;
      while i < |writes|
        invariant 0 <= i <= |writes| && syncDepth >= old(syncDepth)
        invariant FireAll(old(Current()), subs, react, writes) == FireAll(Current(), subs, react, writes[i..])
      {
        assert writes[i..][1..] == writes[i + 1..];
        SetNDeep(writes[i](dm));
        i := i + 1;
      }
    }
  }

  // ---------- Handlers that write nothing ----------

  function Quiet(): Reaction {
    call => []
  }

  lemma {:induction false} QuietNotify(s: State, subs: map<string, seq<Sub>>, root: string, ws: seq<Woken>)
    ensures Notify(s, subs, Quiet(), root, ws) == s.(calls := s.calls + CallAll(ws, s.dm, root))
    decreases |ws|
  {
    hide Read;
    if ws == [] {
      assert s.calls + CallAll(ws, s.dm, root) == s.calls;
    } else {
      var call := Call(ws[0].sub, ws[0].detail, Read(s.dm, root, ws[0].sub.path));
      var t := s.(calls := s.calls + [call]);
      assert FireAll(t, subs, Quiet(), []) == t;
      QuietNotify(t, subs, root, ws[1..]);
      assert CallAll(ws, s.dm, root) == [call] + CallAll(ws[1..], s.dm, root);
      assert s.calls + ([call] + CallAll(ws[1..], s.dm, root)) == s.calls + [call] + CallAll(ws[1..], s.dm, root);
    }
  }

  /** Then a guarded write below the limit is the plain one, and leaves the counter alone. */
  lemma QuietIsWrite(s: State, subs: map<string, seq<Sub>>, w: Request)
    requires s.depth <= SyncDepth.MAX_DEPTH
    ensures var (dm, calls) := Write(s.dm, subs, w.root, w.path, w.val);
            Fire(s, subs, Quiet(), w) == State(dm, s.depth, s.calls + calls)
  {
    hide Stored, Write, CallAll, Notify, Quiet, Fire;
    var (dm, ws) := Stored(s.dm, subs, w);
    FireIs(s, subs, Quiet(), w);
    QuietNotify(s.(dm := dm, depth := s.depth + 1), subs, w.root, ws);
    WriteIsStored(s.dm, subs, w);
  }

  lemma FireIs(s: State, subs: map<string, seq<Sub>>, react: Reaction, w: Request)
    requires s.depth <= SyncDepth.MAX_DEPTH
    ensures var (dm, ws) := Stored(s.dm, subs, w);
            var t := Notify(s.(dm := dm, depth := s.depth + 1), subs, react, w.root, ws);
            t.depth > 0 && Fire(s, subs, react, w) == t.(depth := t.depth - 1)
  {
    hide Stored, Notify;
  }

  lemma WriteIsStored(dm: map<string, Value>, subs: map<string, seq<Sub>>, w: Request)
    ensures var (dm', ws) := Stored(dm, subs, w); Write(dm, subs, w.root, w.path, w.val) == (dm', CallAll(ws, dm', w.root))
  {
    hide Changed, WakeAll, CallAll, Before, After;
    NoCalls(Stored(dm, subs, w).0, w.root);
  }

  lemma NoCalls(dm: map<string, Value>, root: string)
    ensures CallAll([], dm, root) == []
  {
  }

  // ---------- Every collected subscriber is called ----------

  /** Whatever the handlers write, the log only grows. */
  lemma {:induction false} FireGrows(s: State, subs: map<string, seq<Sub>>, react: Reaction, w: Request)
    ensures s.calls <= Fire(s, subs, react, w).calls
    decreases Room(s.depth), 0, 0
  {
    if s.depth <= SyncDepth.MAX_DEPTH {
      var (dm, ws) := Stored(s.dm, subs, w);
      NotifyGrows(s.(dm := dm, depth := s.depth + 1), subs, react, w.root, ws);
    }
  }

  lemma {:induction false} NotifyGrows(s: State, subs: map<string, seq<Sub>>, react: Reaction, root: string, ws: seq<Woken>)
    ensures s.calls <= Notify(s, subs, react, root, ws).calls
    decreases Room(s.depth), 2, |ws|
  {
    if ws != [] {
      var call := Call(ws[0].sub, ws[0].detail, Read(s.dm, root, ws[0].sub.path));
      var t := s.(calls := s.calls + [call]);
      FireAllGrows(t, subs, react, react(call));
      NotifyGrows(FireAll(t, subs, react, react(call)), subs, react, root, ws[1..]);
    }
  }

  lemma {:induction false} FireAllGrows(s: State, subs: map<string, seq<Sub>>, react: Reaction, writes: seq<map<string, Value> -> Request>)
    ensures s.calls <= FireAll(s, subs, react, writes).calls
    decreases Room(s.depth), 1, |writes|
  {
    if writes != [] {
      FireGrows(s, subs, react, writes[0](s.dm));
      FireAllGrows(Fire(s, subs, react, writes[0](s.dm)), subs, react, writes[1..]);
    }
  }

  /** `found[i]` is the state in which the handler of `ws[i]` was called: everything before is in its log,
      the call comes next, with the detail of its own write and the value it finds then. */
  ghost predicate CalledFrom(found: seq<State>, root: string, ws: seq<Woken>, calls: seq<Call>) {
    && |found| == |ws|
    && (forall i :: 0 <= i < |ws| ==>
          |found[i].calls| < |calls| && found[i].calls == calls[..|found[i].calls|]
          && calls[|found[i].calls|] == Call(ws[i].sub, ws[i].detail, Read(found[i].dm, root, ws[i].sub.path)))
    && forall i, j :: 0 <= i < j < |ws| ==> |found[i].calls| < |found[j].calls|
  }

  lemma {:induction false} AllAreCalled(s: State, subs: map<string, seq<Sub>>, react: Reaction, root: string, ws: seq<Woken>)
    returns (found: seq<State>)
    ensures CalledFrom(found, root, ws, Notify(s, subs, react, root, ws).calls)
    ensures forall i :: 0 <= i < |found| ==> |s.calls| <= |found[i].calls|
    ensures ws != [] ==> found[0] == s
    decreases |ws|
  {
    hide Read, FireAll;
    found := [];
    if ws != [] {
      var call := Call(ws[0].sub, ws[0].detail, Read(s.dm, root, ws[0].sub.path));
      var t := FireAll(s.(calls := s.calls + [call]), subs, react, react(call));
      FireAllGrows(s.(calls := s.calls + [call]), subs, react, react(call));
      NotifyGrows(t, subs, react, root, ws[1..]);
      var rest := AllAreCalled(t, subs, react, root, ws[1..]);
      found := [s] + rest;
      hide Notify;
    }
  }

  /** A write that takes place calls exactly the subscribers collected from the store it met, in order
      and with the details of this write, the first one on the store it left; none is lost by what
      the others write. */
  lemma FireCallsAll(s: State, subs: map<string, seq<Sub>>, react: Reaction, w: Request) returns (found: seq<State>)
    requires s.depth <= SyncDepth.MAX_DEPTH
    ensures var (dm, ws) := Stored(s.dm, subs, w);
            && CalledFrom(found, w.root, ws, Fire(s, subs, react, w).calls)
            && (found != [] ==> found[0] == State(dm, s.depth + 1, s.calls))
  {
    hide Stored, Notify;
    var (dm, ws) := Stored(s.dm, subs, w);
    found := AllAreCalled(s.(dm := dm, depth := s.depth + 1), subs, react, w.root, ws);
  }

  /** What a handler writes is written in order, each write on what the ones before it left. */
  lemma {:induction false} WritesInOrder(s: State, subs: map<string, seq<Sub>>, react: Reaction,
                                         first: seq<map<string, Value> -> Request>, w: map<string, Value> -> Request)
    ensures var t := FireAll(s, subs, react, first); FireAll(s, subs, react, first + [w]) == Fire(t, subs, react, w(t.dm))
    decreases |first|
  {
    hide Fire;
    if first == [] {
      assert [] + [w] == [w] && [w][1..] == [];
      var t := Fire(s, subs, react, w(s.dm));
      assert FireAll(t, subs, react, []) == t;
    } else {
      assert (first + [w])[1..] == first[1..] + [w];
      WritesInOrder(Fire(s, subs, react, first[0](s.dm)), subs, react, first[1..], w);
    }
  }

  /** Each handler is called once those before it, with all that they write, are done, and then all that it
      writes is written. */
  lemma {:induction false} HandlersInOrder(s: State, subs: map<string, seq<Sub>>, react: Reaction, root: string,
                                           first: seq<Woken>, w: Woken)
    ensures var t := Notify(s, subs, react, root, first);
            var call := Call(w.sub, w.detail, Read(t.dm, root, w.sub.path));
            Notify(s, subs, react, root, first + [w]) == FireAll(t.(calls := t.calls + [call]), subs, react, react(call))
    decreases |first|
  {
    hide FireAll, Read;
    if first == [] {
      assert [] + [w] == [w] && [w][1..] == [];
      var call := Call(w.sub, w.detail, Read(s.dm, root, w.sub.path));
      var t := FireAll(s.(calls := s.calls + [call]), subs, react, react(call));
      assert Notify(t, subs, react, root, []) == t;
    } else {
      assert (first + [w])[1..] == first[1..] + [w];
      var call := Call(first[0].sub, first[0].detail, Read(s.dm, root, first[0].sub.path));
      HandlersInOrder(FireAll(s.(calls := s.calls + [call]), subs, react, react(call)), subs, react, root, first[1..], w);
    }
  }

  // ---------- The counter ----------

  /** The guarded writes that a write brings about, as a tree. */
  function Tree(s: State, subs: map<string, seq<Sub>>, react: Reaction, w: Request): SyncDepth.Run
    decreases Room(s.depth), 0, 0
  {
    if s.depth > SyncDepth.MAX_DEPTH then SyncDepth.Run([])
    else
      var (dm, ws) := Stored(s.dm, subs, w);
      SyncDepth.Run(Trees(s.(dm := dm, depth := s.depth + 1), subs, react, w.root, ws))
  }

  function Trees(s: State, subs: map<string, seq<Sub>>, react: Reaction, root: string, ws: seq<Woken>): seq<SyncDepth.Run>
    decreases Room(s.depth), 2, |ws|
  {
    if ws == [] then []
    else
      var call := Call(ws[0].sub, ws[0].detail, Read(s.dm, root, ws[0].sub.path));
      var t := s.(calls := s.calls + [call]);
      TreesOf(t, subs, react, react(call)) + Trees(FireAll(t, subs, react, react(call)), subs, react, root, ws[1..])
  }

  function TreesOf(s: State, subs: map<string, seq<Sub>>, react: Reaction, writes: seq<map<string, Value> -> Request>): seq<SyncDepth.Run>
    decreases Room(s.depth), 1, |writes|
  {
    if writes == [] then []
    else [Tree(s, subs, react, writes[0](s.dm))] + TreesOf(Fire(s, subs, react, writes[0](s.dm)), subs, react, writes[1..])
  }

  lemma {:induction false} DepthOfFire(s: State, subs: map<string, seq<Sub>>, react: Reaction, w: Request)
    ensures Fire(s, subs, react, w).depth == SyncDepth.After(Tree(s, subs, react, w), s.depth).0
    decreases Room(s.depth), 0, 0
  {
    hide Fire, Tree, Stored, Notify, Trees, SyncDepth.After, SyncDepth.AfterAll;
    if s.depth > SyncDepth.MAX_DEPTH {
      RefusedFire(s, subs, react, w);
    } else {
      var (dm, ws) := Stored(s.dm, subs, w);
      var t := s.(dm := dm, depth := s.depth + 1);
      DepthOfNotify(t, subs, react, w.root, ws);
      FireIs(s, subs, react, w);
      TreeIs(s, subs, react, w);
    }
  }

  lemma RefusedFire(s: State, subs: map<string, seq<Sub>>, react: Reaction, w: Request)
    requires s.depth > SyncDepth.MAX_DEPTH
    ensures Fire(s, subs, react, w) == s.(depth := s.depth + 1)
    ensures Fire(s, subs, react, w).depth == s.depth + 1 == SyncDepth.After(Tree(s, subs, react, w), s.depth).0
  {
  }

  lemma TreeIs(s: State, subs: map<string, seq<Sub>>, react: Reaction, w: Request)
    requires s.depth <= SyncDepth.MAX_DEPTH
    ensures var (dm, ws) := Stored(s.dm, subs, w);
            var d := SyncDepth.AfterAll(Trees(s.(dm := dm, depth := s.depth + 1), subs, react, w.root, ws), s.depth + 1).0;
            d > 0 && SyncDepth.After(Tree(s, subs, react, w), s.depth).0 == d - 1
  {
    hide Stored, Trees;
    var (dm, ws) := Stored(s.dm, subs, w);
    SyncDepth.RefusalsStayAll(Trees(s.(dm := dm, depth := s.depth + 1), subs, react, w.root, ws), s.depth + 1);
    hide SyncDepth.AfterAll;
  }

  lemma {:induction false} DepthOfNotify(s: State, subs: map<string, seq<Sub>>, react: Reaction, root: string, ws: seq<Woken>)
    ensures Notify(s, subs, react, root, ws).depth == SyncDepth.AfterAll(Trees(s, subs, react, root, ws), s.depth).0
    decreases Room(s.depth), 2, |ws|
  {
    hide Read;
    if ws != [] {
      var call := Call(ws[0].sub, ws[0].detail, Read(s.dm, root, ws[0].sub.path));
      var t := s.(calls := s.calls + [call]);
      var u := FireAll(t, subs, react, react(call));
      DepthOfFireAll(t, subs, react, react(call));
      DepthOfNotify(u, subs, react, root, ws[1..]);
      SyncDepth.AfterBoth(TreesOf(t, subs, react, react(call)), Trees(u, subs, react, root, ws[1..]), s.depth);
      hide Read, FireAll, TreesOf, SyncDepth.AfterAll;
    }
  }

  lemma {:induction false} DepthOfFireAll(s: State, subs: map<string, seq<Sub>>, react: Reaction, writes: seq<map<string, Value> -> Request>)
    ensures FireAll(s, subs, react, writes).depth == SyncDepth.AfterAll(TreesOf(s, subs, react, writes), s.depth).0
    decreases Room(s.depth), 1, |writes|
  {
    if writes != [] {
      var w := writes[0](s.dm);
      DepthOfFire(s, subs, react, w);
      var t := Fire(s, subs, react, w);
      DepthOfFireAll(t, subs, react, writes[1..]);
      var first, rest := Tree(s, subs, react, w), TreesOf(t, subs, react, writes[1..]);
      assert ([first] + rest)[1..] == rest;
      hide Fire, Tree;
    }
  }

  /** The counter comes back exactly when the handlers' writes nest no deeper than the limit allows. */
  lemma ChainBalancedIff(s: State, subs: map<string, seq<Sub>>, react: Reaction, w: Request)
    ensures Fire(s, subs, react, w).depth == s.depth
            <==> s.depth + SyncDepth.Height(Tree(s, subs, react, w)) <= SyncDepth.MAX_DEPTH + 1
  {
    hide Fire, Tree, SyncDepth.After, SyncDepth.Height;
    DepthOfFire(s, subs, react, w);
    SyncDepth.BalancedIff(Tree(s, subs, react, w), s.depth);
  }

  // ---------- A chain without end ----------

  const COUNTED: map<string, seq<Sub>> := map["n" := [Sub(0, Whole, AnyChange)]]

  function Higher(v: Value): Value {
    Num(if v.Num? then v.n + 1.0 else 0.0)
  }

  function CountUp(dm: map<string, Value>): Request {
    Request("n", Whole, Higher(Read(dm, "n", Whole)))
  }

  /** A handler that answers each change of the signal by the next number. */
  function Counting(): Reaction {
    call => [CountUp]
  }

  lemma CountsOn(dm: map<string, Value>)
    requires var v := Read(dm, "n", Whole); v.Num? || v.Undef?
    ensures Stored(dm, COUNTED, CountUp(dm)) == (dm["n" := Higher(Read(dm, "n", Whole))], [Woken(Sub(0, Whole, AnyChange), NoDiff)])
  {
    var v := Read(dm, "n", Whole);
    assert Changed(v, Higher(v), 0);
    var h := Sub(0, Whole, AnyChange);
    hide Changed;
    assert WakeAll([h], Whole, v, v, Higher(v)) == [Woken(h, NoDiff)] by {
      assert [h][..0] == [] && WakeAll([], Whole, v, v, Higher(v)) == [];
    }
  }

  /** It is stopped by the guard, wherever it starts, and the counter is never what it was. */
  lemma {:induction false} CountingLeaks(s: State)
    requires var v := Read(s.dm, "n", Whole); v.Num? || v.Undef?
    ensures Fire(s, COUNTED, Counting(), CountUp(s.dm)).depth == s.depth + 1
    decreases Room(s.depth)
  {
    hide Stored, Notify, FireAll, Fire, CountUp;
    if s.depth > SyncDepth.MAX_DEPTH {
      RefusedFire(s, COUNTED, Counting(), CountUp(s.dm));
    } else {
      CountsOn(s.dm);
      FireIs(s, COUNTED, Counting(), CountUp(s.dm));
      var (dm, ws) := Stored(s.dm, COUNTED, CountUp(s.dm));
      var t := s.(dm := dm, depth := s.depth + 1);
      OneHandler(t, ws[0]);
      var call := Call(ws[0].sub, ws[0].detail, Read(dm, "n", ws[0].sub.path));
      CountingLeaks(t.(calls := t.calls + [call]));
      assert CountUp(s.dm).root == "n" by {
        CountRoot(s.dm);
      }
    }
  }

  lemma CountRoot(dm: map<string, Value>)
    ensures CountUp(dm).root == "n"
  {
  }

  lemma OneHandler(t: State, w: Woken)
    ensures var call := Call(w.sub, w.detail, Read(t.dm, "n", w.sub.path));
            var u := t.(calls := t.calls + [call]);
            Notify(t, COUNTED, Counting(), "n", [w]) == Fire(u, COUNTED, Counting(), CountUp(u.dm))
  {
    hide Fire, Read;
    var call := Call(w.sub, w.detail, Read(t.dm, "n", w.sub.path));
    var u := t.(calls := t.calls + [call]);
    var v := Fire(u, COUNTED, Counting(), CountUp(u.dm));
    assert Counting()(call) == [CountUp];
    assert [CountUp][1..] == [] && FireAll(v, COUNTED, Counting(), []) == v;
    assert FireAll(u, COUNTED, Counting(), [CountUp]) == v;
    assert [w][1..] == [] && Notify(v, COUNTED, Counting(), "n", []) == v;
  }
}
