/** The guard against endless chains of writes (`setSiAndNotifySubsNDeep`).

    A handler woken by a write may write again.  A `Run` is one guarded write together with the
    guarded writes that its handlers make while it lasts. */
module SyncDepth {

  const MAX_DEPTH := 32

  datatype Run = Run(nested: seq<Run>)

  /** The counter after a run, and how many writes of the run were refused. */
  function After(r: Run, depth: nat): (nat, nat)
    decreases r, 1
  {
    if depth > MAX_DEPTH then (depth + 1, 1)
    else
      var (d, refused) := AfterAll(r.nested, depth + 1);
      (if d == 0 then 0 else d - 1, refused)
  }

  function AfterAll(rs: seq<Run>, depth: nat): (nat, nat)
    decreases rs, 0
  {
    if rs == [] then (depth, 0)
    else
      var (d, refused) := After(rs[0], depth);
      var (d', refused') := AfterAll(rs[1..], d);
      (d', refused + refused')
  }

  class Guard {
    var syncDepth: nat
    var refusals: nat

    constructor ()
      ensures syncDepth == 0 && refusals == 0
    {
      syncDepth, refusals := 0, 0;
    }

    /** A guarded write: the counter goes up before the limit is tested, and down again only when
        the write took place. */
    method SetNDeep(r: Run)
      modifies this
      ensures syncDepth == After(r, old(syncDepth)).0
      ensures refusals == old(refusals) + After(r, old(syncDepth)).1
      decreases r
    {
      RefusalsStay(r, syncDepth);
      var before := syncDepth;
      syncDepth := syncDepth + 1;
      if before > MAX_DEPTH {
        refusals := refusals + 1;
        return;
      }
      ghost var d0, n0 := syncDepth, refusals;
      RefusalsStayAll(r.nested, d0);
      var i := 0;
      while i < |r.nested|
        invariant 0 <= i <= |r.nested|
        invariant AfterAll(r.nested, d0).0 == AfterAll(r.nested[i..], syncDepth).0
        invariant n0 + AfterAll(r.nested, d0).1 == refusals + AfterAll(r.nested[i..], syncDepth).1
      {
        SetNDeep(r.nested[i]);
        assert r.nested[i..][1..] == r.nested[i + 1..];
        i := i + 1;
      }
      syncDepth := syncDepth - 1;
    }
  }

  /** Every refusal leaves the counter one higher, for good. */
  lemma {:induction false} RefusalsStay(r: Run, depth: nat)
    ensures After(r, depth).0 == depth + After(r, depth).1
    decreases r, 1
  {
    if depth <= MAX_DEPTH {
      RefusalsStayAll(r.nested, depth + 1);
    }
  }

  lemma {:induction false} RefusalsStayAll(rs: seq<Run>, depth: nat)
    ensures AfterAll(rs, depth).0 == depth + AfterAll(rs, depth).1
    decreases rs, 0
  {
    if rs != [] {
      RefusalsStay(rs[0], depth);
      RefusalsStayAll(rs[1..], After(rs[0], depth).0);
    }
  }

  /** How deep the writes of a run are nested. */
  function Height(r: Run): (h: nat)
    ensures h > 0
    decreases r, 1
  {
    1 + MaxHeight(r.nested)
  }

  function MaxHeight(rs: seq<Run>): nat
    decreases rs, 0
  {
    if rs == [] then 0
    else
      var (a, b) := (Height(rs[0]), MaxHeight(rs[1..]));
      if a > b then a else b
  }

  /** The counter is back where it was exactly when the run nests no deeper than the limit allows
      from there. */
  lemma {:induction false} BalancedIff(r: Run, depth: nat)
    ensures After(r, depth).0 == depth <==> depth + Height(r) <= MAX_DEPTH + 1
    decreases r, 1
  {
    RefusalsStay(r, depth);
    if depth <= MAX_DEPTH {
      RefusalsStayAll(r.nested, depth + 1);
      BalancedAllIff(r.nested, depth + 1);
    }
  }

  lemma {:induction false} BalancedAllIff(rs: seq<Run>, depth: nat)
    ensures AfterAll(rs, depth).0 == depth <==> rs == [] || depth + MaxHeight(rs) <= MAX_DEPTH + 1
    decreases rs, 0
  {
    if rs != [] {
      RefusalsStay(rs[0], depth);
      RefusalsStayAll(rs[1..], After(rs[0], depth).0);
      BalancedIff(rs[0], depth);
      BalancedAllIff(rs[1..], depth);
      if rs[1..] == [] {
        assert MaxHeight(rs[1..]) == 0;
      }
    }
  }

  /** Once the counter rests above the limit, every later write is refused. */
  lemma {:induction false} RefusedForEver(rs: seq<Run>, depth: nat)
    requires depth > MAX_DEPTH
    ensures AfterAll(rs, depth) == (depth + |rs|, |rs|)
  {
    if rs != [] {
      RefusedForEver(rs[1..], depth + 1);
    }
  }

  /** Each run that nests too deep costs at least one of the limit. */
  lemma {:induction false} LeaksAddUp(rs: seq<Run>, depth: nat)
    requires forall i :: 0 <= i < |rs| ==> Height(rs[i]) > MAX_DEPTH + 1
    ensures AfterAll(rs, depth).0 >= depth + |rs|
  {
    if rs != [] {
      BalancedIff(rs[0], depth);
      RefusalsStay(rs[0], depth);
      LeaksAddUp(rs[1..], After(rs[0], depth).0);
    }
  }

  /** A chain of `n` writes, each made by a handler of the one before. */
  function Deep(n: nat): Run
    requires n > 0
  {
    Run(if n == 1 then [] else [Deep(n - 1)])
  }

  lemma {:induction false} DeepHeight(n: nat)
    requires n > 0
    ensures Height(Deep(n)) == n
  {
    var nested := Deep(n).nested;
    assert MaxHeight([]) == 0;
    if n > 1 {
      DeepHeight(n - 1);
      assert nested[1..] == [] && nested[0] == Deep(n - 1);
      assert MaxHeight(nested) == n - 1;
    }
  }

  /** A chain is refused at most its last write, and then leaves the counter one higher. */
  lemma {:induction false} DeepChain(n: nat, depth: nat)
    requires n > 0
    ensures After(Deep(n), depth) == if depth + n <= MAX_DEPTH + 1 then (depth, 0) else (depth + 1, 1)
  {
    if depth <= MAX_DEPTH {
      var nested := Deep(n).nested;
      if n > 1 {
        DeepChain(n - 1, depth + 1);
        assert nested[1..] == [];
        OneAfter(nested[0], depth + 1);
      }
      assert After(Deep(n), depth) == (AfterAll(nested, depth + 1).0 - 1, AfterAll(nested, depth + 1).1);
    }
  }

  lemma OneAfter(r: Run, depth: nat)
    ensures AfterAll([r], depth) == After(r, depth)
  {
    assert [r][1..] == [];
  }

  /** Thirty-three nested writes are fine; of thirty-four the last is refused, and the counter never
      comes back. After thirty-three such runs every write is refused. */
  lemma ThirtyFourLeak(more: seq<Run>)
    ensures After(Deep(33), 0) == (0, 0) && After(Deep(34), 0) == (1, 1)
    ensures AfterAll(more, AfterAll(seq(33, _ => Deep(34)), 0).0).1 == |more|
  {
    hide After, AfterAll, Height, Deep;
    DeepChain(33, 0);
    DeepChain(34, 0);
    DeepHeight(34);
    var rs := seq(33, _ => Deep(34));
    LeaksAddUp(rs, 0);
    RefusedForEver(more, AfterAll(rs, 0).0);
  }

  lemma {:induction false} AfterBoth(rs: seq<Run>, more: seq<Run>, depth: nat)
    ensures var (d, refused) := AfterAll(rs, depth);
            AfterAll(rs + more, depth) == (AfterAll(more, d).0, refused + AfterAll(more, d).1)
    decreases |rs|
  {
    if rs == [] {
      assert rs + more == more;
    } else {
      assert (rs + more)[1..] == rs[1..] + more;
      AfterBoth(rs[1..], more, After(rs[0], depth).0);
    }
  }
}
