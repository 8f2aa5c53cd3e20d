/** Topic patterns of the bus: the compiler of a pattern and the backtracking matcher. */
module Glob {

  datatype Part = Literal(text: string) | Star

  // ---------- The matcher ----------

  /** Whether the parts match the whole of `s`; after a star every suffix is tried, the empty one
      last. */
  predicate MatchParts(parts: seq<Part>, s: string)
    decreases |parts|
  {
    if parts == [] then s == ""
    else match parts[0]
      case Literal(lit) => lit <= s && MatchParts(parts[1..], s[|lit|..])
      case Star =>
        |parts| == 1
        || (exists i :: 0 <= i < |s| && MatchParts(parts[1..], s[i..]))
        || MatchParts(parts[1..], "")
  }

  // ---------- The compiler ----------

  method Compile(pattern: string) returns (parts: seq<Part>)
    ensures Normal(parts) && Expand(parts) == Collapse(pattern)
  {
    hide Normal, Expand, Collapse, Underway;
    parts := [];
    var buf, i := "", 0;
    NothingYet(pattern);
    while i < |pattern|
      invariant 0 <= i <= |pattern| && Underway(parts, buf, pattern[..i])
    {
      var ch := pattern[i];
      assert pattern[..i + 1] == pattern[..i] + [ch];
      if ch == '*' {
        MeetsStar(parts, buf, pattern[..i]);
        if buf != "" {
          parts, buf := parts + [Literal(buf)], "";
        }
        if parts == [] || parts[|parts| - 1] != Star {
          parts := parts + [Star];
        }
      } else {
        MeetsChar(parts, buf, pattern[..i], ch);
        buf := buf + [ch];
      }
      i := i + 1;
    }
    assert pattern[..i] == pattern;
    MeetsEnd(parts, buf, pattern);
    if buf != "" {
      parts := parts + [Literal(buf)];
    }
  }

  /** What the compiler has after a prefix of the pattern: finished parts and a pending literal. */
  ghost predicate Underway(parts: seq<Part>, buf: string, prefix: string) {
    && Normal(parts) && '*' !in buf
    && (parts != [] ==> parts[|parts| - 1].Star?)
    && Expand(parts) + buf == Collapse(prefix)
  }

  lemma NothingYet(pattern: string)
    ensures Underway([], "", pattern[..0])
  {
    assert Expand([]) + "" == "";
  }

  lemma MeetsChar(parts: seq<Part>, buf: string, prefix: string, ch: char)
    requires Underway(parts, buf, prefix) && ch != '*'
    ensures Underway(parts, buf + [ch], prefix + [ch])
  {
    assert (prefix + [ch])[..|prefix|] == prefix;
    assert Expand(parts) + (buf + [ch]) == Expand(parts) + buf + [ch];
  }

  /** The parts with the pending literal. */
  ghost function Flushed(parts: seq<Part>, buf: string): seq<Part> {
    if buf == "" then parts else parts + [Literal(buf)]
  }

  lemma MeetsEnd(parts: seq<Part>, buf: string, prefix: string)
    requires Underway(parts, buf, prefix)
    ensures Normal(Flushed(parts, buf)) && Expand(Flushed(parts, buf)) == Collapse(prefix)
  {
    if buf == "" {
      assert Expand(parts) + "" == Expand(parts);
    } else {
      ExpandNext(parts, Literal(buf));
    }
  }

  lemma MeetsStar(parts: seq<Part>, buf: string, prefix: string)
    requires Underway(parts, buf, prefix)
    ensures var flushed := Flushed(parts, buf);
            Underway(if flushed == [] || flushed[|flushed| - 1] != Star then flushed + [Star] else flushed, "", prefix + "*")
  {
    var flushed := Flushed(parts, buf);
    MeetsEnd(parts, buf, prefix);
    hide Underway, Flushed;
    EndsInStar(flushed);
    CollapseStar(prefix);
    if flushed == [] || flushed[|flushed| - 1] != Star {
      AddStar(flushed, prefix);
    } else {
      KeepStar(flushed, prefix);
    }
  }

  lemma CollapseStar(prefix: string)
    ensures var c := Collapse(prefix);
            Collapse(prefix + "*") == if c != "" && c[|c| - 1] == '*' then c else c + "*"
  {
    assert (prefix + "*")[..|prefix|] == prefix;
  }

  lemma AddStar(flushed: seq<Part>, prefix: string)
    requires Normal(flushed) && (flushed == [] || flushed[|flushed| - 1] != Star)
    requires Collapse(prefix + "*") == Expand(flushed) + "*"
    ensures Underway(flushed + [Star], "", prefix + "*")
  {
    hide Collapse, Expand;
    ExpandNext(flushed, Star);
    assert Expand(flushed + [Star]) + "" == Expand(flushed + [Star]);
  }

  lemma KeepStar(flushed: seq<Part>, prefix: string)
    requires Normal(flushed) && flushed != [] && flushed[|flushed| - 1] == Star
    requires Collapse(prefix + "*") == Expand(flushed)
    ensures Underway(flushed, "", prefix + "*")
  {
    hide Collapse, Expand;
    assert Expand(flushed) + "" == Expand(flushed);
  }

  /** No empty literal, no star inside a literal, no two literals and no two stars in a row. */
  ghost predicate Normal(parts: seq<Part>) {
    && (forall i :: 0 <= i < |parts| && parts[i].Literal? ==> parts[i].text != "" && '*' !in parts[i].text)
    && forall i :: 0 < i < |parts| ==> parts[i - 1].Star? != parts[i].Star?
  }

  /** The pattern that the parts spell out. */
  ghost function Expand(parts: seq<Part>): string {
    if parts == [] then ""
    else Expand(parts[..|parts| - 1]) + PartText(parts[|parts| - 1])
  }

  ghost function PartText(p: Part): string {
    if p.Star? then "*" else p.text
  }

  /** The pattern with each run of stars cut down to one. */
  ghost function Collapse(pattern: string): string {
    if pattern == "" then ""
    else
      var front, c := Collapse(pattern[..|pattern| - 1]), pattern[|pattern| - 1];
      if c == '*' && front != "" && front[|front| - 1] == '*' then front else front + [c]
  }

  lemma ExpandNext(parts: seq<Part>, p: Part)
    ensures Expand(parts + [p]) == Expand(parts) + PartText(p)
  {
    assert (parts + [p])[..|parts|] == parts;
  }

  lemma EndsInStar(parts: seq<Part>)
    requires Normal(parts)
    ensures parts == [] <==> Expand(parts) == ""
    ensures var e := Expand(parts);
            parts != [] ==> (parts[|parts| - 1].Star? <==> e[|e| - 1] == '*')
  {
    if parts != [] {
      var p := parts[|parts| - 1];
      var t := PartText(p);
      assert t != "" && Expand(parts)[|Expand(parts)| - 1] == t[|t| - 1];
    }
  }

  // ---------- What a pattern means ----------

  /** A star stands for any run of characters, every other character for itself. */
  ghost predicate Accepts(pattern: string, s: string)
    decreases |pattern|
  {
    if pattern == "" then s == ""
    else if pattern[0] == '*' then exists i :: 0 <= i <= |s| && Accepts(pattern[1..], s[i..])
    else s != "" && s[0] == pattern[0] && Accepts(pattern[1..], s[1..])
  }

  ghost function Stars(pattern: string): nat {
    if pattern == "" then 0 else (if pattern[0] == '*' then 1 else 0) + Stars(pattern[1..])
  }

  /** The pattern with its stars replaced, in order, by the given runs. */
  ghost function Fill(pattern: string, runs: seq<string>): string
    requires |runs| == Stars(pattern)
  {
    if pattern == "" then ""
    else if pattern[0] == '*' then runs[0] + Fill(pattern[1..], runs[1..])
    else [pattern[0]] + Fill(pattern[1..], runs)
  }

  ghost predicate Fills(pattern: string, runs: seq<string>, s: string) {
    |runs| == Stars(pattern) && Fill(pattern, runs) == s
  }

  /** Acceptance is having runs to put for the stars. */
  lemma {:induction false} AcceptsIffFills(pattern: string, s: string)
    ensures Accepts(pattern, s) <==> exists runs :: Fills(pattern, runs, s)
  {
    if Accepts(pattern, s) {
      var runs := RunsOf(pattern, s);
    }
    if runs :| Fills(pattern, runs, s) {
      FilledIsAccepted(pattern, runs);
    }
  }

  lemma {:induction false} RunsOf(pattern: string, s: string) returns (runs: seq<string>)
    requires Accepts(pattern, s)
    ensures Fills(pattern, runs, s)
    decreases |pattern|
  {
    if pattern == "" {
      runs := [];
    } else if pattern[0] == '*' {
      var i :| 0 <= i <= |s| && Accepts(pattern[1..], s[i..]);
      var rest := RunsOf(pattern[1..], s[i..]);
      runs := [s[..i]] + rest;
      assert runs[1..] == rest && s == s[..i] + s[i..];
    } else {
      runs := RunsOf(pattern[1..], s[1..]);
      assert s == [s[0]] + s[1..];
    }
  }

  lemma {:induction false} FilledIsAccepted(pattern: string, runs: seq<string>)
    requires |runs| == Stars(pattern)
    ensures Accepts(pattern, Fill(pattern, runs))
    decreases |pattern|
  {
    if pattern != "" {
      var s := Fill(pattern, runs);
      if pattern[0] == '*' {
        FilledIsAccepted(pattern[1..], runs[1..]);
        assert s[|runs[0]|..] == Fill(pattern[1..], runs[1..]);
      } else {
        FilledIsAccepted(pattern[1..], runs);
        assert s[1..] == Fill(pattern[1..], runs);
      }
    }
  }

  ghost predicate SplitsAt(a: string, b: string, s: string, k: int) {
    0 <= k <= |s| && Accepts(a, s[..k]) && Accepts(b, s[k..])
  }

  /** A concatenation accepts what splits into a part for each side. */
  lemma {:induction false} AcceptsAppend(a: string, b: string, s: string)
    ensures Accepts(a + b, s) <==> exists k :: SplitsAt(a, b, s, k)
    decreases |a|
  {
    if a == "" {
      assert a + b == b && s[0..] == s;
      if Accepts(b, s) {
        assert SplitsAt(a, b, s, 0);
      }
      assert forall k :: 0 <= k <= |s| && s[..k] == "" ==> k == 0;
    } else {
      assert (a + b)[1..] == a[1..] + b;
      if Accepts(a + b, s) {
        AppendSplits(a, b, s);
      }
      if k :| SplitsAt(a, b, s, k) {
        SplitAppends(a, b, s, k);
      }
    }
  }

  lemma {:induction false} AppendSplits(a: string, b: string, s: string)
    requires a != "" && Accepts(a + b, s)
    ensures exists k :: SplitsAt(a, b, s, k)
    decreases |a|, 0
  {
    assert (a + b)[1..] == a[1..] + b;
    if a[0] == '*' {
      var i :| 0 <= i <= |s| && Accepts(a[1..] + b, s[i..]);
      AcceptsAppend(a[1..], b, s[i..]);
      var k :| SplitsAt(a[1..], b, s[i..], k);
      assert s[..i + k][i..] == s[i..][..k] && s[i + k..] == s[i..][k..];
      assert Accepts(a, s[..i + k]);
      assert SplitsAt(a, b, s, i + k);
    } else {
      AcceptsAppend(a[1..], b, s[1..]);
      var k :| SplitsAt(a[1..], b, s[1..], k);
      assert s[..1 + k][1..] == s[1..][..k] && s[1 + k..] == s[1..][k..];
      assert SplitsAt(a, b, s, 1 + k);
    }
  }

  lemma {:induction false} SplitAppends(a: string, b: string, s: string, k: int)
    requires a != "" && SplitsAt(a, b, s, k)
    ensures Accepts(a + b, s)
    decreases |a|, 0
  {
    assert (a + b)[1..] == a[1..] + b;
    if a[0] == '*' {
      var i :| 0 <= i <= k && Accepts(a[1..], s[..k][i..]);
      assert s[..k][i..] == s[i..][..k - i] && s[k..] == s[i..][k - i..];
      assert SplitsAt(a[1..], b, s[i..], k - i);
      AcceptsAppend(a[1..], b, s[i..]);
      assert Accepts((a + b)[1..], s[i..]);
    } else {
      assert s[..k][1..] == s[1..][..k - 1] && s[k..] == s[1..][k - 1..];
      assert SplitsAt(a[1..], b, s[1..], k - 1);
      AcceptsAppend(a[1..], b, s[1..]);
    }
  }

  lemma StarAccepts(s: string)
    ensures Accepts("*", s)
  {
    assert "*"[1..] == "" && Accepts("*"[1..], s[|s|..]);
  }

  /** A second star in a row adds nothing. */
  lemma DoubleStar(p: string, s: string)
    ensures Accepts(p + "*" + "*", s) <==> Accepts(p + "*", s)
  {
    AcceptsAppend(p + "*", "*", s);
    AcceptsAppend(p, "*", s);
    if k :| SplitsAt(p + "*", "*", s, k) {
      AcceptsAppend(p, "*", s[..k]);
      var m :| SplitsAt(p, "*", s[..k], m);
      assert s[..k][..m] == s[..m];
      StarAccepts(s[m..]);
      assert SplitsAt(p, "*", s, m);
    }
    if Accepts(p + "*", s) {
      StarAccepts(s[|s|..]);
      assert s[..|s|] == s;
      assert SplitsAt(p + "*", "*", s, |s|);
    }
  }

  lemma SameAppended(p: string, q: string, b: string, s: string)
    requires forall t :: Accepts(p, t) <==> Accepts(q, t)
    ensures Accepts(p + b, s) <==> Accepts(q + b, s)
  {
    AcceptsAppend(p, b, s);
    AcceptsAppend(q, b, s);
    if k :| SplitsAt(p, b, s, k) {
      assert SplitsAt(q, b, s, k);
    }
    if k :| SplitsAt(q, b, s, k) {
      assert SplitsAt(p, b, s, k);
    }
  }

  /** Cutting runs of stars down to one keeps the meaning. */
  lemma {:induction false} CollapseKeepsMeaning(pattern: string, s: string)
    ensures Accepts(Collapse(pattern), s) <==> Accepts(pattern, s)
    decreases |pattern|
  {
    if pattern != "" {
      var before, c := pattern[..|pattern| - 1], pattern[|pattern| - 1];
      var front := Collapse(before);
      forall t
        ensures Accepts(front, t) <==> Accepts(before, t)
      {
        CollapseKeepsMeaning(before, t);
      }
      assert pattern == before + [c];
      SameAppended(front, before, [c], s);
      if c == '*' && front != "" && front[|front| - 1] == '*' {
        var p := front[..|front| - 1];
        assert front == p + "*";
        DoubleStar(p, s);
      }
    }
  }

  lemma {:induction false} ExpandFirst(parts: seq<Part>)
    requires parts != []
    ensures Expand(parts) == PartText(parts[0]) + Expand(parts[1..])
  {
    hide Expand, PartText;
    var front, last := parts[..|parts| - 1], parts[|parts| - 1];
    assert parts == front + [last];
    ExpandNext(front, last);
    if front == [] {
      ExpandNothing();
      assert parts[1..] == [];
    } else {
      var middle := front[1..];
      ExpandFirst(front);
      assert parts[1..] == middle + [last];
      ExpandNext(middle, last);
      var x, y, z := PartText(parts[0]), Expand(middle), PartText(last);
      assert x + y + z == x + (y + z);
    }
  }

  lemma ExpandNothing()
    ensures Expand([]) == "" && forall s: string :: s + "" == s && "" + s == s
  {
  }

  lemma {:induction false} LiteralAccepts(lit: string, after: string, s: string)
    requires '*' !in lit
    ensures Accepts(lit + after, s) <==> lit <= s && Accepts(after, s[|lit|..])
    decreases |lit|
  {
    if lit == "" {
      assert lit + after == after && s[0..] == s;
    } else {
      assert (lit + after)[1..] == lit[1..] + after;
      if s != "" {
        LiteralAccepts(lit[1..], after, s[1..]);
        assert lit[0] == s[0] ==> (lit <= s <==> lit[1..] <= s[1..]);
        assert lit <= s ==> s[|lit|..] == s[1..][|lit| - 1..];
      }
    }
  }

  /** The matcher decides what the spelled-out parts mean. */
  lemma {:induction false} MatchIsAcceptance(parts: seq<Part>, s: string)
    requires forall i :: 0 <= i < |parts| && parts[i].Literal? ==> '*' !in parts[i].text
    ensures MatchParts(parts, s) <==> Accepts(Expand(parts), s)
    decreases |parts|
  {
    if parts != [] {
      var rest := parts[1..];
      ExpandFirst(parts);
      match parts[0]
      case Literal(lit) =>
        LiteralAccepts(lit, Expand(rest), s);
        if lit <= s {
          MatchIsAcceptance(rest, s[|lit|..]);
        }
      case Star =>
        forall i | 0 <= i <= |s|
          ensures MatchParts(rest, s[i..]) <==> Accepts(Expand(rest), s[i..])
        {
          MatchIsAcceptance(rest, s[i..]);
        }
        assert s[|s|..] == "";
        assert ("*" + Expand(rest))[1..] == Expand(rest);
        if |parts| == 1 {
          assert rest == [] && "*" + Expand(rest) == "*";
          StarAccepts(s);
        }
    }
  }

  /** A compiled pattern matches exactly what the pattern accepts. */
  lemma CompiledDecides(pattern: string, parts: seq<Part>, s: string)
    requires Normal(parts) && Expand(parts) == Collapse(pattern)
    ensures MatchParts(parts, s) <==> Accepts(pattern, s)
  {
    MatchIsAcceptance(parts, s);
    CollapseKeepsMeaning(pattern, s);
  }

  /** A compiled pattern matches exactly the texts in which each star stands for some run. */
  lemma CompiledMatches(pattern: string, parts: seq<Part>, s: string)
    requires Normal(parts) && Expand(parts) == Collapse(pattern)
    ensures MatchParts(parts, s) <==> exists runs :: Fills(pattern, runs, s)
  {
    CompiledDecides(pattern, parts, s);
    AcceptsIffFills(pattern, s);
  }

  /** A normal form is determined by what it spells: patterns of one meaning up to runs of stars
      compile to the same parts. */
  lemma {:induction false} NormalIsUnique(a: seq<Part>, b: seq<Part>)
    requires Normal(a) && Normal(b) && Expand(a) == Expand(b)
    ensures a == b
    decreases |a|
  {
    hide *;
    EndsInStar(a);
    EndsInStar(b);
    if a != [] {
      var a', b' := a[..|a| - 1], b[..|b| - 1];
      Peel(a);
      Peel(b);
      SameEnding(Expand(a'), a[|a| - 1], Expand(b'), b[|b| - 1]);
      NormalIsUnique(a', b');
    }
  }

  /** What stands before the last part may end any text of a literal. */
  ghost predicate MayPrecede(front: string, p: Part) {
    p.Literal? ==> '*' !in p.text && (front == "" || front[|front| - 1] == '*')
  }

  lemma Peel(parts: seq<Part>)
    requires Normal(parts) && parts != []
    ensures var front, last := parts[..|parts| - 1], parts[|parts| - 1];
            && Normal(front) && parts == front + [last]
            && Expand(parts) == Expand(front) + PartText(last)
            && MayPrecede(Expand(front), last)
  {
    EndsInStar(parts[..|parts| - 1]);
  }

  lemma SameEnding(p: string, x: Part, q: string, y: Part)
    requires p + PartText(x) == q + PartText(y) && MayPrecede(p, x) && MayPrecede(q, y)
    requires x.Star? <==> y.Star?
    ensures p == q && x == y
  {
    if x.Literal? {
      SameTail(p, x.text, q, y.text);
    } else {
      assert |p| == |q| && (p + "*")[..|p|] == p && (q + "*")[..|q|] == q;
    }
  }

  /** Two ways to end a text in a star-free tail after a star or nothing agree. */
  lemma SameTail(p: string, x: string, q: string, y: string)
    requires p + x == q + y && '*' !in x && '*' !in y
    requires (p == "" || p[|p| - 1] == '*') && (q == "" || q[|q| - 1] == '*')
    ensures p == q && x == y
  {
    NoShorter(p, x, q, y);
    NoShorter(q, y, p, x);
    assert (p + x)[..|p|] == p && (q + y)[..|q|] == q;
    assert (p + x)[|p|..] == x && (q + y)[|q|..] == y;
  }

  lemma NoShorter(p: string, x: string, q: string, y: string)
    requires p + x == q + y && '*' !in x && (q == "" || q[|q| - 1] == '*')
    ensures |q| <= |p|
  {
    if q != "" {
      assert (q + y)[|q| - 1] == '*';
    }
    assert forall i :: |p| <= i < |p| + |x| ==> (p + x)[i] == x[i - |p|] && (p + x)[i] != '*';
  }
}
