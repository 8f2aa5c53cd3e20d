/** The mutually filled caches between dashed and camel-cased names. */
module Names {

  predicate IsUpper(c: char) {
    'A' <= c <= 'Z'
  }

  predicate IsLetter(c: char) {
    IsUpper(c) || 'a' <= c <= 'z'
  }

  function ToUpper(c: char): char {
    if 'a' <= c <= 'z' then c - 'a' + 'A' else c
  }

  function ToLower(c: char): char {
    if IsUpper(c) then c - 'A' + 'a' else c
  }

  function SkipDashes(s: string): (k: nat)
    ensures k <= |s| && (k < |s| ==> s[k] != '-')
  {
    if s == "" || s[0] != '-' then 0 else 1 + SkipDashes(s[1..])
  }

  /** Each run of dashes goes, and a letter behind it becomes upper-case. */
  function ToCamel(s: string): string
    decreases |s|
  {
    if s == "" then ""
    else if s[0] != '-' then [s[0]] + ToCamel(s[1..])
    else
      var k := SkipDashes(s);
      if k < |s| && IsLetter(s[k]) then [ToUpper(s[k])] + ToCamel(s[k + 1..]) else ToCamel(s[k..])
  }

  /** Each upper-case letter becomes a dash and its lower-case letter. */
  function ToKebab(s: string): string {
    if s == "" then ""
    else (if IsUpper(s[0]) then ['-', ToLower(s[0])] else [s[0]]) + ToKebab(s[1..])
  }

  lemma {:induction false} CamelHasNoDash(s: string)
    ensures '-' !in ToCamel(s)
    decreases |s|
  {
    if s != "" {
      var k := SkipDashes(s);
      if s[0] != '-' {
        CamelHasNoDash(s[1..]);
      } else if k < |s| && IsLetter(s[k]) {
        CamelHasNoDash(s[k + 1..]);
      } else {
        CamelHasNoDash(s[k..]);
      }
    }
  }

  lemma {:induction false} DashFreeIsCamel(s: string)
    requires '-' !in s
    ensures ToCamel(s) == s
  {
    if s != "" {
      DashFreeIsCamel(s[1..]);
    }
  }

  /** The dashed form leads back to the name exactly when the name has no dash. */
  lemma {:induction false} KebabLeadsBackIff(s: string)
    ensures ToCamel(ToKebab(s)) == s <==> '-' !in s
  {
    CamelHasNoDash(ToKebab(s));
    if '-' !in s {
      KebabLeadsBack(s);
    }
  }

  lemma {:induction false} KebabLeadsBack(s: string)
    requires '-' !in s
    ensures ToCamel(ToKebab(s)) == s
  {
    if s != "" {
      KebabLeadsBack(s[1..]);
      var k, rest := ToKebab(s), ToKebab(s[1..]);
      if IsUpper(s[0]) {
        assert k[1..][0] == ToLower(s[0]) && SkipDashes(k) == 1;
        assert k[2..] == rest;
      } else {
        assert k[1..] == rest;
      }
    }
  }

  /** A dashed form has no upper-case letters. */
  lemma {:induction false} KebabHasNoUpper(s: string)
    ensures forall i :: 0 <= i < |ToKebab(s)| ==> !IsUpper(ToKebab(s)[i])
  {
    if s != "" {
      KebabHasNoUpper(s[1..]);
    }
  }

  function Dashes(n: nat): string {
    seq(n, _ => '-')
  }

  lemma {:induction false} DashesSkipped(n: nat, rest: string)
    requires rest != "" ==> rest[0] != '-'
    ensures SkipDashes(Dashes(n) + rest) == n && (Dashes(n) + rest)[n..] == rest
  {
    if n > 0 {
      assert (Dashes(n) + rest)[1..] == Dashes(n - 1) + rest;
      DashesSkipped(n - 1, rest);
    } else {
      assert Dashes(0) + rest == rest;
    }
  }

  /** What stands behind a run of dashes: its first letter is raised. */
  function Raised(rest: string): string {
    if rest == "" then "" else [if IsLetter(rest[0]) then ToUpper(rest[0]) else rest[0]] + ToCamel(rest[1..])
  }

  lemma CamelOfRun(s: string)
    requires s != "" && s[0] == '-'
    ensures ToCamel(s) == Raised(s[SkipDashes(s)..])
  {
    var k := SkipDashes(s);
    var rest := s[k..];
    hide SkipDashes, ToUpper, IsLetter;
    if rest != "" {
      assert rest[0] == s[k] && rest[1..] == s[k + 1..];
      CamelOfPlain(rest);
    }
  }

  lemma CamelOfDashes(n: nat, rest: string)
    requires n > 0 && (rest != "" ==> rest[0] != '-')
    ensures ToCamel(Dashes(n) + rest) == Raised(rest)
  {
    var s := Dashes(n) + rest;
    assert s[0] == '-';
    hide ToCamel, Raised, Dashes, SkipDashes;
    DashesSkipped(n, rest);
    CamelOfRun(s);
  }

  lemma CamelOfPlain(s: string)
    requires s != "" && s[0] != '-'
    ensures ToCamel(s) == [s[0]] + ToCamel(s[1..])
  {
  }

  lemma RaisedFront(f: string, more: string, rest: string)
    requires f != "" && more != "" && f[0] == more[0] && ToCamel(more[1..]) == ToCamel(f[1..]) + Raised(rest)
    ensures Raised(more) == Raised(f) + Raised(rest)
  {
    hide ToCamel, IsLetter, ToUpper;
    var c := [if IsLetter(f[0]) then ToUpper(f[0]) else f[0]];
    assert c + (ToCamel(f[1..]) + Raised(rest)) == c + ToCamel(f[1..]) + Raised(rest);
  }

  /** Wherever a run of dashes stands, it goes, and the letter behind it is raised; what is in front and
      behind is transformed on its own. */
  lemma {:induction false} DashesRaise(front: string, n: nat, rest: string)
    requires n > 0 && (rest != "" ==> rest[0] != '-')
    ensures ToCamel(front + Dashes(n) + rest) == ToCamel(front) + Raised(rest)
    decreases |front|
  {
    hide ToCamel, Raised, Dashes, SkipDashes;
    var s := front + Dashes(n) + rest;
    if front == "" {
      assert s == Dashes(n) + rest;
      CamelOfDashes(n, rest);
      CamelOfNothing();
      assert "" + Raised(rest) == Raised(rest);
    } else if front[0] != '-' {
      assert s[1..] == front[1..] + Dashes(n) + rest;
      DashesRaise(front[1..], n, rest);
      CamelOfPlain(front);
      CamelOfPlain(s);
      assert [front[0]] + (ToCamel(front[1..]) + Raised(rest)) == [front[0]] + ToCamel(front[1..]) + Raised(rest);
    } else {
      var k := FrontIsDashes(front);
      if front[k..] == "" {
        assert front == Dashes(k) by {
          assert Dashes(k) + "" == Dashes(k);
        }
        OnlyDashesInFront(k, n, rest);
      } else {
        DashesInFront(k, front[k..], n, rest);
      }
    }
  }

  lemma CamelOfNothing()
    ensures ToCamel("") == "" && Raised("") == ""
  {
  }

  lemma DashesJoin(k: nat, n: nat)
    ensures Dashes(k) + Dashes(n) == Dashes(k + n)
  {
  }

  lemma Regrouped(a: string, b: string, c: string, d: string)
    requires b != ""
    ensures a + b + c + d == a + (b + c + d) && (b + c + d)[1..] == b[1..] + c + d && (b + c + d)[0] == b[0]
  {
  }

  lemma OnlyDashesInFront(k: nat, n: nat, rest: string)
    requires k > 0 && n > 0 && (rest != "" ==> rest[0] != '-')
    ensures ToCamel(Dashes(k) + Dashes(n) + rest) == ToCamel(Dashes(k)) + Raised(rest)
  {
    hide ToCamel, Raised, Dashes, SkipDashes;
    DashesJoin(k, n);
    CamelOfDashes(k + n, rest);
    CamelOfDashes(k, "");
    CamelOfNothing();
    var d, r := Dashes(k), Raised(rest);
    assert d + "" == d && "" + r == r;
  }

  lemma {:induction false} DashesInFront(k: nat, f: string, n: nat, rest: string)
    requires k > 0 && n > 0 && f != "" && f[0] != '-' && (rest != "" ==> rest[0] != '-')
    ensures ToCamel(Dashes(k) + f + Dashes(n) + rest) == ToCamel(Dashes(k) + f) + Raised(rest)
    decreases |f|, 0
  {
    hide *;
    Regrouped(Dashes(k), f, Dashes(n), rest);
    CamelOfDashes(k, f);
    CamelOfDashes(k, f + Dashes(n) + rest);
    DashesRaise(f[1..], n, rest);
    RaisedFront(f, f + Dashes(n) + rest, rest);
  }

  lemma {:induction false} FrontIsDashes(s: string) returns (k: nat)
    ensures k <= |s| && s == Dashes(k) + s[k..] && (k < |s| ==> s[k] != '-') && (s != "" && s[0] == '-' ==> k > 0)
  {
    k := 0;
    if s != "" && s[0] == '-' {
      k := FrontIsDashes(s[1..]);
      assert s == ['-'] + s[1..] && ['-'] + Dashes(k) == Dashes(k + 1);
      k := k + 1;
    }
  }

  class Names {
    var camel: map<string, string>
    var kebab: map<string, string>

    /** Cached camel forms are right, and cached dashed forms lead back to their name. */
    ghost predicate Valid()
      reads this
    {
      && (forall s :: s in camel ==> camel[s] == ToCamel(s))
      && forall c :: c in kebab ==> kebab[c] != "" && ToCamel(kebab[c]) == c
    }

    constructor ()
      ensures Valid() && camel == map[] && kebab == map[]
    {
      camel, kebab := map[], map[];
    }

    /** The answer is what the cache has for a dashed name; as long as the caches are right, it never
        shows. */
    method KebabToCamel(s: string) returns (r: string)
      modifies this
      ensures r == Cached(old(camel), s)
      ensures old(Valid()) ==> Valid() && r == ToCamel(s)
    {
      if s == "" {
        return s;
      }
      if '-' !in s {
        DashFreeIsCamel(s);
        camel := camel[s := s];
        return s;
      }
      if s in camel && camel[s] != "" {
        return camel[s];
      }
      r := ToCamel(s);
      camel := camel[s := r];
      kebab := kebab[r := s];
    }

    /** The caches stay right exactly when the name has no dash; then the answer leads back to it. */
    method CamelToKebab(s: string) returns (r: string)
      requires Valid()
      modifies this
      ensures Valid() <==> '-' !in s
      ensures '-' !in s ==> ToCamel(r) == s
      ensures '-' in s ==> r == ToKebab(s) && camel == old(camel)[r := s] && kebab == old(kebab)[s := r]
    {
      if s == "" {
        return s;
      }
      if s in kebab {
        CamelHasNoDash(kebab[s]);
        return kebab[s];
      }
      r := ToKebab(s);
      KebabLeadsBackIff(s);
      kebab := kebab[s := r];
      camel := camel[r := s];
      assert s in kebab;
    }
  }

  function Cached(camel: map<string, string>, s: string): string {
    if s == "" || '-' !in s then s else if s in camel && camel[s] != "" then camel[s] else ToCamel(s)
  }

  lemma {:induction false} KebabKeepsDash(s: string)
    ensures '-' in s ==> '-' in ToKebab(s)
  {
    if s != "" {
      KebabKeepsDash(s[1..]);
      assert '-' in s && s[0] != '-' ==> '-' in s[1..];
      var first := if IsUpper(s[0]) then ['-', ToLower(s[0])] else [s[0]];
      assert ToKebab(s) == first + ToKebab(s[1..]) && (s[0] == '-' ==> first[0] == '-');
    }
  }

  /** Once asked for the dashed form of a name that has a dash, the caches answer wrongly for that form. */
  method DashSpoils(names: Names, s: string) returns (form: string, answer: string)
    requires names.Valid() && '-' in s
    modifies names
    ensures form == ToKebab(s) && answer == s && answer != ToCamel(form)
  {
    KebabKeepsDash(s);
    KebabLeadsBackIff(s);
    form := names.CamelToKebab(s);
    answer := names.KebabToCamel(form);
  }

  /** As with `a-b`: its dashed form is itself, for which the caches then answer `a-b` and not `aB`. */
  lemma DashedName()
    ensures '-' in "a-b" && ToKebab("a-b") == "a-b" && ToCamel("a-b") == "aB"
  {
    assert "a-b"[1..] == "-b" && "-b"[1..] == "b" && "b"[1..] == "";
    assert SkipDashes("-b") == 1 && ToCamel("-b") == "B" + ToCamel("");
    assert ToKebab("b") == "b" && ToKebab("-b") == "-b";
  }
}
