/** Attribute keys: splitting a key into modifiers, targets, triggers and additions (`parse`), and the
    references and modifiers themselves (`parseRef`, `parseMod`). */
module AttrKey {
  import opened Names
  import opened Options

  const ALL := "^:@+"
  const NAME_DELIMS := ".["
  const SPECIALS := ["window", "document", "history", "form", "interval", "timeout", "viewed", "init"]

  // ---------- Searching ----------

  /** Index of the first character at or after `pos` that is one of `chars`, or -1. */
  function FirstOf(s: string, chars: string, pos: nat): (r: int)
    ensures r < 0 ==> r == -1
    ensures r >= 0 ==> pos <= r < |s| && s[r] in chars
    ensures forall i :: pos <= i < (if r < 0 then |s| else r) ==> s[i] !in chars
    decreases |s| - pos
  {
    if pos >= |s| then -1 else if s[pos] in chars then pos else FirstOf(s, chars, pos + 1)
  }

  lemma FirstIs(s: string, chars: string, pos: nat, i: nat)
    requires pos <= i < |s| && s[i] in chars && forall j :: pos <= j < i ==> s[j] !in chars
    ensures FirstOf(s, chars, pos) == i
  {
  }

  lemma NoFirst(s: string, chars: string, pos: nat)
    requires forall j :: pos <= j < |s| ==> s[j] !in chars
    ensures FirstOf(s, chars, pos) == -1
  {
  }

  function IndexOf(s: string, c: char, pos: nat): int {
    FirstOf(s, [c], pos)
  }

  method IndexFirst(s: string, chars: string, pos: nat) returns (r: int)
    ensures r == FirstOf(s, chars, pos)
  {
    var first := |s|;
    var k := 0;
    while k < |chars|
      invariant 0 <= k <= |chars| && first <= |s|
      invariant first < |s| ==> pos <= first && s[first] in chars[..k]
      invariant forall i :: pos <= i < first ==> s[i] !in chars[..k]
    {
      var i := IndexOf(s, chars[k], pos);
      assert chars[..k + 1] == chars[..k] + [chars[k]];
      if 0 <= i < first {
        first := i;
      }
      k := k + 1;
    }
    assert chars[..k] == chars;
    r := if first == |s| then -1 else first;
  }

  // ---------- References ----------

  datatype Kind = Signal | Element | Special

  /** `negated` is absent when the name has no sign. */
  datatype Ref = Ref(kind: Kind, negated: Option<bool>, root: string, path: Option<seq<string>>)

  function SkipNots(n: string, p: nat): (q: nat)
    ensures p <= q && (q > p ==> q <= |n|)
    decreases |n| - p
  {
    if p < |n| && n[p] == '!' then SkipNots(n, p + 1) else p
  }

  /** The sign as the source computes it, from the position behind the marks. */
  function Sign(p: nat): Option<bool> {
    if p == 0 then None else Some(p % 2 != 0)
  }

  predicate IsSpecial(root: string) {
    root != "" && root[0] == '_' && exists i :: 0 <= i < |SPECIALS| && SPECIALS[i] <= root[1..]
  }

  predicate IsDigits(s: string) {
    s != "" && forall i :: 0 <= i < |s| ==> '0' <= s[i] <= '9'
  }

  function ParsePath(n: string, p: nat): Option<seq<string>>
    requires p <= |n|
    decreases |n| - p
  {
    if p == |n| then Some([])
    else if n[p] == '.' then
      var d := FirstOf(n, NAME_DELIMS, p + 1);
      var end := if d < 0 then |n| else d;
      if end == p + 1 then None else Prepend(ToCamel(n[p + 1..end]), ParsePath(n, end))
    else if n[p] == '[' then
      var d := IndexOf(n, ']', p + 1);
      if d < 0 || !IsDigits(n[p + 1..d]) then None else Prepend(n[p + 1..d], ParsePath(n, d + 1))
    else None
  }

  function Prepend(part: string, rest: Option<seq<string>>): Option<seq<string>> {
    if rest.None? then None else Some([part] + rest.value)
  }

  /** The kind and the name of the root; nothing when a mark stands alone. */
  function ParseRoot(root: string): Option<(Kind, string)> {
    if root == "" then Some((Element, ""))
    else if root[0] == '#' || IsSpecial(root) then
      if root[1..] == "" then None
      else Some((if root[0] == '#' then Element else Special, root[1..]))
    else Some((Signal, ToCamel(root)))
  }

  function ParseRef(n: string, pos: nat): Option<Ref>
    requires pos <= |n|
  {
    if n == "" then None
    else
      var p := SkipNots(n, pos);
      var d := FirstOf(n, NAME_DELIMS, p);
      match ParseRoot(if d < 0 then n[p..] else n[p..d])
      case None => None
      case Some((kind, root)) =>
        if d < 0 && root == "" && Sign(p).Some? then None
        else if d < 0 || (n[d] == '.' && d + 1 == |n|) then Some(Ref(kind, Sign(p), root, None))
        else match ParsePath(n, d)
          case None => None
          case Some(path) => Some(Ref(kind, Sign(p), root, Some(path)))
  }

  method ReadPath(n: string, from: nat) returns (path: Option<seq<string>>)
    requires from <= |n|
    ensures path == ParsePath(n, from)
  {
    hide ToCamel, FirstOf, IsDigits;
    var p, parts := from, [];
    PathSoFar([], ParsePath(n, from));
    while p < |n|
      invariant p <= |n| && ParsePath(n, from) == Joined(parts, ParsePath(n, p))
      decreases |n| - p
    {
      var part, next;
      if n[p] == '.' {
        var d := IndexFirst(n, NAME_DELIMS, p + 1);
        next := if d < 0 then |n| else d;
        part := ToCamel(n[p + 1..next]);
        if next == p + 1 {
          return None;
        }
      } else if n[p] == '[' {
        var d := IndexOf(n, ']', p + 1);
        if d < 0 || !IsDigits(n[p + 1..d]) {
          return None;
        }
        part, next := n[p + 1..d], d + 1;
      } else {
        return None;
      }
      JoinedNext(parts, part, ParsePath(n, next));
      parts, p := parts + [part], next;
    }
    path := Some(parts);
    assert parts + [] == parts;
  }

  function Joined(parts: seq<string>, rest: Option<seq<string>>): Option<seq<string>> {
    if rest.None? then None else Some(parts + rest.value)
  }

  lemma PathSoFar(parts: seq<string>, rest: Option<seq<string>>)
    requires parts == []
    ensures Joined(parts, rest) == rest
  {
    assert rest.Some? ==> parts + rest.value == rest.value;
  }

  lemma JoinedNext(parts: seq<string>, part: string, rest: Option<seq<string>>)
    ensures Joined(parts, Prepend(part, rest)) == Joined(parts + [part], rest)
  {
    assert rest.Some? ==> parts + ([part] + rest.value) == parts + [part] + rest.value;
  }

  method ReadRef(n: string, pos: nat) returns (ref: Option<Ref>)
    requires pos <= |n|
    ensures ref == ParseRef(n, pos)
  {
    hide ParsePath, ParseRoot, FirstOf;
    if n == "" {
      return None;
    }
    var p := pos;
    while p < |n| && n[p] == '!'
      invariant pos <= p <= |n| && SkipNots(n, pos) == SkipNots(n, p)
    {
      p := p + 1;
    }
    var d := IndexFirst(n, NAME_DELIMS, p);
    var parsed := ParseRoot(if d < 0 then n[p..] else n[p..d]);
    if parsed.None? {
      return None;
    }
    var (kind, root) := parsed.value;
    if d < 0 && root == "" && Sign(p).Some? {
      return None;
    }
    if d < 0 || (n[d] == '.' && d + 1 == |n|) {
      return Some(Ref(kind, Sign(p), root, None));
    }
    var path := ReadPath(n, d);
    ref := if path.None? then None else Some(Ref(kind, Sign(p), root, path));
  }

  // ---------- Modifiers ----------

  datatype Arg = NoArg | Text(text: string) | Attrs(r: string, v: string) | ToRef(ref: Ref)

  datatype Mod = Mod(negated: Option<bool>, root: string, arg: Arg)

  /** Whether the modifier asks for an immediate first run. */
  function Immediate(m: Mod): Option<bool> {
    if m.root == "immediate" then Some(true) else if m.root == "notImmediate" then Some(false) else None
  }

  /** The argument of `attrs`: a signal for the names behind `#`, which must not be empty, and one for the
      values behind the dot that follows; without `#`, the values only. */
  function ParseAttrs(text: string): Option<Arg> {
    if text == "" || text[0] != '#' then Some(Attrs("", text))
    else
      var e := IndexOf(text, '.', 1);
      var r := if e < 0 then text[1..] else text[1..e];
      if r == "" then None else Some(Attrs(r, if e < 0 then "" else text[e + 1..]))
  }

  function ParseMod(name: string): Option<Mod> {
    if name == "" then None
    else
      var p := SkipNots(name, 0);
      var d := FirstOf(name, NAME_DELIMS, p);
      var root := ToCamel(if d < 0 then name[p..] else name[p..d]);
      if root == "" then None
      else
        var rest := if d < 0 then "" else name[d + 1..];
        if root == "attrs" then
          var attrs := ParseAttrs(rest);
          if attrs.None? then None else Some(Mod(Sign(p), root, attrs.value))
        else if root == "sel" || root == "selAll" then Some(Mod(Sign(p), root, Text(rest)))
        else if rest == "" then Some(Mod(Sign(p), root, NoArg))
        else if IndexOf(name, '.', d + 1) < 0 then Some(Mod(Sign(p), root, Text(ToCamel(rest))))
        else
          var ref := ParseRef(name, d + 1);
          Some(Mod(Sign(p), root, if ref.None? then NoArg else ToRef(ref.value)))
  }

  function Bangs(n: string, p: nat): nat
    decreases |n| - p
  {
    if p < |n| && n[p] == '!' then 1 + Bangs(n, p + 1) else 0
  }

  lemma {:induction false} SkipsBangs(n: string, p: nat)
    ensures SkipNots(n, p) == p + Bangs(n, p)
    decreases |n| - p
  {
    if p < |n| && n[p] == '!' {
      SkipsBangs(n, p + 1);
    }
  }

  /** A reference reads as negated by its marks exactly when it begins at an even position: the sign
      counts from the start of the name, not from where the reference begins. */
  lemma NegationIff(n: string, pos: nat)
    requires pos <= |n| && ParseRef(n, pos).Some?
    ensures (ParseRef(n, pos).value.negated == Some(true) <==> Bangs(n, pos) % 2 == 1) <==> pos % 2 == 0
  {
    hide FirstOf, ParsePath, ParseRoot, SkipNots, Bangs;
    SkipsBangs(n, pos);
  }

  // ---------- Keys ----------

  /** A target, trigger or addition. `own` are its local modifiers followed by the global ones so far;
      an item without local modifiers shares the list of the global ones, if there is one. */
  datatype Item = Item(ref: Ref, own: seq<Mod>, shares: bool, immediate: Option<bool>)

  datatype Items = Items(mods: seq<Mod>, targs: seq<Item>, trigs: seq<Item>, adds: seq<Item>)

  /** The last word on immediacy. */
  function LastImmediate(mods: seq<Mod>): Option<bool> {
    if mods == [] then None
    else
      var last := Immediate(mods[|mods| - 1]);
      if last.Some? then last else LastImmediate(mods[..|mods| - 1])
  }

  predicate Speaks(m: Mod) {
    m.root == "immediate" || m.root == "notImmediate"
  }

  ghost predicate SpeaksLast(mods: seq<Mod>, i: nat) {
    i < |mods| && Speaks(mods[i]) && forall j :: i < j < |mods| ==> !Speaks(mods[j])
  }

  /** The flag is what the last of the modifiers `immediate` and `notImmediate` says. */
  ghost predicate LastWord(flag: Option<bool>, mods: seq<Mod>) {
    match flag
    case None => forall i :: 0 <= i < |mods| ==> !Speaks(mods[i])
    case Some(now) => exists i: nat :: SpeaksLast(mods, i) && now == (mods[i].root == "immediate")
  }

  lemma {:induction false} LastImmediateIsLastWord(mods: seq<Mod>)
    ensures LastWord(LastImmediate(mods), mods)
  {
    if mods != [] {
      var n := |mods| - 1;
      LastImmediateIsLastWord(mods[..n]);
      ImmediateIsSpoken(mods[n]);
      hide Immediate, Speaks;
      if Speaks(mods[n]) {
        assert SpeaksLast(mods, n);
      } else {
        var flag := LastImmediate(mods[..n]);
        assert forall j :: 0 <= j < n ==> mods[..n][j] == mods[j];
        if flag.Some? {
          var i: nat :| SpeaksLast(mods[..n], i) && flag.value == (mods[..n][i].root == "immediate");
          assert SpeaksLast(mods, i);
        }
      }
    }
  }

  lemma ImmediateIsSpoken(m: Mod)
    ensures Immediate(m).Some? <==> Speaks(m)
    ensures Speaks(m) ==> Immediate(m).value == (m.root == "immediate")
  {
  }

  /** Local modifiers have the last word. */
  lemma {:induction false} LocalsComeLast(globals: seq<Mod>, local: seq<Mod>)
    ensures LastImmediate(globals + local) == if LastImmediate(local).Some? then LastImmediate(local) else LastImmediate(globals)
  {
    hide Immediate;
    if local == [] {
      assert globals + local == globals;
    } else {
      var n := |local| - 1;
      LocalsComeLast(globals, local[..n]);
      assert (globals + local)[..|globals| + n] == globals + local[..n];
    }
  }

  function MakeItem(ref: Ref, local: seq<Mod>, globals: seq<Mod>): Item {
    var now := LastImmediate(local);
    Item(ref, if local != [] then local + globals else [], local == [] && globals != [],
         if now.Some? then now else LastImmediate(globals))
  }

  function Push(items: Items, t: char, item: Item): Items {
    if t == ':' then items.(targs := items.targs + [item])
    else if t == '@' then items.(trigs := items.trigs + [item])
    else items.(adds := items.adds + [item])
  }

  /** Where the word at `p` ends: at the next delimiter or the end of the key. */
  function WordEnd(key: string, p: nat): (e: nat)
    requires p <= |key|
    ensures p <= e <= |key|
  {
    var d := FirstOf(key, ALL, p);
    if d < 0 then |key| else d
  }

  /** The local modifiers at `p`, and where they end. */
  function LocalMods(key: string, p: nat): (r: (seq<Mod>, nat))
    requires p <= |key|
    ensures p <= r.1 <= |key|
    decreases |key| - p
  {
    if p < |key| && key[p] == '^' then
      var e := WordEnd(key, p + 1);
      var (rest, q) := LocalMods(key, e);
      var m := ParseMod(key[p + 1..e]);
      ((if m.Some? then [m.value] else []) + rest, q)
    else ([], p)
  }

  /** One turn of the loop, at a delimiter. */
  function Turn(key: string, p: nat, items: Items): (r: (nat, Items))
    requires p < |key|
    ensures p < r.0 <= |key|
  {
    var t := key[p];
    var e := WordEnd(key, p + 1);
    var name := key[p + 1..e];
    if t == '^' then
      var m := ParseMod(name);
      (e, if m.Some? then items.(mods := items.mods + [m.value]) else items)
    else
      var ref := ParseRef(name, 0);
      if ref.None? then (e, items)
      else
        var (local, q) := LocalMods(key, e);
        (q, Push(items, t, MakeItem(ref.value, local, items.mods)))
  }

  function ParseFrom(key: string, p: nat, items: Items): Items
    requires p <= |key|
    decreases |key| - p
  {
    var d := FirstOf(key, ALL, p);
    if d < 0 then items
    else
      var (q, more) := Turn(key, d, items);
      ParseFrom(key, q, more)
  }

  const EMPTY: Items := Items([], [], [], [])

  lemma ParseFromNext(key: string, p: nat, items: Items)
    requires p <= |key|
    ensures var d := FirstOf(key, ALL, p);
            ParseFrom(key, p, items) == if d < 0 then items else ParseFrom(key, Turn(key, d, items).0, Turn(key, d, items).1)
  {
  }

  /** The parser. On every key the cursor ends at the end. */
  method Parse(key: string, from: nat) returns (items: Items, p: nat)
    ensures p == if from < |key| then |key| else from
    ensures items == if from < |key| then ParseFrom(key, from, EMPTY) else EMPTY
  {
    hide *;
    items, p := EMPTY, from;
    if from < |key| {
      while p < |key|
        invariant p <= |key| && ParseFrom(key, from, EMPTY) == ParseFrom(key, p, items)
        decreases |key| - p
      {
        var d := IndexFirst(key, ALL, p);
        ParseFromNext(key, p, items);
        if d < 0 {
          p := |key|;
          return;
        }
        p, items := TakeTurn(key, d, items);
      }
      ParseFromEnd(key, items);
    }
  }

  lemma ParseFromEnd(key: string, items: Items)
    ensures ParseFrom(key, |key|, items) == items
  {
  }

  method Word(key: string, from: nat) returns (name: string, p: nat)
    requires from <= |key|
    ensures p == WordEnd(key, from) && name == key[from..p]
  {
    var end := IndexFirst(key, ALL, from);
    p := if end < 0 then |key| else end;
    name := key[from..p];
  }

  method TakeTurn(key: string, from: nat, before: Items) returns (p: nat, items: Items)
    requires from < |key|
    ensures (p, items) == Turn(key, from, before)
  {
    hide ParseRef, ParseMod, MakeItem, Push, WordEnd, LocalMods;
    items := before;
    var t := key[from];
    var name;
    name, p := Word(key, from + 1);
    if t == '^' {
      var mod := ParseMod(name);
      if mod.Some? {
        items := items.(mods := items.mods + [mod.value]);
      }
    } else {
      var ref := ReadRef(name, 0);
      if ref.Some? {
        var local;
        local, p := ParseLocalMods(key, p);
        items := Push(items, t, MakeItem(ref.value, local, items.mods));
      }
    }
  }

  method ParseLocalMods(key: string, from: nat) returns (local: seq<Mod>, p: nat)
    requires from <= |key|
    ensures (local, p) == LocalMods(key, from)
  {
    hide *;
    local, p := [], from;
    StartLocal(key, from);
    while p < |key| && key[p] == '^'
      invariant p <= |key|
      invariant (local + LocalMods(key, p).0, LocalMods(key, p).1) == LocalMods(key, from)
      decreases |key| - p
    {
      LocalModsNext(key, p, local);
      var name;
      name, p := Word(key, p + 1);
      var m := ParseMod(name);
      if m.Some? {
        local := local + [m.value];
      }
    }
    LocalModsEnd(key, p, local);
  }

  lemma StartLocal(key: string, p: nat)
    requires p <= |key|
    ensures ([] + LocalMods(key, p).0, LocalMods(key, p).1) == LocalMods(key, p)
  {
    hide LocalMods;
    assert [] + LocalMods(key, p).0 == LocalMods(key, p).0;
  }

  lemma LocalModsNext(key: string, p: nat, local: seq<Mod>)
    requires p < |key| && key[p] == '^'
    ensures var e := WordEnd(key, p + 1);
            var m := ParseMod(key[p + 1..e]);
            local + LocalMods(key, p).0 == (if m.Some? then local + [m.value] else local) + LocalMods(key, e).0
            && LocalMods(key, p).1 == LocalMods(key, e).1
  {
    hide ParseMod;
    var e := WordEnd(key, p + 1);
    var m := ParseMod(key[p + 1..e]);
    var rest := LocalMods(key, e).0;
    assert local + ([] + rest) == local + rest;
    assert m.Some? ==> local + ([m.value] + rest) == local + [m.value] + rest;
  }

  lemma LocalModsEnd(key: string, p: nat, local: seq<Mod>)
    requires p <= |key| && !(p < |key| && key[p] == '^')
    ensures (local + LocalMods(key, p).0, LocalMods(key, p).1) == (local, p)
  {
    assert LocalMods(key, p) == ([], p) && local + [] == local;
  }

  // ---------- The notation ----------

  /** A target, trigger or addition as it is written: a mark, a name, and modifiers of its own. */
  datatype Written = Written(mark: char, name: string, mods: seq<string>)

  function WriteMods(mods: seq<string>): string {
    if mods == [] then "" else ['^'] + (mods[0] + WriteMods(mods[1..]))
  }

  function WriteItems(items: seq<Written>): string {
    if items == [] then ""
    else [items[0].mark] + (items[0].name + (WriteMods(items[0].mods) + WriteItems(items[1..])))
  }

  /** No delimiter occurs in the text. */
  ghost predicate Clean(text: string) {
    forall i :: 0 <= i < |text| ==> text[i] !in ALL
  }

  ghost predicate CleanMods(mods: seq<string>) {
    forall i :: 0 <= i < |mods| ==> Clean(mods[i])
  }

  ghost predicate CleanItem(w: Written) {
    (w.mark == ':' || w.mark == '@' || w.mark == '+') && Clean(w.name) && CleanMods(w.mods)
  }

  /** The modifier of a name, if it is one. */
  function ModRead(name: string): seq<Mod> {
    var m := ParseMod(name);
    if m.Some? then [m.value] else []
  }

  ghost function ModsRead(names: seq<string>): seq<Mod> {
    if names == [] then [] else ModRead(names[0]) + ModsRead(names[1..])
  }

  /** An item whose name is no reference is dropped; the modifiers written behind it then count as global
      ones from there on. */
  ghost predicate Dropped(w: Written) {
    ParseRef(w.name, 0).None?
  }

  ghost function GlobalsBehind(w: Written, globals: seq<Mod>): seq<Mod> {
    if Dropped(w) then globals + ModsRead(w.mods) else globals
  }

  /** The global modifiers at the end. */
  ghost function AllGlobals(items: seq<Written>, globals: seq<Mod>): seq<Mod> {
    if items == [] then globals else AllGlobals(items[1..], GlobalsBehind(items[0], globals))
  }

  /** An item has its own modifiers followed by the global ones in front of it; one without own modifiers
      shares the list of global ones, if there is one by then, and so has those from further on as well.
      Its flag is the last word of the global ones in front and its own, in this order. */
  ghost function ItemRead(w: Written, globals: seq<Mod>, all: seq<Mod>): (Ref, seq<Mod>, Option<bool>)
    requires !Dropped(w)
  {
    var own := ModsRead(w.mods);
    (ParseRef(w.name, 0).value, if own != [] then own + globals else if globals != [] then all else [], LastImmediate(globals + own))
  }

  /** The items of one mark, in order. */
  ghost function ItemsRead(items: seq<Written>, mark: char, globals: seq<Mod>, all: seq<Mod>): seq<(Ref, seq<Mod>, Option<bool>)> {
    if items == [] then []
    else
      var w := items[0];
      (if w.mark == mark && !Dropped(w) then [ItemRead(w, globals, all)] else [])
      + ItemsRead(items[1..], mark, GlobalsBehind(w, globals), all)
  }

  function Of(items: Items, mark: char): seq<Item> {
    if mark == ':' then items.targs else if mark == '@' then items.trigs else items.adds
  }

  /** The items of one mark with their modifiers and flags, where those that share the list of global
      modifiers find these in it. */
  ghost function Resolved(items: Items, mark: char, all: seq<Mod>): seq<(Ref, seq<Mod>, Option<bool>)> {
    var of := Of(items, mark);
    seq(|of|, i requires 0 <= i < |of| => (of[i].ref, if of[i].shares then all else of[i].own, of[i].immediate))
  }

  /** The key continues after position `p` with `text`. */
  ghost predicate Continues(key: string, p: nat, text: string) {
    p <= |key| && key[p..] == text
  }

  /** What follows a word is a delimiter or nothing. */
  ghost predicate Ends(text: string) {
    text == "" || text[0] in ALL
  }

  ghost predicate NoMoreMods(text: string) {
    text == "" || text[0] != '^'
  }

  lemma WordRead(key: string, p: nat, name: string, rest: string)
    requires Continues(key, p, name + rest) && Clean(name) && Ends(rest)
    ensures p + |name| <= |key| && WordEnd(key, p) == p + |name| && key[p..p + |name|] == name && Continues(key, p + |name|, rest)
  {
    assert forall i :: p <= i < |key| ==> key[i] == (name + rest)[i - p];
    if rest == "" {
      NoFirst(key, ALL, p);
    } else {
      assert key[p + |name|] == rest[0];
      FirstIs(key, ALL, p, p + |name|);
    }
  }

  lemma MarkRead(key: string, p: nat, mark: char, text: string)
    requires Continues(key, p, [mark] + text)
    ensures p < |key| && key[p] == mark && Continues(key, p + 1, text)
    ensures mark in ALL ==> FirstOf(key, ALL, p) == p
  {
    assert key[p] == key[p..][0] && key[p + 1..] == key[p..][1..];
  }

  lemma NothingRead(key: string, p: nat)
    requires Continues(key, p, "")
    ensures p == |key|
  {
  }

  lemma WriteModsFirst(mods: seq<string>, rest: string)
    requires mods != [] && Ends(rest)
    ensures var after := WriteMods(mods[1..]) + rest;
            WriteMods(mods) + rest == ['^'] + (mods[0] + after) && Ends(after)
            && |WriteMods(mods)| == 1 + |mods[0]| + |WriteMods(mods[1..])|
  {
    var more := WriteMods(mods[1..]);
    assert WriteMods(mods) == ['^'] + (mods[0] + more);
    Associate(['^'], mods[0], more, rest);
    ModsThenRest(mods[1..], rest);
    hide WriteMods;
  }

  lemma Associate(a: string, b: string, c: string, d: string)
    ensures a + (b + c) + d == a + (b + (c + d))
  {
  }

  lemma ModsThenRest(mods: seq<string>, rest: string)
    requires Ends(rest)
    ensures Ends(WriteMods(mods) + rest)
  {
    if mods == [] {
      assert WriteMods(mods) + rest == rest;
    } else {
      var text := mods[0] + WriteMods(mods[1..]);
      assert WriteMods(mods) == ['^'] + text;
      hide WriteMods;
      assert (['^'] + text + rest)[0] == '^';
    }
  }

  lemma LocalModsAt(key: string, p: nat)
    requires p < |key| && key[p] == '^'
    ensures var e := WordEnd(key, p + 1);
            LocalMods(key, p) == (ModRead(key[p + 1..e]) + LocalMods(key, e).0, LocalMods(key, e).1)
  {
    hide ParseMod;
  }

  lemma NoLocalMods(key: string, p: nat, rest: string)
    requires Continues(key, p, WriteMods([]) + rest) && NoMoreMods(rest)
    ensures Continues(key, p, rest) && LocalMods(key, p) == ([], p)
  {
    assert WriteMods([]) + rest == rest;
    assert p < |key| ==> key[p] == key[p..][0];
  }

  /** Written modifiers are read back, whatever follows that is not one more modifier. */
  lemma {:induction false} LocalModsRead(key: string, p: nat, mods: seq<string>, rest: string)
    requires Continues(key, p, WriteMods(mods) + rest) && CleanMods(mods) && Ends(rest) && NoMoreMods(rest)
    ensures Continues(key, p + |WriteMods(mods)|, rest)
    ensures LocalMods(key, p) == (ModsRead(mods), p + |WriteMods(mods)|)
    decreases |mods|
  {
    hide ParseMod, LocalMods, WordEnd, Continues, Ends, NoMoreMods, Clean, ModRead;
    if mods == [] {
      NoLocalMods(key, p, rest);
    } else {
      var name, after := mods[0], WriteMods(mods[1..]) + rest;
      WriteModsFirst(mods, rest);
      hide WriteMods;
      assert Clean(name);
      MarkRead(key, p, '^', name + after);
      WordRead(key, p + 1, name, after);
      LocalModsAt(key, p);
      LocalModsRead(key, p + 1 + |name|, mods[1..], rest);
    }
  }

  // ---------- Reading a whole key ----------

  ghost function PushWritten(items: Items, w: Written): Items {
    if Dropped(w) then items.(mods := items.mods + ModsRead(w.mods))
    else Push(items, w.mark, MakeItem(ParseRef(w.name, 0).value, ModsRead(w.mods), items.mods))
  }

  ghost function PushAll(items: Items, ws: seq<Written>): Items
    decreases |ws|
  {
    if ws == [] then items else PushAll(PushWritten(items, ws[0]), ws[1..])
  }

  lemma TurnAt(key: string, p: nat, items: Items)
    requires p < |key|
    ensures var e := WordEnd(key, p + 1);
            var name := key[p + 1..e];
            && (key[p] == '^' ==> Turn(key, p, items) == (e, items.(mods := items.mods + ModRead(name))))
            && (key[p] != '^' && ParseRef(name, 0).None? ==> Turn(key, p, items) == (e, items))
            && (key[p] != '^' && ParseRef(name, 0).Some? ==>
                  var (local, q) := LocalMods(key, e);
                  Turn(key, p, items) == (q, Push(items, key[p], MakeItem(ParseRef(name, 0).value, local, items.mods))))
  {
    hide ParseMod, ParseRef, MakeItem, Push, LocalMods, WordEnd;
    assert items.mods + [] == items.mods;
  }

  lemma WriteItemsFirst(ws: seq<Written>)
    requires ws != [] && forall i :: 0 <= i < |ws| ==> CleanItem(ws[i])
    ensures var rest := WriteItems(ws[1..]);
            && WriteItems(ws) == [ws[0].mark] + (ws[0].name + (WriteMods(ws[0].mods) + rest))
            && Ends(rest) && NoMoreMods(rest) && Ends(WriteMods(ws[0].mods) + rest)
  {
    hide ParseRef, CleanMods, Clean, WriteMods;
    var w, rest := ws[0], WriteItems(ws[1..]);
    assert CleanItem(w) && (ws[1..] != [] ==> CleanItem(ws[1..][0]));
    ItemsEnd(ws[1..]);
    hide WriteItems;
    ModsThenRest(w.mods, rest);
  }

  lemma ItemsEnd(ws: seq<Written>)
    requires forall i :: 0 <= i < |ws| ==> CleanItem(ws[i])
    ensures Ends(WriteItems(ws)) && NoMoreMods(WriteItems(ws))
  {
    hide ParseRef, CleanMods, Clean, WriteMods;
    if ws != [] {
      var text := ws[0].name + (WriteMods(ws[0].mods) + WriteItems(ws[1..]));
      assert CleanItem(ws[0]) && WriteItems(ws) == [ws[0].mark] + text;
      hide WriteItems;
    }
  }

  lemma ItemParsed(key: string, p: nat, w: Written, rest: string, items: Items)
    requires Continues(key, p, [w.mark] + (w.name + (WriteMods(w.mods) + rest))) && CleanItem(w)
    requires Ends(rest) && NoMoreMods(rest) && Ends(WriteMods(w.mods) + rest)
    ensures var q := p + 1 + |w.name| + |WriteMods(w.mods)|;
            Continues(key, q, rest) && ParseFrom(key, p, items) == ParseFrom(key, q, PushWritten(items, w))
  {
    hide ParseMod, ParseRef, LocalMods, WordEnd, Continues, Ends, NoMoreMods, Clean, ModRead, Turn, ParseFrom,
      Push, MakeItem, CleanMods, FirstOf, ModsRead, WriteMods;
    MarkRead(key, p, w.mark, w.name + (WriteMods(w.mods) + rest));
    WordRead(key, p + 1, w.name, WriteMods(w.mods) + rest);
    TurnAt(key, p, items);
    ParseFromNext(key, p, items);
    if Dropped(w) {
      GlobalsParsed(key, p + 1 + |w.name|, w.mods, rest, items);
    } else {
      LocalModsRead(key, p + 1 + |w.name|, w.mods, rest);
    }
  }

  lemma {:induction false} ItemsParsed(key: string, p: nat, ws: seq<Written>, items: Items)
    requires Continues(key, p, WriteItems(ws)) && forall i :: 0 <= i < |ws| ==> CleanItem(ws[i])
    ensures ParseFrom(key, p, items) == PushAll(items, ws)
    decreases |ws|
  {
    hide Continues, Ends, NoMoreMods, ParseFrom, CleanItem, WriteMods, PushWritten;
    if ws == [] {
      NothingRead(key, p);
      ParseFromEnd(key, items);
    } else {
      var w := ws[0];
      WriteItemsFirst(ws);
      hide WriteItems;
      ItemParsed(key, p, w, WriteItems(ws[1..]), items);
      ItemsParsed(key, p + 1 + |w.name| + |WriteMods(w.mods)|, ws[1..], PushWritten(items, w));
    }
  }

  lemma {:induction false} GlobalsParsed(key: string, p: nat, globals: seq<string>, rest: string, items: Items)
    requires Continues(key, p, WriteMods(globals) + rest) && CleanMods(globals) && Ends(rest)
    ensures Continues(key, p + |WriteMods(globals)|, rest)
    ensures ParseFrom(key, p, items) == ParseFrom(key, p + |WriteMods(globals)|, items.(mods := items.mods + ModsRead(globals)))
    decreases |globals|
  {
    hide ParseMod, LocalMods, WordEnd, Continues, Ends, Clean, ModRead, Turn, ParseFrom, FirstOf;
    if globals == [] {
      assert WriteMods(globals) + rest == rest && items.mods + [] == items.mods;
    } else {
      var name, after := globals[0], WriteMods(globals[1..]) + rest;
      WriteModsFirst(globals, rest);
      hide WriteMods;
      assert Clean(name);
      MarkRead(key, p, '^', name + after);
      WordRead(key, p + 1, name, after);
      TurnAt(key, p, items);
      ParseFromNext(key, p, items);
      var next := items.(mods := items.mods + ModRead(name));
      assert next.mods + ModsRead(globals[1..]) == items.mods + (ModRead(name) + ModsRead(globals[1..]));
      GlobalsParsed(key, p + 1 + |name|, globals[1..], rest, next);
    }
  }

  lemma {:induction false} PushAllResolved(items: Items, ws: seq<Written>, mark: char, all: seq<Mod>)
    requires (mark == ':' || mark == '@' || mark == '+') && forall i :: 0 <= i < |ws| ==> CleanItem(ws[i])
    ensures PushAll(items, ws).mods == AllGlobals(ws, items.mods)
    ensures Resolved(PushAll(items, ws), mark, all) == Resolved(items, mark, all) + ItemsRead(ws, mark, items.mods, all)
    decreases |ws|
  {
    hide ParseRef, ParseMod, ModsRead, CleanMods, Clean, LastImmediate, Resolved, PushWritten, ItemRead, Dropped;
    if ws == [] {
      assert Resolved(items, mark, all) + [] == Resolved(items, mark, all);
    } else {
      var w, next := ws[0], PushWritten(items, ws[0]);
      assert CleanItem(w);
      PushResolved(items, w, mark, all);
      PushAllResolved(next, ws[1..], mark, all);
      var one := if w.mark == mark && !Dropped(w) then [ItemRead(w, items.mods, all)] else [];
      var before, rest := Resolved(items, mark, all), ItemsRead(ws[1..], mark, next.mods, all);
      assert before + one + rest == before + (one + rest);
    }
  }

  lemma PushResolved(items: Items, w: Written, mark: char, all: seq<Mod>)
    requires (mark == ':' || mark == '@' || mark == '+') && (w.mark == ':' || w.mark == '@' || w.mark == '+')
    ensures var next := PushWritten(items, w);
            next.mods == GlobalsBehind(w, items.mods)
            && Resolved(next, mark, all) == Resolved(items, mark, all)
               + if w.mark == mark && !Dropped(w) then [ItemRead(w, items.mods, all)] else []
  {
    hide ParseRef, ModsRead, LastImmediate;
    var next := PushWritten(items, w);
    if Dropped(w) {
      assert Resolved(items, mark, all) + [] == Resolved(items, mark, all);
    } else {
      var item := MakeItem(ParseRef(w.name, 0).value, ModsRead(w.mods), items.mods);
      assert Of(next, mark) == Of(items, mark) + if w.mark == mark then [item] else [];
      LocalsComeLast(items.mods, ModsRead(w.mods));
      hide MakeItem, PushWritten;
    }
  }

  lemma PrefixSkipped(key: string, from: nat, p: nat, items: Items)
    requires from <= p <= |key| && Clean(key[from..p])
    ensures ParseFrom(key, from, items) == ParseFrom(key, p, items)
    decreases p - from
  {
    hide Turn;
    if from < p {
      assert key[from] == key[from..p][0];
      assert FirstOf(key, ALL, from) == FirstOf(key, ALL, from + 1);
      assert key[from + 1..p] == key[from..p][1..];
      PrefixSkipped(key, from + 1, p, items);
    }
  }

  /** Every key is a prefix, global modifiers and items, and is parsed into those of the items whose name
      is a reference, in order for each mark, each with its modifiers and flag. */
  lemma NotationIsRecovered(prefix: string, from: nat, globals: seq<string>, ws: seq<Written>)
    requires from <= |prefix| && Clean(prefix[from..]) && CleanMods(globals)
    requires forall i :: 0 <= i < |ws| ==> CleanItem(ws[i])
    ensures var key := prefix + (WriteMods(globals) + WriteItems(ws));
            var items := ParseFrom(key, from, EMPTY);
            && items.mods == AllGlobals(ws, ModsRead(globals))
            && Resolved(items, ':', items.mods) == ItemsRead(ws, ':', ModsRead(globals), items.mods)
            && Resolved(items, '@', items.mods) == ItemsRead(ws, '@', ModsRead(globals), items.mods)
            && Resolved(items, '+', items.mods) == ItemsRead(ws, '+', ModsRead(globals), items.mods)
  {
    hide ParseFrom, WriteMods, WriteItems, CleanMods, CleanItem, ModsRead, Clean, PushAll, ItemsRead, AllGlobals;
    var rest := WriteItems(ws);
    var key := prefix + (WriteMods(globals) + rest);
    var p := |prefix|;
    assert key[from..p] == prefix[from..];
    PrefixSkipped(key, from, p, EMPTY);
    assert Continues(key, p, WriteMods(globals) + rest);
    ItemsEnd(ws);
    GlobalsParsed(key, p, globals, rest, EMPTY);
    assert [] + ModsRead(globals) == ModsRead(globals);
    var start := EMPTY.(mods := ModsRead(globals));
    ItemsParsed(key, p + |WriteMods(globals)|, ws, start);
    var all := PushAll(start, ws).mods;
    NoneResolved(start, all);
    PushAllResolved(start, ws, ':', all);
    PushAllResolved(start, ws, '@', all);
    PushAllResolved(start, ws, '+', all);
  }

  lemma NoneResolved(items: Items, all: seq<Mod>)
    requires items.targs == items.trigs == items.adds == []
    ensures Resolved(items, ':', all) == Resolved(items, '@', all) == Resolved(items, '+', all) == []
  {
  }

  /** Any key can be taken apart in this way. */
  lemma EveryKeyIsWritten(key: string, from: nat) returns (prefix: string, globals: seq<string>, ws: seq<Written>)
    requires from <= |key|
    ensures key == prefix + (WriteMods(globals) + WriteItems(ws))
    ensures from <= |prefix| && Clean(prefix[from..]) && CleanMods(globals) && forall i :: 0 <= i < |ws| ==> CleanItem(ws[i])
  {
    var p := WordEnd(key, from);
    globals, ws := TakenApart(key, p);
    hide WriteMods, WriteItems, CleanMods, CleanItem;
    prefix := key[..p];
    assert key == key[..p] + key[p..];
    assert prefix[from..] == key[from..p];
  }

  lemma {:induction false} TakenApart(key: string, p: nat) returns (globals: seq<string>, ws: seq<Written>)
    requires p <= |key| && (p < |key| ==> key[p] in ALL)
    ensures key[p..] == WriteMods(globals) + WriteItems(ws)
    ensures CleanMods(globals) && forall i :: 0 <= i < |ws| ==> CleanItem(ws[i])
    decreases |key| - p
  {
    globals, ws := [], [];
    if p < |key| {
      var e := WordEnd(key, p + 1);
      var word := key[p + 1..e];
      WordTaken(key, p, e);
      var mods, items := TakenApart(key, e);
      hide WordEnd, Clean, WriteMods, WriteItems;
      NoModsWritten(WriteItems(items));
      if key[p] == '^' {
        globals, ws := [word] + mods, items;
        WrittenFirst(word, mods, WriteItems(items));
      } else {
        ws := [Written(key[p], word, mods)] + items;
        ItemFirst(ws[0], items);
        NoModsWritten(WriteItems(ws));
      }
    } else {
      NoModsWritten(WriteItems([]));
    }
  }

  lemma WordTaken(key: string, p: nat, e: nat)
    requires p < |key| && e == WordEnd(key, p + 1)
    ensures Clean(key[p + 1..e]) && key[p..] == [key[p]] + (key[p + 1..e] + key[e..]) && (e < |key| ==> key[e] in ALL)
  {
  }

  lemma NoModsWritten(rest: string)
    ensures WriteMods([]) + rest == rest && WriteItems([]) == ""
  {
  }

  lemma WrittenFirst(word: string, mods: seq<string>, rest: string)
    ensures WriteMods([word] + mods) + rest == ['^'] + (word + (WriteMods(mods) + rest))
  {
    var more := WriteMods(mods);
    assert ([word] + mods)[1..] == mods;
    Associate(['^'], word, more, rest);
  }

  lemma ItemFirst(w: Written, items: seq<Written>)
    ensures WriteItems([w] + items) == [w.mark] + (w.name + (WriteMods(w.mods) + WriteItems(items)))
  {
    assert ([w] + items)[1..] == items;
  }

  // ---------- References as they are written ----------

  /** A part of a path: a name behind a dot, or an index in brackets. */
  datatype Segment = Name(name: string) | Index(digits: string)

  function WritePath(segments: seq<Segment>): string {
    if segments == [] then ""
    else
      var rest := WritePath(segments[1..]);
      match segments[0]
      case Name(name) => ['.'] + (name + rest)
      case Index(digits) => ['['] + (digits + ([']'] + rest))
  }

  function PathOf(segments: seq<Segment>): seq<string> {
    if segments == [] then []
    else
      match segments[0]
      case Name(name) => [ToCamel(name)] + PathOf(segments[1..])
      case Index(digits) => [digits] + PathOf(segments[1..])
  }

  /** No name delimiter occurs in the text. */
  ghost predicate OneName(text: string) {
    forall i :: 0 <= i < |text| ==> text[i] !in NAME_DELIMS
  }

  ghost predicate Simple(text: string) {
    text != "" && OneName(text)
  }

  ghost predicate GoodSegment(s: Segment) {
    match s
    case Name(name) => Simple(name)
    case Index(digits) => IsDigits(digits)
  }

  ghost predicate EndsName(text: string) {
    text == "" || text[0] in NAME_DELIMS
  }

  lemma NameRead(n: string, p: nat, name: string, rest: string)
    requires Continues(n, p, name + rest) && OneName(name) && EndsName(rest)
    ensures var d := FirstOf(n, NAME_DELIMS, p);
            && p + |name| <= |n| && (if d < 0 then |n| else d) == p + |name| && n[p..p + |name|] == name
            && Continues(n, p + |name|, rest) && (d < 0 <==> rest == "") && (d < 0 ==> n[p..] == name)
  {
    assert forall i :: p <= i < |n| ==> n[i] == (name + rest)[i - p];
    if rest == "" {
      NoFirst(n, NAME_DELIMS, p);
    } else {
      assert n[p + |name|] == rest[0];
      FirstIs(n, NAME_DELIMS, p, p + |name|);
    }
  }

  lemma DigitsRead(n: string, p: nat, digits: string, rest: string)
    requires Continues(n, p, digits + ([']'] + rest)) && IsDigits(digits)
    ensures p + |digits| < |n| && IndexOf(n, ']', p) == p + |digits| && n[p..p + |digits|] == digits
    ensures Continues(n, p + |digits| + 1, rest)
  {
    var text := digits + ([']'] + rest);
    assert forall i :: p <= i < |n| ==> n[i] == text[i - p];
    FirstIs(n, [']'], p, p + |digits|);
  }

  lemma PathEnds(segments: seq<Segment>)
    ensures EndsName(WritePath(segments))
  {
    if segments != [] {
      match segments[0]
      case Name(name) => assert WritePath(segments)[0] == '.';
      case Index(digits) => assert WritePath(segments)[0] == '[';
    }
  }

  lemma NameStep(n: string, p: nat, end: nat)
    requires p < end <= |n| && n[p] == '.' && end > p + 1
    requires end == var d := FirstOf(n, NAME_DELIMS, p + 1); if d < 0 then |n| else d
    ensures ParsePath(n, p) == Prepend(ToCamel(n[p + 1..end]), ParsePath(n, end))
  {
    hide ToCamel;
  }

  lemma IndexStep(n: string, p: nat)
    requires p < |n| && n[p] == '['
    ensures var d := IndexOf(n, ']', p + 1);
            d >= 0 && IsDigits(n[p + 1..d]) ==> ParsePath(n, p) == Prepend(n[p + 1..d], ParsePath(n, d + 1))
  {
    hide IsDigits;
  }

  /** A written path is read back. */
  lemma {:induction false} PathRead(n: string, p: nat, segments: seq<Segment>)
    requires Continues(n, p, WritePath(segments)) && forall i :: 0 <= i < |segments| ==> GoodSegment(segments[i])
    ensures ParsePath(n, p) == Some(PathOf(segments))
    decreases |segments|
  {
    hide *;
    if segments == [] {
      NoSegments();
      NothingRead(n, p);
      PathDone(n);
    } else {
      var rest := WritePath(segments[1..]);
      PathEnds(segments[1..]);
      FirstSegment(segments);
      match segments[0]
      case Name(name) =>
        MarkRead(n, p, '.', name + rest);
        NameRead(n, p + 1, name, rest);
        NameStep(n, p, p + 1 + |name|);
        PathRead(n, p + 1 + |name|, segments[1..]);
      case Index(digits) =>
        MarkRead(n, p, '[', digits + ([']'] + rest));
        DigitsRead(n, p + 1, digits, rest);
        IndexStep(n, p);
        PathRead(n, p + 2 + |digits|, segments[1..]);
    }
  }

  /** Nothing else is read as a path. */
  lemma {:induction false} PathOnlyWritten(n: string, p: nat) returns (segments: seq<Segment>)
    requires p <= |n| && ParsePath(n, p).Some?
    ensures Continues(n, p, WritePath(segments)) && GoodPath(segments) && ParsePath(n, p) == Some(PathOf(segments))
    decreases |n| - p
  {
    hide ToCamel, IsDigits;
    segments := [];
    if p < |n| {
      if n[p] == '.' {
        var d := FirstOf(n, NAME_DELIMS, p + 1);
        var end := if d < 0 then |n| else d;
        var rest := PathOnlyWritten(n, end);
        segments := NameInFront(n, p, end, rest);
      } else {
        var d := IndexOf(n, ']', p + 1);
        var rest := PathOnlyWritten(n, d + 1);
        segments := IndexInFront(n, p, d, rest);
      }
    }
  }

  lemma NameInFront(n: string, p: nat, end: nat, rest: seq<Segment>) returns (segments: seq<Segment>)
    requires p + 1 < end <= |n| && n[p] == '.' && OneName(n[p + 1..end])
    requires Continues(n, end, WritePath(rest)) && GoodPath(rest)
    ensures Continues(n, p, WritePath(segments)) && GoodPath(segments)
    ensures PathOf(segments) == [ToCamel(n[p + 1..end])] + PathOf(rest)
  {
    hide ToCamel, OneName;
    var name := n[p + 1..end];
    segments := [Name(name)] + rest;
    assert segments[1..] == rest;
    assert n[p..] == ['.'] + (name + n[end..]);
  }

  lemma IndexInFront(n: string, p: nat, d: nat, rest: seq<Segment>) returns (segments: seq<Segment>)
    requires p < d < |n| && n[p] == '[' && n[d] == ']' && IsDigits(n[p + 1..d])
    requires Continues(n, d + 1, WritePath(rest)) && GoodPath(rest)
    ensures Continues(n, p, WritePath(segments)) && GoodPath(segments)
    ensures PathOf(segments) == [n[p + 1..d]] + PathOf(rest)
  {
    hide IsDigits;
    var digits := n[p + 1..d];
    segments := [Index(digits)] + rest;
    assert segments[1..] == rest;
    assert n[p..] == ['['] + (digits + ([']'] + n[d + 1..]));
  }

  lemma NoSegments()
    ensures WritePath([]) == "" && PathOf([]) == []
  {
  }

  lemma FirstSegment(segments: seq<Segment>)
    requires segments != [] && GoodSegment(segments[0])
    ensures var rest := WritePath(segments[1..]);
            match segments[0]
            case Name(name) =>
              WritePath(segments) == ['.'] + (name + rest) && OneName(name) && |name| > 0
              && Some(PathOf(segments)) == Prepend(ToCamel(name), Some(PathOf(segments[1..])))
            case Index(digits) =>
              WritePath(segments) == ['['] + (digits + ([']'] + rest)) && IsDigits(digits)
              && Some(PathOf(segments)) == Prepend(digits, Some(PathOf(segments[1..])))
  {
    hide ToCamel;
  }

  lemma PathDone(n: string)
    ensures ParsePath(n, |n|) == Some([])
  {
  }

  ghost predicate GoodPath(segments: seq<Segment>) {
    forall i :: 0 <= i < |segments| ==> GoodSegment(segments[i])
  }

  function Marks(k: nat): string {
    if k == 0 then "" else ['!'] + Marks(k - 1)
  }

  /** A root as it is written: an element behind `#`, a special source behind `_`, a signal as it is;
      without a name it is the element itself. */
  function Head(kind: Kind, name: string): string {
    match kind
    case Signal => name
    case Element => if name == "" then "" else ['#'] + name
    case Special => ['_'] + name
  }

  /** The name can be written as a root of this kind. */
  ghost predicate GoodRoot(kind: Kind, name: string) {
    && OneName(name)
    && match kind
       case Signal => name != "" && name[0] != '!' && name[0] != '#' && !IsSpecial(name)
       case Element => true
       case Special => IsSpecial(['_'] + name)
  }

  function RootRead(kind: Kind, name: string): string {
    if kind == Signal then ToCamel(name) else name
  }

  function WriteRef(marks: nat, kind: Kind, name: string, segments: seq<Segment>): string {
    Marks(marks) + (Head(kind, name) + WritePath(segments))
  }

  lemma {:induction false} MarksRead(n: string, p: nat, marks: nat, rest: string)
    requires Continues(n, p, Marks(marks) + rest) && (rest == "" || rest[0] != '!')
    ensures SkipNots(n, p) == p + marks && Continues(n, p + marks, rest)
    decreases marks
  {
    if marks == 0 {
      assert Marks(0) + rest == rest;
      assert p < |n| ==> n[p] == n[p..][0];
    } else {
      assert Marks(marks) + rest == ['!'] + (Marks(marks - 1) + rest);
      MarkRead(n, p, '!', Marks(marks - 1) + rest);
      MarksRead(n, p + 1, marks - 1, rest);
    }
  }

  lemma HeadRead(kind: Kind, name: string)
    requires GoodRoot(kind, name)
    ensures ParseRoot(Head(kind, name)) == Some((kind, RootRead(kind, name)))
    ensures OneName(Head(kind, name)) && (Head(kind, name) == "" || Head(kind, name)[0] != '!')
  {
    hide ToCamel;
    var head := Head(kind, name);
    match kind {
      case Signal =>
      case Element => assert head != "" ==> head[1..] == name;
      case Special =>
        assert head[1..] == name;
        assert name == "" ==> !IsSpecial(head);
    }
  }

  lemma PathAhead(head: string, segments: seq<Segment>)
    requires head == "" || head[0] != '!'
    ensures var text := head + WritePath(segments); text == "" || text[0] != '!'
  {
    PathEnds(segments);
    hide WritePath;
  }

  /** A written reference of any kind, with any number of marks, is read back from wherever it begins:
      its root by name and its path part by part; a bare mark alone is no reference. Only the sign
      depends on the position. */
  lemma ReferenceIsRecovered(n: string, pos: nat, marks: nat, kind: Kind, name: string, segments: seq<Segment>)
    requires n != "" && Continues(n, pos, WriteRef(marks, kind, name, segments)) && GoodRoot(kind, name) && GoodPath(segments)
    ensures var root, sign := RootRead(kind, name), Sign(pos + marks);
            ParseRef(n, pos) == if root == "" && segments == [] && sign.Some? then None
                                else Some(Ref(kind, sign, root, if segments == [] then None else Some(PathOf(segments))))
  {
    hide ToCamel, FirstOf, ParsePath, WritePath, PathOf, ParseRoot, SkipNots, Marks, Head, RootRead, GoodRoot, OneName, Sign;
    var head, rest := Head(kind, name), WritePath(segments);
    var p := pos + marks;
    HeadRead(kind, name);
    PathAhead(head, segments);
    MarksRead(n, pos, marks, head + rest);
    PathEnds(segments);
    NameRead(n, p, head, rest);
    PathRead(n, p + |head|, segments);
    NoPathIff(segments);
  }

  /** A single dot behind the root is passed over, even behind a root without a name. */
  lemma TrailingDotIsRead(n: string, pos: nat, marks: nat, kind: Kind, name: string)
    requires Continues(n, pos, WriteRef(marks, kind, name, []) + ".") && GoodRoot(kind, name)
    ensures ParseRef(n, pos) == Some(Ref(kind, Sign(pos + marks), RootRead(kind, name), None))
  {
    hide *;
    var head, p := Head(kind, name), pos + marks;
    DottedText(marks, kind, name);
    HeadRead(kind, name);
    NoMarkAhead(head);
    MarksRead(n, pos, marks, head + ".");
    NameRead(n, p, head, ".");
    DottedRef(n, pos, p, kind, RootRead(kind, name), head);
  }

  lemma DottedText(marks: nat, kind: Kind, name: string)
    ensures WriteRef(marks, kind, name, []) + "." == Marks(marks) + (Head(kind, name) + ".")
  {
    hide Marks, Head;
    assert WritePath([]) == "";
    var m, h := Marks(marks), Head(kind, name);
    assert m + (h + "") + "." == m + (h + ".");
  }

  lemma NoMarkAhead(head: string)
    ensures EndsName(".") && (head == "" || head[0] != '!' ==> (head + ".")[0] != '!')
  {
  }

  lemma DottedRef(n: string, pos: nat, p: nat, kind: Kind, root: string, head: string)
    requires Continues(n, p + |head|, ".") && pos <= p && p + |head| <= |n| && n[p..p + |head|] == head
    requires SkipNots(n, pos) == p && FirstOf(n, NAME_DELIMS, p) == p + |head| && ParseRoot(head) == Some((kind, root))
    ensures ParseRef(n, pos) == Some(Ref(kind, Sign(p), root, None))
  {
    hide FirstOf, ParsePath, ParseRoot, SkipNots, Sign;
    var d := p + |head|;
    assert n[d] == n[d..][0];
  }

  /** Nothing else is read as a reference, except that a single dot may end one without a path. */
  lemma ReferenceOnlyWritten(n: string, pos: nat)
    returns (marks: nat, kind: Kind, name: string, segments: seq<Segment>, dotted: bool)
    requires pos <= |n| && ParseRef(n, pos).Some?
    ensures GoodRoot(kind, name) && GoodPath(segments) && (dotted ==> segments == [])
    ensures n[pos..] == WriteRef(marks, kind, name, segments) + (if dotted then "." else "")
    ensures ParseRef(n, pos)
            == Some(Ref(kind, Sign(pos + marks), RootRead(kind, name), if segments == [] then None else Some(PathOf(segments))))
  {
    hide *;
    marks := NotsAreMarks(n, pos);
    var p := pos + marks;
    var d, end := RefParts(n, pos, p);
    kind, name := RootOnlyWritten(n[p..end]);
    dotted := d >= 0 && n[d] == '.' && d + 1 == |n|;
    segments := [];
    NoSegments();
    if d >= 0 && !dotted {
      segments := PathOnlyWritten(n, d);
      PathIsThere(n, d, segments);
    } else {
      NothingBehind(n, end, dotted);
    }
    RefTogether(n, pos, marks, end, kind, name, segments, dotted);
  }

  lemma RefParts(n: string, pos: nat, p: nat) returns (d: int, end: nat)
    requires pos <= |n| && SkipNots(n, pos) == p <= |n| && (p < |n| ==> n[p] != '!') && ParseRef(n, pos).Some?
    ensures d == FirstOf(n, NAME_DELIMS, p) && (if d < 0 then end == |n| else end == d < |n|) && p <= end
    ensures OneName(n[p..end]) && ParseRoot(n[p..end]).Some? && (n[p..end] == "" || n[p..end][0] != '!')
    ensures var (kind, root) := ParseRoot(n[p..end]).value;
            if d < 0 || (n[d] == '.' && d + 1 == |n|) then ParseRef(n, pos) == Some(Ref(kind, Sign(p), root, None))
            else ParsePath(n, d).Some? && ParseRef(n, pos) == Some(Ref(kind, Sign(p), root, ParsePath(n, d)))
  {
    hide ParsePath, ParseRoot, SkipNots, Sign;
    d := FirstOf(n, NAME_DELIMS, p);
    end := if d < 0 then |n| else d;
    assert d < 0 ==> n[p..] == n[p..end];
    assert forall i :: 0 <= i < |n[p..end]| ==> n[p..end][i] == n[p + i];
    hide FirstOf;
  }

  lemma PathIsThere(n: string, d: nat, segments: seq<Segment>)
    requires d < |n| && Continues(n, d, WritePath(segments))
    ensures segments != [] && n[d..] == WritePath(segments) + ""
  {
  }

  lemma NothingBehind(n: string, end: nat, dotted: bool)
    requires end <= |n| && if dotted then end + 1 == |n| && n[end] == '.' else end == |n|
    ensures n[end..] == "" + (if dotted then "." else "") && GoodPath([])
  {
  }

  lemma RefTogether(n: string, pos: nat, marks: nat, end: nat, kind: Kind, name: string, segments: seq<Segment>, dotted: bool)
    requires pos + marks <= end <= |n| && n[pos..pos + marks] == Marks(marks) && Head(kind, name) == n[pos + marks..end]
    requires n[end..] == WritePath(segments) + (if dotted then "." else "")
    ensures n[pos..] == WriteRef(marks, kind, name, segments) + (if dotted then "." else "")
  {
    hide Marks, Head, WritePath;
    var tail := if dotted then "." else "";
    assert n[pos..] == n[pos..pos + marks] + (n[pos + marks..end] + n[end..]);
    Associate(Marks(marks), Head(kind, name), WritePath(segments), tail);
  }

  lemma {:induction false} NotsAreMarks(n: string, pos: nat) returns (marks: nat)
    requires pos <= |n|
    ensures SkipNots(n, pos) == pos + marks <= |n| && n[pos..pos + marks] == Marks(marks)
    ensures pos + marks < |n| ==> n[pos + marks] != '!'
    decreases |n| - pos
  {
    marks := 0;
    if pos < |n| && n[pos] == '!' {
      var more := NotsAreMarks(n, pos + 1);
      marks := more + 1;
      assert n[pos..pos + marks] == ['!'] + n[pos + 1..pos + marks];
    }
  }

  lemma RootOnlyWritten(head: string) returns (kind: Kind, name: string)
    requires OneName(head) && (head == "" || head[0] != '!') && ParseRoot(head).Some?
    ensures GoodRoot(kind, name) && Head(kind, name) == head && ParseRoot(head) == Some((kind, RootRead(kind, name)))
  {
    hide ToCamel;
    if head == "" {
      kind, name := Element, "";
    } else if head[0] == '#' || IsSpecial(head) {
      kind, name := if head[0] == '#' then Element else Special, head[1..];
      assert head == [head[0]] + head[1..];
    } else {
      kind, name := Signal, head;
    }
  }

  /** A reference as the argument of a modifier is read back too, but its sign is that of its own marks
      exactly when the text before it, modifier and dot, has even length: an unmarked one is taken for
      negated behind a modifier of even length. */
  lemma ArgumentIsRecovered(nots: nat, mod: string, marks: nat, kind: Kind, name: string, segments: seq<Segment>)
    requires Simple(mod) && mod[0] != '!' && ToCamel(mod) !in {"", "attrs", "sel", "selAll"}
    requires GoodRoot(kind, name) && GoodPath(segments) && exists i :: 0 <= i < |segments| && segments[i].Name?
    ensures ParseMod(Marks(nots) + (mod + (['.'] + WriteRef(marks, kind, name, segments))))
            == Some(Mod(Sign(nots), ToCamel(mod),
                        ToRef(Ref(kind, Some((nots + |mod| + marks) % 2 == 0), RootRead(kind, name), Some(PathOf(segments))))))
  {
    hide *;
    var text := WriteRef(marks, kind, name, segments);
    var n := Marks(nots) + (mod + (['.'] + text));
    var d := nots + |mod|;
    ModName(nots, mod, text);
    ReferenceIsRecovered(n, d + 1, marks, kind, name, segments);
    RefText(marks, kind, name, segments);
    DotAhead(n, d + 1, Marks(marks) + Head(kind, name), segments);
    ModWithRef(n, nots, d);
    OddPosition(d + marks);
  }

  /** What is behind the name of a modifier: nothing, or a delimiter and a text. */
  function Behind(arg: Option<(char, string)>): string {
    if arg.None? then "" else [arg.value.0] + arg.value.1
  }

  ghost predicate GoodArg(arg: Option<(char, string)>) {
    arg.Some? ==> arg.value.0 in NAME_DELIMS
  }

  function TextOf(arg: Option<(char, string)>): string {
    if arg.None? then "" else arg.value.1
  }

  /** A modifier is read by its name: attributes and selectors take their text as it is; any other takes a
      single word in camel case, and a text with a dot as a reference, which is left out if it is none. */
  lemma ModifierIsRead(nots: nat, mod: string, arg: Option<(char, string)>)
    requires OneName(mod) && (mod != "" ==> mod[0] != '!') && GoodArg(arg)
    requires ToCamel(mod) == "attrs" && TextOf(arg) != "" ==> TextOf(arg)[0] != '#'
    ensures var n, root, text := Marks(nots) + (mod + Behind(arg)), ToCamel(mod), TextOf(arg);
            ParseMod(n) == if root == "" then None else Some(Mod(Sign(nots), root, ArgRead(n, root, text)))
  {
    hide *;
    var n := Marks(nots) + (mod + Behind(arg));
    ModParts(nots, mod, arg);
    EmptyMod(nots, mod, arg);
    ModByParts(n, nots, mod, TextOf(arg));
  }

  /** The argument from the text at the end of the modifier. */
  function ArgRead(n: string, root: string, text: string): Arg
    requires |text| <= |n|
  {
    if root == "attrs" then Attrs("", text)
    else if root == "sel" || root == "selAll" then Text(text)
    else if text == "" then NoArg
    else if '.' !in text then Text(ToCamel(text))
    else
      var ref := ParseRef(n, |n| - |text|);
      if ref.None? then NoArg else ToRef(ref.value)
  }

  /** The parts of a modifier are found where they stand. */
  ghost predicate Parted(n: string, p: nat, mod: string, text: string) {
    var d := FirstOf(n, NAME_DELIMS, p);
    && SkipNots(n, 0) == p && p <= |n|
    && if d < 0 then n[p..] == mod && text == ""
       else n[p..d] == mod && n[d + 1..] == text && (IndexOf(n, '.', d + 1) < 0 <==> '.' !in text)
  }

  lemma ModByParts(n: string, p: nat, mod: string, text: string)
    requires Parted(n, p, mod, text) && |text| <= |n| && (n == "" ==> ToCamel(mod) == "")
    requires ToCamel(mod) == "attrs" && text != "" ==> text[0] != '#'
    ensures ParseMod(n) == if ToCamel(mod) == "" then None else Some(Mod(Sign(p), ToCamel(mod), ArgRead(n, ToCamel(mod), text)))
  {
    hide ToCamel, ParseRef, FirstOf, SkipNots, Sign;
  }

  lemma EmptyMod(nots: nat, mod: string, arg: Option<(char, string)>)
    ensures Marks(nots) + (mod + Behind(arg)) == "" ==> ToCamel(mod) == ""
  {
  }

  lemma ModParts(nots: nat, mod: string, arg: Option<(char, string)>)
    requires OneName(mod) && (mod != "" ==> mod[0] != '!') && GoodArg(arg)
    ensures var n := Marks(nots) + (mod + Behind(arg)); Parted(n, nots, mod, TextOf(arg)) && |TextOf(arg)| <= |n|
  {
    hide *;
    var n := Marks(nots) + (mod + Behind(arg));
    FirstIsNoMark(mod, arg);
    MarksThenName(n, nots, mod, Behind(arg));
    ArgBehind(n, nots + |mod|, arg);
    PartsAre(n, nots, mod, arg);
  }

  lemma MarksThenName(n: string, nots: nat, mod: string, behind: string)
    requires n == Marks(nots) + (mod + behind) && OneName(mod) && EndsName(behind)
    requires mod + behind == "" || (mod + behind)[0] != '!'
    ensures SkipNots(n, 0) == nots && nots + |mod| <= |n| && n[nots..nots + |mod|] == mod && Continues(n, nots + |mod|, behind)
    ensures var d := FirstOf(n, NAME_DELIMS, nots);
            (if d < 0 then |n| else d) == nots + |mod| && (d < 0 <==> behind == "") && (d < 0 ==> n[nots..] == mod)
  {
    hide *;
    FromStart(n);
    MarksRead(n, 0, nots, mod + behind);
    NameRead(n, nots, mod, behind);
  }

  lemma FromStart(n: string)
    ensures Continues(n, 0, n)
  {
  }

  lemma PartsAre(n: string, p: nat, mod: string, arg: Option<(char, string)>)
    requires SkipNots(n, 0) == p && p + |mod| <= |n| && n[p..p + |mod|] == mod
    requires var d := FirstOf(n, NAME_DELIMS, p); (if d < 0 then |n| else d) == p + |mod| && (d < 0 <==> arg.None?) && (d < 0 ==> n[p..] == mod)
    requires if arg.None? then TextOf(arg) == ""
             else
               var d := p + |mod|;
               d < |n| && n[d + 1..] == TextOf(arg) && (IndexOf(n, '.', d + 1) < 0 <==> '.' !in TextOf(arg))
    ensures Parted(n, p, mod, TextOf(arg)) && |TextOf(arg)| <= |n|
  {
    hide SkipNots, FirstOf, IndexOf;
  }

  lemma ArgBehind(n: string, d: nat, arg: Option<(char, string)>)
    requires Continues(n, d, Behind(arg))
    ensures arg.None? ==> d == |n| && TextOf(arg) == ""
    ensures arg.Some? ==> d < |n| && n[d + 1..] == TextOf(arg) && (IndexOf(n, '.', d + 1) < 0 <==> '.' !in TextOf(arg))
    ensures arg.None? <==> Behind(arg) == ""
  {
    if arg.Some? {
      assert n[d + 1..] == n[d..][1..] == arg.value.1;
      DotBehind(n, d + 1);
    }
  }

  lemma FirstIsNoMark(mod: string, arg: Option<(char, string)>)
    requires (mod != "" ==> mod[0] != '!') && GoodArg(arg)
    ensures var rest := mod + Behind(arg); rest == "" || rest[0] != '!'
    ensures EndsName(Behind(arg))
  {
  }

  lemma DotBehind(n: string, p: nat)
    requires p <= |n|
    ensures IndexOf(n, '.', p) < 0 <==> '.' !in n[p..]
  {
    assert forall i :: p <= i < |n| ==> n[i] == n[p..][i - p];
  }

  /** Attributes behind an id mark begin with the name of the signal for their names; it must not be empty. */
  lemma AttributesAreRead(nots: nat, mod: string, delim: char, r: string, v: Option<string>)
    requires OneName(mod) && mod != "" && mod[0] != '!' && ToCamel(mod) == "attrs" && delim in NAME_DELIMS && '.' !in r
    ensures ParseMod(Marks(nots) + (mod + Behind(Some((delim, Hashed(r, v))))))
            == if r == "" then None else Some(Mod(Sign(nots), "attrs", Attrs(r, if v.Some? then v.value else "")))
  {
    hide *;
    var text := Hashed(r, v);
    HashedIs(r, v, delim);
    ModParts(nots, mod, Some((delim, text)));
    ModNotEmpty(nots, mod, text, delim);
    AttrsByParts(Marks(nots) + (mod + Behind(Some((delim, text)))), nots, mod, r, v);
  }

  function Hashed(r: string, v: Option<string>): string {
    "#" + r + (if v.Some? then "." + v.value else "")
  }

  lemma HashedIs(r: string, v: Option<string>, delim: char)
    ensures TextOf(Some((delim, Hashed(r, v)))) == Hashed(r, v)
    ensures delim in NAME_DELIMS ==> GoodArg(Some((delim, Hashed(r, v))))
  {
  }

  lemma ModNotEmpty(nots: nat, mod: string, text: string, delim: char)
    requires mod != ""
    ensures Marks(nots) + (mod + Behind(Some((delim, text)))) != ""
  {
  }

  lemma AttrsByParts(n: string, p: nat, mod: string, r: string, v: Option<string>)
    requires Parted(n, p, mod, Hashed(r, v)) && n != "" && ToCamel(mod) == "attrs" && '.' !in r
    ensures ParseMod(n) == if r == "" then None else Some(Mod(Sign(p), "attrs", Attrs(r, if v.Some? then v.value else "")))
  {
    hide *;
    AttrsInText(n, p, mod, Hashed(r, v));
    AttrsParsed(r, v);
  }

  lemma AttrsInText(n: string, p: nat, mod: string, text: string)
    requires Parted(n, p, mod, text) && n != "" && ToCamel(mod) == "attrs"
    ensures ParseMod(n) == if ParseAttrs(text).None? then None else Some(Mod(Sign(p), "attrs", ParseAttrs(text).value))
  {
    hide ToCamel, ParseRef, SkipNots, Sign, FirstOf, IndexOf, ParseAttrs;
  }

  lemma AttrsParsed(r: string, v: Option<string>)
    requires '.' !in r
    ensures ParseAttrs(Hashed(r, v)) == if r == "" then None else Some(Attrs(r, if v.Some? then v.value else ""))
  {
    FirstDot(r, v);
    hide IndexOf, Hashed;
  }

  lemma FirstDot(r: string, v: Option<string>)
    requires '.' !in r
    ensures var text := Hashed(r, v);
            var e := IndexOf(text, '.', 1);
            && text != "" && text[0] == '#'
            && if v.None? then e < 0 && text[1..] == r else 1 <= e < |text| && text[1..e] == r && text[e + 1..] == v.value
  {
    var text := Hashed(r, v);
    assert forall i :: 1 <= i < 1 + |r| ==> text[i] == r[i - 1];
    if v.None? {
      assert text == "#" + r;
      NoFirst(text, ['.'], 1);
    } else {
      FirstIs(text, ['.'], 1, 1 + |r|);
    }
  }

  lemma RefText(marks: nat, kind: Kind, name: string, segments: seq<Segment>)
    ensures WriteRef(marks, kind, name, segments) == Marks(marks) + Head(kind, name) + WritePath(segments)
  {
    hide Marks, Head, WritePath;
  }

  lemma OddPosition(k: nat)
    ensures Sign(k + 1) == Some(k % 2 == 0)
  {
  }

  lemma ModName(nots: nat, mod: string, text: string)
    requires Simple(mod) && mod[0] != '!'
    ensures var n, d := Marks(nots) + (mod + (['.'] + text)), nots + |mod|;
            && SkipNots(n, 0) == nots && FirstOf(n, NAME_DELIMS, nots) == d && d <= |n| && n[nots..d] == mod
            && Continues(n, d + 1, text) && n != ""
  {
    hide Marks, FirstOf, SkipNots;
    var rest := mod + (['.'] + text);
    var n := Marks(nots) + rest;
    assert n[0..] == n;
    MarksRead(n, 0, nots, rest);
    NameRead(n, nots, mod, ['.'] + text);
    assert n[nots + |mod| + 1..] == n[nots + |mod|..][1..] == text;
  }

  lemma ModWithRef(n: string, p: nat, d: nat)
    requires n != "" && SkipNots(n, 0) == p && FirstOf(n, NAME_DELIMS, p) == d
    requires ToCamel(n[p..d]) !in {"", "attrs", "sel", "selAll"}
    requires d + 1 < |n| && IndexOf(n, '.', d + 1) >= 0 && ParseRef(n, d + 1).Some?
    ensures ParseMod(n) == Some(Mod(Sign(p), ToCamel(n[p..d]), ToRef(ParseRef(n, d + 1).value)))
  {
    hide ToCamel, ParseRef, FirstOf;
    assert n[d + 1..] != "";
  }

  lemma DotAhead(n: string, p: nat, front: string, segments: seq<Segment>)
    requires Continues(n, p, front + WritePath(segments)) && exists i :: 0 <= i < |segments| && segments[i].Name?
    ensures p < |n| && IndexOf(n, '.', p) >= 0 && segments != []
  {
    var i := DotInPath(segments);
    hide WritePath;
    assert n[p..][|front| + i] == '.';
    assert n[p + |front| + i] == '.';
  }

  lemma {:induction false} DotInPath(segments: seq<Segment>) returns (at: nat)
    requires exists i :: 0 <= i < |segments| && segments[i].Name?
    ensures at < |WritePath(segments)| && WritePath(segments)[at] == '.'
    decreases |segments|
  {
    match segments[0]
    case Name(_) => at := 0;
    case Index(digits) =>
      var i :| 0 <= i < |segments| && segments[i].Name?;
      assert segments[1..][i - 1].Name?;
      var k := DotInPath(segments[1..]);
      var rest := WritePath(segments[1..]);
      at := 2 + |digits| + k;
      assert WritePath(segments) == ['['] + (digits + ([']'] + rest));
  }

  /** As in `^eq.foo.bar`, whose argument reads as negated. */
  lemma EqFooBar()
    ensures ParseFrom("^eq.foo.bar", 0, EMPTY).mods
            == [Mod(None, "eq", ToRef(Ref(Signal, Some(true), "foo", Some(["bar"]))))]
  {
    hide *;
    var n := "eq.foo.bar";
    EqFooBarRead();
    EqFooBarClean();
    WrittenMod(n);
    NotationIsRecovered("", 0, [n], []);
    assert "" + (("^" + n) + "") == "^eq.foo.bar";
  }

  lemma EqFooBarClean()
    ensures Clean("eq.foo.bar")
  {
  }

  lemma EqFooBarRead()
    ensures ParseMod("eq.foo.bar") == Some(Mod(None, "eq", ToRef(Ref(Signal, Some(true), "foo", Some(["bar"])))))
  {
    hide ParseMod, ToCamel;
    DashFreeIsCamel("eq");
    DashFreeIsCamel("foo");
    DashFreeIsCamel("bar");
    var path := [Name("bar")];
    assert path[0].Name? && path[1..] == [];
    assert WritePath(path) == ".bar" && PathOf(path) == ["bar"];
    assert WriteRef(0, Signal, "foo", path) == "foo.bar";
    ArgumentIsRecovered(0, "eq", 0, Signal, "foo", path);
    assert Marks(0) + ("eq" + (['.'] + "foo.bar")) == "eq.foo.bar";
  }

  lemma WrittenMod(n: string)
    ensures WriteMods([n]) == "^" + n && WriteItems([]) == "" && Clean(""[0..]) && AllGlobals([], ModsRead([n])) == ModRead(n)
    ensures Clean(n) ==> CleanMods([n])
    ensures ParseMod(n).Some? ==> ModRead(n) == [ParseMod(n).value]
  {
    hide ParseMod;
    assert [n][1..] == [] && n + WriteMods([]) == n;
    assert ModRead(n) + ModsRead([]) == ModRead(n);
  }

  lemma NoPathIff(segments: seq<Segment>)
    requires forall i :: 0 <= i < |segments| ==> GoodSegment(segments[i])
    ensures WritePath(segments) == "" <==> segments == []
    ensures WritePath(segments) != "" ==> WritePath(segments)[0] == '[' || |WritePath(segments)| > 1
  {
    if segments != [] {
      assert GoodSegment(segments[0]);
    }
  }
}
