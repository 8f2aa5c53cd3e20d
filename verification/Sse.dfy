/** Server-sent events from the printer on the server to the two parsers of the client: the batch
    parser `applySse` and the incremental one `consumeSseStream`. */
module Sse {
  import opened Options

  // ---------- Text and lines ----------

  /** Position of the first `c` at or after `start`, or -1. */
  function IndexOf(s: string, c: char, start: nat := 0): (i: int)
    ensures i == -1 || (start <= i < |s| && s[i] == c)
    ensures forall k :: start <= k < |s| && (i < 0 || k < i) ==> s[k] != c
    decreases |s| - start
  {
    if start >= |s| then -1
    else if s[start] == c then start
    else IndexOf(s, c, start + 1)
  }

  ghost predicate OneLine(s: string) {
    '\n' !in s
  }

  function Last<T>(s: seq<T>): T
    requires s != []
  {
    s[|s| - 1]
  }

  function Init<T>(s: seq<T>): seq<T>
    requires s != []
  {
    s[..|s| - 1]
  }

  /** The lines that a newline ends, and what follows the last newline. */
  function Cut(text: string): (seq<string>, string) {
    if text == "" then ([], "")
    else
      var (ls, r) := Cut(Init(text));
      if Last(text) == '\n' then (ls + [r], "") else (ls, r + [Last(text)])
  }

  function Unlines(ls: seq<string>): string {
    if ls == [] then "" else Unlines(Init(ls)) + Last(ls) + "\n"
  }

  /** Text without newline only makes the rest longer. */
  lemma {:induction false} CutMore(a: string, b: string)
    requires OneLine(b)
    ensures Cut(a + b) == (Cut(a).0, Cut(a).1 + b)
  {
    if b == "" {
      assert a + b == a && Cut(a).1 + b == Cut(a).1;
    } else {
      assert Init(a + b) == a + Init(b) && Last(a + b) == Last(b);
      CutMore(a, Init(b));
      assert Cut(a).1 + Init(b) + [Last(b)] == Cut(a).1 + b;
    }
  }

  lemma CutNewline(a: string)
    ensures Cut(a + "\n") == (Cut(a).0 + [Cut(a).1], "")
  {
    assert Init(a + "\n") == a;
  }

  /** A complete line after complete lines. */
  lemma CutLine(a: string, l: string)
    requires Cut(a).1 == "" && OneLine(l)
    ensures Cut(a + l + "\n") == (Cut(a).0 + [l], "")
  {
    CutMore(a, l);
    assert "" + l == l;
    CutNewline(a + l);
  }

  lemma {:induction false} CutUnlines(ls: seq<string>)
    requires forall i :: 0 <= i < |ls| ==> OneLine(ls[i])
    ensures Cut(Unlines(ls)) == (ls, "")
  {
    if ls != [] {
      CutUnlines(Init(ls));
      CutLine(Unlines(Init(ls)), Last(ls));
      assert Init(ls) + [Last(ls)] == ls;
    }
  }

  lemma {:induction false} UnlinesAppend(a: seq<string>, b: seq<string>)
    ensures Unlines(a + b) == Unlines(a) + Unlines(b)
  {
    hide Unlines;
    if b == [] {
      assert a + b == a && Unlines(a) + "" == Unlines(a);
      UnlinesNone();
    } else {
      assert Init(a + b) == a + Init(b) && Last(a + b) == Last(b);
      UnlinesAppend(a, Init(b));
      UnlinesLast(b);
      UnlinesLast(a + b);
      var x, y, z := Unlines(a), Unlines(Init(b)), Last(b) + "\n";
      assert x + (y + z) == x + y + z;
    }
  }

  lemma UnlinesLast(ls: seq<string>)
    requires ls != []
    ensures Unlines(ls) == Unlines(Init(ls)) + (Last(ls) + "\n")
  {
    var x, l := Unlines(Init(ls)), Last(ls);
    assert x + l + "\n" == x + (l + "\n");
  }

  /** More text only appends lines. */
  lemma {:induction false} CutGrows(a: string, b: string)
    ensures Cut(a).0 <= Cut(a + b).0
  {
    if b == "" {
      assert a + b == a;
    } else {
      assert Init(a + b) == a + Init(b);
      CutGrows(a, Init(b));
    }
  }

  // ---------- The parser state ----------

  const EV_EL := "dm-element"
  const EV_ELS := "dm-elements"
  const EV_SIS := "dm-signals"
  const KEY_EL := "dmElement"

  datatype State = State(event: string, args: Option<map<string, string>>, hasData: bool, element: string)

  const START := State("message", None, false, "")

  datatype Event = Event(name: string, args: map<string, string>)

  /** The end of an event: what it applies; the state starts over. */
  function Flush(st: State): seq<Event> {
    if st.hasData && st.args.Some? && st.event in {EV_EL, EV_ELS, EV_SIS} then [Event(st.event, st.args.value)] else []
  }

  function StripCr(s: string): string {
    if s != "" && s[|s| - 1] == '\r' then s[..|s| - 1] else s
  }

  function Args(st: State): map<string, string> {
    if st.args.Some? then st.args.value else map[]
  }

  /** `acc` continued by another line; an empty `acc` counts as nothing yet. */
  function Continue(acc: string, line: string): string {
    if acc == "" then line else acc + "\n" + line
  }

  /** One data line. */
  function OnData(st: State, val: string): State {
    if st.event == EV_EL then
      var text := Continue(st.element, val);
      st.(hasData := true, args := Some(Args(st)[KEY_EL := text]), element := text)
    else
      var si := IndexOf(val, ' ');
      if si < 0 then st.(hasData := true)
      else
        var key, value, args := val[..si], val[si + 1..], Args(st);
        st.(hasData := true, args := Some(args[key := if key in args then Continue(args[key], value) else value]))
  }

  /** One line of the stream, without its newline. */
  function OnLine(st: State, raw: string): (State, seq<Event>) {
    var line := StripCr(raw);
    if line == "" then (START, Flush(st))
    else if line[0] == ':' then (st, [])
    else
      var ci := IndexOf(line, ':');
      var field := if ci < 0 then line else line[..ci];
      var after := if ci < 0 then "" else line[ci + 1..];
      var val := if after != "" && after[0] == ' ' then after[1..] else after;
      if field == "event" then (st.(event := if val == "" then "message" else val), [])
      else if field == "data" then (OnData(st, val), [])
      else (st, [])
  }

  /** The lines in order, from the state `st`: the state after them and what they applied. */
  function OnLines(st: State, ls: seq<string>): (State, seq<Event>) {
    if ls == [] then (st, [])
    else
      var (st', es) := OnLines(st, Init(ls));
      var (st'', es') := OnLine(st', Last(ls));
      (st'', es + es')
  }

  /** What a whole text applies: all its lines, a last one without newline if it is not empty, and
      an end of event. */
  function Parse(text: string): seq<Event> {
    var (ls, r) := Cut(text);
    var (st, es) := OnLines(START, if r == "" then ls else ls + [r]);
    es + Flush(st)
  }

  lemma OnNextLine(st: State, ls: seq<string>, l: string)
    ensures var (st', es) := OnLines(st, ls);
            OnLines(st, ls + [l]) == (OnLine(st', l).0, es + OnLine(st', l).1)
  {
    hide OnLine;
    assert Init(ls + [l]) == ls;
  }

  lemma {:induction false} OnLinesAppend(st: State, a: seq<string>, b: seq<string>)
    ensures var (st', es) := OnLines(st, a);
            OnLines(st, a + b) == (OnLines(st', b).0, es + OnLines(st', b).1)
  {
    hide OnLine;
    var (st', es) := OnLines(st, a);
    if b == [] {
      assert a + b == a && es + [] == es;
    } else {
      assert Init(a + b) == a + Init(b) && Last(a + b) == Last(b);
      OnLinesAppend(st, a, Init(b));
      var (st1, e1) := OnLines(st', Init(b));
      var e2 := OnLine(st1, Last(b)).1;
      assert es + (e1 + e2) == es + e1 + e2;
    }
  }

  /** Finishing a text from where its complete lines lead. */
  lemma Finish(text: string, ls: seq<string>, r: string, st: State, es: seq<Event>)
    requires Cut(text) == (ls, r) && OnLines(START, ls) == (st, es)
    ensures Parse(text) == if r == "" then es + Flush(st)
                           else es + OnLine(st, r).1 + Flush(OnLine(st, r).0)
  {
    hide Cut, OnLine, Flush;
    if r != "" {
      OnNextLine(START, ls, r);
    }
  }

  lemma PrefixLine(text: string, start: nat, nl: nat)
    requires start <= nl < |text| && nl == IndexOf(text, '\n', start) && Cut(text[..start]).1 == ""
    ensures Cut(text[..nl + 1]) == (Cut(text[..start]).0 + [text[start..nl]], "")
  {
    hide Cut;
    CutLine(text[..start], text[start..nl]);
    hide IndexOf;
    assert text[..nl + 1] == text[..start] + text[start..nl] + "\n";
  }

  lemma ParseEmpty()
    ensures Parse("") == []
  {
  }

  // ---------- The batch parser ----------

  method ApplySse(text: string) returns (applied: seq<Event>)
    ensures applied == Parse(text)
  {
    hide *;
    if text == "" {
      ParseEmpty();
      return [];
    }
    applied := [];
    var st, start := START, 0;
    ghost var ls: seq<string> := [];
    var nl := IndexOf(text, '\n', start);
    StartEmpty(text);
    while nl >= 0
      invariant 0 <= start <= |text| && nl == IndexOf(text, '\n', start)
      invariant Cut(text[..start]) == (ls, "") && OnLines(START, ls) == (st, applied)
      decreases |text| - start
    {
      var line := text[start..nl];
      PrefixLine(text, start, nl);
      OnNextLine(START, ls, line);
      var (s, es) := OnLine(st, line);
      st, applied, ls := s, applied + es, ls + [line];
      start := nl + 1;
      nl := IndexOf(text, '\n', start);
    }
    TailIsRest(text, start);
    Finish(text, ls, text[start..], st, applied);
    if start < |text| {
      var (s, es) := OnLine(st, text[start..]);
      st, applied := s, applied + es;
    }
    applied := applied + Flush(st);
  }

  lemma StartEmpty(text: string)
    ensures Cut(text[..0]) == ([], "") && OnLines(START, []) == (START, [])
  {
  }

  lemma TailIsRest(text: string, start: nat)
    requires start <= |text| && IndexOf(text, '\n', start) < 0 && Cut(text[..start]).1 == ""
    ensures Cut(text) == (Cut(text[..start]).0, text[start..])
  {
    hide Cut, OneLine;
    var head, tail := text[..start], text[start..];
    TailIsOneLine(text, start);
    CutMore(head, tail);
    assert text == head + tail && "" + tail == tail;
  }

  lemma TailIsOneLine(text: string, start: nat)
    requires start <= |text| && IndexOf(text, '\n', start) < 0
    ensures OneLine(text[start..])
  {
    hide IndexOf;
    assert forall i :: 0 <= i < |text[start..]| ==> text[start..][i] == text[start + i];
  }

  // ---------- The incremental parser ----------

  /** What the reader delivers: a piece of decoded text, or a failure. */
  datatype Read = Piece(text: string) | Failure

  /** The text delivered before the end or the first failure. */
  function TextOf(pieces: seq<Read>): string {
    if pieces == [] || pieces[0].Failure? then "" else pieces[0].text + TextOf(pieces[1..])
  }

  /** What the complete lines of a text apply. */
  function AppliedSoFar(text: string): seq<Event> {
    OnLines(START, Cut(text).0).1
  }

  /** Reads pieces until the end or a failure.  `trailing` is what the decoder yields at the end (a
      replacement character for a broken sequence, so never a newline).
      However the text is cut, the result is that of the whole text; on a failure it is what the
      complete lines up to there applied. */
  method ConsumeSseStream(pieces: seq<Read>, trailing: string) returns (applied: seq<Event>, failed: bool)
    requires OneLine(trailing)
    ensures failed <==> Failure in pieces
    ensures !failed ==> applied == Parse(TextOf(pieces) + trailing)
    ensures failed ==> applied == AppliedSoFar(TextOf(pieces))
  {
    hide *;
    applied, failed := [], false;
    var buf, st, i := "", START, 0;
    ghost var done := "";
    StartEmpty("");
    TextOfStep(pieces, 0);
    while i < |pieces|
      invariant 0 <= i <= |pieces| && Failure !in pieces[..i]
      invariant TextOf(pieces) == done + buf + TextOf(pieces[i..])
      invariant OneLine(buf) && Cut(done).1 == "" && OnLines(START, Cut(done).0) == (st, applied)
    {
      TextOfStep(pieces, i);
      if pieces[i].Failure? {
        assert pieces[i] in pieces;
        NothingMore(done, buf);
        CutOneLine(done, buf);
        return applied, true;
      }
      var more := pieces[i].text;
      Regroup(done, buf, more, TextOf(pieces[i + 1..]));
      buf := buf + more;
      done, buf, st, applied := ConsumeLines(done, buf, st, applied);
      i := i + 1;
    }
    assert pieces[..i] == pieces && pieces[i..] == [];
    TextOfStep(pieces, i);
    NothingMore(done, buf);
    applied := ConsumeTail(done, buf, trailing, st, applied);
  }

  /** What the decoder still yields goes behind what is left in the buffer. */
  method ConsumeTail(ghost done: string, buf: string, trailing: string, st: State, applied0: seq<Event>) returns (applied: seq<Event>)
    requires Cut(done).1 == "" && OnLines(START, Cut(done).0) == (st, applied0) && OneLine(buf) && OneLine(trailing)
    ensures applied == Parse(done + buf + trailing)
  {
    hide *;
    OneLineJoin(buf, trailing);
    assert done + buf + trailing == done + (buf + trailing);
    applied := ConsumeRest(done, buf + trailing, st, applied0);
  }

  lemma TextOfStep(pieces: seq<Read>, i: nat)
    requires i <= |pieces|
    ensures OneLine("") && pieces[0..] == pieces
    ensures TextOf(pieces[i..]) == if i == |pieces| || pieces[i].Failure? then ""
                                   else pieces[i].text + TextOf(pieces[i + 1..])
  {
    if i < |pieces| {
      assert pieces[i..][1..] == pieces[i + 1..];
    }
  }

  lemma NothingMore(a: string, b: string)
    ensures a + b + "" == a + b && b + "" == b
  {
  }

  lemma Regroup(a: string, b: string, c: string, d: string)
    ensures a + b + (c + d) == a + (b + c) + d
  {
  }

  lemma OneLineJoin(a: string, b: string)
    requires OneLine(a) && OneLine(b)
    ensures OneLine(a + b)
  {
  }

  /** A buffer without newline adds no complete line. */
  lemma CutOneLine(done: string, buf: string)
    requires OneLine(buf) && Cut(done).1 == ""
    ensures Cut(done + buf) == (Cut(done).0, buf) && AppliedSoFar(done + buf) == OnLines(START, Cut(done).0).1
  {
    CutMore(done, buf);
    assert "" + buf == buf;
  }

  /** Takes the complete lines off the buffer. */
  method ConsumeLines(ghost done0: string, buf0: string, st0: State, applied0: seq<Event>)
    returns (ghost done: string, buf: string, st: State, applied: seq<Event>)
    requires Cut(done0).1 == "" && OnLines(START, Cut(done0).0) == (st0, applied0)
    ensures done + buf == done0 + buf0 && OneLine(buf)
    ensures Cut(done).1 == "" && OnLines(START, Cut(done).0) == (st, applied)
  {
    hide *;
    done, buf, st, applied := done0, buf0, st0, applied0;
    var nl := IndexOf(buf, '\n');
    while nl >= 0
      invariant nl == IndexOf(buf, '\n') && done + buf == done0 + buf0
      invariant Cut(done).1 == "" && OnLines(START, Cut(done).0) == (st, applied)
      decreases |buf|
    {
      var line := buf[..nl];
      HeadLine(done, buf, nl);
      OnNextLine(START, Cut(done).0, line);
      var (s, es) := OnLine(st, line);
      st, applied := s, applied + es;
      done, buf := done + line + "\n", buf[nl + 1..];
      nl := IndexOf(buf, '\n');
    }
    NoneIsOneLine(buf);
  }

  lemma NoneIsOneLine(s: string)
    requires IndexOf(s, '\n') < 0
    ensures OneLine(s)
  {
  }

  lemma HeadLine(done: string, buf: string, nl: nat)
    requires nl == IndexOf(buf, '\n') && Cut(done).1 == ""
    ensures nl < |buf| && done + buf[..nl] + "\n" + buf[nl + 1..] == done + buf
    ensures Cut(done + buf[..nl] + "\n") == (Cut(done).0 + [buf[..nl]], "")
  {
    hide IndexOf, Cut;
    var line, after := buf[..nl], buf[nl + 1..];
    CutLine(done, line);
    SplitAround(buf, nl);
    assert done + line + "\n" + after == done + (line + "\n" + after);
  }

  lemma SplitAround(s: string, i: nat)
    requires i < |s| && s[i] == '\n'
    ensures s[..i] + "\n" + s[i + 1..] == s
  {
  }

  /** The end of the stream: what is left in the buffer is one last line. */
  method ConsumeRest(ghost done: string, buf: string, st0: State, applied0: seq<Event>) returns (applied: seq<Event>)
    requires Cut(done).1 == "" && OnLines(START, Cut(done).0) == (st0, applied0) && OneLine(buf)
    ensures applied == Parse(done + buf)
  {
    hide *;
    var st := st0;
    applied := applied0;
    CutOneLine(done, buf);
    Finish(done + buf, Cut(done).0, buf, st, applied);
    if buf != "" {
      var (s, es) := OnLine(st, buf);
      st, applied := s, applied + es;
    }
    applied := applied + Flush(st);
  }

  /** What was applied when the reader failed is a prefix of what any continuation applies. */
  lemma AppliedIsPrefix(text: string, more: string)
    ensures AppliedSoFar(text) <= Parse(text + more)
  {
    var ls := Cut(text).0;
    var (ls', r) := Cut(text + more);
    CutGrows(text, more);
    var all := if r == "" then ls' else ls' + [r];
    assert all == ls + all[|ls|..];
    OnLinesAppend(START, ls, all[|ls|..]);
  }

  // ---------- The printer ----------

  /** A record for `to sse`: its fields as text; a data value that is no list counts as a list of
      one, and values that are no strings come as one line of JSON. */
  datatype Record = Record(event: Option<string>, id: Option<string>, retry: Option<string>, data: Option<seq<string>>)

  /** The lines of a text as the server cuts them: a carriage return before a newline goes with it. */
  function TextLines(text: string): seq<string> {
    var (ls, r) := Cut(text);
    seq(|ls|, i requires 0 <= i < |ls| => StripCr(ls[i])) + (if r == "" then [] else [r])
  }

  function AllTextLines(items: seq<string>): seq<string> {
    if items == [] then [] else AllTextLines(Init(items)) + TextLines(Last(items))
  }

  function DataLines(r: Record): seq<string> {
    if r.data.Some? then AllTextLines(r.data.value) else []
  }

  function FieldLine(name: string, v: string): string {
    name + ": " + v
  }

  function FieldLines(name: string, vs: seq<string>): seq<string> {
    seq(|vs|, i requires 0 <= i < |vs| => FieldLine(name, vs[i]))
  }

  function Header(name: string, v: Option<string>): seq<string> {
    if v.Some? then [FieldLine(name, v.value)] else []
  }

  /** The lines of a printed record; the last is empty and ends the event. */
  function PrintLines(r: Record): seq<string> {
    Header("event", r.event) + Header("id", r.id) + Header("retry", r.retry) + FieldLines("data", DataLines(r)) + [""]
  }

  function Print(r: Record): string {
    Unlines(PrintLines(r))
  }

  function PrintAll(rs: seq<Record>): string {
    if rs == [] then "" else PrintAll(Init(rs)) + Print(Last(rs))
  }

  lemma UnlinesNext(ls: seq<string>, l: string)
    ensures Unlines(ls + [l]) == Unlines(ls) + l + "\n"
  {
    assert Init(ls + [l]) == ls;
  }

  lemma OneMoreLine(a: string, b: string, l: string)
    ensures a + b + "data: " + l + "\n" == a + (b + FieldLine("data", l) + "\n")
  {
    assert a + b + "data: " + l == a + (b + FieldLine("data", l));
  }

  method EmitDataLines(out0: string, text: string) returns (out: string)
    ensures out == out0 + Unlines(FieldLines("data", TextLines(text)))
  {
    hide TextLines;
    var lines, i := TextLines(text), 0;
    out := out0;
    while i < |lines|
      invariant 0 <= i <= |lines|
      invariant out == out0 + Unlines(FieldLines("data", lines[..i]))
    {
      ghost var before := FieldLines("data", lines[..i]);
      assert FieldLines("data", lines[..i + 1]) == before + [FieldLine("data", lines[i])];
      UnlinesNext(before, FieldLine("data", lines[i]));
      OneMoreLine(out0, Unlines(before), lines[i]);
      out := out + "data: ";
      out := out + lines[i];
      out := out + "\n";
      i := i + 1;
    }
    assert lines[..i] == lines;
  }

  method EmitField(out0: string, ghost ls: seq<string>, name: string, v: Option<string>) returns (out: string)
    requires out0 == Unlines(ls)
    ensures out == Unlines(ls + Header(name, v))
  {
    out := out0;
    if v.Some? {
      UnlinesNext(ls, FieldLine(name, v.value));
      out := out + name + ": ";
      out := out + v.value;
      out := out + "\n";
      assert out == Unlines(ls) + FieldLine(name, v.value) + "\n";
    } else {
      assert ls + [] == ls;
    }
  }

  method EventToString(r: Record) returns (out: string)
    ensures out == Print(r)
  {
    hide Unlines, TextLines, Header, FieldLines;
    ghost var ls: seq<string> := [];
    UnlinesNone();
    out := "";
    out := EmitField(out, ls, "event", r.event);
    ls := ls + Header("event", r.event);
    out := EmitField(out, ls, "id", r.id);
    ls := ls + Header("id", r.id);
    out := EmitField(out, ls, "retry", r.retry);
    ls := ls + Header("retry", r.retry);
    if r.data.Some? {
      out := EmitData(out, ls, r.data.value);
    } else {
      NoDataLines(ls);
    }
    ls := ls + FieldLines("data", DataLines(r));
    UnlinesNext(ls, "");
    assert out + "\n" == out + "" + "\n";
    out := out + "\n";
    assert PrintLines(r) == ls + [""];
  }

  lemma UnlinesNone()
    ensures Unlines([]) == ""
  {
  }

  lemma NoDataLines(ls: seq<string>)
    ensures ls + FieldLines("data", []) == ls
  {
  }

  method EmitData(out0: string, ghost ls: seq<string>, items: seq<string>) returns (out: string)
    requires out0 == Unlines(ls)
    ensures out == Unlines(ls + FieldLines("data", AllTextLines(items)))
  {
    hide TextLines, Unlines;
    out := out0;
    var i := 0;
    NoDataLines(ls);
    while i < |items|
      invariant 0 <= i <= |items|
      invariant out == Unlines(ls + FieldLines("data", AllTextLines(items[..i])))
    {
      ghost var before, more := AllTextLines(items[..i]), TextLines(items[i]);
      assert Init(items[..i + 1]) == items[..i];
      assert ls + FieldLines("data", before + more) == ls + FieldLines("data", before) + FieldLines("data", more);
      UnlinesAppend(ls + FieldLines("data", before), FieldLines("data", more));
      out := EmitDataLines(out, items[i]);
      i := i + 1;
    }
    assert items[..i] == items;
  }

  // ---------- Printing, then parsing ----------

  /** A line `name: v` for the parser. */
  lemma OnFieldLine(st: State, name: string, v: string)
    requires name != "" && name[0] != ':' && ':' !in name
    ensures var w := StripCr(v);
            OnLine(st, FieldLine(name, v))
            == (if name == "event" then st.(event := if w == "" then "message" else w)
                else if name == "data" then OnData(st, w) else st, [])
  {
    var w := StripCr(v);
    StrippedField(name, v);
    FieldParts(name, w);
    hide OnData, StripCr, IndexOf, FieldLine;
  }

  lemma StrippedField(name: string, v: string)
    ensures StripCr(FieldLine(name, v)) == FieldLine(name, StripCr(v))
  {
    var line := FieldLine(name, v);
    if v != "" {
      assert Last(line) == Last(v) && Init(line) == FieldLine(name, Init(v));
    }
  }

  /** The field and the value of a line, as the parser cuts them. */
  lemma FieldParts(name: string, w: string)
    requires name != "" && ':' !in name
    ensures var line := FieldLine(name, w);
            && line != "" && line[0] == name[0] && IndexOf(line, ':') == |name|
            && line[..|name|] == name && line[|name| + 1..] != "" && line[|name| + 1..][0] == ' ' && line[|name| + 1..][1..] == w
  {
    var line := FieldLine(name, w);
    FirstColon(name, " " + w);
    assert line == name + ":" + (" " + w);
    hide IndexOf, FieldLine;
    assert line[|name| + 1..] == " " + w && (" " + w)[1..] == w;
  }

  lemma FirstColon(name: string, after: string)
    requires ':' !in name
    ensures IndexOf(name + ":" + after, ':') == |name|
  {
    var s := name + ":" + after;
    assert s[|name|] == ':' && forall k :: 0 <= k < |name| ==> s[k] == name[k];
  }

  function OnDataAll(st: State, vals: seq<string>): State {
    if vals == [] then st else OnData(OnDataAll(st, Init(vals)), Last(vals))
  }

  function Stripped(ls: seq<string>): seq<string> {
    seq(|ls|, i requires 0 <= i < |ls| => StripCr(ls[i]))
  }

  /** The event name that the client reads. */
  function NameOf(r: Record): string {
    if r.event.None? || StripCr(r.event.value) == "" then "message" else StripCr(r.event.value)
  }

  /** What the client makes of one printed record. */
  function Decode(r: Record): seq<Event> {
    Flush(OnDataAll(START.(event := NameOf(r)), Stripped(DataLines(r))))
  }

  function DecodeAll(rs: seq<Record>): seq<Event> {
    if rs == [] then [] else DecodeAll(Init(rs)) + Decode(Last(rs))
  }

  /** The headers fit on one line each. */
  ghost predicate CleanHeaders(r: Record) {
    && (r.event.Some? ==> OneLine(r.event.value))
    && (r.id.Some? ==> OneLine(r.id.value))
    && (r.retry.Some? ==> OneLine(r.retry.value))
  }

  lemma {:induction false} OnDataLines(st: State, vals: seq<string>)
    ensures OnLines(st, FieldLines("data", vals)) == (OnDataAll(st, Stripped(vals)), [])
  {
    hide OnData, OnLine, StripCr, FieldLine;
    var none: seq<Event> := [];
    assert none + none == none;
    if vals != [] {
      OnDataLines(st, Init(vals));
      assert FieldLines("data", vals) == FieldLines("data", Init(vals)) + [FieldLine("data", Last(vals))];
      OnNextLine(st, FieldLines("data", Init(vals)), FieldLine("data", Last(vals)));
      OnFieldLine(OnDataAll(st, Stripped(Init(vals))), "data", Last(vals));
      assert Init(Stripped(vals)) == Stripped(Init(vals));
    } else {
      assert FieldLines("data", vals) == [] && Stripped(vals) == [];
    }
  }

  lemma OnHeader(st: State, name: string, v: Option<string>)
    requires name in {"event", "id", "retry"}
    ensures OnLines(st, Header(name, v))
            == (if name != "event" || v.None? then st
                else st.(event := if StripCr(v.value) == "" then "message" else StripCr(v.value)), [])
  {
    hide OnLine, OnData;
    var none: seq<Event> := [];
    assert none + none == none;
    if v.Some? {
      OnFieldLine(st, name, v.value);
      OnNextLine(st, [], FieldLine(name, v.value));
      assert [] + [FieldLine(name, v.value)] == Header(name, v);
      NothingFrom(st);
    } else {
      NothingFrom(st);
    }
  }

  lemma NothingFrom(st: State)
    ensures OnLines(st, []) == (st, [])
  {
  }

  lemma OnRecord(r: Record)
    requires CleanHeaders(r)
    ensures OnLines(START, PrintLines(r)) == (START, Decode(r))
  {
    hide OnLine, OnLines, OnData, OnDataAll, Flush, DataLines, FieldLines, Header, Stripped, StripCr;
    var h1, h2, h3, d := Header("event", r.event), Header("id", r.id), Header("retry", r.retry), FieldLines("data", DataLines(r));
    OnHeader(START, "event", r.event);
    var st := OnLines(START, h1).0;
    OnHeader(st, "id", r.id);
    OnHeader(st, "retry", r.retry);
    OnDataLines(st, DataLines(r));
    OnLinesAppend(START, h1, h2);
    OnLinesAppend(START, h1 + h2, h3);
    OnLinesAppend(START, h1 + h2 + h3, d);
    var none: seq<Event> := [];
    assert none + none == none;
    assert OnLines(START, h1 + h2 + h3 + d) == (OnDataAll(st, Stripped(DataLines(r))), none);
    OnNextLine(START, h1 + h2 + h3 + d, "");
    assert none + Decode(r) == Decode(r);
    OnBlank(OnLines(START, h1 + h2 + h3 + d).0);
  }

  lemma OnBlank(st: State)
    ensures OnLine(st, "") == (START, Flush(st))
  {
  }

  lemma {:induction false} TextLinesClean(text: string)
    ensures forall i :: 0 <= i < |TextLines(text)| ==> OneLine(TextLines(text)[i])
  {
    CutClean(text);
  }

  lemma {:induction false} CutClean(text: string)
    ensures OneLine(Cut(text).1) && forall i :: 0 <= i < |Cut(text).0| ==> OneLine(Cut(text).0[i])
  {
    if text != "" {
      CutClean(Init(text));
    }
  }

  lemma {:induction false} AllTextLinesClean(items: seq<string>)
    ensures forall i :: 0 <= i < |AllTextLines(items)| ==> OneLine(AllTextLines(items)[i])
  {
    hide TextLines;
    if items != [] {
      AllTextLinesClean(Init(items));
      TextLinesClean(Last(items));
    }
  }

  lemma PrintLinesClean(r: Record)
    requires CleanHeaders(r)
    ensures forall i :: 0 <= i < |PrintLines(r)| ==> OneLine(PrintLines(r)[i])
  {
    if r.data.Some? {
      AllTextLinesClean(r.data.value);
    }
    FieldLinesClean("data", DataLines(r));
    HeaderClean("event", r.event);
    HeaderClean("id", r.id);
    HeaderClean("retry", r.retry);
    hide DataLines, FieldLines, Header;
    var ls := PrintLines(r);
    forall l | l in ls
      ensures OneLine(l)
    {
    }
  }

  lemma FieldLinesClean(name: string, vs: seq<string>)
    requires OneLine(name) && forall i :: 0 <= i < |vs| ==> OneLine(vs[i])
    ensures forall l :: l in FieldLines(name, vs) ==> OneLine(l)
  {
  }

  lemma HeaderClean(name: string, v: Option<string>)
    requires OneLine(name) && (v.Some? ==> OneLine(v.value))
    ensures forall l :: l in Header(name, v) ==> OneLine(l)
  {
  }

  function LinesOfAll(rs: seq<Record>): seq<string> {
    if rs == [] then [] else LinesOfAll(Init(rs)) + PrintLines(Last(rs))
  }

  lemma {:induction false} OnAllRecords(rs: seq<Record>)
    requires forall i :: 0 <= i < |rs| ==> CleanHeaders(rs[i])
    ensures PrintAll(rs) == Unlines(LinesOfAll(rs))
    ensures forall l :: l in LinesOfAll(rs) ==> OneLine(l)
    ensures OnLines(START, LinesOfAll(rs)) == (START, DecodeAll(rs))
  {
    hide OnLine, OnLines, PrintLines, Decode, Unlines;
    if rs != [] {
      OnAllRecords(Init(rs));
      UnlinesAppend(LinesOfAll(Init(rs)), PrintLines(Last(rs)));
      PrintLinesClean(Last(rs));
      OnRecord(Last(rs));
      OnLinesAppend(START, LinesOfAll(Init(rs)), PrintLines(Last(rs)));
    } else {
      UnlinesNone();
      StartEmpty("");
    }
  }

  lemma FlushStart()
    ensures Flush(START) == []
  {
  }

  lemma CutPrinted(rs: seq<Record>)
    requires forall i :: 0 <= i < |rs| ==> CleanHeaders(rs[i])
    ensures Cut(PrintAll(rs)) == (LinesOfAll(rs), "")
    ensures OnLines(START, LinesOfAll(rs)) == (START, DecodeAll(rs))
  {
    hide *;
    OnAllRecords(rs);
    CutUnlines(LinesOfAll(rs));
  }

  // ---------- What the data lines of a record mean ----------

  datatype Item = Item(key: string, value: string)

  /** A line up to its first space, and the rest. */
  function ItemOf(l: string): Item
    requires ' ' in l
  {
    var i := IndexOf(l, ' ');
    Item(l[..i], l[i + 1..])
  }

  /** The lines with a space. */
  function ItemsOf(ls: seq<string>): seq<Item> {
    if ls == [] then [] else ItemsOf(Init(ls)) + (if ' ' in Last(ls) then [ItemOf(Last(ls))] else [])
  }

  /** The values given for a key, in order. */
  function ValuesOf(items: seq<Item>, key: string): seq<string> {
    if items == [] then []
    else ValuesOf(Init(items), key) + (if Last(items).key == key then [Last(items).value] else [])
  }

  function KeysOf(items: seq<Item>): set<string> {
    set i | 0 <= i < |items| :: items[i].key
  }

  /** The values joined by newlines. */
  function Join(vs: seq<string>): string {
    if vs == [] then ""
    else if |vs| == 1 then vs[0]
    else Join(Init(vs)) + "\n" + Last(vs)
  }

  /** Empty values at the front do not count. */
  function SkipEmpty(vs: seq<string>): seq<string> {
    if vs == [] then []
    else if SkipEmpty(Init(vs)) == [] && Last(vs) == "" then []
    else SkipEmpty(Init(vs)) + [Last(vs)]
  }

  /** Each key once, with its values joined by newlines. */
  function Members(items: seq<Item>): map<string, string> {
    map k | k in KeysOf(items) :: Join(SkipEmpty(ValuesOf(items, k)))
  }

  /** What a record is to apply: its `key value` lines as members, the whole text as one member for
      `dm-element`, and nothing under any other name or without such lines. */
  function Meant(r: Record): seq<Event> {
    var lines := Stripped(DataLines(r));
    if NameOf(r) == EV_EL then
      if lines == [] then [] else [Event(EV_EL, map[KEY_EL := Join(SkipEmpty(lines))])]
    else if NameOf(r) == EV_ELS || NameOf(r) == EV_SIS then
      if ItemsOf(lines) == [] then [] else [Event(NameOf(r), Members(ItemsOf(lines)))]
    else []
  }

  function MeantAll(rs: seq<Record>): seq<Event> {
    if rs == [] then [] else MeantAll(Init(rs)) + Meant(Last(rs))
  }

  lemma {:induction false} JoinFilled(vs: seq<string>)
    requires vs != [] && vs[0] != ""
    ensures Join(vs) != ""
  {
    if |vs| > 1 {
      JoinFilled(Init(vs));
    }
  }

  lemma {:induction false} FirstIsFilled(vs: seq<string>)
    ensures SkipEmpty(vs) == [] || SkipEmpty(vs)[0] != ""
  {
    if vs != [] {
      FirstIsFilled(Init(vs));
    }
  }

  lemma JoinNext(vs: seq<string>, v: string)
    ensures Join(SkipEmpty(vs + [v])) == Continue(Join(SkipEmpty(vs)), v)
  {
    assert Init(vs + [v]) == vs;
    FirstIsFilled(vs);
    var before := SkipEmpty(vs);
    hide SkipEmpty;
    if before == [] {
      assert before + [v] == [v];
    } else {
      JoinFilled(before);
      assert Init(before + [v]) == before;
    }
  }

  lemma {:induction false} NoValuesOf(items: seq<Item>, key: string)
    ensures ValuesOf(items, key) == [] <==> key !in KeysOf(items)
  {
    if items != [] {
      NoValuesOf(Init(items), key);
      KeysOfNext(items);
    }
  }

  lemma KeysOfNext(items: seq<Item>)
    requires items != []
    ensures KeysOf(items) == KeysOf(Init(items)) + {Last(items).key}
  {
    forall k | k in KeysOf(items)
      ensures k in KeysOf(Init(items)) + {Last(items).key}
    {
      var i :| 0 <= i < |items| && items[i].key == k;
      if i < |items| - 1 {
        assert Init(items)[i].key == k;
      }
    }
    forall k | k in KeysOf(Init(items))
      ensures k in KeysOf(items)
    {
      var i :| 0 <= i < |items| - 1 && Init(items)[i].key == k;
      assert items[i].key == k;
    }
  }

  lemma {:induction false} LinesBuildMembers(st: State, ls: seq<string>)
    requires st.event != EV_EL && st.args.None?
    ensures OnDataAll(st, ls)
            == st.(hasData := st.hasData || ls != [], args := if ItemsOf(ls) == [] then None else Some(Members(ItemsOf(ls))))
  {
    hide Members;
    if ls != [] {
      var before, l := Init(ls), Last(ls);
      LinesBuildMembers(st, before);
      OnDataLine(OnDataAll(st, before), l);
      if ' ' in l {
        assert Init(ItemsOf(ls)) == ItemsOf(before) && Last(ItemsOf(ls)) == ItemOf(l);
        MembersNext(ItemsOf(ls));
        NoMembers();
      } else {
        assert ItemsOf(before) + [] == ItemsOf(before);
      }
    }
  }

  lemma NoMembers()
    ensures Members([]) == map[]
  {
  }

  lemma OnDataLine(st: State, l: string)
    requires st.event != EV_EL
    ensures OnData(st, l)
            == if ' ' !in l then st.(hasData := true)
               else
                 var Item(key, value) := ItemOf(l);
                 st.(hasData := true, args := Some(Args(st)[key := if key in Args(st) then Continue(Args(st)[key], value) else value]))
  {
    hide Continue;
  }

  lemma MembersNext(items: seq<Item>)
    requires items != []
    ensures var m, it := Members(Init(items)), Last(items);
            Members(items) == m[it.key := if it.key in m then Continue(m[it.key], it.value) else it.value]
  {
    var before, it := Init(items), Last(items);
    KeysOfNext(items);
    NextValue(items);
    hide Join, Continue, KeysOf, ValuesOf, SkipEmpty;
    var m, m' := Members(before), Members(items);
    var next := m[it.key := if it.key in m then Continue(m[it.key], it.value) else it.value];
    assert m'.Keys == next.Keys;
    forall k | k in m'
      ensures m'[k] == next[k]
    {
    }
  }

  lemma NextValue(items: seq<Item>)
    requires items != []
    ensures var before, it := Init(items), Last(items);
            && (forall k :: k != it.key ==> ValuesOf(items, k) == ValuesOf(before, k))
            && Join(SkipEmpty(ValuesOf(items, it.key)))
               == if it.key in KeysOf(before) then Continue(Join(SkipEmpty(ValuesOf(before, it.key))), it.value) else it.value
  {
    var before, it := Init(items), Last(items);
    forall k | k != it.key
      ensures ValuesOf(items, k) == ValuesOf(before, k)
    {
      assert ValuesOf(before, k) + [] == ValuesOf(before, k);
    }
    var vs := ValuesOf(before, it.key);
    assert ValuesOf(items, it.key) == vs + [it.value];
    NoValuesOf(before, it.key);
    hide ValuesOf, KeysOf;
    JoinNext(vs, it.value);
  }

  lemma {:induction false} LinesBuildElement(st: State, ls: seq<string>)
    requires st.event == EV_EL && st.args.None? && st.element == ""
    ensures var text := Join(SkipEmpty(ls));
            OnDataAll(st, ls) == if ls == [] then st else st.(hasData := true, args := Some(map[KEY_EL := text]), element := text)
  {
    hide Join, SkipEmpty, Continue;
    if ls != [] {
      LinesBuildElement(st, Init(ls));
      JoinNext(Init(ls), Last(ls));
      assert Init(ls) + [Last(ls)] == ls;
      NothingJoined();
      var text := Join(SkipEmpty(ls));
      assert Args(OnDataAll(st, Init(ls)))[KEY_EL := text] == map[KEY_EL := text];
    }
  }

  lemma NothingJoined()
    ensures Join(SkipEmpty([])) == ""
  {
  }

  /** Decoding a printed record is what the record means. */
  lemma DecodeIsMeant(r: Record)
    ensures Decode(r) == Meant(r)
  {
    var st, lines := START.(event := NameOf(r)), Stripped(DataLines(r));
    hide NameOf, DataLines, Stripped, OnDataAll, ItemsOf, Members, Join, SkipEmpty;
    if st.event == EV_EL {
      LinesBuildElement(st, lines);
    } else {
      LinesBuildMembers(st, lines);
      NoItems();
    }
  }

  lemma NoItems()
    ensures ItemsOf([]) == []
  {
  }

  lemma {:induction false} DecodeAllIsMeant(rs: seq<Record>)
    ensures DecodeAll(rs) == MeantAll(rs)
  {
    hide Decode, Meant;
    if rs != [] {
      DecodeAllIsMeant(Init(rs));
      DecodeIsMeant(Last(rs));
    }
  }

  /** Parsing what was printed gives what every record means, one after the other, whatever the records'
      names and data are. */
  lemma PrintThenParse(rs: seq<Record>)
    requires forall i :: 0 <= i < |rs| ==> CleanHeaders(rs[i])
    ensures Parse(PrintAll(rs)) == MeantAll(rs)
  {
    hide *;
    CutPrinted(rs);
    FlushStart();
    Finish(PrintAll(rs), LinesOfAll(rs), "", START, DecodeAll(rs));
    assert DecodeAll(rs) + [] == DecodeAll(rs);
    DecodeAllIsMeant(rs);
  }

  // ---------- Patches among other records ----------

  /** A record as the server sends it: a patch of elements or signals as `key value` lines, one element as
      markup, or anything else. */
  datatype Sent =
    | Patch(event: string, id: Option<string>, retry: Option<string>, items: seq<Item>)
    | Element(id: Option<string>, retry: Option<string>, html: string)
    | Other(record: Record)

  function ItemLine(it: Item): string {
    it.key + " " + it.value
  }

  function ItemLines(items: seq<Item>): seq<string> {
    seq(|items|, i requires 0 <= i < |items| => ItemLine(items[i]))
  }

  function ToRecord(p: Sent): Record {
    match p
    case Patch(event, id, retry, items) => Record(Some(event), id, retry, Some(ItemLines(items)))
    case Element(id, retry, html) => Record(Some(EV_EL), id, retry, Some([html]))
    case Other(record) => record
  }

  function ToEvents(p: Sent): seq<Event> {
    match p
    case Patch(event, _, _, items) => if items == [] then [] else [Event(event, Members(items))]
    case Element(_, _, html) => [Event(EV_EL, map[KEY_EL := html])]
    case Other(_) => []
  }

  ghost predicate CleanItem(it: Item) {
    && OneLine(it.key) && ' ' !in it.key
    && OneLine(it.value) && StripCr(it.value) == it.value
  }

  /** Each header and each key and value fits on a line, markup neither begins nor ends with a newline and
      has no carriage returns, and other records are not named as patches are. */
  ghost predicate CleanSent(p: Sent) {
    match p
    case Patch(event, id, retry, items) =>
      && event in {EV_ELS, EV_SIS} && (id.Some? ==> OneLine(id.value)) && (retry.Some? ==> OneLine(retry.value))
      && forall i :: 0 <= i < |items| ==> CleanItem(items[i])
    case Element(id, retry, html) =>
      && (id.Some? ==> OneLine(id.value)) && (retry.Some? ==> OneLine(retry.value))
      && html != "" && html[0] != '\n' && Last(html) != '\n' && '\r' !in html
    case Other(record) => CleanHeaders(record) && NameOf(record) !in {EV_EL, EV_ELS, EV_SIS}
  }

  lemma {:induction false} CleanItemLines(items: seq<Item>)
    requires forall i :: 0 <= i < |items| ==> CleanItem(items[i])
    ensures AllTextLines(ItemLines(items)) == ItemLines(items) && Stripped(ItemLines(items)) == ItemLines(items)
  {
    hide CleanItem, TextLines, StripCr, ItemLine;
    if items != [] {
      CleanItemLines(Init(items));
      assert Init(ItemLines(items)) == ItemLines(Init(items));
      CleanItemLine(Last(items));
      assert ItemLines(items) == ItemLines(Init(items)) + [ItemLine(Last(items))];
      assert Stripped(ItemLines(items)) == Stripped(ItemLines(Init(items))) + [StripCr(ItemLine(Last(items)))];
    }
  }

  lemma CleanItemLine(it: Item)
    requires CleanItem(it)
    ensures TextLines(ItemLine(it)) == [ItemLine(it)] && StripCr(ItemLine(it)) == ItemLine(it)
  {
    var l := ItemLine(it);
    assert OneLine(l);
    CutMore("", l);
    assert "" + l == l && Cut(l) == ([], l);
    var none: seq<string> := [];
    assert none + [l] == [l];
    if it.value != "" {
      assert Last(l) == Last(it.value);
    }
  }

  lemma {:induction false} ItemsOfLines(items: seq<Item>)
    requires forall i :: 0 <= i < |items| ==> CleanItem(items[i])
    ensures ItemsOf(ItemLines(items)) == items
  {
    hide CleanItem, ItemLine;
    if items != [] {
      ItemsOfLines(Init(items));
      assert Init(ItemLines(items)) == ItemLines(Init(items));
      ItemOfLine(Last(items));
    }
  }

  lemma ItemOfLine(it: Item)
    requires CleanItem(it)
    ensures ' ' in ItemLine(it) && ItemOf(ItemLine(it)) == it
  {
    var l := ItemLine(it);
    FirstSpace(it.key, it.value);
    assert l[|it.key|] == ' ' && l[..|it.key|] == it.key && l[|it.key| + 1..] == it.value;
  }

  lemma FirstSpace(key: string, after: string)
    requires ' ' !in key
    ensures IndexOf(key + " " + after, ' ') == |key|
  {
    var s := key + " " + after;
    assert s[|key|] == ' ' && forall k :: 0 <= k < |key| ==> s[k] == key[k];
  }

  lemma EventNames()
    ensures EV_ELS != EV_EL && EV_SIS != EV_EL && EV_EL != "" && EV_ELS != "" && EV_SIS != ""
    ensures StripCr(EV_EL) == EV_EL && StripCr(EV_ELS) == EV_ELS && StripCr(EV_SIS) == EV_SIS
    ensures OneLine(EV_EL) && OneLine(EV_ELS) && OneLine(EV_SIS)
  {
  }

  // ---------- Markup ----------

  lemma JoinLast(vs: seq<string>, v: string)
    requires vs != []
    ensures Join(vs + [v]) == Join(vs) + "\n" + v
  {
    assert Init(vs + [v]) == vs;
  }

  lemma JoinLonger(vs: seq<string>, v: string, more: string)
    ensures Join(vs + [v + more]) == Join(vs + [v]) + more
  {
    if vs == [] {
      assert vs + [v] == [v] && vs + [v + more] == [v + more];
    } else {
      JoinLast(vs, v);
      JoinLast(vs, v + more);
    }
  }

  lemma {:induction false} CutJoins(text: string)
    requires '\r' !in text
    ensures var (ls, r) := Cut(text);
            Join(ls + [r]) == text && '\r' !in r && forall i :: 0 <= i < |ls| ==> '\r' !in ls[i]
  {
    var (ls, r) := Cut(text);
    if text == "" {
      assert ls + [r] == [""];
    } else {
      var (ls', r') := Cut(Init(text));
      CutJoins(Init(text));
      assert Init(text) + [Last(text)] == text;
      hide Cut, Join;
      if Last(text) == '\n' {
        JoinLast(ls' + [r'], "");
        assert Join(ls' + [r']) + "\n" + "" == text;
      } else {
        JoinLonger(ls', r', [Last(text)]);
      }
    }
  }

  lemma {:induction false} FirstLine(text: string)
    requires text != ""
    ensures var (ls, r) := Cut(text);
            (if ls == [] then r == text && '\n' !in text else ls[0] == "" <==> text[0] == '\n') && (r == "" <==> Last(text) == '\n')
  {
    assert Init(text) + [Last(text)] == text;
    if |text| > 1 {
      FirstLine(Init(text));
    } else {
      assert Init(text) == "" && Cut("") == ([], "");
    }
  }

  lemma {:induction false} NoneSkipped(vs: seq<string>)
    requires vs == [] || vs[0] != ""
    ensures SkipEmpty(vs) == vs
  {
    if |vs| > 1 {
      NoneSkipped(Init(vs));
    }
  }

  /** Markup is sent as its lines and put together again. */
  lemma MarkupLines(html: string)
    requires html != "" && html[0] != '\n' && Last(html) != '\n' && '\r' !in html
    ensures var lines := Stripped(AllTextLines([html])); lines != [] && Join(SkipEmpty(lines)) == html
  {
    var (ls, r) := Cut(html);
    CutJoins(html);
    FirstLine(html);
    hide Cut, Join, SkipEmpty;
    MarkupTextLines(html, ls, r);
    NoneSkipped(ls + [r]);
  }

  lemma MarkupTextLines(html: string, ls: seq<string>, r: string)
    requires Cut(html) == (ls, r) && r != "" && '\r' !in r && forall i :: 0 <= i < |ls| ==> '\r' !in ls[i]
    ensures Stripped(AllTextLines([html])) == ls + [r]
  {
    hide Cut;
    assert Init([html]) == [] && AllTextLines([]) == [];
    assert Stripped(ls) == ls;
    assert TextLines(html) == ls + [r];
    assert Stripped(ls + [r]) == ls + [r];
  }

  lemma MeantBySent(p: Sent)
    requires CleanSent(p)
    ensures CleanHeaders(ToRecord(p)) && Meant(ToRecord(p)) == ToEvents(p)
  {
    hide ItemsOf, AllTextLines, Stripped, ItemLines, Members, CleanItem, StripCr, Join, SkipEmpty;
    EventNames();
    match p {
      case Patch(_, _, _, items) =>
        CleanItemLines(items);
        ItemsOfLines(items);
      case Element(_, _, html) => MarkupLines(html);
      case Other(_) =>
    }
  }

  function ToRecords(ps: seq<Sent>): seq<Record> {
    seq(|ps|, i requires 0 <= i < |ps| => ToRecord(ps[i]))
  }

  function AllEvents(ps: seq<Sent>): seq<Event> {
    if ps == [] then [] else AllEvents(Init(ps)) + ToEvents(Last(ps))
  }

  lemma {:induction false} MeantByAll(ps: seq<Sent>)
    requires forall i :: 0 <= i < |ps| ==> CleanSent(ps[i])
    ensures MeantAll(ToRecords(ps)) == AllEvents(ps)
  {
    hide CleanSent, Meant, ToRecord, ToEvents;
    if ps != [] {
      MeantByAll(Init(ps));
      MeantBySent(Last(ps));
      assert Init(ToRecords(ps)) == ToRecords(Init(ps));
    }
  }

  /** Printing a list of records and parsing the text gives one event for each patch, in order, with each
      key holding its values joined by newlines, one for each element with its markup, and none for any
      other record. */
  lemma RoundTrip(ps: seq<Sent>)
    requires forall i :: 0 <= i < |ps| ==> CleanSent(ps[i])
    ensures Parse(PrintAll(ToRecords(ps))) == AllEvents(ps)
  {
    hide Parse, PrintAll, CleanSent, CleanHeaders, Meant, MeantAll, AllEvents, ToRecord, ToEvents;
    forall i | 0 <= i < |ps|
      ensures CleanHeaders(ToRecords(ps)[i])
    {
      MeantBySent(ps[i]);
    }
    PrintThenParse(ToRecords(ps));
    MeantByAll(ps);
  }

  // ---------- Any text ----------

  ghost predicate PatchNamed(es: seq<Event>) {
    forall e :: e in es ==> e.name in {EV_EL, EV_ELS, EV_SIS}
  }

  lemma {:induction false} LinesApplyPatches(st: State, ls: seq<string>)
    ensures PatchNamed(OnLines(st, ls).1)
  {
    hide OnData;
    if ls != [] {
      LinesApplyPatches(st, Init(ls));
    }
  }

  /** Whatever the text is, only events under one of the three names are applied. */
  lemma OnlyPatches(text: string)
    ensures PatchNamed(Parse(text))
  {
    var (ls, r) := Cut(text);
    LinesApplyPatches(START, if r == "" then ls else ls + [r]);
    hide OnLines;
  }

  // ---------- Texts that mean the same ----------

  /** Complete lines in front leave what follows as it is. */
  lemma {:induction false} CutAfter(a: string, b: string)
    requires Cut(a).1 == ""
    ensures Cut(a + b) == (Cut(a).0 + Cut(b).0, Cut(b).1)
  {
    if b == "" {
      assert a + b == a && Cut(a).0 + [] == Cut(a).0;
    } else {
      assert Init(a + b) == a + Init(b);
      CutAfter(a, Init(b));
      var x, y := Cut(a).0, Cut(Init(b)).0;
      assert x + y + [Cut(Init(b)).1] == x + (y + [Cut(Init(b)).1]);
    }
  }

  /** What follows complete lines is parsed from where they lead. */
  function ParseFrom(st: State, text: string): seq<Event> {
    var (ls, r) := Cut(text);
    var (st', es) := OnLines(st, if r == "" then ls else ls + [r]);
    es + Flush(st')
  }

  lemma ParseAfter(a: string, b: string)
    requires Cut(a).1 == ""
    ensures var (st, es) := OnLines(START, Cut(a).0); Parse(a + b) == es + ParseFrom(st, b)
  {
    CutAfter(a, b);
    hide Cut, OnLine, Flush, OnLines;
    var ls := Cut(a).0;
    var (ls', r) := Cut(b);
    var all := if r == "" then ls' else ls' + [r];
    Appended(ls, ls', [r]);
    OnLinesAppend(START, ls, all);
    var (st, es) := OnLines(START, ls);
    var (st', es') := OnLines(st, all);
    Appended(es, es', Flush(st'));
  }

  lemma Appended<T>(a: seq<T>, b: seq<T>, c: seq<T>)
    ensures a + b + c == a + (b + c)
  {
  }

  /** Where the text up to a line break leads. */
  lemma AfterLine(a: string, l: string)
    requires Cut(a).1 == "" && OneLine(l)
    ensures var (st, es) := OnLines(START, Cut(a).0);
            Cut(a + l + "\n").1 == "" && OnLines(START, Cut(a + l + "\n").0) == (OnLine(st, l).0, es + OnLine(st, l).1)
  {
    hide OnLine;
    CutLine(a, l);
    OnNextLine(START, Cut(a).0, l);
  }

  /** Lines that are taken alike in every state can be exchanged anywhere. */
  lemma LinesExchange(a: string, l: string, l': string, b: string)
    requires Cut(a).1 == "" && OneLine(l) && OneLine(l') && forall st :: OnLine(st, l) == OnLine(st, l')
    ensures Parse(a + l + "\n" + b) == Parse(a + l' + "\n" + b)
  {
    hide Cut, OnLine, Parse, ParseFrom, OnLines;
    AfterLine(a, l);
    AfterLine(a, l');
    ParseAfter(a + l + "\n", b);
    ParseAfter(a + l' + "\n", b);
    var st := OnLines(START, Cut(a).0).0;
    assert OnLine(st, l) == OnLine(st, l');
  }

  /** A comment line anywhere changes nothing. */
  lemma CommentsSkipped(a: string, comment: string, b: string)
    requires Cut(a).1 == "" && OneLine(comment) && comment != "" && comment[0] == ':'
    ensures Parse(a + comment + "\n" + b) == Parse(a + b)
  {
    assert forall st :: OnLine(st, comment) == (st, []);
    hide Cut, OnLine, Parse, ParseFrom, OnLines;
    AfterLine(a, comment);
    ParseAfter(a + comment + "\n", b);
    ParseAfter(a, b);
    var es := OnLines(START, Cut(a).0).1;
    assert es + [] == es;
  }

  /** A blank line ends an event: what follows is parsed on its own. */
  lemma BlankLineSeparates(a: string, b: string)
    ensures Parse(a + "\n\n" + b) == Parse(a) + Parse(b)
  {
    var (ls, r) := Cut(a);
    var (st, es) := OnLines(START, ls);
    CutNewline(a);
    Finish(a, ls, r, st, es);
    CutLine(a + "\n", "");
    assert a + "\n" + "" + "\n" == a + "\n\n";
    OnNextLine(START, ls, r);
    OnNextLine(START, ls + [r], "");
    hide Cut, OnLine, Flush, OnLines, Parse;
    var (st', es') := OnLine(st, r);
    OnBlank(st');
    ParseAfter(a + "\n\n", b);
    ParseIsFromStart(b);
    if r == "" {
      OnBlank(st);
      FlushStart();
      assert es + Flush(st) + [] == es + Flush(st);
    }
  }

  lemma ParseIsFromStart(b: string)
    ensures Parse(b) == ParseFrom(START, b)
  {
  }

  /** The space behind a field's colon may be left out. */
  lemma SpaceIsOptional(a: string, name: string, v: string, b: string)
    requires Cut(a).1 == "" && OneLine(name) && ':' !in name && name != "" && OneLine(v) && (v != "" ==> v[0] != ' ')
    ensures Parse(a + (name + ":" + v) + "\n" + b) == Parse(a + (name + ": " + v) + "\n" + b)
  {
    var l, l' := name + ":" + v, name + ": " + v;
    SameField(name, v);
    hide OnLine, Cut, Parse;
    LinesExchange(a, l, l', b);
  }

  lemma SameField(name: string, v: string)
    requires ':' !in name && name != "" && (v != "" ==> v[0] != ' ')
    ensures forall st :: OnLine(st, name + ":" + v) == OnLine(st, name + ": " + v)
  {
    hide OnLine, StripCr;
    assert FieldLine(name, v) == name + ": " + v;
    forall st
      ensures OnLine(st, name + ":" + v) == OnLine(st, name + ": " + v)
    {
      OnTightLine(st, name, v);
      OnFieldLine(st, name, v);
    }
  }

  /** A line `name:v` for the parser. */
  lemma OnTightLine(st: State, name: string, v: string)
    requires ':' !in name && name != "" && (v != "" ==> v[0] != ' ')
    ensures var w := StripCr(v);
            OnLine(st, name + ":" + v)
            == (if name == "event" then st.(event := if w == "" then "message" else w)
                else if name == "data" then OnData(st, w) else st, [])
  {
    hide OnData;
    var w := StripCr(v);
    var line := name + ":" + w;
    assert StripCr(name + ":" + v) == line;
    FirstColon(name, w);
    assert line[0] == name[0] && line[..|name|] == name && line[|name| + 1..] == w;
  }

  /** A line without colon is a field without value. */
  lemma ColonIsOptional(a: string, name: string, b: string)
    requires Cut(a).1 == "" && OneLine(name) && ':' !in name && name != "" && StripCr(name) == name
    ensures Parse(a + name + "\n" + b) == Parse(a + (name + ":") + "\n" + b)
  {
    hide OnLine, Cut, Parse, StripCr;
    forall st
      ensures OnLine(st, name) == OnLine(st, name + ":")
    {
      OnBareLine(st, name);
      OnTightLine(st, name, "");
      assert name + ":" + "" == name + ":";
    }
    LinesExchange(a, name, name + ":", b);
  }

  /** A line `name` for the parser. */
  lemma OnBareLine(st: State, name: string)
    requires ':' !in name && name != "" && StripCr(name) == name
    ensures OnLine(st, name)
            == (if name == "event" then st.(event := "message")
                else if name == "data" then OnData(st, "") else st, [])
    ensures StripCr("") == ""
  {
    hide OnData, IndexOf;
    assert IndexOf(name, ':') < 0;
  }

  /** The same text with a carriage return before every newline. */
  function Crlf(text: string): string {
    if text == "" then ""
    else if Last(text) == '\n' then Crlf(Init(text)) + "\r\n" else Crlf(Init(text)) + [Last(text)]
  }

  function WithCr(ls: seq<string>): seq<string> {
    seq(|ls|, i requires 0 <= i < |ls| => ls[i] + "\r")
  }

  lemma NoneWithCr()
    ensures WithCr([]) == []
  {
  }

  lemma {:induction false} CutCrlf(text: string)
    ensures Cut(Crlf(text)) == (WithCr(Cut(text).0), Cut(text).1)
  {
    NoneWithCr();
    if text != "" {
      CutCrlf(Init(text));
      var t := Crlf(Init(text));
      if Last(text) == '\n' {
        assert t + "\r\n" == t + "\r" + "\n";
        CutMore(t, "\r");
        CutNewline(t + "\r");
        assert WithCr(Cut(text).0) == WithCr(Cut(Init(text)).0) + [Cut(Init(text)).1 + "\r"];
      } else {
        CutMore(t, [Last(text)]);
      }
    }
  }

  lemma OnLineCr(st: State, l: string)
    requires StripCr(l) == l
    ensures OnLine(st, l + "\r") == OnLine(st, l)
  {
    assert StripCr(l + "\r") == l;
    hide OnData, IndexOf;
  }

  lemma {:induction false} OnLinesCr(st: State, ls: seq<string>)
    requires forall i :: 0 <= i < |ls| ==> StripCr(ls[i]) == ls[i]
    ensures OnLines(st, WithCr(ls)) == OnLines(st, ls)
  {
    hide OnLine, StripCr;
    if ls != [] {
      OnLinesCr(st, Init(ls));
      assert Init(WithCr(ls)) == WithCr(Init(ls));
      OnLineCr(OnLines(st, Init(ls)).0, Last(ls));
    } else {
      NoneWithCr();
    }
  }

  /** The lines may as well end in a carriage return and a newline. */
  lemma CrlfIsSame(text: string)
    requires forall i :: 0 <= i < |Cut(text).0| ==> StripCr(Cut(text).0[i]) == Cut(text).0[i]
    ensures Parse(Crlf(text)) == Parse(text)
  {
    var (ls, r) := Cut(text);
    CutCrlf(text);
    OnLinesCr(START, ls);
    hide Cut, OnLine, Flush, OnLines, StripCr, Crlf;
    if r != "" {
      OnNextLine(START, ls, r);
      OnNextLine(START, WithCr(ls), r);
    }
  }

  // ---------- The fields of a printed record ----------

  ghost predicate IsField(l: string, name: string) {
    name + ": " <= l
  }

  /** The values of a field in some lines, in order. */
  ghost function ReadField(ls: seq<string>, name: string): seq<string> {
    if ls == [] then []
    else ReadField(Init(ls), name) + (if IsField(Last(ls), name) then [Last(ls)[|name| + 2..]] else [])
  }

  ghost function Listed(v: Option<string>): seq<string> {
    if v.Some? then [v.value] else []
  }

  lemma {:induction false} ReadFieldAppend(a: seq<string>, b: seq<string>, name: string)
    ensures ReadField(a + b, name) == ReadField(a, name) + ReadField(b, name)
  {
    if b == [] {
      assert a + b == a;
    } else {
      assert Init(a + b) == a + Init(b) && Last(a + b) == Last(b);
      ReadFieldAppend(a, Init(b), name);
      Appended(ReadField(a, name), ReadField(Init(b), name), if IsField(Last(b), name) then [Last(b)[|name| + 2..]] else []);
    }
  }

  lemma FieldRead(n: string, v: string, name: string)
    requires ':' !in n && ':' !in name
    ensures IsField(FieldLine(n, v), name) <==> n == name
    ensures FieldLine(n, v)[|n| + 2..] == v
  {
    var l := FieldLine(n, v);
    assert l[|n|] == ':' && forall k :: 0 <= k < |n| ==> l[k] == n[k];
    assert (name + ": ")[|name|] == ':';
    if IsField(l, name) {
      assert l[|name|] == ':' && forall k :: 0 <= k < |name| ==> l[k] == name[k];
    }
  }

  lemma {:induction false} FieldLinesRead(n: string, vs: seq<string>, name: string)
    requires ':' !in n && ':' !in name
    ensures ReadField(FieldLines(n, vs), name) == if n == name then vs else []
  {
    hide IsField, FieldLine;
    if vs != [] {
      FieldLinesRead(n, Init(vs), name);
      assert Init(FieldLines(n, vs)) == FieldLines(n, Init(vs));
      FieldRead(n, Last(vs), name);
      assert Init(vs) + [Last(vs)] == vs;
    } else {
      assert FieldLines(n, vs) == [];
    }
  }

  lemma HeaderRead(n: string, v: Option<string>, name: string)
    requires ':' !in n && ':' !in name
    ensures ReadField(Header(n, v), name) == if n == name then Listed(v) else []
  {
    FieldLinesRead(n, Listed(v), name);
    assert Header(n, v) == FieldLines(n, Listed(v));
  }

  lemma BlankRead(ls: seq<string>, name: string)
    ensures ReadField(ls + [""], name) == ReadField(ls, name)
  {
    assert Init(ls + [""]) == ls;
    assert ReadField(ls, name) + [] == ReadField(ls, name);
  }

  lemma ThreeAppended(a: seq<string>, b: seq<string>, c: seq<string>, d: seq<string>, name: string)
    ensures ReadField(a + b + c + d + [""], name)
            == ReadField(a, name) + ReadField(b, name) + ReadField(c, name) + ReadField(d, name)
  {
    hide ReadField;
    ReadFieldAppend(a, b, name);
    ReadFieldAppend(a + b, c, name);
    ReadFieldAppend(a + b + c, d, name);
    BlankRead(a + b + c + d, name);
  }

  lemma PrintLinesRead(r: Record, name: string)
    requires name in {"event", "id", "retry", "data"}
    ensures ReadField(PrintLines(r), name) == if name == "event" then Listed(r.event) else if name == "id" then Listed(r.id)
                                              else if name == "retry" then Listed(r.retry) else DataLines(r)
  {
    HeaderRead("event", r.event, name);
    HeaderRead("id", r.id, name);
    HeaderRead("retry", r.retry, name);
    FieldLinesRead("data", DataLines(r), name);
    hide ReadField, Header, FieldLines, DataLines, Listed;
    ThreeAppended(Header("event", r.event), Header("id", r.id), Header("retry", r.retry), FieldLines("data", DataLines(r)), name);
  }

  /** Reading the fields of a printed record gives its event, id, retry time and data lines. */
  lemma FieldsAreRead(r: Record, name: string)
    requires CleanHeaders(r) && name in {"event", "id", "retry", "data"}
    ensures var (ls, rest) := Cut(Print(r));
            && rest == "" && ls != [] && Last(ls) == ""
            && ReadField(ls, name) == if name == "event" then Listed(r.event) else if name == "id" then Listed(r.id)
                                      else if name == "retry" then Listed(r.retry) else DataLines(r)
  {
    hide ReadField, Cut, DataLines, Unlines, Listed, Header, FieldLines;
    PrintLinesClean(r);
    CutUnlines(PrintLines(r));
    PrintLinesRead(r, name);
  }

  // ---------- Events with their fields in any order ----------

  datatype Field = Field(name: string, value: string)

  ghost predicate CleanField(f: Field) {
    f.name != "" && ':' !in f.name && OneLine(f.name) && OneLine(f.value)
  }

  function LinesOf(fs: seq<Field>): seq<string> {
    seq(|fs|, i requires 0 <= i < |fs| => FieldLine(fs[i].name, fs[i].value))
  }

  /** The last name given, if any. */
  ghost function LastName(fs: seq<Field>): string {
    if fs == [] then "message"
    else if Last(fs).name != "event" then LastName(Init(fs))
    else if StripCr(Last(fs).value) == "" then "message" else StripCr(Last(fs).value)
  }

  /** The data lines, in order. */
  ghost function DataOf(fs: seq<Field>): seq<string> {
    if fs == [] then []
    else DataOf(Init(fs)) + (if Last(fs).name == "data" then [StripCr(Last(fs).value)] else [])
  }

  ghost predicate NamesElement(f: Field) {
    f.name == "event" && StripCr(f.value) == EV_EL
  }

  ghost function Collected(fs: seq<Field>): State {
    var items := ItemsOf(DataOf(fs));
    State(LastName(fs), if items == [] then None else Some(Members(items)), DataOf(fs) != [], "")
  }

  /** What one field makes of the state. */
  ghost function Stepped(st: State, f: Field): State {
    var w := StripCr(f.value);
    if f.name == "event" then st.(event := if w == "" then "message" else w)
    else if f.name == "data" then OnData(st, w) else st
  }

  ghost predicate CleanFields(fs: seq<Field>) {
    forall i :: 0 <= i < |fs| ==> CleanField(fs[i]) && !NamesElement(fs[i])
  }

  lemma {:induction false} FieldsCollect(fs: seq<Field>)
    requires CleanFields(fs)
    ensures LastName(fs) != EV_EL && OnLines(START, LinesOf(fs)) == (Collected(fs), [])
    decreases |fs|
  {
    hide *;
    if fs == [] {
      NoneCollected();
    } else {
      LastIsClean(fs);
      var before, f := Init(fs), Last(fs);
      FieldsCollect(before);
      FieldCollected(before, f);
      FieldStepped(Collected(before), f);
      OnNextLine(START, LinesOf(before), FieldLine(f.name, f.value));
      var none: seq<Event> := [];
      assert none + none == none;
    }
  }

  lemma LastIsClean(fs: seq<Field>)
    requires CleanFields(fs) && fs != []
    ensures CleanFields(Init(fs)) && CleanField(Last(fs)) && !NamesElement(Last(fs))
    ensures |Init(fs)| < |fs| && Init(fs) + [Last(fs)] == fs
    ensures LinesOf(fs) == LinesOf(Init(fs)) + [FieldLine(Last(fs).name, Last(fs).value)]
  {
    hide CleanField, NamesElement, FieldLine;
  }

  lemma NoneCollected()
    ensures LastName([]) != EV_EL && OnLines(START, LinesOf([])) == (Collected([]), [])
  {
    NoItems();
    assert LinesOf([]) == [];
  }

  lemma FieldStepped(st: State, f: Field)
    requires CleanField(f)
    ensures OnLine(st, FieldLine(f.name, f.value)) == (Stepped(st, f), [])
  {
    hide OnLine, OnData, StripCr, FieldLine;
    OnFieldLine(st, f.name, f.value);
  }

  lemma FieldCollected(before: seq<Field>, f: Field)
    requires LastName(before) != EV_EL && !NamesElement(f)
    ensures LastName(before + [f]) != EV_EL && Collected(before + [f]) == Stepped(Collected(before), f)
  {
    hide OnData, StripCr, Members;
    assert Init(before + [f]) == before;
    if f.name == "data" {
      CollectNext(before, f);
    } else {
      assert DataOf(before) + [] == DataOf(before);
    }
  }

  lemma CollectNext(before: seq<Field>, f: Field)
    requires f.name == "data" && LastName(before) != EV_EL
    ensures OnData(Collected(before), StripCr(f.value)) == Collected(before + [f])
  {
    hide StripCr, OnData, Members;
    var l := StripCr(f.value);
    assert Init(before + [f]) == before;
    var ls := DataOf(before);
    assert Init(ls + [l]) == ls;
    OnDataLine(Collected(before), l);
    if ' ' in l {
      assert Init(ItemsOf(ls + [l])) == ItemsOf(ls);
      MembersNext(ItemsOf(ls + [l]));
      NoMembers();
    } else {
      assert ItemsOf(ls) + [] == ItemsOf(ls);
    }
  }

  /** An event applies under the last name it is given, wherever that stands among its fields, with all of
      its `key value` lines; under any other name, or without such lines, it applies nothing. */
  lemma FieldsInAnyOrder(fs: seq<Field>)
    requires CleanFields(fs)
    ensures Parse(Unlines(LinesOf(fs)))
            == if LastName(fs) in {EV_ELS, EV_SIS} && ItemsOf(DataOf(fs)) != []
               then [Event(LastName(fs), Members(ItemsOf(DataOf(fs))))] else []
  {
    hide *;
    var ls := LinesOf(fs);
    LinesOfAreClean(fs);
    CutUnlines(ls);
    FieldsCollect(fs);
    Finish(Unlines(ls), ls, "", Collected(fs), []);
    var none: seq<Event> := [];
    assert none + Flush(Collected(fs)) == Flush(Collected(fs));
    CollectedFlushes(fs);
  }

  lemma LinesOfAreClean(fs: seq<Field>)
    requires CleanFields(fs)
    ensures forall i :: 0 <= i < |LinesOf(fs)| ==> OneLine(LinesOf(fs)[i])
  {
    forall i | 0 <= i < |LinesOf(fs)|
      ensures OneLine(LinesOf(fs)[i])
    {
      assert CleanField(fs[i]);
    }
  }

  lemma CollectedFlushes(fs: seq<Field>)
    requires LastName(fs) != EV_EL
    ensures Flush(Collected(fs)) == if LastName(fs) in {EV_ELS, EV_SIS} && ItemsOf(DataOf(fs)) != []
                                    then [Event(LastName(fs), Members(ItemsOf(DataOf(fs))))] else []
  {
    hide LastName, ItemsOf, DataOf, Members;
    NoItems();
  }
}
