/** The streaming compressor: the driver loop around the encoder and the draining poll. */
module Compression {
  import opened Streams

  // ---------- The encoder ----------

  /** One unit of the compressed form: a literal, the mark a flush leaves, or the mark of the end. */
  datatype Code = Lit(byte: Byte) | SyncMark | LastMark

  ghost function Decode(codes: seq<Code>): seq<Byte> {
    if codes == [] then []
    else
      var c := codes[|codes| - 1];
      Decode(codes[..|codes| - 1]) + if c.Lit? then [c.byte] else []
  }

  function Literals(bytes: seq<Byte>): (codes: seq<Code>)
    ensures |codes| == |bytes| && forall i :: 0 <= i < |bytes| ==> codes[i] == Lit(bytes[i])
  {
    seq(|bytes|, i requires 0 <= i < |bytes| => Lit(bytes[i]))
  }

  lemma {:induction false} DecodeAppend(a: seq<Code>, b: seq<Code>)
    ensures Decode(a + b) == Decode(a) + Decode(b)
    decreases |b|
  {
    if b == [] {
      assert a + b == a && Decode(a) + [] == Decode(a);
    } else {
      var b', c := b[..|b| - 1], b[|b| - 1];
      assert (a + b)[..|a + b| - 1] == a + b';
      DecodeAppend(a, b');
      var last := if c.Lit? then [c.byte] else [];
      assert Decode(a) + (Decode(b') + last) == Decode(a) + Decode(b') + last;
    }
  }

  lemma {:induction false} DecodeLiterals(bytes: seq<Byte>)
    ensures Decode(Literals(bytes)) == bytes
    decreases |bytes|
  {
    if bytes != [] {
      var front := bytes[..|bytes| - 1];
      DecodeLiterals(front);
      assert Literals(bytes)[..|bytes| - 1] == Literals(front);
      assert bytes == front + [bytes[|bytes| - 1]];
    }
  }

  datatype Operation = Process | Flush | Finish

  datatype Step = Done | Refused | OutOfSlice

  /** Everything taken is decodable from what was handed out, is queued, or is held back; the end mark
      has been written just when the encoder has ended. */
  ghost predicate Accounts(taken: seq<Byte>, given: seq<Code>, queued: seq<Code>, held: seq<Byte>, ended: bool) {
    && taken == Decode(given) + Decode(queued) + held
    && (LastMark in given || LastMark in queued <==> ended)
  }

  lemma TakeAccounts(taken: seq<Byte>, given: seq<Code>, queued: seq<Code>, held: seq<Byte>, ended: bool, more: seq<Byte>)
    requires Accounts(taken, given, queued, held, ended)
    ensures Accounts(taken + more, given, queued, held + more, ended)
  {
    hide Decode;
    assert Decode(given) + Decode(queued) + (held + more) == Decode(given) + Decode(queued) + held + more;
  }

  lemma EncodeAccounts(taken: seq<Byte>, given: seq<Code>, queued: seq<Code>, held: seq<Byte>, ended: bool, n: nat)
    requires Accounts(taken, given, queued, held, ended) && n <= |held|
    ensures Accounts(taken, given, queued + Literals(held[..n]), held[n..], ended)
  {
    hide Decode;
    DecodeAppend(queued, Literals(held[..n]));
    DecodeLiterals(held[..n]);
    var g, q := Decode(given), Decode(queued);
    assert g + (q + held[..n]) + held[n..] == g + q + (held[..n] + held[n..]);
    assert held[..n] + held[n..] == held;
  }

  lemma MarkAccounts(taken: seq<Byte>, given: seq<Code>, queued: seq<Code>, held: seq<Byte>, ended: bool, mark: Code)
    requires Accounts(taken, given, queued, held, ended) && !mark.Lit?
    ensures Accounts(taken, given, queued + [mark], held, ended || mark.LastMark?)
  {
    DecodeAppend(queued, [mark]);
    assert Decode([mark]) == [] && Decode(queued) + [] == Decode(queued);
  }

  lemma HandOutAccounts(taken: seq<Byte>, given: seq<Code>, queued: seq<Code>, held: seq<Byte>, ended: bool, n: nat)
    requires Accounts(taken, given, queued, held, ended) && n <= |queued|
    ensures Accounts(taken, given + queued[..n], queued[n..], held, ended)
  {
    hide Decode;
    assert queued == queued[..n] + queued[n..];
    DecodeAppend(given, queued[..n]);
    DecodeAppend(queued[..n], queued[n..]);
    var g, x, y := Decode(given), Decode(queued[..n]), Decode(queued[n..]);
    assert g + x + y + held == g + (x + y) + held;
    assert LastMark in queued <==> LastMark in queued[..n] || LastMark in queued[n..];
  }

  ghost function Sum(ns: seq<nat>): nat {
    if ns == [] then 0 else Sum(ns[..|ns| - 1]) + ns[|ns| - 1]
  }

  lemma SumNext(ns: seq<nat>, n: nat)
    ensures Sum(ns + [n]) == Sum(ns) + n
  {
    assert (ns + [n])[..|ns|] == ns;
  }

  /** A compressor seen through its contract. How much it takes, encodes and hands out in one call is
      its own choice, and so is giving up. `fromStart` says how it reads its input: the unread bytes
      begin at the start of the slice it is given, or at `offset` within that slice. In one call it takes
      at most `most` bytes, the room of its buffer. */
  class Encoder {
    const fromStart: bool
    const most: nat
    var held: seq<Byte>
    var queued: seq<Code>
    var dirty: bool
    var ended: bool
    ghost var taken: seq<Byte>
    ghost var given: seq<Code>
    ghost var tries: seq<nat>
    ghost var faults: nat

    /** `tries` is how much each call set out to take, and the calls so far have taken that much; `faults`
        counts the calls that refused or ran past the slice. */
    ghost predicate Valid()
      reads this
    {
      && Accounts(taken, given, queued, held, ended)
      && (held != [] ==> dirty)
      && |taken| == Sum(tries) && most > 0
    }

    /** The work left before the output runs dry. */
    ghost function Work(): nat
      reads this
    {
      2 * |held| + |queued| + (if dirty then 2 else 0) + if ended then 0 else 2
    }

    predicate HasMoreOutput()
      reads this
    {
      queued != []
    }

    predicate IsFinished()
      reads this
    {
      ended && queued == []
    }

    constructor (readsFromStart: bool, room: nat)
      requires room > 0
      ensures Valid() && taken == held == [] && given == queued == [] && !ended
      ensures fromStart == readsFromStart && most == room
    {
      fromStart, most := readsFromStart, room;
      held, queued, dirty, ended := [], [], false, false;
      taken, given, tries, faults := [], [], [], 0;
      new;
      assert Decode([]) + Decode([]) + held == taken;
    }

    lemma HasRoom()
      requires Valid()
      ensures most > 0
    {
    }

    method Take(bytes: seq<Byte>)
      requires Valid()
      modifies `held, `taken, `dirty, `tries
      ensures Valid() && taken == old(taken) + bytes && |held| == |old(held)| + |bytes|
      ensures tries == old(tries) + [|bytes|]
      ensures dirty == (old(dirty) || bytes != [])
    {
      hide Accounts;
      TakeAccounts(taken, given, queued, held, ended, bytes);
      SumNext(tries, |bytes|);
      tries := tries + [|bytes|];
      held, taken, dirty := held + bytes, taken + bytes, dirty || bytes != [];
    }

    method EncodeHeld(n: nat)
      requires Valid() && n <= |held|
      modifies `held, `queued
      ensures Valid() && |held| == |old(held)| - n && |queued| == |old(queued)| + n
    {
      hide Accounts;
      EncodeAccounts(taken, given, queued, held, ended, n);
      queued, held := queued + Literals(held[..n]), held[n..];
    }

    method WriteMark(mark: Code)
      requires Valid() && held == [] && !mark.Lit?
      modifies `queued, `dirty, `ended
      ensures Valid() && |queued| == |old(queued)| + 1
      ensures dirty == (old(dirty) && mark.LastMark?) && ended == (old(ended) || mark.LastMark?)
    {
      hide Accounts;
      MarkAccounts(taken, given, queued, held, ended, mark);
      queued := queued + [mark];
      ended, dirty := ended || mark.LastMark?, dirty && mark.LastMark?;
    }

    method HandOut(n: nat) returns (out: seq<Code>)
      requires Valid() && n <= |queued|
      modifies `queued, `given
      ensures Valid() && |out| == n && given == old(given) + out && |queued| == |old(queued)| - n
    {
      hide Accounts;
      HandOutAccounts(taken, given, queued, held, ended, n);
      out := queued[..n];
      given, queued := given + out, queued[n..];
    }

    /** Encodes some of what is held, all of it when a flush or finish has its input, and hands out
        what fits. */
    method Produce(op: Operation, complete: bool, room: nat) returns (out: seq<Code>)
      requires Valid() && room > 0 && (ended ==> op.Finish?)
      modifies `held, `queued, `dirty, `ended, `given
      ensures Valid() && |out| <= room && given == old(given) + out
      ensures ended == (old(ended) || (op.Finish? && complete))
      ensures !op.Process? && complete ==> held == []
      ensures Work() <= old(Work()) && (queued != [] || old(queued) != [] ==> Work() < old(Work()))
    {
      hide Accounts, Valid;
      var m: nat :| m <= |held| && (!op.Process? && complete ==> m == |held|);
      EncodeHeld(m);
      if !op.Process? && complete && dirty {
        WriteMark(SyncMark);
      }
      if op.Finish? && complete && !ended {
        WriteMark(LastMark);
      }
      var k: nat :| k <= room && k <= |queued| && (queued != [] ==> k > 0);
      out := HandOut(k);
    }

    /** Sets out to take `used` of the unread bytes, and hands out `out`. With all its input in and no output left,
        a flush has encoded everything and so has a finish. A call that takes nothing and is not at
        rest works off some output. */
    method CompressStream(op: Operation, avail: nat, slice: seq<Byte>, offset: nat, room: nat)
      returns (step: Step, used: nat, out: seq<Code>)
      requires Valid() && room > 0 && (ended ==> op.Finish? && avail == 0)
      modifies this
      ensures |out| <= room && used <= avail && used <= most
      ensures faults == old(faults) + if step.Done? then 0 else 1
      ensures tries == old(tries) + if step.Refused? then [] else [used]
      ensures !step.Refused? ==> (step.OutOfSlice? <==> used > 0 && (if fromStart then 0 else offset) + used > |slice|)
      ensures step.Done? ==>
                var at := if fromStart then 0 else offset;
                && Valid() && given == old(given) + out
                && (used > 0 ==> at + used <= |slice|)
                && taken == old(taken) + (if used > 0 then slice[at..at + used] else [])
                && (!op.Finish? ==> !ended)
                && (!op.Process? && used == avail ==> held == [])
                && (op.Finish? && used == avail ==> ended)
                && Work() <= old(Work()) + 4 * used
                && (used == 0 ==> Work() < old(Work()) || (avail == 0 && queued == []))
    {
      hide Accounts, Valid;
      HasRoom();
      step, used, out := Done, 0, [];
      var n: nat :| n <= avail && n <= most && (avail > 0 && queued == [] ==> n > 0);
      var at := if fromStart then 0 else offset;
      if * {
        assert tries + [] == tries;
        step, faults := Refused, faults + 1;
        return;
      }
      used := n;
      if n > 0 && at + n > |slice| {
        step, tries, faults := OutOfSlice, tries + [n], faults + 1;
        return;
      }
      Take(if n > 0 then slice[at..at + n] else []);
      out := Produce(op, n == avail, room);
    }
  }

  // ---------- The driver loop ----------

  const OUTBUF_CAP: nat := 16 * 1024

  datatype Encoded = Ok(bytes: seq<Code>) | Refusal | Crash

  ghost predicate Fed(before: seq<Byte>, taken: seq<Byte>, input: seq<Byte>, offset: nat) {
    offset <= |input| && taken == before + input[..offset]
  }

  lemma FedNothing(before: seq<Byte>, input: seq<Byte>)
    ensures Fed(before, before, input, 0)
  {
  }

  lemma FedNext(before: seq<Byte>, input: seq<Byte>, offset: nat, used: nat)
    requires offset + used <= |input|
    ensures forall taken | Fed(before, taken, input, offset) ::
              Fed(before, taken + (if used > 0 then input[offset..][..used] else []), input, offset + used)
  {
    assert input[..offset] + input[offset..][..used] == input[..offset + used];
  }

  lemma FedAll(before: seq<Byte>, input: seq<Byte>)
    ensures forall taken | Fed(before, taken, input, |input|) :: taken == before + input
  {
    assert input[..|input|] == input;
  }

  /** Every call takes nothing or everything. */
  ghost predicate InOneGo(tries: seq<nat>, n: nat) {
    forall k :: 0 <= k < |tries| ==> tries[k] == 0 || tries[k] == n
  }

  /** Try `k` on an input of `n` bytes, read at the offset within what is left, runs past the end. */
  ghost predicate Oversteps(tries: seq<nat>, k: nat, n: nat) {
    k < |tries| && tries[k] > 0 && Sum(tries[..k]) + tries[k] > n - Sum(tries[..k])
  }

  ghost predicate KeepsInside(tries: seq<nat>, n: nat) {
    forall k :: 0 <= k < |tries| ==> !Oversteps(tries, k, n)
  }

  lemma {:induction false} NothingTried(tries: seq<nat>, n: nat)
    requires Sum(tries) == 0
    ensures InOneGo(tries, n)
  {
    if tries != [] {
      NothingTried(tries[..|tries| - 1], n);
    }
  }

  lemma {:induction false} TakenAtMost(tries: seq<nat>, n: nat, k: nat)
    requires InOneGo(tries, n) && k <= |tries|
    ensures Sum(tries[..k]) == 0 || Sum(tries[..k]) >= n
  {
    if k > 0 {
      TakenAtMost(tries, n, k - 1);
      assert tries[..k][..k - 1] == tries[..k - 1];
    }
  }

  /** An input that the tries take up in parts is overstepped: the last part starts behind the first
      and is asked for twice as far behind. */
  lemma {:induction false} PartsOverstep(tries: seq<nat>, n: nat)
    requires Sum(tries) == n
    ensures InOneGo(tries, n) || exists k :: Oversteps(tries, k, n)
  {
    if tries != [] {
      var last := |tries| - 1;
      var front := tries[..last];
      if tries[last] == 0 {
        PartsOverstep(front, n);
        if k: nat :| Oversteps(front, k, n) {
          assert front[..k] == tries[..k];
          assert Oversteps(tries, k, n);
        }
      } else if Sum(front) == 0 {
        NothingTried(front, n);
      } else {
        assert Oversteps(tries, last, n);
      }
    }
  }

  ghost predicate AtMost(tries: seq<nat>, most: nat) {
    forall k :: 0 <= k < |tries| ==> tries[k] <= most
  }

  /** An input larger than what one call takes is not taken in one go. */
  lemma {:induction false} NotInOneGo(tries: seq<nat>, n: nat, most: nat)
    requires InOneGo(tries, n) && AtMost(tries, most) && most < n
    ensures Sum(tries) == 0
  {
    if tries != [] {
      NotInOneGo(tries[..|tries| - 1], n, most);
    }
  }

  /** A try that oversteps comes after a part. */
  lemma OverstepsAfterPart(tries: seq<nat>, k: nat, n: nat)
    requires Oversteps(tries, k, n) && Sum(tries[..k]) + tries[k] <= n
    ensures !InOneGo(tries, n)
  {
    if InOneGo(tries, n) {
      TakenAtMost(tries, n, k);
    }
  }

  lemma InsideNext(tries: seq<nat>, used: nat, n: nat)
    ensures KeepsInside(tries + [used], n)
            <==> KeepsInside(tries, n) && !(used > 0 && Sum(tries) + used > n - Sum(tries))
    ensures InOneGo(tries + [used], n) ==> InOneGo(tries, n)
    ensures InOneGo(tries, n) && used > 0 && Sum(tries) + used <= n ==> Sum(tries) == 0
  {
    hide Sum;
    var more := tries + [used];
    assert more[..|tries|] == tries;
    forall k: nat | k < |tries|
      ensures Oversteps(more, k, n) <==> Oversteps(tries, k, n)
      ensures more[k] == tries[k]
    {
      assert more[..k] == tries[..k];
    }
    assert Oversteps(more, |tries|, n) <==> used > 0 && Sum(tries) + used > n - Sum(tries);
    assert tries[..|tries|] == tries;
    if InOneGo(tries, n) {
      TakenAtMost(tries, n, |tries|);
    }
  }

  /** How a call that was not refused ends, by what the encoder set out to take: reading from the start
      every call completes; reading at the offset those complete that take all of the input at once. */
  ghost predicate EndsBy(r: Encoded, fromStart: bool, tries: seq<nat>, n: nat) {
    && !r.Refusal? ==>
         && (r.Ok? <==> fromStart || InOneGo(tries, n))
         && (r.Ok? <==> fromStart || KeepsInside(tries, n))
         && (r.Ok? ==> Sum(tries) == n)
  }

  /** Feeds one input to the encoder. A completed call has handed the encoder the whole input, in
      order and once. Read at the offset, no input larger than what the encoder takes in one call ever
      completes. */
  method Encode(encoder: Encoder, input: seq<Byte>, op: Operation) returns (r: Encoded)
    requires encoder.Valid() && !encoder.ended && (!op.Process? ==> input == [])
    modifies encoder
    ensures r.Ok? ==>
              && encoder.Valid() && encoder.queued == []
              && encoder.taken == old(encoder.taken) + input
              && encoder.given == old(encoder.given) + r.bytes
              && encoder.ended == op.Finish?
              && (!op.Process? ==> encoder.held == [])
    ensures encoder.faults == old(encoder.faults) + if r.Ok? then 0 else 1
    ensures old(encoder.tries) <= encoder.tries
    ensures EndsBy(r, encoder.fromStart, encoder.tries[|old(encoder.tries)|..], |input|)
    ensures !encoder.fromStart && encoder.most < |input| ==> r.Crash? || r.Refusal?
  {
    hide Decode, Accounts, Encoder.Valid, Encoder.Work, EndsBy, Feeding;
    var scratch: seq<Code> := [];
    var offset: nat := 0;
    var done := false;
    ghost var tries: seq<nat> := [];
    FeedsNothing(encoder.fromStart, encoder.most, encoder.taken, input);
    while !done
      invariant Feeding(encoder.fromStart, encoder.most, tries, offset, old(encoder.taken), encoder.taken, input)
      invariant offset <= |input| && encoder.tries == old(encoder.tries) + tries
      invariant encoder.Valid() && (encoder.ended ==> op.Finish?) && encoder.faults == old(encoder.faults)
      invariant encoder.given == old(encoder.given) + scratch
      invariant done ==> encoder.queued == [] && offset == |input|
      invariant done ==> encoder.ended == op.Finish? && (!op.Process? ==> encoder.held == [])
      decreases !done, 5 * (|input| - offset) + encoder.Work()
    {
      ghost var taken0 := encoder.taken;
      var step, used, out := encoder.CompressStream(op, |input| - offset, input[offset..], offset, OUTBUF_CAP);
      Behind(old(encoder.tries), tries, used);
      if step.Refused? {
        Refused(encoder.fromStart, tries, |input|);
        return Refusal;
      }
      if step.OutOfSlice? {
        FeedsBeyond(encoder.fromStart, encoder.most, tries, offset, old(encoder.taken), taken0, input, used);
        return Crash;
      }
      FeedsOn(encoder.fromStart, encoder.most, tries, offset, old(encoder.taken), taken0, input, used);
      tries := tries + [used];
      offset := offset + used;
      scratch := scratch + out;
      done := match op
        case Finish => encoder.IsFinished()
        case Flush => !encoder.HasMoreOutput()
        case Process => offset >= |input| && !encoder.HasMoreOutput();
    }
    Behind(old(encoder.tries), tries, 0);
    FedWhole(encoder.fromStart, encoder.most, tries, old(encoder.taken), encoder.taken, input, scratch);
    r := Ok(scratch);
  }

  /** Where the tries have led: `offset` bytes are taken, and, unless parts were read at the offset, they
      are the first of the input. */
  ghost predicate Feeding(fromStart: bool, most: nat, tries: seq<nat>, offset: nat, before: seq<Byte>, taken: seq<Byte>,
                          input: seq<Byte>)
  {
    && offset == Sum(tries) <= |input| && AtMost(tries, most)
    && (fromStart || KeepsInside(tries, |input|))
    && (fromStart || InOneGo(tries, |input|) ==> Fed(before, taken, input, offset))
  }

  lemma FeedsNothing(fromStart: bool, most: nat, before: seq<Byte>, input: seq<Byte>)
    ensures Feeding(fromStart, most, [], 0, before, before, input)
  {
    hide Sum, Fed;
    NoTries(|input|);
    FedNothing(before, input);
  }

  lemma FeedsOn(fromStart: bool, most: nat, tries: seq<nat>, offset: nat, before: seq<Byte>, taken: seq<Byte>,
                input: seq<Byte>, used: nat)
    requires Feeding(fromStart, most, tries, offset, before, taken, input) && used <= |input| - offset && used <= most
    requires used > 0 ==> (if fromStart then 0 else offset) + used <= |input| - offset
    ensures var at := if fromStart then 0 else offset;
            Feeding(fromStart, most, tries + [used], offset + used, before,
                    taken + (if used > 0 then input[offset..][at..at + used] else []), input)
  {
    hide Sum, AtMost, KeepsInside, InOneGo, Fed;
    InsideNext(tries, used, |input|);
    SumNext(tries, used);
    AtMostNext(tries, used, most);
    FedNext(before, input, offset, used);
    assert input[offset..][0..used] == input[offset..][..used];
  }

  lemma FeedsBeyond(fromStart: bool, most: nat, tries: seq<nat>, offset: nat, before: seq<Byte>, taken: seq<Byte>,
                    input: seq<Byte>, used: nat)
    requires Feeding(fromStart, most, tries, offset, before, taken, input) && 0 < used <= |input| - offset
    requires (if fromStart then 0 else offset) + used > |input| - offset
    ensures !fromStart && EndsBy(Crash, fromStart, tries + [used], |input|)
  {
    hide Sum, AtMost, KeepsInside, InOneGo, Fed;
    InsideNext(tries, used, |input|);
    CrashesByPart(tries, used, |input|);
    EndsInCrash(tries + [used], |input|);
  }

  lemma FedWhole(fromStart: bool, most: nat, tries: seq<nat>, before: seq<Byte>, taken: seq<Byte>, input: seq<Byte>,
                 out: seq<Code>)
    requires Feeding(fromStart, most, tries, |input|, before, taken, input)
    ensures EndsBy(Ok(out), fromStart, tries, |input|) && taken == before + input && (fromStart || |input| <= most)
  {
    hide Sum, AtMost, KeepsInside, InOneGo, Fed;
    EndsWell(out, fromStart, tries, |input|, most);
    FedAll(before, input);
  }

  lemma Behind(before: seq<nat>, tries: seq<nat>, used: nat)
    ensures before + tries + [used] == before + (tries + [used]) && before <= before + tries && before <= before + (tries + [used])
    ensures (before + tries)[|before|..] == tries && (before + (tries + [used]))[|before|..] == tries + [used]
    ensures before + tries + [] == before + tries
  {
  }

  lemma Refused(fromStart: bool, tries: seq<nat>, n: nat)
    ensures EndsBy(Refusal, fromStart, tries, n)
  {
  }

  lemma EndsInCrash(tries: seq<nat>, n: nat)
    requires !InOneGo(tries, n) && !KeepsInside(tries, n)
    ensures EndsBy(Crash, false, tries, n)
  {
  }

  lemma EndsWell(out: seq<Code>, fromStart: bool, tries: seq<nat>, n: nat, most: nat)
    requires Sum(tries) == n && (fromStart || KeepsInside(tries, n)) && AtMost(tries, most)
    ensures EndsBy(Ok(out), fromStart, tries, n) && (fromStart || InOneGo(tries, n)) && (fromStart || n <= most)
  {
    hide Sum, AtMost, KeepsInside, InOneGo;
    InsideMeansInOneGo(tries, n);
    if !fromStart && most < n {
      NotInOneGo(tries, n, most);
    }
  }

  /** An encoder that takes one byte a call, read at the offset, completes not even two bytes. */
  method TwoBytes() returns (r: Encoded)
    ensures r.Crash? || r.Refusal?
  {
    var encoder := new Encoder(false, 1);
    r := Encode(encoder, [1, 2], Process);
  }

  lemma NoTries(n: nat)
    ensures Sum([]) == 0 && InOneGo([], n) && KeepsInside([], n) && forall most: nat :: AtMost([], most)
  {
  }

  lemma AtMostNext(tries: seq<nat>, used: nat, most: nat)
    requires AtMost(tries, most) && used <= most
    ensures AtMost(tries + [used], most)
  {
  }

  lemma CrashesByPart(tries: seq<nat>, used: nat, n: nat)
    requires !KeepsInside(tries + [used], n) && KeepsInside(tries, n) && Sum(tries) + used <= n
    ensures !InOneGo(tries + [used], n)
  {
    hide Sum;
    InsideNext(tries, used, n);
    var more := tries + [used];
    assert more[..|tries|] == tries;
    assert Oversteps(more, |tries|, n);
    OverstepsAfterPart(more, |tries|, n);
  }

  lemma InsideMeansInOneGo(tries: seq<nat>, n: nat)
    requires Sum(tries) == n
    ensures InOneGo(tries, n) <==> KeepsInside(tries, n)
  {
    PartsOverstep(tries, n);
    if InOneGo(tries, n) {
      forall k: nat | k < |tries|
        ensures !Oversteps(tries, k, n)
      {
        UpTo(tries, k);
        if Oversteps(tries, k, n) {
          OverstepsAfterPart(tries, k, n);
        }
      }
    }
  }

  lemma {:induction false} UpTo(tries: seq<nat>, k: nat)
    requires k < |tries|
    ensures Sum(tries[..k]) + tries[k] <= Sum(tries)
    decreases |tries|
  {
    var last := |tries| - 1;
    if k < last {
      UpTo(tries[..last], k);
      assert tries[..last][..k] == tries[..k];
    }
  }

  // ---------- The stream ----------

  ghost function Join(chunks: seq<seq<Byte>>): seq<Byte> {
    if chunks == [] then [] else Join(chunks[..|chunks| - 1]) + chunks[|chunks| - 1]
  }

  lemma JoinNext(chunks: seq<seq<Byte>>, chunk: seq<Byte>)
    ensures Join(chunks + [chunk]) == Join(chunks) + chunk
  {
    assert (chunks + [chunk])[..|chunks|] == chunks;
  }

  lemma SentIsAll(encoder: Encoder)
    requires encoder.Valid() && encoder.held == [] && encoder.queued == []
    ensures Decode(encoder.given) == encoder.taken && (LastMark in encoder.given <==> encoder.ended)
  {
    assert Decode(encoder.given) + [] + [] == Decode(encoder.given);
  }

  lemma PrefixIsSent(encoder: Encoder, sent: seq<Code>, rest: seq<Code>)
    requires encoder.Valid() && encoder.given == sent + rest
    ensures Decode(sent) <= encoder.taken
  {
    DecodeAppend(sent, rest);
  }

  const DRAIN_BUDGET: nat := 32

  class BrotliStream {
    const inner: Source
    const encoder: Encoder
    var finished: bool
    ghost var sent: seq<Code>
    var broken: bool

    /** Between polls nothing is held back. Once finished, a body with the end mark decodes to
        everything ever sent, and one without it to a prefix of what was taken. */
    ghost predicate Valid()
      reads this, inner, encoder
    {
      && inner.Valid() && finished == inner.done
      && (!broken && !finished ==>
            && encoder.Valid() && encoder.given == sent && !encoder.ended
            && encoder.held == [] && encoder.queued == []
            && encoder.taken == Join(inner.taken) && Decode(sent) == Join(inner.taken) && LastMark !in sent)
      && (!broken && finished ==>
            && Decode(sent) <= Join(inner.taken)
            && (LastMark in sent ==> inner.closed && Decode(sent) == Join(inner.sent)))
    }

    constructor (source: Source, readsFromStart: bool, room: nat)
      requires room > 0 && source.Valid() && source.taken == [] && !source.done
      ensures Valid() && inner == source && fresh(encoder) && sent == [] && !finished && !broken
    {
      inner := source;
      encoder := new Encoder(readsFromStart, room);
      finished, sent, broken := false, [], false;
    }

    /** The state of a poll that has compressed `drained` chunks into `accumulated`. */
    ghost predicate Draining(accumulated: seq<Code>, start: seq<seq<Byte>>, drained: nat)
      reads this, inner, encoder
    {
      && inner.Valid() && !broken && encoder.Valid() && !encoder.ended && encoder.queued == []
      && encoder.given == sent + accumulated && encoder.taken == Join(inner.taken)
      && start <= inner.taken && |inner.taken| == |start| + drained
      && LastMark !in sent
    }

    /** Ends the burst: what the encoder still holds joins the frame. */
    method EndBurst(accumulated: seq<Code>, op: Operation, ghost start: seq<seq<Byte>>, ghost drained: nat)
      returns (r: Outcome<seq<Code>>)
      requires Draining(accumulated, start, drained) && !op.Process?
      modifies `sent, `broken, encoder
      ensures r.Failed? || r.Data?
      ensures broken == r.Failed? && sent == if r.Data? then old(sent) + r.frame else old(sent)
      ensures encoder.faults == old(encoder.faults) + if broken then 1 else 0
      ensures !broken ==>
                && encoder.Valid() && encoder.given == sent && encoder.ended == op.Finish?
                && encoder.held == [] && encoder.queued == []
                && encoder.taken == Join(inner.taken) && Decode(sent) == Join(inner.taken)
                && (LastMark in sent <==> op.Finish?)
    {
      hide Decode, Accounts, Join, Encoder.Valid;
      var out := Encode(encoder, [], op);
      if !out.Ok? {
        broken := true;
        return Failed;
      }
      r := Data(accumulated + out.bytes);
      sent := sent + r.frame;
      assert old(sent) + accumulated + out.bytes == sent;
      assert Join(inner.taken) + [] == Join(inner.taken);
      SentIsAll(encoder);
    }

    /** Drains ready chunks, at most a budget of them, and flushes once at the boundary. After every
        poll that does not fail, what was sent decodes to all that was taken. */
    method Poll() returns (r: Outcome<seq<Code>>)
      requires Valid() && !broken
      modifies this, inner, encoder
      ensures Valid() && sent == if r.Data? then old(sent) + r.frame else old(sent)
      ensures old(inner.taken) <= inner.taken && |inner.taken| <= |old(inner.taken)| + DRAIN_BUDGET
      ensures !old(finished) && !r.Failed? ==> Decode(sent) == Join(inner.taken)
      ensures r.Pending? ==> !inner.closed && inner.taken == inner.sent
      ensures old(finished) ==> inner.taken == old(inner.taken)
      ensures old(inner.closed) ==> inner.closed
      ensures !broken ==> MayAnswer(old(finished), old(inner.cancelled), r, finished, inner.cancelled)
      ensures old(inner.cancelled || finished) ==> !broken
      ensures broken ==> r.Failed?
      ensures r.Failed? && !broken ==> LastMark !in sent
      ensures finished && !old(finished) && !r.Failed? ==> inner.closed && LastMark in sent
      ensures r.Data? && !finished && |inner.taken| < |old(inner.taken)| + DRAIN_BUDGET ==>
                r.frame != [] && inner.taken == inner.sent && !inner.closed
      ensures encoder.faults == old(encoder.faults) + if broken then 1 else 0
      ensures (r.Failed? && !broken ==> inner.cancelled) && (old(inner.cancelled) ==> inner.cancelled)
      ensures old(inner.closed) && !old(finished) && !r.Failed? ==>
                && r.Data? && inner.sent == old(inner.sent)
                && if |old(inner.queue)| < DRAIN_BUDGET then finished && LastMark in r.frame && inner.queue == []
                   else !finished && |inner.queue| == |old(inner.queue)| - DRAIN_BUDGET
    {
      hide Decode, Accounts, Join, Encoder.Valid;
      if finished {
        return End;
      }
      var accumulated: seq<Code> := [];
      var drained: nat := 0;
      assert sent + [] == sent;
      while true
        invariant Draining(accumulated, old(inner.taken), drained) && drained < DRAIN_BUDGET
        invariant !inner.done && !finished && encoder.faults == old(encoder.faults)
        invariant old(inner.closed) ==> inner.sent == old(inner.sent) && |inner.queue| == |old(inner.queue)| - drained
        invariant sent == old(sent) && (old(inner.cancelled) ==> inner.cancelled) && (old(inner.closed) ==> inner.closed)
        decreases DRAIN_BUDGET - drained
      {
        var item := inner.Next();
        match item
        case Chunk(chunk) =>
          var out := Encode(encoder, chunk, Process);
          if !out.Ok? {
            broken := true;
            return Failed;
          }
          JoinNext(inner.taken[..|inner.taken| - 1], chunk);
          accumulated, drained := accumulated + out.bytes, drained + 1;
          if drained >= DRAIN_BUDGET {
            r := EndBurst(accumulated, Flush, old(inner.taken), drained);
            return;
          }
        case NotYet =>
          r := EndBurst(accumulated, Flush, old(inner.taken), drained);
          if r == Data([]) {
            r := Pending;
          }
          return;
        case Fault =>
          PrefixIsSent(encoder, sent, accumulated);
          finished := true;
          return Failed;
        case Over =>
          finished := true;
          r := EndBurst(accumulated, Finish, old(inner.taken), drained);
          if r == Data([]) {
            r := End;
          }
          return;
      }
    }

    /** Any number of polls, with the other threads acting in between: the frames make up what was
        sent, and after an error or the end there is only the end. As long as no poll fails, what was sent
        decodes to all that was taken; a last answer that is pending has left nothing behind, and the
        end means that everything ever sent has arrived. A stream cut off before fails at once. Only a fault
        of the encoder or a cancelled token makes a poll fail: without these, a closed source is answered
        by its frames, the last of them marked as the end, and then only by the end. */
    method Serve(polls: nat) returns (outcomes: seq<Outcome<seq<Code>>>)
      requires Valid() && !broken
      modifies this, inner, encoder
      ensures Valid() && sent == old(sent) + Frames(outcomes) && OverIsOver(outcomes)
      ensures |outcomes| == polls || broken
      ensures !broken && HasOver(outcomes) ==> finished
      ensures old(inner.taken) <= inner.taken && |inner.taken| <= |old(inner.taken)| + DRAIN_BUDGET * |outcomes|
      ensures !old(finished) && !HasFailed(outcomes) ==> Decode(sent) == Join(inner.taken)
      ensures outcomes != [] && outcomes[|outcomes| - 1].Pending? ==> !inner.closed && inner.taken == inner.sent
      ensures !old(finished) && !HasFailed(outcomes) && HasOver(outcomes) ==>
                inner.closed && LastMark in sent && Decode(sent) == Join(inner.sent)
      ensures old(inner.cancelled) && !old(finished) && polls > 0 ==> outcomes != [] && outcomes[0].Failed?
      ensures encoder.faults == old(encoder.faults) + (if broken then 1 else 0) && (HasFailed(outcomes) && !old(finished) ==> broken || inner.cancelled)
      ensures old(inner.closed) && !old(finished) && !broken && !inner.cancelled ==> RunsOut(outcomes, |old(inner.queue)|)
    {
      hide Valid, Frames, OverIsOver, HasOver, HasFailed, Decode, Join, RunsOut, RunningOut;
      outcomes := [];
      NothingRunsOut(|inner.queue|);
      NoFrames(sent);
      if !finished {
        NothingHeldBack();
      }
      while |outcomes| < polls && !broken
        invariant Valid() && sent == old(sent) + Frames(outcomes) && OverIsOver(outcomes)
        invariant |outcomes| <= polls && (!broken && HasOver(outcomes) ==> finished)
        invariant old(inner.taken) <= inner.taken && |inner.taken| <= |old(inner.taken)| + DRAIN_BUDGET * |outcomes|
        invariant broken ==> HasFailed(outcomes)
        invariant !old(finished) && !HasFailed(outcomes) ==> Decode(sent) == Join(inner.taken)
        invariant !old(finished) && !HasFailed(outcomes) && finished ==> inner.closed && LastMark in sent
        invariant outcomes != [] && outcomes[|outcomes| - 1].Pending? ==> !inner.closed && inner.taken == inner.sent
        invariant outcomes == [] ==> finished == old(finished) && !broken && (old(inner.cancelled) ==> inner.cancelled)
        invariant old(inner.cancelled) && !old(finished) && outcomes != [] ==> outcomes[0].Failed?
        invariant encoder.faults == old(encoder.faults) + if broken then 1 else 0
        invariant HasFailed(outcomes) && !old(finished) ==> broken || inner.cancelled
        invariant old(inner.closed) ==> inner.closed
        invariant old(inner.closed) && !old(finished) && !HasFailed(outcomes) ==>
                    RunningOut(outcomes, |old(inner.queue)|, finished, |inner.queue|)
        decreases polls - |outcomes|
      {
        WaitForOthers();
        ghost var over, left := finished, |inner.queue|;
        var r := Poll();
        FramesNext(old(sent), outcomes, r);
        OverNext(outcomes, r);
        FailedNext(outcomes, r);
        RunsOutNext(outcomes, r, |old(inner.queue)|, over, left, finished, |inner.queue|);
        outcomes := outcomes + [r];
      }
      if old(inner.closed) && !old(finished) && !HasFailed(outcomes) {
        RunningMeans(outcomes, |old(inner.queue)|, finished, |inner.queue|);
      }
      if !broken && finished && LastMark in sent {
        EverythingArrived();
      }
    }

    lemma NothingHeldBack()
      requires Valid() && !broken && !finished
      ensures Decode(sent) == Join(inner.taken)
    {
    }

    lemma EverythingArrived()
      requires Valid() && !broken && finished && LastMark in sent
      ensures inner.closed && Decode(sent) == Join(inner.sent)
    {
    }

    method WaitForOthers()
      requires Valid()
      modifies inner
      ensures Valid() && inner.taken == old(inner.taken)
      ensures old(inner.cancelled) ==> inner.cancelled
      ensures old(inner.closed) ==> inner.closed && inner.queue == old(inner.queue)
    {
      hide Decode, Accounts, Join, Encoder.Valid;
      QueueIsRest();
      inner.Others();
      QueueIsRest();
    }

    lemma QueueIsRest()
      requires Valid()
      ensures |inner.taken| <= |inner.sent| && inner.queue == inner.sent[|inner.taken|..]
    {
    }
  }

  /** The answers of a closed source with `n` chunks in its queue. */
  ghost predicate RunsOut(outcomes: seq<Outcome<seq<Code>>>, n: nat) {
    forall i :: 0 <= i < |outcomes| ==>
      if i < n / DRAIN_BUDGET then outcomes[i].Data?
      else if i == n / DRAIN_BUDGET then outcomes[i].Data? && LastMark in outcomes[i].frame
      else outcomes[i].End?
  }

  /** So far, with `left` chunks still in the queue. */
  ghost predicate RunningOut(outcomes: seq<Outcome<seq<Code>>>, n: nat, over: bool, left: nat) {
    && RunsOut(outcomes, n) && (over <==> |outcomes| > n / DRAIN_BUDGET)
    && (!over ==> left == n - DRAIN_BUDGET * |outcomes|)
  }

  lemma NothingRunsOut(n: nat)
    ensures RunningOut([], n, false, n)
  {
  }

  lemma RunsOutNext(outcomes: seq<Outcome<seq<Code>>>, r: Outcome<seq<Code>>, n: nat, over: bool, left: nat,
                    nowOver: bool, nowLeft: nat)
    ensures RunningOut(outcomes, n, over, left)
            && (if over then r.End? && nowOver
                else r.Data? && if left < DRAIN_BUDGET then nowOver && LastMark in r.frame
                                else !nowOver && nowLeft == left - DRAIN_BUDGET)
            ==> RunningOut(outcomes + [r], n, nowOver, nowLeft)
  {
  }

  lemma RunningMeans(outcomes: seq<Outcome<seq<Code>>>, n: nat, over: bool, left: nat)
    requires RunningOut(outcomes, n, over, left)
    ensures RunsOut(outcomes, n)
  {
  }

  ghost predicate HasFailed(outcomes: seq<Outcome<seq<Code>>>) {
    exists i :: 0 <= i < |outcomes| && outcomes[i].Failed?
  }

  lemma FailedNext(outcomes: seq<Outcome<seq<Code>>>, r: Outcome<seq<Code>>)
    ensures HasFailed(outcomes + [r]) <==> HasFailed(outcomes) || r.Failed?
  {
    var more := outcomes + [r];
    assert forall i :: 0 <= i < |outcomes| ==> more[i] == outcomes[i];
    assert more[|outcomes|] == r;
  }

  ghost function Frames(outcomes: seq<Outcome<seq<Code>>>): seq<Code> {
    if outcomes == [] then []
    else
      var r := outcomes[|outcomes| - 1];
      Frames(outcomes[..|outcomes| - 1]) + if r.Data? then r.frame else []
  }

  lemma NoFrames(sent: seq<Code>)
    ensures sent == sent + Frames([]) && OverIsOver([]) && !HasOver([]) && !HasFailed([])
  {
  }

  lemma FramesNext(sent: seq<Code>, outcomes: seq<Outcome<seq<Code>>>, r: Outcome<seq<Code>>)
    ensures sent + Frames(outcomes + [r]) == sent + Frames(outcomes) + if r.Data? then r.frame else []
  {
    assert (outcomes + [r])[..|outcomes|] == outcomes;
  }

  ghost predicate HasOver(outcomes: seq<Outcome<seq<Code>>>) {
    exists i :: 0 <= i < |outcomes| && (outcomes[i].Failed? || outcomes[i].End?)
  }

  ghost predicate OverIsOver(outcomes: seq<Outcome<seq<Code>>>) {
    forall i, j :: 0 <= i < j < |outcomes| && (outcomes[i].Failed? || outcomes[i].End?) ==> outcomes[j].End?
  }

  lemma OverNext(outcomes: seq<Outcome<seq<Code>>>, r: Outcome<seq<Code>>)
    requires OverIsOver(outcomes) && (HasOver(outcomes) ==> r.End?)
    ensures OverIsOver(outcomes + [r])
    ensures HasOver(outcomes + [r]) <==> HasOver(outcomes) || r.Failed? || r.End?
  {
    var more := outcomes + [r];
    assert forall i :: 0 <= i < |outcomes| ==> more[i] == outcomes[i];
    assert more[|outcomes|] == r;
  }
}
