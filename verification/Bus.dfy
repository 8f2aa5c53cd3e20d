/** The in-process event bus and the forwarding loop behind `.bus sub`, as interleaved steps. */
module Bus {
  import Glob
  import opened Options

  /** The payload is never looked at; it stands for any value. */
  datatype Event = Event(topic: string, value: string)

  datatype Received = Got(event: Event) | Lagged(missed: nat) | Closed | Empty

  // ---------- The broadcast channel ----------

  /** A bounded broadcast channel. It keeps only the newest `slots` events; `log` is everything ever
      sent, which no operation looks at. */
  class Channel {
    const slots: nat
    var ring: seq<Event>
    var total: nat
    var closed: bool
    ghost var log: seq<Event>

    ghost predicate Valid()
      reads this
    {
      && slots > 0 && |log| == total
      && |ring| == (if total < slots then total else slots)
      && ring == log[total - |ring|..]
    }

    constructor (capacity: nat)
      requires capacity > 0
      ensures Valid() && slots == capacity && log == [] && !closed
    {
      slots, ring, total, closed, log := capacity, [], 0, false, [];
    }

    /** Never waits: the oldest kept event makes room. */
    method Publish(ev: Event)
      requires Valid()
      modifies this
      ensures Valid() && log == old(log) + [ev] && closed == old(closed)
    {
      ring := (if |ring| == slots then ring[1..] else ring) + [ev];
      total := total + 1;
      log := log + [ev];
    }

    method Close()
      requires Valid()
      modifies this
      ensures Valid() && closed && log == old(log)
    {
      closed := true;
    }
  }

  // ---------- The forwarder ----------

  datatype Status = Live | Ended | Overrun | Unheard

  datatype Step = Publish(event: Event) | Close | Leave | Poll

  /** A subscription and the thread that hands its events to the consumer. */
  class Forwarder {
    const chan: Channel
    const filter: Option<seq<Glob.Part>>
    ghost const pattern: Option<string>
    var next: nat
    var delivered: seq<Event>
    var consumerGone: bool
    var status: Status

    ghost predicate Valid()
      reads this, chan
    {
      && chan.Valid() && next <= chan.total
      && filter.Some? == pattern.Some?
      && (filter.Some? ==> Glob.Normal(filter.value) && Glob.Expand(filter.value) == Glob.Collapse(pattern.value))
    }

    ghost function View(): Run
      reads this, chan
    {
      Run(chan.log, chan.closed, next, delivered, consumerGone, status)
    }

    /** A subscription starts behind everything already sent. */
    constructor (channel: Channel, glob: Option<string>)
      requires channel.Valid()
      ensures Valid() && chan == channel && pattern == glob
      ensures View() == Subscribed(channel.log, channel.closed)
    {
      var parts: Option<seq<Glob.Part>> := None;
      if glob.Some? {
        var compiled := Glob.Compile(glob.value);
        parts := Some(compiled);
      }
      chan, filter, pattern := channel, parts, glob;
      next, delivered, consumerGone, status := channel.total, [], false, Live;
    }

    predicate Matches(topic: string) {
      filter.None? || Glob.MatchParts(filter.value, topic)
    }

    lemma MatchesIffWanted(ev: Event)
      requires Valid()
      ensures Matches(ev.topic) <==> Wanted(pattern, ev)
    {
      if pattern.Some? {
        Glob.CompiledDecides(pattern.value, filter.value, ev.topic);
      }
    }

    /** One `recv` on the channel: the next unread event if the ring still has it. */
    method Receive() returns (r: Received)
      requires Valid()
      modifies this`next
      ensures Valid()
      ensures r == Reception(old(View()), chan.slots) && next == old(next) + Advance(r)
    {
      var oldest := chan.total - |chan.ring|;
      if next == chan.total {
        r := if chan.closed then Closed else Empty;
      } else if next < oldest {
        r := Lagged(oldest - next);
        next := oldest;
      } else {
        r := Got(chan.ring[next - oldest]);
        next := next + 1;
      }
    }

    /** One turn of the loop: the subscription drops what does not match, and ends at the first lag or
        close; the forwarder ends with it, or when the consumer is gone. */
    method Turn()
      requires Valid()
      modifies this
      ensures Valid() && View() == Polled(old(View()), pattern, chan.slots)
    {
      hide Glob.MatchParts, Glob.Accepts, Glob.Normal, Glob.Expand, Glob.Collapse, Wanted, Channel.Valid, Reception;
      if status == Live {
        var r := Receive();
        match r
        case Got(ev) =>
          MatchesIffWanted(ev);
          if Matches(ev.topic) {
            if consumerGone {
              status := Unheard;
            } else {
              delivered := delivered + [ev];
            }
          }
        case Lagged(_) => status := Overrun;
        case Closed => status := Ended;
        case Empty =>
      }
    }

    method Do(step: Step)
      requires Valid()
      modifies this, chan
      ensures Valid() && View() == Taken(old(View()), step, pattern, chan.slots)
    {
      hide Polled, Glob.Normal, Glob.Expand, Glob.Collapse;
      match step
      case Publish(ev) => if !chan.closed { chan.Publish(ev); }
      case Close => chan.Close();
      case Leave => consumerGone := true;
      case Poll => Turn();
    }

    /** Any interleaving of senders, the consumer leaving, and turns of the forwarder. */
    method Interleave(steps: seq<Step>)
      requires Valid()
      modifies this, chan
      ensures Valid() && View() == After(old(View()), steps, pattern, chan.slots)
    {
      hide Taken, Glob.Normal, Glob.Expand, Glob.Collapse;
      var i := 0;
      while i < |steps|
        invariant 0 <= i <= |steps| && Valid()
        invariant View() == After(old(View()), steps[..i], pattern, chan.slots)
      {
        Do(steps[i]);
        assert steps[..i + 1][..i] == steps[..i];
        i := i + 1;
      }
      assert steps[..i] == steps;
    }
  }

  // ---------- The run as a value ----------

  datatype Run = Run(log: seq<Event>, closed: bool, next: nat, delivered: seq<Event>, gone: bool, status: Status)

  ghost function Subscribed(log: seq<Event>, closed: bool): Run {
    Run(log, closed, |log|, [], false, Live)
  }

  ghost predicate Wanted(pattern: Option<string>, ev: Event) {
    pattern.None? || Glob.Accepts(pattern.value, ev.topic)
  }

  /** The wanted events, in order. */
  ghost function Matching(pattern: Option<string>, events: seq<Event>): seq<Event> {
    if events == [] then []
    else
      var ev := events[|events| - 1];
      Matching(pattern, events[..|events| - 1]) + if Wanted(pattern, ev) then [ev] else []
  }

  /** What the channel answers: it has only the newest `slots` events. */
  ghost function Reception(s: Run, slots: nat): Received
    requires s.next <= |s.log|
  {
    if s.next == |s.log| then (if s.closed then Closed else Empty)
    else if s.next + slots < |s.log| then Lagged(|s.log| - slots - s.next)
    else Got(s.log[s.next])
  }

  ghost function Advance(r: Received): nat {
    match r
    case Got(_) => 1
    case Lagged(missed) => missed
    case _ => 0
  }

  ghost function Polled(s: Run, pattern: Option<string>, slots: nat): Run
    requires s.next <= |s.log|
  {
    if s.status != Live then s else Handled(s, Reception(s, slots), pattern)
  }

  ghost function Handled(s: Run, r: Received, pattern: Option<string>): Run {
    var read := s.(next := s.next + Advance(r));
    match r
    case Got(ev) =>
      if !Wanted(pattern, ev) then read
      else if s.gone then read.(status := Unheard)
      else read.(delivered := s.delivered + [ev])
    case Lagged(_) => read.(status := Overrun)
    case Closed => read.(status := Ended)
    case Empty => read
  }

  ghost function Taken(s: Run, step: Step, pattern: Option<string>, slots: nat): (t: Run)
    requires s.next <= |s.log|
    ensures t.next <= |t.log| && s.log <= t.log
  {
    match step
    case Publish(ev) => if s.closed then s else s.(log := s.log + [ev])
    case Close => s.(closed := true)
    case Leave => s.(gone := true)
    case Poll => Polled(s, pattern, slots)
  }

  ghost function After(s: Run, steps: seq<Step>, pattern: Option<string>, slots: nat): (t: Run)
    requires s.next <= |s.log|
    ensures t.next <= |t.log| && s.log <= t.log
  {
    if steps == [] then s
    else Taken(After(s, steps[..|steps| - 1], pattern, slots), steps[|steps| - 1], pattern, slots)
  }

  // ---------- What the consumer gets ----------

  /** The wanted events of the run of publications `log[start..stop]`, with nothing left out. */
  ghost predicate GapFree(s: Run, pattern: Option<string>, start: nat, stop: nat) {
    && start <= stop <= |s.log| && s.next <= |s.log|
    && s.delivered == Matching(pattern, s.log[start..stop])
    && (s.status == Live ==> stop == s.next)
    && (s.status == Ended ==> stop == |s.log| && s.closed)
    && (s.status == Overrun ==> stop < s.next)
    && (s.status == Unheard ==> stop + 1 == s.next && s.gone && Wanted(pattern, s.log[stop]))
  }

  /** In every interleaving the consumer gets the wanted events of a contiguous run of publications
      that starts at the subscription; while live the run reaches everything read, at a clean end
      everything sent. */
  lemma {:induction false} DeliveryIsGapFree(log: seq<Event>, closed: bool, steps: seq<Step>, pattern: Option<string>, slots: nat)
    returns (stop: nat)
    ensures GapFree(After(Subscribed(log, closed), steps, pattern, slots), pattern, |log|, stop)
  {
    if steps == [] {
      stop := |log|;
      assert log[|log|..|log|] == [];
    } else {
      var before := After(Subscribed(log, closed), steps[..|steps| - 1], pattern, slots);
      stop := DeliveryIsGapFree(log, closed, steps[..|steps| - 1], pattern, slots);
      stop := OneStep(before, steps[|steps| - 1], pattern, slots, |log|, stop);
    }
  }

  lemma OneStep(s: Run, step: Step, pattern: Option<string>, slots: nat, start: nat, stop: nat) returns (stop': nat)
    requires s.next <= |s.log| && GapFree(s, pattern, start, stop)
    ensures GapFree(Taken(s, step, pattern, slots), pattern, start, stop')
  {
    hide Matching, Wanted;
    stop' := stop;
    if step.Publish? {
      assert (s.log + [step.event])[start..stop] == s.log[start..stop];
    } else if step.Poll? && s.status == Live && s.next < |s.log| <= s.next + slots {
      var ev := s.log[s.next];
      if !(Wanted(pattern, ev) && s.gone) {
        stop' := s.next + 1;
        assert s.log[start..s.next + 1] == s.log[start..s.next] + [ev];
        MatchingNext(pattern, s.log[start..s.next], ev);
      }
    }
  }

  /** Once the forwarder has ended, for whatever reason, nothing more is delivered. */
  lemma {:induction false} EndedStaysEnded(s: Run, steps: seq<Step>, pattern: Option<string>, slots: nat)
    requires s.next <= |s.log| && s.status != Live
    ensures var t := After(s, steps, pattern, slots);
            t.status == s.status && t.delivered == s.delivered && t.next == s.next
  {
    if steps != [] {
      EndedStaysEnded(s, steps[..|steps| - 1], pattern, slots);
    }
  }

  /** A turn that finds more unread events than the ring holds. */
  ghost predicate Overflows(s: Run, step: Step, slots: nat) {
    step.Poll? && s.status == Live && s.next + slots < |s.log|
  }

  ghost predicate OverflowsAt(s: Run, steps: seq<Step>, pattern: Option<string>, slots: nat, k: nat)
    requires s.next <= |s.log|
  {
    k < |steps| && Overflows(After(s, steps[..k], pattern, slots), steps[k], slots)
  }

  /** A run is cut off by a lag exactly when some turn finds more unread events than the ring holds. */
  lemma {:induction false} OverrunIff(s: Run, steps: seq<Step>, pattern: Option<string>, slots: nat)
    requires s.next <= |s.log| && s.status == Live
    ensures After(s, steps, pattern, slots).status == Overrun <==> exists k: nat :: OverflowsAt(s, steps, pattern, slots, k)
  {
    if steps != [] {
      var n := |steps| - 1;
      var t := After(s, steps[..n], pattern, slots);
      OverrunIff(s, steps[..n], pattern, slots);
      forall k: nat
        ensures OverflowsAt(s, steps, pattern, slots, k)
                <==> OverflowsAt(s, steps[..n], pattern, slots, k) || (k == n && Overflows(t, steps[n], slots))
      {
        assert k < n ==> steps[..n][..k] == steps[..k];
      }
      OverrunStep(t, steps[n], pattern, slots);
      hide OverflowsAt, Overflows, Taken;
      assert OverflowsAt(s, steps, pattern, slots, n) || !Overflows(t, steps[n], slots);
    }
  }

  lemma OverrunStep(s: Run, step: Step, pattern: Option<string>, slots: nat)
    requires s.next <= |s.log|
    ensures Taken(s, step, pattern, slots).status == Overrun <==> s.status == Overrun || Overflows(s, step, slots)
  {
  }

  ghost function Polls(n: nat): seq<Step> {
    seq(n, _ => Poll)
  }

  /** A live forwarder whose backlog fits the ring delivers every wanted event of the backlog, in as
      many turns as the backlog is long, and then, when the channel is closed, ends cleanly. */
  lemma {:induction false} BacklogIsDelivered(s: Run, n: nat, pattern: Option<string>, slots: nat)
    requires s.status == Live && !s.gone
    requires s.next + n <= |s.log| <= s.next + slots
    ensures After(s, Polls(n), pattern, slots)
            == s.(next := s.next + n, delivered := s.delivered + Matching(pattern, s.log[s.next..s.next + n]))
    ensures s.next + n == |s.log| && s.closed ==>
              After(s, Polls(n + 1), pattern, slots).status == Ended
  {
    hide *;
    if n == 0 {
      NothingToPoll(s, pattern, slots);
    } else {
      BacklogIsDelivered(s, n - 1, pattern, slots);
      AfterOneMore(s, n - 1, pattern, slots);
      PollsNext(s, s.next + n - 1, pattern, slots);
    }
    AfterOneMore(s, n, pattern, slots);
    if s.next + n == |s.log| && s.closed {
      CloseIsSeen(After(s, Polls(n), pattern, slots), pattern, slots);
    }
  }

  lemma NothingToPoll(s: Run, pattern: Option<string>, slots: nat)
    requires s.next <= |s.log|
    ensures After(s, Polls(0), pattern, slots) == s.(next := s.next + 0, delivered := s.delivered + Matching(pattern, s.log[s.next..s.next + 0]))
  {
    assert s.log[s.next..s.next] == [] && s.delivered + [] == s.delivered;
  }

  lemma CloseIsSeen(s: Run, pattern: Option<string>, slots: nat)
    requires s.next == |s.log| && s.closed && s.status == Live
    ensures Polled(s, pattern, slots).status == Ended
  {
  }

  /** One more turn extends the run of publications by one. */
  lemma PollsNext(s: Run, p: nat, pattern: Option<string>, slots: nat)
    requires s.status == Live && !s.gone && s.next <= p < |s.log| <= s.next + slots
    ensures Polled(s.(next := p, delivered := s.delivered + Matching(pattern, s.log[s.next..p])), pattern, slots)
            == s.(next := p + 1, delivered := s.delivered + Matching(pattern, s.log[s.next..p + 1]))
  {
    hide Wanted, Matching;
    var read, ev := s.log[s.next..p], s.log[p];
    assert s.log[s.next..p + 1] == read + [ev];
    MatchingNext(pattern, read, ev);
    var had := s.delivered + Matching(pattern, read);
    assert had + [ev] == s.delivered + (Matching(pattern, read) + [ev]);
    assert Matching(pattern, read) + [] == Matching(pattern, read);
  }

  lemma AfterOneMore(s: Run, n: nat, pattern: Option<string>, slots: nat)
    requires s.next <= |s.log|
    ensures After(s, Polls(n + 1), pattern, slots) == Polled(After(s, Polls(n), pattern, slots), pattern, slots)
  {
    assert Polls(n + 1)[..n] == Polls(n);
  }

  lemma MatchingNext(pattern: Option<string>, events: seq<Event>, ev: Event)
    ensures Matching(pattern, events + [ev]) == Matching(pattern, events) + if Wanted(pattern, ev) then [ev] else []
  {
    assert (events + [ev])[..|events|] == events;
  }
}
