/** What each event of a run puts on the human-readable log, and what the log knows of a request in flight. */
module HumanLines {
  import opened Options
  import opened TokenBucket
  import opened HumanLog

  // ---------- A request in flight ----------

  /** The request with this id was last shown at `k` and is still in flight. */
  ghost predicate OpenedLastAt(events: seq<Timed>, k: nat, id: Id) {
    OpenSince(events, k, id) && forall m: nat :: k < m < |events| && ShownAt(events, m) ==> events[m].0.id != id
  }

  ghost predicate Answers(event: Event, id: Id) {
    event.Response? && event.id == id
  }

  /** Status and latency of the last answer since event `k`. */
  ghost function LastAnswer(events: seq<Timed>, k: nat, id: Id): Option<(int, int)> {
    if |events| <= k + 1 then None
    else
      var n := |events| - 1;
      if Answers(events[n].0, id) then Some((events[n].0.status, events[n].0.latency)) else LastAnswer(events[..n], k, id)
  }

  /** The table holds a request in flight as it arrived, with the status and the latency of its last
      answer, if there was one. */
  lemma {:induction false} EntryIsLatest(events: seq<Timed>, k: nat, id: Id)
    requires OpenedLastAt(events, k, id)
    ensures id in After(events).requests
    ensures After(events).requests[id] == RequestState(events[k].0.request, LastAnswer(events, k, id))
  {
    hide Fits, ZoneRows, Ends;
    var n := |events| - 1;
    var front := events[..n];
    if k < n {
      OpenedInFront(events, k, id);
      EntryIsLatest(front, k, id);
      hide Step, OpenedLastAt, ShownAt;
      EntryKept(After(front), events[n].0, events[n].1, id);
    } else {
      hide Retained;
    }
  }

  lemma OpenedInFront(events: seq<Timed>, k: nat, id: Id)
    requires OpenedLastAt(events, k, id) && k < |events| - 1
    ensures var n := |events| - 1;
            && OpenedLastAt(events[..n], k, id) && !Ends(events[n].0, id)
            && !(events[n].0.Request? && events[n].0.id == id && Fits(After(events[..n]).calls, events[n].1, BURST, RATE))
  {
    hide Fits, After, Ends;
    var n := |events| - 1;
    forall m: nat | m < n
      ensures ShownAt(events[..n], m) <==> ShownAt(events, m)
    {
      assert events[..n][..m] == events[..m];
    }
    assert !(ShownAt(events, n) && events[n].0.id == id);
  }

  lemma EntryKept(s: Log, event: Event, now: real, id: Id)
    requires id in s.requests && !Ends(event, id)
    requires !(event.Request? && event.id == id && Fits(s.calls, now, BURST, RATE))
    ensures var t := Step(s, event, now);
            && id in t.requests && t.requests[id].request == s.requests[id].request
            && t.requests[id].reply == if Answers(event, id) then Some((event.status, event.latency)) else s.requests[id].reply
  {
    hide Fits, ZoneRows, Retained;
  }

  // ---------- What an event prints ----------

  /** The requests refused since one was last shown. */
  ghost function Pending(events: seq<Timed>): nat {
    if events == [] then 0
    else
      var n := |events| - 1;
      if ShownAt(events, n) then 0
      else if events[n].0.Request? then Pending(events[..n]) + 1 else Pending(events[..n])
  }

  lemma {:induction false} SkippedIsPending(events: seq<Timed>)
    ensures After(events).skipped == Pending(events)
  {
    hide Fits, ZoneRows, Retained;
    if events != [] {
      SkippedIsPending(events[..|events| - 1]);
    }
  }

  /** The permanent lines of one event, given the entry of the request it completes, if that is in flight,
      and the refused requests that it reports. */
  ghost function LinesFor(event: Event, entry: Option<RequestState>, refused: nat): seq<Line> {
    match event
    case Lagged(n) => [LagNotice(n)]
    case Started(banner) => [Note("<http-nu>")] + Notes(banner)
    case Reloaded => [Note("reloaded")]
    case Error(text) => [Note("ERROR: " + text)]
    case Print(message) => [Note("PRINT: " + message)]
    case Stopping(_) => [Note("stopping")]
    case Stopped => [Note("stopped"), Note("</http-nu>")]
    case StopTimedOut => [Note("stop timed out")]
    case Request(_, _) => if refused > 0 then [SkipSummary(refused)] else []
    case Complete(id, bytes, duration) => if entry.Some? then [Line.Completed(id, entry.value, duration, bytes)] else []
    case Response(_, _, _) => []
    case Shutdown => []
  }

  /** The entry of the request that the event answers or completes. */
  ghost function EntryFor(s: Log, event: Event): Option<RequestState> {
    if (event.Complete? || event.Response?) && event.id in s.requests then Some(s.requests[event.id]) else None
  }

  /** The screen is left as it was. */
  ghost predicate Silent(s: Log, event: Event, shown: bool) {
    || event.Shutdown? || (event.Request? && !shown)
    || ((event.Complete? || event.Response?) && event.id !in s.requests)
  }

  /** What the last event of a run does to the log: it appends its own lines and no others, and unless it
      leaves the screen as it was, the zone shows the requests then in flight; after a lag notice and once
      stopped, the zone is gone. */
  lemma LastEventShows(events: seq<Timed>)
    requires events != []
    ensures var n := |events| - 1;
            var before, after, event, shown := After(events[..n]), After(events), events[n].0, ShownAt(events, n);
            && after.printed == before.printed + LinesFor(event, EntryFor(before, event), if shown then Pending(events[..n]) else 0)
            && after.zone == if Silent(before, event, shown) then before.zone
                             else if event.Lagged? || event.Stopped? || event.StopTimedOut? then []
                             else ZoneRows(after.activeIds, after.requests)
  {
    var n := |events| - 1;
    SkippedIsPending(events[..n]);
    StepShows(After(events[..n]), events[n].0, events[n].1);
    hide Fits, Step, LinesFor, ZoneRows, Pending, EntryFor, Silent;
  }

  lemma StepShows(s: Log, event: Event, now: real)
    ensures var t, shown := Step(s, event, now), event.Request? && Fits(s.calls, now, BURST, RATE);
            && t.printed == s.printed + LinesFor(event, EntryFor(s, event), if shown then s.skipped else 0)
            && t.zone == if Silent(s, event, shown) then s.zone
                         else if event.Lagged? || event.Stopped? || event.StopTimedOut? then []
                         else ZoneRows(t.activeIds, t.requests)
  {
    hide Fits, ZoneRows, Retained, Notes;
    assert s.printed + [] == s.printed;
  }
}
