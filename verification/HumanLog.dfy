/** The human-readable log: permanent lines, the redrawn zone of requests in flight, and its counters. */
module HumanLog {
  import opened Options
  import opened TokenBucket

  type Id = string

  datatype RequestState = RequestState(request: string, reply: Option<(int, int)>)

  /** A permanent line. */
  datatype Line =
    | Note(text: string)
    | SkipSummary(count: nat)
    | LagNotice(count: nat)
    | TotalLagged(count: nat)
    | Completed(id: Id, state: RequestState, duration: nat, bytes: nat)

  /** One row of the terminal. */
  datatype Row = Perm(line: Line) | Header | InFlight(id: Id, state: RequestState)

  // ---------- The terminal ----------

  /** The permanent lines on the terminal. */
  ghost function Perms(rows: seq<Row>): seq<Line> {
    if rows == [] then []
    else Perms(rows[..|rows| - 1]) + if rows[|rows| - 1].Perm? then [rows[|rows| - 1].line] else []
  }

  lemma {:induction false} PermsOfZone(rows: seq<Row>, zone: seq<Row>)
    requires forall i :: 0 <= i < |zone| ==> !zone[i].Perm?
    ensures Perms(rows + zone) == Perms(rows)
    decreases |zone|
  {
    if zone == [] {
      assert rows + zone == rows;
    } else {
      assert (rows + zone)[..|rows + zone| - 1] == rows + zone[..|zone| - 1];
      PermsOfZone(rows, zone[..|zone| - 1]);
    }
  }

  lemma PermsNext(rows: seq<Row>, line: Line)
    ensures Perms(rows + [Perm(line)]) == Perms(rows) + [line]
  {
    assert (rows + [Perm(line)])[..|rows|] == rows;
  }

  /** What the zone shows for the requests in flight. */
  ghost function ZoneRows(active: seq<Id>, requests: map<Id, RequestState>): seq<Row> {
    if active == [] then [] else [Header] + ActiveRows(active, requests)
  }

  ghost function ActiveRows(active: seq<Id>, requests: map<Id, RequestState>): (rows: seq<Row>)
    ensures |rows| <= |active| && forall i :: 0 <= i < |rows| ==> rows[i].InFlight?
    ensures (forall id :: id in active ==> id in requests) ==> |rows| == |active|
  {
    if active == [] then []
    else
      var id := active[|active| - 1];
      ActiveRows(active[..|active| - 1], requests) + if id in requests then [InFlight(id, requests[id])] else []
  }

  const U16: nat := 0x1_0000

  /** A count cast to sixteen bits. */
  function AsU16(n: nat): (r: nat)
    ensures r <= n && (r == n <==> n < U16)
  {
    n % U16
  }

  /** The last `n` rows are the zone. */
  ghost predicate EndsInZone(rows: seq<Row>, n: nat) {
    n <= |rows| && forall i :: |rows| - n <= i < |rows| ==> !rows[i].Perm?
  }

  /** No row of an earlier zone is left above the last `n` rows. */
  ghost predicate TidyAbove(rows: seq<Row>, n: nat) {
    forall i :: 0 <= i < |rows| - n ==> rows[i].Perm?
  }

  /** Moving up by a sixteen-bit number of rows and erasing from there keeps the permanent lines, and
      leaves rows of the zone behind exactly when the zone has more rows than such a number counts. */
  lemma Erased(rows: seq<Row>, n: nat)
    requires EndsInZone(rows, n)
    ensures Perms(rows[..|rows| - AsU16(n)]) == Perms(rows)
    ensures TidyAbove(rows[..|rows| - AsU16(n)], 0) <==> TidyAbove(rows, n) && n < U16
  {
    ErasedBy(rows, n, AsU16(n));
  }

  lemma ErasedBy(rows: seq<Row>, n: nat, up: nat)
    requires EndsInZone(rows, n) && up <= n
    ensures EndsInZone(rows[..|rows| - up], 0) && Perms(rows[..|rows| - up]) == Perms(rows)
    ensures TidyAbove(rows[..|rows| - up], 0) <==> TidyAbove(rows, n) && up == n
  {
    hide Perms;
    var kept := rows[..|rows| - up];
    assert kept + rows[|rows| - up..] == rows;
    PermsOfZone(kept, rows[|rows| - up..]);
    assert forall i :: 0 <= i < |kept| ==> kept[i] == rows[i];
    if up < n {
      assert !kept[|rows| - n].Perm?;
    }
  }

  lemma ZoneAdded(rows: seq<Row>, active: seq<Id>, requests: map<Id, RequestState>)
    ensures var zone := ZoneRows(active, requests);
            && EndsInZone(rows + zone, |zone|) && Perms(rows + zone) == Perms(rows)
            && (rows + zone)[|rows + zone| - |zone|..] == zone
            && (TidyAbove(rows + zone, |zone|) <==> TidyAbove(rows, 0))
  {
    var zone := ZoneRows(active, requests);
    PermsOfZone(rows, zone);
    assert forall i :: 0 <= i < |rows| ==> (rows + zone)[i] == rows[i];
  }

  lemma ActiveNext(active: seq<Id>, requests: map<Id, RequestState>, i: nat)
    requires i < |active|
    ensures var id := active[i];
            [Header] + ActiveRows(active[..i + 1], requests)
            == [Header] + ActiveRows(active[..i], requests) + if id in requests then [InFlight(id, requests[id])] else []
  {
    assert active[..i + 1][..i] == active[..i];
  }

  class ActiveZone {
    var rows: seq<Row>
    var lineCount: nat
    ghost var printed: seq<Line>

    /** Every permanent line ever printed is still there, and the zone is the last rows. */
    ghost predicate Valid()
      reads this
    {
      Perms(rows) == printed && EndsInZone(rows, lineCount)
    }

    ghost predicate Tidy()
      reads this
    {
      TidyAbove(rows, lineCount)
    }

    ghost function Drawn(): seq<Row>
      reads this
      requires Valid()
    {
      rows[|rows| - lineCount..]
    }

    constructor ()
      ensures Valid() && Tidy() && printed == [] && lineCount == 0 && Drawn() == []
    {
      rows, lineCount, printed := [], 0, [];
    }

    method Clear()
      requires Valid()
      modifies this
      ensures Valid() && printed == old(printed) && lineCount == 0 && Drawn() == []
      ensures Tidy() <==> old(Tidy()) && old(lineCount) < U16
    {
      hide Perms, TidyAbove, AsU16;
      Erased(rows, lineCount);
      assert rows[..|rows|] == rows;
      if lineCount > 0 {
        rows := rows[..|rows| - AsU16(lineCount)];
        lineCount := 0;
      }
    }

    method PrintPermanent(line: Line)
      requires Valid()
      modifies this
      ensures Valid() && printed == old(printed) + [line] && lineCount == 0 && Drawn() == []
      ensures Tidy() <==> old(Tidy()) && old(lineCount) < U16
    {
      hide Perms;
      Clear();
      PermsNext(rows, line);
      assert forall i :: 0 <= i < |rows| ==> (rows + [Perm(line)])[i] == rows[i];
      rows := rows + [Perm(line)];
      printed := printed + [line];
    }

    method Redraw(active: seq<Id>, requests: map<Id, RequestState>)
      requires Valid() && lineCount == 0
      modifies this
      ensures Valid() && printed == old(printed) && Drawn() == ZoneRows(active, requests) && lineCount == |Drawn()|
      ensures Tidy() <==> old(Tidy())
    {
      hide Perms, TidyAbove, EndsInZone, ActiveRows;
      ghost var before := rows;
      ZoneAdded(rows, active, requests);
      if active != [] {
        NoneActive(requests);
        rows := rows + [Header];
        lineCount := lineCount + 1;
        var i := 0;
        while i < |active|
          invariant 0 <= i <= |active| && printed == old(printed)
          invariant rows == before + ([Header] + ActiveRows(active[..i], requests))
          invariant lineCount == |[Header] + ActiveRows(active[..i], requests)|
        {
          ActiveNext(active, requests, i);
          if active[i] in requests {
            rows := rows + [InFlight(active[i], requests[active[i]])];
            lineCount := lineCount + 1;
          }
          i := i + 1;
        }
        assert active[..i] == active;
      }
      assert rows == before + ZoneRows(active, requests);
    }
  }

  lemma NoneActive(requests: map<Id, RequestState>)
    ensures forall active | |active| == 0 :: ActiveRows(active, requests) == []
  {
  }

  // ---------- The log as a value ----------

  datatype Event =
    | Lagged(count: nat)
    | Started(banner: seq<string>)
    | Reloaded
    | Error(text: string)
    | Print(message: string)
    | Stopping(inflight: nat)
    | Stopped
    | StopTimedOut
    | Request(id: Id, request: string)
    | Response(id: Id, status: int, latency: int)
    | Complete(id: Id, bytes: nat, duration: nat)
    | Shutdown

  const BURST := 40.0
  const RATE := 20.0

  /** The ids without one of them, as `retain` leaves them. */
  function Retained(ids: seq<Id>, id: Id): (kept: seq<Id>)
    ensures forall x :: x in kept <==> x in ids && x != id
  {
    if ids == [] then []
    else Retained(ids[..|ids| - 1], id) + if ids[|ids| - 1] != id then [ids[|ids| - 1]] else []
  }

  /** The limiter's calls, the requests in flight, the pending counts, and the terminal: the permanent
      lines, the drawn zone, and whether no row of an earlier zone is left. */
  datatype Log = Log(calls: seq<Call>, requests: map<Id, RequestState>, activeIds: seq<Id>, skipped: nat, lagged: nat,
                     printed: seq<Line>, zone: seq<Row>, tidy: bool)
  {
    ghost function Erase(): Log {
      this.(zone := [], tidy := tidy && |zone| < U16)
    }

    ghost function Print(lines: seq<Line>): Log {
      Erase().(printed := printed + lines)
    }

    ghost function Redraw(): Log {
      this.(zone := ZoneRows(activeIds, requests))
    }

    ghost function Report(): Log {
      if skipped > 0 then Print([SkipSummary(skipped)]).(skipped := 0) else this
    }

    ghost function Lag(n: nat): Log {
      Print([LagNotice(n)]).(lagged := lagged + n, requests := map[], activeIds := [])
    }

    ghost function Show(id: Id, request: string): Log {
      Erase().(requests := requests[id := RequestState(request, None)], activeIds := activeIds + [id]).Redraw()
    }

    ghost function Arrive(id: Id, request: string, now: real): Log {
      var ok := Fits(calls, now, BURST, RATE);
      var asked := this.(calls := calls + [Call(now, ok)]);
      if ok then asked.Report().Show(id, request) else asked.(skipped := skipped + 1)
    }

    ghost function Respond(id: Id, status: int, latency: int): Log {
      if id in requests then
        Erase().(requests := requests[id := requests[id].(reply := Some((status, latency)))]).Redraw()
      else this
    }

    ghost function Finish(id: Id, bytes: nat, duration: nat): Log {
      if id in requests then
        Print([Line.Completed(id, requests[id], duration, bytes)])
          .(requests := requests - {id}, activeIds := Retained(activeIds, id)).Redraw()
      else this
    }

    /** The final summaries. */
    ghost function Closing(): Log {
      var reported := Erase().Report();
      if lagged > 0 then reported.Print([TotalLagged(lagged)]) else reported
    }
  }

  const FRESH := Log([], map[], [], 0, 0, [], [], true)

  ghost function Notes(texts: seq<string>): seq<Line> {
    seq(|texts|, i requires 0 <= i < |texts| => Note(texts[i]))
  }

  ghost function Step(s: Log, event: Event, now: real): Log {
    match event
    case Lagged(n) => s.Lag(n)
    case Started(banner) => s.Print([Note("<http-nu>")] + Notes(banner)).Redraw()
    case Reloaded => s.Print([Note("reloaded")]).Redraw()
    case Error(text) => s.Print([Note("ERROR: " + text)]).Redraw()
    case Print(message) => s.Print([Note("PRINT: " + message)]).Redraw()
    case Stopping(_) => s.Print([Note("stopping")]).Redraw()
    case Stopped => s.Print([Note("stopped"), Note("</http-nu>")])
    case StopTimedOut => s.Print([Note("stop timed out")])
    case Request(id, request) => s.Arrive(id, request, now)
    case Response(id, status, latency) => s.Respond(id, status, latency)
    case Complete(id, bytes, duration) => s.Finish(id, bytes, duration)
    case Shutdown => s
  }

  type Timed = (Event, real)

  /** The log after these events, from the start. */
  ghost function After(events: seq<Timed>): Log {
    if events == [] then FRESH
    else
      var n := |events| - 1;
      Step(After(events[..n]), events[n].0, events[n].1)
  }

  // ---------- The handler ----------

  class Handler {
    const zone: ActiveZone
    const bucket: TokenBucket
    var requests: map<Id, RequestState>
    var activeIds: seq<Id>
    var skipped: nat
    var lagged: nat

    ghost predicate Valid()
      reads this, zone, bucket
    {
      zone.Valid() && bucket.Valid() && bucket.capacity == BURST && bucket.refillRate == RATE
    }

    ghost function Current(): Log
      reads this, zone, bucket
      requires Valid()
    {
      Log(bucket.calls, requests, activeIds, skipped, lagged, zone.printed, zone.Drawn(), zone.Tidy())
    }

    constructor (start: real)
      ensures Valid() && fresh(zone) && fresh(bucket) && bucket.lastRefill == start && Current() == FRESH
    {
      zone := new ActiveZone();
      bucket := new TokenBucket(BURST, RATE, start);
      requests, activeIds, skipped, lagged := map[], [], 0, 0;
    }

    /** A permanent line; the zone is gone until the next redraw. */
    method Say(line: Line)
      requires Valid()
      modifies zone
      ensures Valid() && zone.lineCount == 0 && Current() == old(Current()).Print([line])
    {
      hide TokenBucket.Valid, TidyAbove, Perms;
      zone.PrintPermanent(line);
    }

    method Redraw()
      requires Valid() && zone.lineCount == 0
      modifies zone
      ensures Valid() && Current() == old(Current()).Redraw()
    {
      hide TokenBucket.Valid, TidyAbove, Perms, ZoneRows;
      zone.Redraw(activeIds, requests);
    }

    /** Events were lost: what was in flight may have ended unseen. */
    method Lag(n: nat)
      requires Valid()
      modifies this, zone
      ensures Valid() && Current() == old(Current()).Lag(n)
    {
      hide TokenBucket.Valid, TidyAbove, Perms;
      lagged := lagged + n;
      requests, activeIds := map[], [];
      Say(LagNotice(n));
    }

    /** A request over the rate is only counted; the next one shown first reports how many were. */
    method Arrive(id: Id, request: string, now: real)
      requires Valid() && now >= bucket.lastRefill
      modifies this, zone, bucket
      ensures Valid() && bucket.lastRefill == now && Current() == old(Current()).Arrive(id, request, now)
    {
      hide TokenBucket.Valid, Fits, ZoneRows, TidyAbove, Perms;
      var ok := bucket.TryConsume(now);
      if !ok {
        skipped := skipped + 1;
        return;
      }
      ReportSkipped();
      requests := requests[id := RequestState(request, None)];
      activeIds := activeIds + [id];
      zone.Clear();
      Redraw();
    }

    method ReportSkipped()
      requires Valid()
      modifies `skipped, zone
      ensures Valid() && skipped == 0 && Current() == old(Current()).Report()
      ensures old(zone.lineCount) == 0 ==> zone.lineCount == 0
    {
      hide TokenBucket.Valid, TidyAbove, Perms;
      if skipped > 0 {
        Say(SkipSummary(skipped));
        skipped := 0;
      }
    }

    method Respond(id: Id, status: int, latency: int)
      requires Valid()
      modifies this, zone
      ensures Valid() && Current() == old(Current()).Respond(id, status, latency)
    {
      hide TokenBucket.Valid, ZoneRows, TidyAbove, Perms;
      if id in requests {
        requests := requests[id := requests[id].(reply := Some((status, latency)))];
        zone.Clear();
        Redraw();
      }
    }

    /** Only a request that is shown completes on the log. */
    method Finish(id: Id, bytes: nat, duration: nat)
      requires Valid()
      modifies this, zone
      ensures Valid() && Current() == old(Current()).Finish(id, bytes, duration)
    {
      hide TokenBucket.Valid, ZoneRows, TidyAbove, Perms, Retained;
      if id in requests {
        var line := Line.Completed(id, requests[id], duration, bytes);
        requests := requests - {id};
        activeIds := Retained(activeIds, id);
        Say(line);
        Redraw();
      }
    }

    method SayAll(texts: seq<string>)
      requires Valid() && zone.lineCount == 0
      modifies zone
      ensures Valid() && zone.lineCount == 0 && Current() == old(Current()).Print(Notes(texts))
    {
      hide Valid;
      ghost var before := Current();
      var i := 0;
      PrintNothing(before);
      assert Notes(texts[..0]) == [];
      while i < |texts|
        invariant 0 <= i <= |texts| && Valid() && zone.lineCount == 0
        invariant Current() == before.Print(Notes(texts[..i]))
      {
        Say(Note(texts[i]));
        PrintMore(before, Notes(texts[..i]), [Note(texts[i])]);
        assert Notes(texts[..i + 1]) == Notes(texts[..i]) + [Note(texts[i])];
        i := i + 1;
      }
      assert texts[..i] == texts;
    }

    /** One event; `stop` ends the loop. */
    method Handle(event: Event, now: real) returns (stop: bool)
      requires Valid() && now >= bucket.lastRefill
      modifies this, zone, bucket
      ensures Valid() && bucket.lastRefill <= now && stop == event.Shutdown?
      ensures Current() == Step(old(Current()), event, now) && (stop ==> Current() == old(Current()))
    {
      hide Valid, Current, Log.Lag, Log.Arrive, Log.Respond, Log.Finish, Log.Print, Log.Redraw, Notes;
      ghost var before := Current();
      stop := false;
      match event {
        case Lagged(n) => Lag(n);
        case Started(banner) =>
          Say(Note("<http-nu>"));
          SayAll(banner);
          PrintMore(before, [Note("<http-nu>")], Notes(banner));
          Redraw();
        case Reloaded =>
          Say(Note("reloaded"));
          Redraw();
        case Error(text) =>
          Say(Note("ERROR: " + text));
          Redraw();
        case Print(message) =>
          Say(Note("PRINT: " + message));
          Redraw();
        case Stopping(_) =>
          Say(Note("stopping"));
          Redraw();
        case Stopped =>
          Say(Note("stopped"));
          Say(Note("</http-nu>"));
          PrintMore(before, [Note("stopped")], [Note("</http-nu>")]);
          assert [Note("stopped")] + [Note("</http-nu>")] == [Note("stopped"), Note("</http-nu>")];
        case StopTimedOut => Say(Note("stop timed out"));
        case Request(id, request) => Arrive(id, request, now);
        case Response(id, status, latency) => Respond(id, status, latency);
        case Complete(id, bytes, duration) => Finish(id, bytes, duration);
        case Shutdown => stop := true;
      }
    }

    /** The final summaries. */
    method Finale()
      requires Valid()
      modifies this, zone
      ensures Valid() && zone.lineCount == 0 && Current() == old(Current()).Closing()
    {
      hide TokenBucket.Valid, TidyAbove, Perms, Log.Report;
      zone.Clear();
      ReportSkipped();
      if lagged > 0 {
        Say(TotalLagged(lagged));
      }
    }
  }

  lemma PrintMore(s: Log, lines: seq<Line>, more: seq<Line>)
    ensures s.Print(lines).Print(more) == s.Print(lines + more)
  {
    assert s.printed + lines + more == s.printed + (lines + more);
  }

  lemma PrintNothing(s: Log)
    requires s.zone == []
    ensures s.Print([]) == s
  {
    assert s.printed + [] == s.printed;
  }

  ghost predicate InTime(events: seq<Timed>, start: real) {
    && (forall i :: 0 <= i < |events| ==> start <= events[i].1)
    && forall i, j :: 0 <= i < j < |events| ==> events[i].1 <= events[j].1
  }

  /** A whole run: it handles the events before the first shutdown, and leaves on the terminal the
      permanent lines of the log with its closing summaries, and nothing else if the log stayed tidy. */
  method RunHumanHandler(events: seq<Timed>, start: real) returns (rows: seq<Row>, inFlight: seq<Id>, processed: nat)
    requires InTime(events, start)
    ensures processed <= |events| && (processed < |events| ==> events[processed].0.Shutdown?)
    ensures forall i :: 0 <= i < processed ==> !events[i].0.Shutdown?
    ensures var end := After(events[..processed]).Closing();
            && Perms(rows) == end.printed && inFlight == end.activeIds
            && ((forall i :: 0 <= i < |rows| ==> rows[i].Perm?) <==> end.tidy)
  {
    hide Handler.Valid, Handler.Current, Step, Perms, Log.Closing;
    var handler := new Handler(start);
    processed := 0;
    while processed < |events|
      invariant processed <= |events| && handler.Valid() && fresh(handler) && fresh(handler.zone) && fresh(handler.bucket)
      invariant processed < |events| ==> handler.bucket.lastRefill <= events[processed].1
      invariant forall i :: 0 <= i < processed ==> !events[i].0.Shutdown?
      invariant handler.Current() == After(events[..processed])
    {
      var stop := handler.Handle(events[processed].0, events[processed].1);
      if stop {
        break;
      }
      assert events[..processed + 1][..processed] == events[..processed];
      processed := processed + 1;
    }
    handler.Finale();
    LeftOver(handler);
    rows, inFlight := handler.zone.rows, handler.activeIds;
  }

  lemma LeftOver(handler: Handler)
    requires handler.Valid() && handler.zone.lineCount == 0
    ensures var s, rows := handler.Current(), handler.zone.rows;
            && Perms(rows) == s.printed && handler.activeIds == s.activeIds
            && (s.tidy <==> forall i :: 0 <= i < |rows| ==> rows[i].Perm?)
  {
    hide Perms;
  }

  // ---------- Which requests are in flight ----------

  /** The request event `k` got past the limiter. */
  ghost predicate ShownAt(events: seq<Timed>, k: nat) {
    k < |events| && events[k].0.Request? && Fits(After(events[..k]).calls, events[k].1, BURST, RATE)
  }

  predicate Ends(event: Event, id: Id) {
    event.Lagged? || (event.Complete? && event.id == id)
  }

  /** The request shown at `k` has neither completed since nor been cleared by a lag. */
  ghost predicate OpenSince(events: seq<Timed>, k: nat, id: Id) {
    ShownAt(events, k) && events[k].0.id == id && forall m :: k < m < |events| ==> !Ends(events[m].0, id)
  }

  /** The table holds exactly the requests that the limiter let through and that nothing has ended yet,
      and so does the list of ids. */
  lemma {:induction false} InFlightIff(events: seq<Timed>, id: Id)
    ensures id in After(events).activeIds <==> exists k :: OpenSince(events, k, id)
    ensures id in After(events).activeIds <==> id in After(events).requests
  {
    hide Fits, ZoneRows;
    if events == [] {
      assert !exists k :: OpenSince(events, k, id);
    } else {
      var n := |events| - 1;
      InFlightIff(events[..n], id);
      OpenNext(events, id);
      ActiveAfter(After(events[..n]), events[n].0, events[n].1, id);
    }
  }

  lemma ActiveAfter(s: Log, event: Event, now: real, id: Id)
    ensures var t, shows := Step(s, event, now), event.Request? && event.id == id && Fits(s.calls, now, BURST, RATE);
            && (id in t.activeIds <==> shows || (id in s.activeIds && !(Ends(event, id) && (id in s.requests || event.Lagged?))))
            && (id in t.requests <==> shows || (id in s.requests && !Ends(event, id)))
  {
    hide Fits, ZoneRows, TallyOf;
  }

  lemma OpenNext(events: seq<Timed>, id: Id)
    requires events != []
    ensures var n := |events| - 1;
            (exists k :: OpenSince(events, k, id))
            <==> (ShownAt(events, n) && events[n].0.id == id)
                 || ((exists k :: OpenSince(events[..n], k, id)) && !Ends(events[n].0, id))
  {
    hide Fits, After, Ends;
    var n := |events| - 1;
    forall k: nat | k < n
      ensures ShownAt(events, k) <==> ShownAt(events[..n], k)
    {
      assert events[..n][..k] == events[..k];
    }
    if ShownAt(events, n) && events[n].0.id == id {
      assert OpenSince(events, n, id);
    }
    if k: nat :| OpenSince(events[..n], k, id) && !Ends(events[n].0, id) {
      assert OpenSince(events, k, id);
    }
    if k: nat :| OpenSince(events, k, id) && k < n {
      assert OpenSince(events[..n], k, id);
    }
  }

  // ---------- The books ----------

  datatype Tally = Tally(completed: nat, skipped: nat, lagged: nat)

  /** What the printed lines add up to. */
  ghost function TallyOf(lines: seq<Line>): Tally {
    if lines == [] then Tally(0, 0, 0)
    else
      var before := TallyOf(lines[..|lines| - 1]);
      match lines[|lines| - 1]
      case Completed(_, _, _, _) => before.(completed := before.completed + 1)
      case SkipSummary(n) => before.(skipped := before.skipped + n)
      case LagNotice(n) => before.(lagged := before.lagged + n)
      case _ => before
  }

  lemma TallyNext(lines: seq<Line>, line: Line)
    ensures var before, after := TallyOf(lines), TallyOf(lines + [line]);
            && after.completed == before.completed + (if line.Completed? then 1 else 0)
            && after.skipped == before.skipped + (if line.SkipSummary? then line.count else 0)
            && after.lagged == before.lagged + (if line.LagNotice? then line.count else 0)
  {
    assert (lines + [line])[..|lines|] == lines;
  }

  lemma {:induction false} NotesCountNothing(lines: seq<Line>, notes: seq<Line>)
    requires forall i :: 0 <= i < |notes| ==> notes[i].Note?
    ensures TallyOf(lines + notes) == TallyOf(lines)
    decreases |notes|
  {
    if notes == [] {
      assert lines + notes == lines;
    } else {
      var n := |notes| - 1;
      NotesCountNothing(lines, notes[..n]);
      assert lines + notes == lines + notes[..n] + [notes[n]];
      TallyNext(lines + notes[..n], notes[n]);
    }
  }

  ghost predicate NoRepeats(ids: seq<Id>) {
    forall i, j :: 0 <= i < j < |ids| ==> ids[i] != ids[j]
  }

  lemma {:induction false} RetainedDropsOne(ids: seq<Id>, id: Id)
    requires NoRepeats(ids)
    ensures NoRepeats(Retained(ids, id)) && |Retained(ids, id)| == |ids| - if id in ids then 1 else 0
  {
    if ids != [] {
      var front, last := ids[..|ids| - 1], ids[|ids| - 1];
      RetainedDropsOne(front, id);
      assert ids == front + [last] && last !in front;
    }
  }

  ghost function RequestsIn(events: seq<Timed>): nat {
    if events == [] then 0
    else RequestsIn(events[..|events| - 1]) + if events[|events| - 1].0.Request? then 1 else 0
  }

  ghost function LaggedIn(events: seq<Timed>): nat {
    if events == [] then 0
    else LaggedIn(events[..|events| - 1]) + if events[|events| - 1].0.Lagged? then events[|events| - 1].0.count else 0
  }

  /** The requests that were in flight when a lag was noticed. */
  ghost function ClearedIn(events: seq<Timed>): nat {
    if events == [] then 0
    else
      var n := |events| - 1;
      ClearedIn(events[..n]) + if events[n].0.Lagged? then |After(events[..n]).activeIds| else 0
  }

  /** No request id comes twice. */
  ghost predicate UniqueRequests(events: seq<Timed>) {
    forall i, j :: 0 <= i < j < |events| && events[i].0.Request? && events[j].0.Request? ==> events[i].0.id != events[j].0.id
  }

  /** Every request was refused or shown; a refused one is in a printed summary or still pending; one
      shown has its completion line, is in flight, or was cleared by a lag. */
  ghost predicate Balanced(s: Log, received: nat, dropped: nat, cleared: nat) {
    var tally := TallyOf(s.printed);
    && NoRepeats(s.activeIds)
    && |s.calls| == received && s.lagged == dropped == tally.lagged
    && |s.calls| - Admitted(s.calls) == tally.skipped + s.skipped
    && Admitted(s.calls) == tally.completed + |s.activeIds| + cleared
  }

  lemma {:induction false} Balances(events: seq<Timed>)
    requires UniqueRequests(events)
    ensures Balanced(After(events), RequestsIn(events), LaggedIn(events), ClearedIn(events))
  {
    if events != [] {
      var n := |events| - 1;
      var front, event, s := events[..n], events[n].0, After(events[..n]);
      hide Balanced, Step;
      Balances(front);
      if event.Request? {
        NotYetInFlight(events);
      }
      if event.Complete? {
        InFlightIff(front, event.id);
      }
      BalancedStep(s, RequestsIn(front), LaggedIn(front), ClearedIn(front), event, events[n].1);
    }
  }

  lemma NotYetInFlight(events: seq<Timed>)
    requires UniqueRequests(events) && events != [] && events[|events| - 1].0.Request?
    ensures events[|events| - 1].0.id !in After(events[..|events| - 1]).activeIds
  {
    hide After;
    var n := |events| - 1;
    InFlightIff(events[..n], events[n].0.id);
    assert forall k :: 0 <= k < n ==> events[..n][k] == events[k];
  }

  lemma BalancedStep(s: Log, received: nat, dropped: nat, cleared: nat, event: Event, now: real)
    requires Balanced(s, received, dropped, cleared)
    requires event.Request? ==> event.id !in s.activeIds
    requires event.Complete? ==> (event.id in s.activeIds <==> event.id in s.requests)
    ensures Balanced(Step(s, event, now), received + (if event.Request? then 1 else 0),
                     dropped + (if event.Lagged? then event.count else 0), cleared + if event.Lagged? then |s.activeIds| else 0)
  {
    match event {
      case Lagged(n) => TallyNext(s.printed, LagNotice(n));
      case Request(id, request) => BalancedArrive(s, received, dropped, cleared, id, request, now);
      case Response(_, _, _) =>
      case Complete(id, bytes, duration) =>
        if id in s.requests {
          TallyNext(s.printed, Line.Completed(id, s.requests[id], duration, bytes));
          RetainedDropsOne(s.activeIds, id);
        }
      case Shutdown =>
      case Started(banner) => NotesCountNothing(s.printed, [Note("<http-nu>")] + Notes(banner));
      case Reloaded => NotesCountNothing(s.printed, [Note("reloaded")]);
      case Error(text) => NotesCountNothing(s.printed, [Note("ERROR: " + text)]);
      case Print(message) => NotesCountNothing(s.printed, [Note("PRINT: " + message)]);
      case Stopping(_) => NotesCountNothing(s.printed, [Note("stopping")]);
      case Stopped => NotesCountNothing(s.printed, [Note("stopped"), Note("</http-nu>")]);
      case StopTimedOut => NotesCountNothing(s.printed, [Note("stop timed out")]);
    }
  }

  lemma BalancedArrive(s: Log, received: nat, dropped: nat, cleared: nat, id: Id, request: string, now: real)
    requires Balanced(s, received, dropped, cleared) && id !in s.activeIds
    ensures Balanced(s.Arrive(id, request, now), received + 1, dropped, cleared)
  {
    hide Fits;
    AdmittedNext(s.calls, Call(now, Fits(s.calls, now, BURST, RATE)));
    TallyNext(s.printed, SkipSummary(s.skipped));
    hide TallyOf, Admitted;
  }

  /** What the terminal shows at the end of a run adds up to what was received. */
  lemma ClosesBalanced(events: seq<Timed>)
    requires UniqueRequests(events)
    ensures var end := After(events).Closing();
            var tally := TallyOf(end.printed);
            && RequestsIn(events) == tally.skipped + tally.completed + |end.activeIds| + ClearedIn(events)
            && LaggedIn(events) == tally.lagged
            && (LaggedIn(events) > 0 ==> end.printed != [] && end.printed[|end.printed| - 1] == TotalLagged(LaggedIn(events)))
  {
    Balances(events);
    var s := After(events);
    TallyNext(s.printed, SkipSummary(s.skipped));
    TallyNext(s.Erase().Report().printed, TotalLagged(s.lagged));
    hide TallyOf, Admitted, After, RequestsIn, LaggedIn, ClearedIn;
  }

  // ---------- The limiter over a run ----------

  lemma {:induction false} CallsFollow(events: seq<Timed>, start: real)
    requires InTime(events, start)
    ensures var calls := After(events).calls;
            && Ordered(calls) && Follows(calls, BURST, RATE)
            && forall i :: 0 <= i < |calls| && events != [] ==> calls[i].time <= events[|events| - 1].1
  {
    hide Step, Fits, Follows;
    if events == [] {
      FollowsFromNone();
    } else {
      var n := |events| - 1;
      var s, now := After(events[..n]), events[n].1;
      CallsFollow(events[..n], start);
      CallsAfter(s, events[n].0, now);
      assert n > 0 ==> events[..n][n - 1] == events[n - 1];
      assert s.calls + [] == s.calls;
      if events[n].0.Request? {
        FollowsNext(s.calls, Call(now, Fits(s.calls, now, BURST, RATE)), BURST, RATE);
      }
    }
  }

  lemma FollowsFromNone()
    ensures Follows([], BURST, RATE)
  {
  }

  lemma CallsAfter(s: Log, event: Event, now: real)
    ensures Step(s, event, now).calls == s.calls + if event.Request? then [Call(now, Fits(s.calls, now, BURST, RATE))] else []
  {
    hide Fits, ZoneRows;
  }

  /** In any window of time at most 40 requests are shown, and 20 more for each second of the window. */
  lemma ShownAreLimited(events: seq<Timed>, start: real, a: real, b: real)
    requires InTime(events, start) && a <= b
    ensures AdmittedIn(After(events).calls, a, b) as real <= BURST + Earned(RATE, b - a)
  {
    CallsFollow(events, start);
    WindowBound(After(events).calls, a, b, BURST, RATE);
  }

  // ---------- The screen over a run ----------

  /** A drawn zone always shows the requests in flight as they are. */
  lemma {:induction false} ZoneIsCurrent(events: seq<Timed>)
    ensures var s := After(events); s.zone == [] || s.zone == ZoneRows(s.activeIds, s.requests)
  {
    hide ZoneRows, Fits;
    if events != [] {
      ZoneIsCurrent(events[..|events| - 1]);
    }
  }

  /** The run leaves no row behind exactly when the zone never had more rows than sixteen bits count;
      it has one for each request in flight, and the header. */
  lemma {:induction false} TidyIff(events: seq<Timed>)
    ensures After(events).Closing().tidy <==> forall k :: 0 <= k <= |events| ==> |After(events[..k]).zone| < U16
    ensures After(events).Closing().tidy <==> After(events).tidy && |After(events).zone| < U16
  {
    hide Step;
    assert events[..|events|] == events;
    if events != [] {
      var n := |events| - 1;
      forall k | 0 <= k <= n
        ensures events[..n][..k] == events[..k]
      {
      }
      TidyIff(events[..n]);
      StepErases(After(events[..n]), events[n].0, events[n].1);
    }
  }

  /** A step leaves the zone alone or erases it once. */
  lemma StepErases(s: Log, event: Event, now: real)
    ensures var t := Step(s, event, now);
            (t.zone == s.zone && t.tidy == s.tidy) || t.tidy == (s.tidy && |s.zone| < U16)
  {
    hide Fits, ZoneRows, Retained;
  }

  lemma ZoneSize(events: seq<Timed>)
    ensures var s := After(events); s.zone == [] || |s.zone| == |s.activeIds| + 1
  {
    ZoneIsCurrent(events);
    var s := After(events);
    forall id
      ensures id in s.activeIds <==> id in s.requests
    {
      InFlightIff(events, id);
    }
    hide After;
  }

  // ---------- A run that leaves rows behind ----------

  /** Names that differ in length. */
  function Name(n: nat): Id {
    seq(n, _ => 'x')
  }

  /** One request a second, none of which completes. */
  ghost function Stuck(n: nat): seq<Timed> {
    seq(n, k requires 0 <= k < n => (Request(Name(k), ""), k as real))
  }

  lemma StuckNext(n: nat)
    ensures Stuck(n + 1)[..n] == Stuck(n) && Stuck(n + 1)[n] == (Request(Name(n), ""), n as real)
  {
  }

  /** The calls are a second apart, at which the limiter refuses none. */
  lemma {:induction false} StuckCalls(n: nat)
    ensures var calls := After(Stuck(n)).calls; |calls| == n && forall k :: 0 <= k < n ==> calls[k].time == k as real
  {
    if n > 0 {
      StuckNext(n - 1);
      StuckCalls(n - 1);
      hide Step, Fits;
      CallsAfter(After(Stuck(n - 1)), Request(Name(n - 1), ""), (n - 1) as real);
    }
  }

  lemma NextIsShown(n: nat)
    ensures Fits(After(Stuck(n)).calls, n as real, BURST, RATE)
  {
    hide After, Fits, Step, Follows, Ordered, Earned, Spaced;
    var calls := After(Stuck(n + 1)).calls;
    StuckCalls(n);
    StuckCalls(n + 1);
    StuckNext(n);
    StuckLast(n);
    CallsFollow(Stuck(n + 1), 0.0);
    SecondsApart(calls);
    SpacedAreAdmitted(calls, n, BURST, RATE);
  }

  lemma StuckLast(n: nat)
    ensures var s := After(Stuck(n));
            After(Stuck(n + 1)).calls == s.calls + [Call(n as real, Fits(s.calls, n as real, BURST, RATE))]
  {
    StuckNext(n);
    hide Step, Fits;
    CallsAfter(After(Stuck(n)), Request(Name(n), ""), n as real);
  }

  lemma SecondsApart(calls: seq<Call>)
    requires forall k :: 0 <= k < |calls| ==> calls[k].time == k as real
    ensures Spaced(calls, RATE)
  {
    forall k | 0 < k < |calls|
      ensures Earned(RATE, calls[k].time - calls[k - 1].time) >= 1.0
    {
      assert calls[k].time - calls[k - 1].time == 1.0;
    }
  }

  /** All of them are in flight, and drawn. */
  lemma {:induction false} StuckInFlight(n: nat)
    ensures var s := After(Stuck(n)); |s.activeIds| == n && (n > 0 ==> s.zone != [])
  {
    hide Fits, ActiveRows;
    if n > 0 {
      StuckNext(n - 1);
      StuckInFlight(n - 1);
      NextIsShown(n - 1);
      hide After;
    }
  }

  /** From 65535 requests in flight on, the run leaves rows behind; below, it does not. */
  lemma StuckIsTidyIff(n: nat)
    ensures After(Stuck(n)).Closing().tidy <==> n + 1 < U16
  {
    hide After, Step, Log.Closing;
    var events := Stuck(n);
    forall k | 0 <= k <= n
      ensures |After(events[..k]).zone| == if k == 0 then 0 else k + 1
    {
      StuckPrefix(n, k);
      StuckInFlight(k);
      ZoneSize(Stuck(k));
      if k == 0 {
        NothingYet();
      }
    }
    TidyIff(events);
    assert |events| == n && |After(events[..n]).zone| == if n == 0 then 0 else n + 1;
  }

  lemma StuckPrefix(n: nat, k: nat)
    requires k <= n
    ensures Stuck(n)[..k] == Stuck(k)
  {
  }

  lemma NothingYet()
    ensures After(Stuck(0)).zone == []
  {
    assert Stuck(0) == [];
  }

  /** The requests are unique and come in time: the handler leaves rows behind. */
  lemma RowsAreLeft()
    ensures var events := Stuck(65535);
            UniqueRequests(events) && InTime(events, 0.0) && !After(events).Closing().tidy
  {
    hide After, Log.Closing;
    StuckIsTidyIff(65535);
    StuckIsARun(65535);
  }

  lemma StuckIsARun(n: nat)
    ensures UniqueRequests(Stuck(n)) && InTime(Stuck(n), 0.0)
  {
    forall i, j | 0 <= i < j < n
      ensures Name(i) != Name(j)
    {
      assert |Name(i)| == i && |Name(j)| == j;
    }
  }
}
