/** The 2048 board component: its mirror of the tile elements under overlapping, asynchronous applies. */
module GameBoard {
  import opened Options

  type Id = string

  /** How a tile element is drawn: its cell and its number. */
  datatype Look = Look(r: int, c: int, value: int)

  predicate SameCell(a: Look, b: Look) {
    a.r == b.r && a.c == b.c
  }

  datatype TileState = TileState(id: Id, look: Look, spawned: bool, merged: bool)

  datatype GhostState = GhostState(id: Id, r: int, c: int)

  datatype Snapshot = Snapshot(tiles: seq<TileState>, ghosts: seq<GhostState>)

  function TileIds(s: Snapshot): set<Id> {
    set t | t in s.tiles :: t.id
  }

  function GhostIds(s: Snapshot): set<Id> {
    set g | g in s.ghosts :: g.id
  }

  /** Tile ids are unique, ghost ids are unique, and no id is both. */
  ghost predicate WellFormed(s: Snapshot) {
    && (forall i, j :: 0 <= i < j < |s.tiles| ==> s.tiles[i].id != s.tiles[j].id)
    && (forall i, j :: 0 <= i < j < |s.ghosts| ==> s.ghosts[i].id != s.ghosts[j].id)
    && TileIds(s) !! GhostIds(s)
  }

  /** What the component remembers of a mounted tile; elements are numbered as they are created. */
  datatype Entry = Entry(el: nat, look: Look)

  ghost function Looks(tiles: map<Id, Entry>): map<Id, Look> {
    map id | id in tiles :: tiles[id].look
  }

  /** The remembered tiles and the tile elements on the board match one to one. */
  ghost predicate Mirror(tiles: map<Id, Entry>, board: map<nat, Look>, nextEl: nat) {
    && (forall id :: id in tiles ==> tiles[id].el in board && board[tiles[id].el] == tiles[id].look)
    && (forall id, id' :: id in tiles && id' in tiles && tiles[id].el == tiles[id'].el ==> id == id')
    && (forall e :: e in board ==> e < nextEl && exists id :: id in tiles && tiles[id].el == e)
  }

  datatype AnimState = Running | Finished | Cancelled

  /** What an animation does to an element: it comes from some rows and columns away, swells, or grows in. */
  datatype Motion = Shift(el: nat, dr: int, dc: int) | Swell(el: nat) | Grow(el: nat)

  /** An element moves from its former cell to its new one. */
  function Between(el: nat, from: Look, r: int, c: int): Motion {
    Shift(el, from.r - r, from.c - c)
  }

  /** An animation; that of a ghost carries what its finish handler compares and removes. */
  datatype Anim = Anim(state: AnimState, motion: Motion, leaving: Option<(Id, nat)>)

  /** Running animations are active, and those of ghosts are of the newest snapshot's. */
  ghost predicate Clock(animations: map<nat, Anim>, active: set<nat>, nextAnim: nat, shown: Snapshot) {
    && active <= animations.Keys
    && (forall a :: a in animations ==> a < nextAnim)
    && (forall a :: a in animations && animations[a].state.Running? ==> a in active)
    && forall a :: a in animations && animations[a].state.Running? && animations[a].leaving.Some? ==>
         animations[a].leaving.value.0 in GhostIds(shown)
  }

  ghost predicate HasAnim(animations: map<nat, Anim>, waits: set<nat>, leaving: (Id, nat)) {
    exists a :: a in waits && a in animations && animations[a].state.Running? && animations[a].leaving == Some(leaving)
  }

  /** Every mounted ghost is on its way out. */
  ghost predicate Leaving(tiles: map<Id, Entry>, animations: map<nat, Anim>, waits: set<nat>, ghosts: seq<GhostState>) {
    forall g :: g in ghosts && g.id in tiles ==> HasAnim(animations, waits, (g.id, tiles[g.id].el))
  }

  datatype Phase = Slide | Pop | Spawn

  /** A suspended apply. */
  datatype Run = Run(token: nat, snapshot: Snapshot, phase: Phase, waits: set<nat>)

  /** Whether some mounted tile is to pop. */
  ghost predicate Pops(s: Snapshot, tiles: map<Id, Entry>) {
    exists j :: 0 <= j < |s.tiles| && s.tiles[j].merged && s.tiles[j].id in tiles
  }

  // ---------- The phases on what is shown ----------

  /** After the slides have started: kept tiles are in place, and nothing but tiles and ghosts is shown.
      `faithful` tells whether the tiles already shown are shown as the snapshot has them. */
  ghost predicate Slid(looks: map<Id, Look>, s: Snapshot, faithful: bool) {
    && (forall t :: t in s.tiles && !t.spawned ==> t.id in looks && looks[t.id] == t.look)
    && looks.Keys <= TileIds(s) + GhostIds(s)
    && (faithful <==> forall t :: t in s.tiles && t.id in looks ==> looks[t.id] == t.look)
  }

  /** After the spawns: exactly the snapshot's tile ids, and, if faithful, at its cells and values. */
  ghost predicate Shown(looks: map<Id, Look>, s: Snapshot, faithful: bool) {
    && looks.Keys == TileIds(s)
    && (faithful <==> forall t :: t in s.tiles ==> t.id in looks && looks[t.id] == t.look)
  }

  /** No mounted tile is flagged as spawned at another cell or value. */
  ghost predicate SpawnsAreNew(looks: map<Id, Look>, s: Snapshot) {
    forall t :: t in s.tiles && t.spawned && t.id in looks ==> looks[t.id] == t.look
  }

  ghost function Kept(looks: map<Id, Look>, s: Snapshot): map<Id, Look> {
    map id | id in looks && id in TileIds(s) + GhostIds(s) :: looks[id]
  }

  ghost function Ghosted(looks: map<Id, Look>, ghosts: seq<GhostState>): map<Id, Look> {
    if ghosts == [] then looks
    else
      var prev, g := Ghosted(looks, ghosts[..|ghosts| - 1]), ghosts[|ghosts| - 1];
      if g.id in prev then prev[g.id := Look(g.r, g.c, prev[g.id].value)] else prev
  }

  ghost function Placed(looks: map<Id, Look>, tiles: seq<TileState>): map<Id, Look> {
    if tiles == [] then looks
    else
      var prev, t := Placed(looks, tiles[..|tiles| - 1]), tiles[|tiles| - 1];
      if t.spawned then prev else prev[t.id := t.look]
  }

  ghost function Spawned(looks: map<Id, Look>, tiles: seq<TileState>): map<Id, Look> {
    if tiles == [] then looks
    else
      var prev, t := Spawned(looks, tiles[..|tiles| - 1]), tiles[|tiles| - 1];
      if !t.spawned || t.id in prev then prev else prev[t.id := t.look]
  }

  lemma {:induction false} GhostedMeans(looks: map<Id, Look>, ghosts: seq<GhostState>)
    ensures Ghosted(looks, ghosts).Keys == looks.Keys
    ensures forall id :: id in looks && (forall g :: g in ghosts ==> g.id != id) ==> Ghosted(looks, ghosts)[id] == looks[id]
  {
    if ghosts != [] {
      GhostedMeans(looks, ghosts[..|ghosts| - 1]);
    }
  }

  lemma {:induction false} PlacedMeans(looks: map<Id, Look>, tiles: seq<TileState>)
    requires forall i, j :: 0 <= i < j < |tiles| ==> tiles[i].id != tiles[j].id
    ensures forall t :: t in tiles && !t.spawned ==> t.id in Placed(looks, tiles) && Placed(looks, tiles)[t.id] == t.look
    ensures forall id :: (forall t :: t in tiles && !t.spawned ==> t.id != id) ==>
              (id in Placed(looks, tiles) <==> id in looks) && (id in looks ==> Placed(looks, tiles)[id] == looks[id])
  {
    if tiles != [] {
      PlacedMeans(looks, tiles[..|tiles| - 1]);
    }
  }

  lemma {:induction false} SpawnedMeans(looks: map<Id, Look>, tiles: seq<TileState>)
    requires forall i, j :: 0 <= i < j < |tiles| ==> tiles[i].id != tiles[j].id
    ensures forall id :: id in looks ==> id in Spawned(looks, tiles) && Spawned(looks, tiles)[id] == looks[id]
    ensures forall t :: t in tiles && t.spawned && t.id !in looks ==> t.id in Spawned(looks, tiles) && Spawned(looks, tiles)[t.id] == t.look
    ensures forall id :: id in Spawned(looks, tiles) ==> id in looks || exists t :: t in tiles && t.spawned && t.id == id
  {
    if tiles != [] {
      SpawnedMeans(looks, tiles[..|tiles| - 1]);
    }
  }

  /** Whatever was shown before, the first phase leaves kept tiles in place, and the result will be
      faithful exactly when no mounted tile is flagged as spawned elsewhere. */
  lemma FirstPhase(looks: map<Id, Look>, s: Snapshot)
    requires WellFormed(s)
    ensures Slid(Placed(Ghosted(Kept(looks, s), s.ghosts), s.tiles), s, SpawnsAreNew(looks, s))
  {
    var kept := Kept(looks, s);
    var ghosted := Ghosted(kept, s.ghosts);
    GhostedMeans(kept, s.ghosts);
    PlacedMeans(ghosted, s.tiles);
    hide Ghosted, Placed;
    var placed := Placed(ghosted, s.tiles);
    forall id | id in placed
      ensures id in TileIds(s) + GhostIds(s)
    {
      if id !in ghosted {
        assert exists t :: t in s.tiles && !t.spawned && t.id == id;
      }
    }
    forall t | t in s.tiles && t.spawned
      ensures t.id in placed <==> t.id in looks
      ensures t.id in looks ==> placed[t.id] == looks[t.id]
    {
      OnlyOne(s.tiles, t);
      assert t.id in TileIds(s);
      forall g | g in s.ghosts
        ensures g.id != t.id
      {
        assert g.id in GhostIds(s);
      }
    }
  }

  lemma OnlyOne(tiles: seq<TileState>, t: TileState)
    requires t in tiles && forall i, j :: 0 <= i < j < |tiles| ==> tiles[i].id != tiles[j].id
    ensures forall u :: u in tiles && u.id == t.id ==> u == t
  {
  }

  /** Once the ghosts have left, the spawns complete the snapshot. */
  lemma LastPhase(looks: map<Id, Look>, s: Snapshot, faithful: bool)
    requires WellFormed(s) && Slid(looks, s, faithful) && looks.Keys !! GhostIds(s)
    ensures Shown(Spawned(looks, s.tiles), s, faithful)
  {
    SpawnedMeans(looks, s.tiles);
    hide Spawned;
    var spawned := Spawned(looks, s.tiles);
    forall t | t in s.tiles
      ensures t.id in spawned && t.id in TileIds(s)
      ensures spawned[t.id] == if t.id in looks then looks[t.id] else t.look
    {
    }
  }

  // ---------- Mounting, restyling and removing one tile ----------

  lemma LooksUpdated(tiles: map<Id, Entry>, id: Id, entry: Entry)
    ensures Looks(tiles[id := entry]) == Looks(tiles)[id := entry.look]
  {
  }

  lemma Restyled(tiles: map<Id, Entry>, board: map<nat, Look>, nextEl: nat, id: Id, look: Look)
    requires Mirror(tiles, board, nextEl) && id in tiles
    ensures var el := tiles[id].el;
            var after := tiles[id := Entry(el, look)];
            Mirror(after, board[el := look], nextEl) && Looks(after) == Looks(tiles)[id := look]
  {
    var el := tiles[id].el;
    LooksUpdated(tiles, id, Entry(el, look));
    hide Looks;
    var after, board' := tiles[id := Entry(el, look)], board[el := look];
    forall e | e in board'
      ensures e < nextEl && exists x :: x in after && after[x].el == e
    {
      assert e in board;
      var x :| x in tiles && tiles[x].el == e;
      assert after[x].el == e;
    }
  }

  lemma Mounted(tiles: map<Id, Entry>, board: map<nat, Look>, nextEl: nat, id: Id, look: Look)
    requires Mirror(tiles, board, nextEl) && id !in tiles
    ensures var after := tiles[id := Entry(nextEl, look)];
            Mirror(after, board[nextEl := look], nextEl + 1) && Looks(after) == Looks(tiles)[id := look]
  {
    LooksUpdated(tiles, id, Entry(nextEl, look));
    hide Looks;
    var after, board' := tiles[id := Entry(nextEl, look)], board[nextEl := look];
    assert board'.Keys == board.Keys + {nextEl};
    forall e | e in board'
      ensures e < nextEl + 1 && exists x :: x in after && after[x].el == e
    {
      if e == nextEl {
        assert after[id].el == e;
      } else {
        var x :| x in tiles && tiles[x].el == e;
        assert after[x].el == e;
      }
    }
  }

  lemma Removed(tiles: map<Id, Entry>, board: map<nat, Look>, nextEl: nat, id: Id)
    requires Mirror(tiles, board, nextEl) && id in tiles
    ensures Mirror(tiles - {id}, board - {tiles[id].el}, nextEl) && Looks(tiles - {id}) == Looks(tiles) - {id}
  {
    var after, board' := tiles - {id}, board - {tiles[id].el};
    forall e | e in board'
      ensures e < nextEl && exists x :: x in after && after[x].el == e
    {
      var x :| x in tiles && tiles[x].el == e;
      assert after[x].el == e;
    }
  }

  /** A tile that stays keeps its element. */
  ghost predicate SameElements(before: map<Id, Entry>, after: map<Id, Entry>) {
    forall id :: id in before && id in after ==> before[id].el == after[id].el
  }

  lemma NothingMoved(tiles: map<Id, Entry>)
    ensures SameElements(tiles, tiles)
  {
  }

  /** Animations are only added. */
  ghost predicate Grown(before: map<nat, Anim>, after: map<nat, Anim>) {
    forall a :: a in before ==> a in after && after[a] == before[a]
  }

  lemma NothingGrown(animations: map<nat, Anim>)
    ensures Grown(animations, animations)
  {
  }

  lemma GrownKeys(before: map<nat, Anim>, after: map<nat, Anim>)
    requires Grown(before, after)
    ensures before.Keys <= after.Keys
  {
  }

  lemma KeptOn(a: map<Id, Entry>, b: map<Id, Entry>, c: map<Id, Entry>, x: map<nat, Anim>, y: map<nat, Anim>, z: map<nat, Anim>)
    requires SameElements(a, b) && SameElements(b, c) && Grown(x, y) && Grown(y, z) && a.Keys <= b.Keys
    ensures SameElements(a, c) && Grown(x, z)
  {
  }

  /** Ghosts stay on their way out when their elements stay and animations are only added. */
  lemma StillLeaving(tiles: map<Id, Entry>, tiles': map<Id, Entry>, animations: map<nat, Anim>, animations': map<nat, Anim>,
                     waits: set<nat>, waits': set<nat>, ghosts: seq<GhostState>)
    requires Leaving(tiles, animations, waits, ghosts) && SameElements(tiles, tiles')
    requires Grown(animations, animations') && waits <= waits'
    requires forall g :: g in ghosts && g.id in tiles' ==> g.id in tiles
    ensures Leaving(tiles', animations', waits', ghosts)
  {
    forall g | g in ghosts && g.id in tiles'
      ensures HasAnim(animations', waits', (g.id, tiles'[g.id].el))
    {
      var a :| a in waits && a in animations && animations[a].state.Running? && animations[a].leaving == Some((g.id, tiles[g.id].el));
      assert animations'[a] == animations[a];
    }
  }

  lemma LeavesToo(tiles: map<Id, Entry>, animations: map<nat, Anim>, waits: set<nat>, ghosts: seq<GhostState>, g: GhostState)
    requires Leaving(tiles, animations, waits, ghosts)
    requires g.id in tiles ==> HasAnim(animations, waits, (g.id, tiles[g.id].el))
    ensures Leaving(tiles, animations, waits, ghosts + [g])
  {
  }

  ghost predicate OwnTokens(runs: seq<Run>) {
    forall i, j :: 0 <= i < j < |runs| ==> runs[i].token != runs[j].token
  }

  lemma RunRemoved(runs: seq<Run>, i: nat)
    requires OwnTokens(runs) && i < |runs|
    ensures var rest := runs[..i] + runs[i + 1..];
            && OwnTokens(rest)
            && (forall r :: r in rest ==> r in runs && r.token != runs[i].token)
            && forall r :: r in runs ==> r in rest || r == runs[i]
  {
    var rest := runs[..i] + runs[i + 1..];
    forall r | r in runs
      ensures r in rest || r == runs[i]
    {
      var k :| 0 <= k < |runs| && runs[k] == r;
      assert k < i ==> rest[k] == r;
      assert k > i ==> rest[k - 1] == r;
    }
  }

  /** Where the newest apply stands while it is suspended. */
  ghost predicate Stage(run: Run, tiles: map<Id, Entry>, animations: map<nat, Anim>, shown: Snapshot, faithful: bool) {
    && run.snapshot == shown
    && (WellFormed(shown) ==> Reached(run.phase, run.waits, tiles, animations, shown, faithful))
  }

  ghost predicate Reached(phase: Phase, waits: set<nat>, tiles: map<Id, Entry>, animations: map<nat, Anim>,
                          shown: Snapshot, faithful: bool)
  {
    match phase
    case Slide => Slid(Looks(tiles), shown, faithful) && Leaving(tiles, animations, waits, shown.ghosts)
    case Pop => ReadyToPop(tiles, shown, faithful)
    case Spawn => Shown(Looks(tiles), shown, faithful)
  }

  /** The slides are done and the ghosts have left. */
  ghost predicate ReadyToPop(tiles: map<Id, Entry>, s: Snapshot, faithful: bool) {
    Slid(Looks(tiles), s, faithful) && tiles.Keys !! GhostIds(s)
  }

  // ---------- The component as a value ----------

  /** Something that happens to the component. */
  datatype Step = Changed(oldVal: Option<string>, newVal: Option<string>) | Finish(a: nat) | Resume(i: nat)

  /** All that the component remembers; the board's elements are those of the tiles. `shown` is the
      snapshot taken on last and `found` how the tiles looked just before. */
  datatype Scene = Scene(tiles: map<Id, Entry>, nextEl: nat, animations: map<nat, Anim>, nextAnim: nat, active: set<nat>,
                         token: nat, last: Option<string>, runs: seq<Run>, shown: Snapshot, found: map<Id, Look>)
  {
    ghost function Restyle(id: Id, look: Look): Scene
      requires id in tiles
    {
      this.(tiles := tiles[id := Entry(tiles[id].el, look)])
    }

    ghost function Mount(id: Id, look: Look): Scene {
      this.(tiles := tiles[id := Entry(nextEl, look)], nextEl := nextEl + 1)
    }

    ghost function Animate(motion: Motion, leaving: Option<(Id, nat)>): Scene {
      this.(animations := animations[nextAnim := Anim(Running, motion, leaving)], nextAnim := nextAnim + 1, active := active + {nextAnim})
    }

    ghost function Cancel(): Scene {
      this.(active := {}, animations := map a | a in animations ::
              if a in active && animations[a].state.Running? then animations[a].(state := Cancelled) else animations[a])
    }

    ghost function Drop(s: Snapshot): Scene {
      this.(tiles := map id | id in tiles && id in TileIds(s) + GhostIds(s) :: tiles[id])
    }

    ghost function SlideGhost(g: GhostState): Scene {
      if g.id in tiles then
        var Entry(el, was) := tiles[g.id];
        Restyle(g.id, Look(g.r, g.c, was.value)).Animate(Between(el, was, g.r, g.c), Some((g.id, el)))
      else this
    }

    ghost function PlaceTile(t: TileState): Scene {
      if t.spawned then this
      else if t.id !in tiles then Mount(t.id, t.look)
      else
        var Entry(el, was) := tiles[t.id];
        var moved := Restyle(t.id, t.look);
        if SameCell(was, t.look) then moved else moved.Animate(Between(el, was, t.look.r, t.look.c), None)
    }

    ghost function PopTile(t: TileState): Scene {
      if t.merged && t.id in tiles then Animate(Swell(tiles[t.id].el), None) else this
    }

    ghost function SpawnTile(t: TileState): Scene {
      if t.spawned && t.id !in tiles then Mount(t.id, t.look).Animate(Grow(nextEl), None) else this
    }

    ghost function SlideGhosts(ghosts: seq<GhostState>): Scene {
      if ghosts == [] then this else SlideGhosts(ghosts[..|ghosts| - 1]).SlideGhost(ghosts[|ghosts| - 1])
    }

    ghost function PlaceTiles(ts: seq<TileState>): Scene {
      if ts == [] then this else PlaceTiles(ts[..|ts| - 1]).PlaceTile(ts[|ts| - 1])
    }

    ghost function PopTiles(ts: seq<TileState>): Scene {
      if ts == [] then this else PopTiles(ts[..|ts| - 1]).PopTile(ts[|ts| - 1])
    }

    ghost function SpawnTiles(ts: seq<TileState>): Scene {
      if ts == [] then this else SpawnTiles(ts[..|ts| - 1]).SpawnTile(ts[|ts| - 1])
    }

    /** Suspends the newest apply for the animations begun since `before`, if there are any. */
    ghost function Await(before: Scene, phase: Phase, s: Snapshot, next: Scene): Scene {
      var waits := animations.Keys - before.animations.Keys;
      if waits == {} then next else this.(runs := runs + [Run(token, s, phase, waits)])
    }

    ghost function SpawnPhase(s: Snapshot): Scene {
      var after := SpawnTiles(s.tiles);
      after.Await(this, Spawn, s, after)
    }

    ghost function PopPhase(s: Snapshot): Scene {
      var after := PopTiles(s.tiles);
      after.Await(this, Pop, s, after.SpawnPhase(s))
    }

    ghost function Apply(s: Snapshot): Scene {
      var start := Cancel().(token := token + 1, shown := s, found := Looks(tiles));
      var slid := start.Drop(s).SlideGhosts(s.ghosts).PlaceTiles(s.tiles);
      slid.Await(start, Slide, s, slid.PopPhase(s))
    }

    ghost function Finish(a: nat): Scene {
      if a in animations && animations[a].state.Running? then
        this.(tiles := AfterFinish(tiles, animations[a]), animations := animations[a := animations[a].(state := Finished)])
      else this
    }

    ghost function Resume(i: nat): Scene {
      if i < |runs| && forall a :: a in runs[i].waits && a in animations ==> !animations[a].state.Running? then
        var run, rest := runs[i], this.(runs := runs[..i] + runs[i + 1..]);
        if run.token != token then rest
        else
          match run.phase
          case Slide => rest.PopPhase(run.snapshot)
          case Pop => rest.SpawnPhase(run.snapshot)
          case Spawn => rest
      else this
    }

    ghost function Do(step: Step, parse: string -> Option<Snapshot>): Scene {
      match step
      case Changed(_, newVal) => if Applies(last, step, parse) then this.(last := newVal).Apply(parse(newVal.value).value) else this
      case Finish(a) => Finish(a)
      case Resume(i) => Resume(i)
    }
  }

  const START := Scene(map[], 0, map[], 0, {}, 0, None, [], Snapshot([], []), map[])

  /** A change of the attribute is applied when it is one, differs from what was applied last, and
      parses. */
  ghost predicate Applies(last: Option<string>, step: Step, parse: string -> Option<Snapshot>) {
    step.Changed? && step.newVal.Some? && step.newVal != step.oldVal && step.newVal != last && parse(step.newVal.value).Some?
  }

  ghost function After(start: Scene, steps: seq<Step>, parse: string -> Option<Snapshot>): Scene {
    if steps == [] then start else After(start, steps[..|steps| - 1], parse).Do(steps[|steps| - 1], parse)
  }

  /** What the end of an animation leaves mounted. */
  ghost function AfterFinish(tiles: map<Id, Entry>, anim: Anim): map<Id, Entry> {
    var l := anim.leaving;
    if l.Some? && l.value.0 in tiles && tiles[l.value.0].el == l.value.1 then tiles - {l.value.0} else tiles
  }

  // ---------- The component ----------

  class Board {
    const parse: string -> Option<Snapshot>
    var tiles: map<Id, Entry>
    var board: map<nat, Look>
    var nextEl: nat
    var animations: map<nat, Anim>
    var nextAnim: nat
    var activeAnimations: set<nat>
    var applyToken: nat
    var lastAppliedJson: Option<string>
    var runs: seq<Run>
    ghost var shown: Snapshot
    ghost var found: map<Id, Look>

    ghost function Current(): Scene
      reads this
    {
      Scene(tiles, nextEl, animations, nextAnim, activeAnimations, applyToken, lastAppliedJson, runs, shown, found)
    }

    /** What the newest apply found lets the board show its snapshot's cells and values. */
    ghost predicate Faithful()
      reads this
    {
      SpawnsAreNew(found, shown)
    }

    /** The mirror and the animations are in order. */
    ghost predicate Base()
      reads this
    {
      Mirror(tiles, board, nextEl) && Clock(animations, activeAnimations, nextAnim, shown)
    }

    ghost predicate RunsKnown()
      reads this
    {
      && (forall run :: run in runs ==> run.token <= applyToken && run.waits <= animations.Keys)
      && OwnTokens(runs)
    }

    /** The newest apply has run all its phases. */
    ghost predicate Settled()
      reads this
    {
      forall run :: run in runs ==> run.token != applyToken
    }

    ghost predicate Valid()
      reads this
    {
      && Base() && RunsKnown()
      && (forall run :: run in runs && run.token == applyToken ==> Stage(run, tiles, animations, shown, Faithful()))
      && (Settled() && applyToken > 0 && WellFormed(shown) ==> Shown(Looks(tiles), shown, Faithful()))
    }

    constructor (parser: string -> Option<Snapshot>)
      ensures UpToDate() && Current() == START && board == map[] && parse == parser
    {
      parse := parser;
      tiles, board, nextEl := map[], map[], 0;
      animations, nextAnim, activeAnimations := map[], 0, {};
      applyToken, lastAppliedJson, runs := 0, None, [];
      shown, found := Snapshot([], []), map[];
    }

    // ---------- One tile ----------

    method Restyle(id: Id, look: Look)
      requires Base() && id in tiles
      modifies `tiles, `board
      ensures Base() && Looks(tiles) == Looks(old(tiles))[id := look] && SameElements(old(tiles), tiles)
      ensures tiles.Keys == old(tiles.Keys) && Current() == old(Current()).Restyle(id, look)
    {
      hide Clock, Mirror, Looks;
      Restyled(tiles, board, nextEl, id, look);
      var el := tiles[id].el;
      board := board[el := look];
      tiles := tiles[id := Entry(el, look)];
    }

    method Mount(id: Id, look: Look)
      requires Base() && id !in tiles
      modifies `tiles, `board, `nextEl
      ensures Base() && Looks(tiles) == Looks(old(tiles))[id := look] && SameElements(old(tiles), tiles)
      ensures tiles.Keys == old(tiles.Keys) + {id} && Current() == old(Current()).Mount(id, look)
    {
      hide Clock, Mirror, Looks;
      Mounted(tiles, board, nextEl, id, look);
      board := board[nextEl := look];
      tiles := tiles[id := Entry(nextEl, look)];
      nextEl := nextEl + 1;
    }

    method Remove(id: Id)
      requires Base() && id in tiles
      modifies `tiles, `board
      ensures Base() && tiles == old(tiles) - {id} && Looks(tiles) == Looks(old(tiles)) - {id}
    {
      hide Clock;
      Removed(tiles, board, nextEl, id);
      board := board - {tiles[id].el};
      tiles := tiles - {id};
    }

    // ---------- Animations ----------

    method Animate(motion: Motion, leaving: Option<(Id, nat)>) returns (a: nat)
      requires Base() && (leaving.Some? ==> leaving.value.0 in GhostIds(shown))
      modifies `animations, `nextAnim, `activeAnimations
      ensures Base() && a !in old(animations) && animations == old(animations)[a := Anim(Running, motion, leaving)]
      ensures Current() == old(Current()).Animate(motion, leaving)
    {
      hide Mirror, GhostIds;
      a := nextAnim;
      animations := animations[a := Anim(Running, motion, leaving)];
      nextAnim := nextAnim + 1;
      activeAnimations := activeAnimations + {a};
    }

    /** Nothing is running afterwards, so a newer snapshot may be taken on. */
    method CancelActive()
      requires Base()
      modifies `animations, `activeAnimations
      ensures Base() && animations.Keys == old(animations.Keys) && activeAnimations == {}
      ensures (forall a :: a in animations ==> !animations[a].state.Running?) && Current() == old(Current()).Cancel()
    {
      hide Mirror, GhostIds;
      var active, before := activeAnimations, animations;
      animations := map a | a in before ::
        if a in active && before[a].state.Running? then before[a].(state := Cancelled) else before[a];
      activeAnimations := {};
    }

    // ---------- Phase 1: slide ----------

    method DropUnknown(s: Snapshot)
      requires Base()
      modifies `tiles, `board
      ensures Base() && Looks(tiles) == Kept(Looks(old(tiles)), s) && SameElements(old(tiles), tiles)
      ensures (forall t :: t in s.tiles && t.id in old(tiles) ==> t.id in tiles) && Current() == old(Current()).Drop(s)
    {
      hide Mirror, Clock, TileIds, GhostIds;
      var validIds, rest := TileIds(s) + GhostIds(s), tiles.Keys;
      TilesAreValid(s);
      while rest != {}
        invariant Base() && rest <= old(tiles).Keys
        invariant forall id :: id in tiles <==> id in old(tiles) && (id in rest || id in validIds)
        invariant forall id :: id in tiles ==> tiles[id] == old(tiles)[id]
        decreases |rest|
      {
        var id :| id in rest;
        rest := rest - {id};
        if id !in validIds {
          Remove(id);
        }
      }
    }

    method SlideGhost(g: GhostState, before: set<nat>) returns (waits: set<nat>)
      requires Base() && g.id in GhostIds(shown) && before <= animations.Keys
      modifies `tiles, `board, `animations, `nextAnim, `activeAnimations
      ensures Base() && tiles.Keys == old(tiles).Keys && SameElements(old(tiles), tiles)
      ensures Looks(tiles) == if g.id in old(tiles) then Looks(old(tiles))[g.id := Look(g.r, g.c, old(tiles)[g.id].look.value)] else Looks(old(tiles))
      ensures Grown(old(animations), animations) && before <= waits <= animations.Keys
      ensures g.id in tiles ==> HasAnim(animations, waits, (g.id, tiles[g.id].el))
      ensures Current() == old(Current()).SlideGhost(g) && waits == before + (animations.Keys - old(animations.Keys))
    {
      hide Mirror, Clock, GhostIds, Looks;
      waits := before;
      if g.id in tiles {
        var Entry(el, was) := tiles[g.id];
        Restyle(g.id, Look(g.r, g.c, was.value));
        var a := Animate(Between(el, was, g.r, g.c), Some((g.id, el)));
        waits := waits + {a};
        assert animations[a].leaving == Some((g.id, el));
      }
    }

    method SlideGhosts(s: Snapshot) returns (waits: set<nat>)
      requires Base() && shown == s
      modifies `tiles, `board, `animations, `nextAnim, `activeAnimations
      ensures Base() && tiles.Keys == old(tiles).Keys && SameElements(old(tiles), tiles)
      ensures Looks(tiles) == Ghosted(Looks(old(tiles)), s.ghosts)
      ensures Grown(old(animations), animations) && waits <= animations.Keys
      ensures Leaving(tiles, animations, waits, s.ghosts)
      ensures Current() == old(Current()).SlideGhosts(s.ghosts) && waits == animations.Keys - old(animations.Keys)
    {
      hide Mirror, Clock, Leaving, HasAnim, GhostIds, Scene.SlideGhost;
      waits := {};
      NoneLeaving(tiles, animations);
      var i := 0;
      while i < |s.ghosts|
        invariant 0 <= i <= |s.ghosts| && Base() && tiles.Keys == old(tiles).Keys && SameElements(old(tiles), tiles)
        invariant Looks(tiles) == Ghosted(Looks(old(tiles)), s.ghosts[..i])
        invariant Grown(old(animations), animations) && waits <= animations.Keys
        invariant Leaving(tiles, animations, waits, s.ghosts[..i])
        invariant Current() == old(Current()).SlideGhosts(s.ghosts[..i]) && waits == animations.Keys - old(animations.Keys)
      {
        var g := s.ghosts[i];
        GhostKnown(s, i);
        ghost var tiles0, animations0, waits0 := tiles, animations, waits;
        waits := SlideGhost(g, waits);
        StillLeaving(tiles0, tiles, animations0, animations, waits0, waits, s.ghosts[..i]);
        LeavesToo(tiles, animations, waits, s.ghosts[..i], g);
        assert s.ghosts[..i + 1] == s.ghosts[..i] + [g] && s.ghosts[..i + 1][..i] == s.ghosts[..i];
        i := i + 1;
      }
      assert s.ghosts[..i] == s.ghosts;
    }

    method PlaceTile(t: TileState, before: set<nat>) returns (waits: set<nat>)
      requires Base() && before <= animations.Keys
      modifies `tiles, `board, `nextEl, `animations, `nextAnim, `activeAnimations
      ensures Base() && tiles.Keys == old(tiles).Keys + (if t.spawned then {} else {t.id}) && SameElements(old(tiles), tiles)
      ensures Looks(tiles) == if t.spawned then Looks(old(tiles)) else Looks(old(tiles))[t.id := t.look]
      ensures Grown(old(animations), animations) && before <= waits <= animations.Keys
      ensures Current() == old(Current()).PlaceTile(t) && waits == before + (animations.Keys - old(animations.Keys))
    {
      hide Mirror, Clock, Looks;
      waits := before;
      if t.spawned {
        return;
      }
      if t.id !in tiles {
        Mount(t.id, t.look);
      } else {
        var Entry(el, was) := tiles[t.id];
        Restyle(t.id, t.look);
        if !SameCell(was, t.look) {
          var a := Animate(Between(el, was, t.look.r, t.look.c), None);
          waits := waits + {a};
        }
      }
    }

    method PlaceTiles(s: Snapshot, before: set<nat>) returns (waits: set<nat>)
      requires Base() && before <= animations.Keys && Leaving(tiles, animations, before, s.ghosts)
      modifies `tiles, `board, `nextEl, `animations, `nextAnim, `activeAnimations
      ensures Base() && SameElements(old(tiles), tiles) && old(tiles).Keys <= tiles.Keys
      ensures Looks(tiles) == Placed(Looks(old(tiles)), s.tiles)
      ensures Grown(old(animations), animations) && before <= waits <= animations.Keys
      ensures WellFormed(s) ==> Leaving(tiles, animations, waits, s.ghosts)
      ensures Current() == old(Current()).PlaceTiles(s.tiles) && waits == before + (animations.Keys - old(animations.Keys))
    {
      hide Mirror, Clock, Leaving, HasAnim, TileIds, GhostIds, WellFormed, Scene.PlaceTile, SameElements, Grown, Looks;
      NothingMoved(tiles);
      NothingGrown(animations);
      waits := before;
      var i := 0;
      while i < |s.tiles|
        invariant 0 <= i <= |s.tiles| && Base() && SameElements(old(tiles), tiles) && old(tiles).Keys <= tiles.Keys
        invariant Looks(tiles) == Placed(Looks(old(tiles)), s.tiles[..i])
        invariant Grown(old(animations), animations) && before <= waits <= animations.Keys
        invariant WellFormed(s) ==> Leaving(tiles, animations, waits, s.ghosts)
        invariant Current() == old(Current()).PlaceTiles(s.tiles[..i]) && waits == before + (animations.Keys - old(animations.Keys))
      {
        var t := s.tiles[i];
        assert s.tiles[..i + 1][..i] == s.tiles[..i];
        ghost var tiles0, animations0, waits0 := tiles, animations, waits;
        waits := PlaceTile(t, waits);
        KeptOn(old(tiles), tiles0, tiles, old(animations), animations0, animations);
        GrownKeys(old(animations), animations0);
        GrownKeys(animations0, animations);
        if WellFormed(s) {
          TileIsNoGhost(s, t);
          StillLeaving(tiles0, tiles, animations0, animations, waits0, waits, s.ghosts);
        }
        i := i + 1;
      }
      assert s.tiles[..i] == s.tiles;
    }

    method SlidePhase(s: Snapshot) returns (waits: set<nat>)
      requires Base() && shown == s
      modifies `tiles, `board, `nextEl, `animations, `nextAnim, `activeAnimations
      ensures Base() && Grown(old(animations), animations) && waits <= animations.Keys
      ensures WellFormed(s) ==>
                Slid(Looks(tiles), s, SpawnsAreNew(Looks(old(tiles)), s)) && Leaving(tiles, animations, waits, s.ghosts)
      ensures forall t :: t in s.tiles && t.id in old(tiles) ==> t.id in tiles && tiles[t.id].el == old(tiles)[t.id].el
      ensures Current() == old(Current()).Drop(s).SlideGhosts(s.ghosts).PlaceTiles(s.tiles)
      ensures waits == animations.Keys - old(animations.Keys)
    {
      hide Scene.Drop, Scene.SlideGhosts, Scene.PlaceTiles;
      hide Mirror, Clock, Slid, WellFormed, Leaving, SpawnsAreNew, Kept, Ghosted, Placed, Looks;
      if WellFormed(s) {
        FirstPhase(Looks(tiles), s);
      }
      DropUnknown(s);
      waits := SlideGhosts(s);
      waits := PlaceTiles(s, waits);
    }

    // ---------- Phases 2 and 3: pop and spawn ----------

    /** Waits for animations of the newest apply. */
    method Suspend(phase: Phase, s: Snapshot, waits: set<nat>)
      requires Base() && RunsKnown() && Settled() && waits <= animations.Keys
      requires Stage(Run(applyToken, s, phase, waits), tiles, animations, shown, Faithful())
      modifies `runs
      ensures Valid() && runs == old(runs) + [Run(applyToken, s, phase, waits)]
    {
      hide Mirror, Clock, Stage, Shown;
      runs := runs + [Run(applyToken, s, phase, waits)];
      assert !Settled() by {
        assert runs[|runs| - 1] in runs;
      }
    }

    method PopTiles(s: Snapshot) returns (waits: set<nat>)
      requires Base()
      modifies `animations, `nextAnim, `activeAnimations
      ensures Base() && Grown(old(animations), animations) && waits <= animations.Keys
      ensures waits != {} <==> Pops(s, tiles)
      ensures Current() == old(Current()).PopTiles(s.tiles) && waits == animations.Keys - old(animations.Keys)
    {
      hide Mirror, Clock;
      waits := {};
      var i := 0;
      while i < |s.tiles|
        invariant 0 <= i <= |s.tiles| && Base() && waits <= animations.Keys && Grown(old(animations), animations)
        invariant waits != {} <==> exists j :: 0 <= j < i && s.tiles[j].merged && s.tiles[j].id in tiles
        invariant Current() == old(Current()).PopTiles(s.tiles[..i]) && waits == animations.Keys - old(animations.Keys)
      {
        var t := s.tiles[i];
        assert s.tiles[..i + 1][..i] == s.tiles[..i];
        if t.merged && t.id in tiles {
          var a := Animate(Swell(tiles[t.id].el), None);
          waits := waits + {a};
        }
        i := i + 1;
      }
      assert s.tiles[..i] == s.tiles;
    }

    method PopPhase(s: Snapshot)
      requires Base() && RunsKnown() && Settled() && s == shown
      requires WellFormed(s) ==> ReadyToPop(tiles, s, Faithful())
      modifies `tiles, `board, `nextEl, `animations, `nextAnim, `activeAnimations, `runs
      ensures Valid() && SameElements(old(tiles), tiles) && old(tiles).Keys <= tiles.Keys
      ensures forall run :: run in runs ==> run in old(runs) || Left(run.phase) < Left(Slide)
      ensures Pops(s, old(tiles)) ==> |runs| == |old(runs)| + 1 && runs[|old(runs)|].phase.Pop? && tiles == old(tiles)
      ensures !Pops(s, old(tiles)) ==> Looks(tiles) == Spawned(Looks(old(tiles)), s.tiles)
      ensures Current() == old(Current()).PopPhase(s)
    {
      hide Mirror, Clock, ReadyToPop, Shown, WellFormed, Scene.PopTiles, Scene.SpawnPhase;
      var popAnims := PopTiles(s);
      if popAnims != {} {
        Suspend(Pop, s, popAnims);
      } else {
        SpawnPhase(s);
      }
    }

    method SpawnTile(t: TileState, before: set<nat>) returns (waits: set<nat>)
      requires Base() && before <= animations.Keys
      modifies `tiles, `board, `nextEl, `animations, `nextAnim, `activeAnimations
      ensures Base() && SameElements(old(tiles), tiles) && Grown(old(animations), animations)
      ensures Looks(tiles) == if t.spawned && t.id !in old(tiles) then Looks(old(tiles))[t.id := t.look] else Looks(old(tiles))
      ensures tiles.Keys == old(tiles.Keys) + if t.spawned then {t.id} else {}
      ensures before <= waits <= animations.Keys && (waits == before <==> tiles.Keys == old(tiles.Keys))
      ensures Current() == old(Current()).SpawnTile(t) && waits == before + (animations.Keys - old(animations.Keys))
    {
      hide Mirror, Clock, Looks;
      waits := before;
      if t.spawned && t.id !in tiles {
        var el := nextEl;
        Mount(t.id, t.look);
        var a := Animate(Grow(el), None);
        waits := waits + {a};
      }
    }

    method SpawnTiles(s: Snapshot) returns (waits: set<nat>)
      requires Base()
      modifies `tiles, `board, `nextEl, `animations, `nextAnim, `activeAnimations
      ensures Base() && SameElements(old(tiles), tiles) && old(tiles).Keys <= tiles.Keys
      ensures Looks(tiles) == Spawned(Looks(old(tiles)), s.tiles)
      ensures Grown(old(animations), animations) && waits <= animations.Keys
      ensures waits != {} <==> tiles.Keys != old(tiles).Keys
      ensures Current() == old(Current()).SpawnTiles(s.tiles) && waits == animations.Keys - old(animations.Keys)
    {
      hide Mirror, Clock, Scene.SpawnTile, SameElements, Grown;
      NothingMoved(tiles);
      NothingGrown(animations);
      waits := {};
      var i := 0;
      while i < |s.tiles|
        invariant 0 <= i <= |s.tiles| && Base() && SameElements(old(tiles), tiles) && old(tiles).Keys <= tiles.Keys
        invariant Looks(tiles) == Spawned(Looks(old(tiles)), s.tiles[..i])
        invariant Grown(old(animations), animations) && waits <= animations.Keys
        invariant waits != {} <==> tiles.Keys != old(tiles).Keys
        invariant Current() == old(Current()).SpawnTiles(s.tiles[..i]) && waits == animations.Keys - old(animations.Keys)
      {
        assert s.tiles[..i + 1][..i] == s.tiles[..i];
        ghost var tiles0, animations0 := tiles, animations;
        waits := SpawnTile(s.tiles[i], waits);
        KeptOn(old(tiles), tiles0, tiles, old(animations), animations0, animations);
        GrownKeys(old(animations), animations0);
        GrownKeys(animations0, animations);
        i := i + 1;
      }
      assert s.tiles[..i] == s.tiles;
    }

    method SpawnPhase(s: Snapshot)
      requires Base() && RunsKnown() && Settled() && s == shown
      requires WellFormed(s) ==> ReadyToPop(tiles, s, Faithful())
      modifies `tiles, `board, `nextEl, `animations, `nextAnim, `activeAnimations, `runs
      ensures Valid() && SameElements(old(tiles), tiles) && old(tiles).Keys <= tiles.Keys
      ensures forall run :: run in runs ==> run in old(runs) || Left(run.phase) < Left(Pop)
      ensures Looks(tiles) == Spawned(Looks(old(tiles)), s.tiles)
      ensures runs != old(runs) <==> tiles.Keys != old(tiles).Keys
      ensures Current() == old(Current()).SpawnPhase(s)
    {
      hide Mirror, Clock, Slid, Shown, WellFormed, GhostIds, Scene.SpawnTiles;
      if WellFormed(s) {
        LastPhase(Looks(tiles), s, Faithful());
      }
      var spawnAnims := SpawnTiles(s);
      if spawnAnims != {} {
        Suspend(Spawn, s, spawnAnims);
      }
    }

    // ---------- The steps ----------

    /** Takes on a snapshot: whatever is under way is cancelled and superseded. */
    method Apply(s: Snapshot)
      requires Valid()
      modifies `tiles, `board, `nextEl, `animations, `nextAnim, `activeAnimations, `applyToken, `runs, `shown, `found
      ensures Valid() && Current() == old(Current()).Apply(s)
      ensures shown == s && found == Looks(old(tiles)) && applyToken == old(applyToken) + 1
      ensures forall t :: t in s.tiles && t.id in old(tiles) ==> t.id in tiles && tiles[t.id].el == old(tiles)[t.id].el
    {
      hide Mirror, Slid, Shown, WellFormed, Leaving, SpawnsAreNew, Kept, Ghosted, Placed;
      hide Scene.Cancel, Scene.Drop, Scene.SlideGhosts, Scene.PlaceTiles, Scene.PopPhase;
      CancelActive();
      applyToken := applyToken + 1;
      found := Looks(tiles);
      shown := s;
      var waits := SlidePhase(s);
      if waits != {} {
        Suspend(Slide, s, waits);
      } else {
        if WellFormed(s) {
          SlideDone(tiles, animations, waits, s, Faithful());
        }
        PopPhase(s);
      }
    }

    /** An animation runs out; that of a ghost takes the ghost's tile with it, unless the tile has been
        remounted since. */
    method Finish(a: nat)
      requires Valid() && a in animations && animations[a].state.Running?
      modifies `tiles, `board, `animations
      ensures Valid() && Current() == old(Current()).Finish(a)
    {
      hide Mirror, Slid, Shown, WellFormed, Leaving, Looks, GhostIds, Stage;
      var anim := animations[a];
      assert anim.leaving.Some? ==> anim.leaving.value.0 in GhostIds(shown);
      animations := animations[a := anim.(state := Finished)];
      if anim.leaving.Some? {
        var (id, el) := anim.leaving.value;
        if id in tiles && tiles[id].el == el {
          Remove(id);
        }
      }
      forall run: Run | Stage(run, old(tiles), old(animations), shown, Faithful())
        ensures Stage(run, tiles, animations, shown, Faithful())
      {
        StageAfterFinish(run, old(tiles), tiles, old(animations), a, shown, Faithful());
      }
      if WellFormed(shown) && Shown(Looks(old(tiles)), shown, Faithful()) {
        ShownAfterFinish(old(tiles), tiles, shown, Faithful());
      }
    }

    /** A suspended apply whose animations have all settled goes on, unless it was superseded. */
    method Resume(i: nat)
      requires Valid() && i < |runs| && forall a :: a in runs[i].waits ==> !animations[a].state.Running?
      modifies `tiles, `board, `nextEl, `animations, `nextAnim, `activeAnimations, `runs
      ensures Valid() && SameElements(old(tiles), tiles) && old(tiles).Keys <= tiles.Keys
      ensures old(runs)[i].token != applyToken ==>
                tiles == old(tiles) && board == old(board) && runs == old(runs)[..i] + old(runs)[i + 1..]
      ensures old(runs)[i].token == applyToken ==>
                forall run :: run in runs && run.token == applyToken ==> Left(run.phase) < Left(old(runs)[i].phase)
      ensures Current() == old(Current()).Resume(i)
    {
      hide Mirror, Stage, Shown, WellFormed, Looks, Clock, Scene.PopPhase, Scene.SpawnPhase, SameElements;
      NothingMoved(tiles);
      var run := runs[i];
      RunRemoved(runs, i);
      hide OwnTokens;
      runs := runs[..i] + runs[i + 1..];
      if run.token == applyToken {
        GoOn(run);
      }
    }

    method GoOn(run: Run)
      requires Base() && RunsKnown() && Settled() && Stage(run, tiles, animations, shown, Faithful())
      requires forall a :: a in run.waits && a in animations ==> !animations[a].state.Running?
      modifies `tiles, `board, `nextEl, `animations, `nextAnim, `activeAnimations, `runs
      ensures Valid() && SameElements(old(tiles), tiles) && old(tiles).Keys <= tiles.Keys
      ensures forall r :: r in runs ==> r in old(runs) || Left(r.phase) < Left(run.phase)
      ensures Current() == match run.phase
                           case Slide => old(Current()).PopPhase(run.snapshot)
                           case Pop => old(Current()).SpawnPhase(run.snapshot)
                           case Spawn => old(Current())
    {
      hide Mirror, Slid, Shown, WellFormed, Leaving, Looks, GhostIds, Clock, Scene.PopPhase, Scene.SpawnPhase, ReadyToPop;
      match run.phase
      case Slide =>
        if WellFormed(shown) {
          SlideDone(tiles, animations, run.waits, shown, Faithful());
        }
        PopPhase(run.snapshot);
      case Pop =>
        SpawnPhase(run.snapshot);
      case Spawn =>
    }

    /** Lets the newest apply run out: its animations finish and it goes on, phase by phase. */
    method Settle()
      requires Valid()
      modifies `tiles, `board, `nextEl, `animations, `nextAnim, `activeAnimations, `runs
      ensures Valid() && Settled()
    {
      hide Valid;
      ghost var left := 4;
      while true
        invariant Valid() && (forall run :: run in runs && run.token == applyToken ==> Left(run.phase) < left)
        decreases left
      {
        var found, i := FindCurrent();
        if !found {
          return;
        }
        left := Left(runs[i].phase);
        FinishAll(runs[i].waits);
        WaitsAreKnown(runs[i]);
        Resume(i);
      }
    }

    method FindCurrent() returns (found: bool, i: nat)
      ensures found ==> i < |runs| && runs[i].token == applyToken
      ensures !found ==> Settled()
    {
      i, found := 0, false;
      while i < |runs|
        invariant i <= |runs| && forall j :: 0 <= j < i ==> runs[j].token != applyToken
      {
        if runs[i].token == applyToken {
          found := true;
          return;
        }
        i := i + 1;
      }
    }

    method FinishAll(waits: set<nat>)
      requires Valid()
      modifies `tiles, `board, `animations
      ensures Valid() && forall a :: a in waits && a in animations ==> !animations[a].state.Running?
    {
      hide Valid;
      var rest := waits;
      while rest != {}
        invariant Valid() && rest <= waits
        invariant forall a :: a in waits - rest && a in animations ==> !animations[a].state.Running?
        decreases |rest|
      {
        var a :| a in rest;
        rest := rest - {a};
        if a in animations && animations[a].state.Running? {
          Finish(a);
        }
      }
    }

    lemma WaitsAreKnown(run: Run)
      requires Valid() && run in runs
      ensures run.waits <= animations.Keys
    {
    }

    /** The `state` attribute changed: a value that was already applied, or that does not parse, is
        passed over. */
    method AttributeChanged(oldVal: Option<string>, newVal: Option<string>)
      requires Valid()
      modifies this
      ensures Valid()
      ensures Current() == old(Current()).Do(Changed(oldVal, newVal), parse)
      ensures if !Applies(old(lastAppliedJson), Changed(oldVal, newVal), parse)
              then Current() == old(Current()) && board == old(board)
              else shown == parse(newVal.value).value && lastAppliedJson == newVal && applyToken == old(applyToken) + 1
                   && found == Looks(old(tiles))
    {
      hide WellFormed, Looks, SpawnsAreNew, Shown, Stage, Mirror, Clock, Scene.Apply;
      if newVal.None? || oldVal == newVal || newVal == lastAppliedJson {
        return;
      }
      var parsed := parse(newVal.value);
      if parsed.None? {
        return;
      }
      lastAppliedJson := newVal;
      Apply(parsed.value);
    }

    // ---------- Runs ----------

    /** The snapshot taken on last is that of the last applied attribute. */
    ghost predicate UpToDate()
      reads this
    {
      && Valid()
      && (if lastAppliedJson.None? then applyToken == 0 && tiles == map[] && runs == []
          else applyToken > 0 && parse(lastAppliedJson.value) == Some(shown))
    }

    /** One step, if it can be taken: an animation finishes only while it runs, and an apply goes on
        only when all it waits for has settled. */
    method Do(step: Step)
      requires UpToDate()
      modifies this
      ensures UpToDate() && Current() == old(Current()).Do(step, parse)
    {
      hide Base, RunsKnown, Stage, Shown, WellFormed, Looks, SpawnsAreNew, GhostIds, Scene.Apply, Scene.PopPhase, Scene.SpawnPhase;
      match step {
        case Changed(oldVal, newVal) => AttributeChanged(oldVal, newVal);
        case Finish(a) =>
          if a in animations && animations[a].state.Running? {
            Finish(a);
          }
        case Resume(i) =>
          if i < |runs| {
            WaitsAreKnown(runs[i]);
            if forall a :: a in runs[i].waits ==> !animations[a].state.Running? {
              Resume(i);
            } else {
              Blocked(i);
            }
          }
      }
    }

    lemma Blocked(i: nat)
      requires i < |runs| && exists a :: a in runs[i].waits && a in animations && animations[a].state.Running?
      ensures Current().Resume(i) == Current()
    {
    }

    /** Any interleaving of attribute changes, animations that finish and applies that go on, after
        which the newest apply is let run out: the board shows the snapshot of the last attribute that
        was applied, at its cells and values exactly when no tile mounted at that moment was flagged as
        spawned at another cell or value. From an empty board that is so whenever the snapshot's spawned
        tiles have ids that no earlier applied snapshot uses. */
    method Interleave(steps: seq<Step>)
      requires UpToDate()
      modifies this
      ensures UpToDate() && lastAppliedJson == LastApplied(old(lastAppliedJson), steps, parse)
      ensures var end := After(old(Current()), steps, parse);
              lastAppliedJson == end.last && shown == end.shown && found == end.found
      ensures lastAppliedJson.None? ==> board == map[]
      ensures lastAppliedJson.Some? ==>
                && parse(lastAppliedJson.value) == Some(shown)
                && (WellFormed(shown) ==> Shows(tiles, board, shown, SpawnsAreNew(found, shown)))
      ensures old(Current()) == START && lastAppliedJson.Some? && WellFormed(shown) && SpawnsFresh(None, steps, parse) ==>
                forall t :: t in shown.tiles ==> t.id in tiles && tiles[t.id].el in board && board[tiles[t.id].el] == t.look
    {
      hide UpToDate, Applies, Valid, WellFormed, Shows, SpawnsAreNew, SpawnsFresh, Scene.Do;
      var i := 0;
      while i < |steps|
        invariant 0 <= i <= |steps| && UpToDate()
        invariant Current() == After(old(Current()), steps[..i], parse)
      {
        Do(steps[i]);
        assert steps[..i + 1][..i] == steps[..i];
        i := i + 1;
      }
      assert steps[..i] == steps;
      LastIsApplied(old(Current()), steps, parse);
      if old(Current()) == START && SpawnsFresh(None, steps, parse) && lastAppliedJson.Some? {
        FreshSpawnsAreNew(steps, parse);
      }
      SettleAll();
      if WellFormed(shown) && lastAppliedJson.Some? {
        if SpawnsAreNew(found, shown) {
          ShowsAll(tiles, board, shown, true);
        }
      }
    }

    method SettleAll()
      requires UpToDate()
      modifies `tiles, `board, `nextEl, `animations, `nextAnim, `activeAnimations, `runs
      ensures UpToDate()
      ensures if lastAppliedJson.None? then board == map[]
              else parse(lastAppliedJson.value) == Some(shown) && (WellFormed(shown) ==> Shows(tiles, board, shown, SpawnsAreNew(found, shown)))
    {
      hide Valid, WellFormed, Shows, Settled, SpawnsAreNew;
      if lastAppliedJson.None? {
        NothingShown();
        return;
      }
      Settle();
      if WellFormed(shown) {
        SettledShowsSnapshot(this);
      }
    }

    lemma NothingShown()
      requires Valid() && tiles == map[]
      ensures board == map[]
    {
      assert forall e :: e !in board;
    }
  }

  // ---------- What the steps alone say ----------

  /** The attribute applied last. */
  ghost function LastApplied(last: Option<string>, steps: seq<Step>, parse: string -> Option<Snapshot>): Option<string> {
    if steps == [] then last
    else
      var before, step := LastApplied(last, steps[..|steps| - 1], parse), steps[|steps| - 1];
      if Applies(before, step, parse) then step.newVal else before
  }

  /** The ids of the tiles of all applied snapshots. */
  ghost function UsedIds(last: Option<string>, steps: seq<Step>, parse: string -> Option<Snapshot>): set<Id> {
    if steps == [] then {}
    else
      var front, step := steps[..|steps| - 1], steps[|steps| - 1];
      UsedIds(last, front, parse)
      + if Applies(LastApplied(last, front, parse), step, parse) then TileIds(parse(step.newVal.value).value) else {}
  }

  /** The spawned tiles of the last applied snapshot have ids that no earlier applied one uses. */
  ghost predicate SpawnsFresh(last: Option<string>, steps: seq<Step>, parse: string -> Option<Snapshot>) {
    if steps == [] then true
    else
      var front, step := steps[..|steps| - 1], steps[|steps| - 1];
      if Applies(LastApplied(last, front, parse), step, parse)
      then forall t :: t in parse(step.newVal.value).value.tiles && t.spawned ==> t.id !in UsedIds(last, front, parse)
      else SpawnsFresh(last, front, parse)
  }

  /** Step `k` was the last that applied a snapshot. */
  ghost predicate AppliedLast(start: Scene, steps: seq<Step>, k: nat, parse: string -> Option<Snapshot>) {
    && k < |steps| && Applies(After(start, steps[..k], parse).last, steps[k], parse)
    && forall m :: k < m < |steps| ==> !Applies(After(start, steps[..m], parse).last, steps[m], parse)
  }

  /** On the way from `v` to `w` only tiles of `s` were mounted and only applies of `s` suspended. */
  ghost predicate Moves(v: Scene, w: Scene, s: Snapshot) {
    && w.last == v.last && w.shown == v.shown && w.found == v.found
    && w.tiles.Keys <= v.tiles.Keys + TileIds(s)
    && forall run :: run in w.runs ==> run in v.runs || run.snapshot == s
  }

  lemma MovesOn(u: Scene, v: Scene, w: Scene, s: Snapshot)
    requires Moves(u, v, s) && Moves(v, w, s)
    ensures Moves(u, w, s)
  {
  }

  lemma {:induction false} GhostsMove(v: Scene, ghosts: seq<GhostState>, s: Snapshot)
    ensures Moves(v, v.SlideGhosts(ghosts), s)
  {
    hide TileIds;
    if ghosts != [] {
      GhostsMove(v, ghosts[..|ghosts| - 1], s);
    }
  }

  lemma {:induction false} TilesMove(v: Scene, ts: seq<TileState>, s: Snapshot)
    requires forall t :: t in ts ==> t in s.tiles
    ensures Moves(v, v.PlaceTiles(ts), s) && Moves(v, v.PopTiles(ts), s) && Moves(v, v.SpawnTiles(ts), s)
  {
    if ts != [] {
      var front, t := ts[..|ts| - 1], ts[|ts| - 1];
      TilesMove(v, front, s);
      assert t.id in TileIds(s);
      hide TileIds, Moves, Scene.PlaceTile, Scene.PopTile, Scene.SpawnTile;
      OneMoves(v.PlaceTiles(front), t, s);
      OneMoves(v.PopTiles(front), t, s);
      OneMoves(v.SpawnTiles(front), t, s);
      MovesOn(v, v.PlaceTiles(front), v.PlaceTiles(ts), s);
      MovesOn(v, v.PopTiles(front), v.PopTiles(ts), s);
      MovesOn(v, v.SpawnTiles(front), v.SpawnTiles(ts), s);
    }
  }

  lemma OneMoves(v: Scene, t: TileState, s: Snapshot)
    requires t.id in TileIds(s)
    ensures Moves(v, v.PlaceTile(t), s) && Moves(v, v.PopTile(t), s) && Moves(v, v.SpawnTile(t), s)
  {
    hide TileIds;
  }

  lemma AwaitMoves(u: Scene, v: Scene, before: Scene, phase: Phase, s: Snapshot, next: Scene)
    requires Moves(u, v, s) && Moves(u, next, s)
    ensures Moves(u, v.Await(before, phase, s, next), s)
  {
    hide TileIds;
  }

  lemma PhasesMove(v: Scene, s: Snapshot)
    ensures Moves(v, v.PopPhase(s), s) && Moves(v, v.SpawnPhase(s), s)
  {
    hide Moves, Scene.PopTiles, Scene.SpawnTiles, Scene.Await;
    var popped := v.PopTiles(s.tiles);
    TilesMove(v, s.tiles, s);
    TilesMove(popped, s.tiles, s);
    AwaitMoves(v, v.SpawnTiles(s.tiles), v, Spawn, s, v.SpawnTiles(s.tiles));
    AwaitMoves(popped, popped.SpawnTiles(s.tiles), popped, Spawn, s, popped.SpawnTiles(s.tiles));
    MovesOn(v, popped, popped.SpawnPhase(s), s);
    AwaitMoves(v, popped, v, Pop, s, popped.SpawnPhase(s));
  }

  lemma ApplyMoves(v: Scene, s: Snapshot)
    ensures Moves(v.(shown := s, found := Looks(v.tiles)), v.Apply(s), s)
  {
    hide Moves, Scene.SlideGhosts, Scene.PlaceTiles, Scene.Await, Scene.PopPhase, Scene.Cancel, Scene.Drop, Looks;
    var from := v.(shown := s, found := Looks(v.tiles));
    var start := v.Cancel().(token := v.token + 1, shown := s, found := Looks(v.tiles));
    var dropped := start.Drop(s);
    var slid := dropped.SlideGhosts(s.ghosts);
    var placed := slid.PlaceTiles(s.tiles);
    DropMoves(v, s);
    GhostsMove(dropped, s.ghosts, s);
    TilesMove(slid, s.tiles, s);
    PhasesMove(placed, s);
    MovesOn(from, dropped, slid, s);
    MovesOn(from, slid, placed, s);
    MovesOn(from, placed, placed.PopPhase(s), s);
    AwaitMoves(from, placed, start, Slide, s, placed.PopPhase(s));
  }

  lemma DropMoves(v: Scene, s: Snapshot)
    ensures var looks := Looks(v.tiles);
            Moves(v.(shown := s, found := looks), v.Cancel().(token := v.token + 1, shown := s, found := looks).Drop(s), s)
  {
    hide Looks, TileIds, GhostIds;
  }

  /** A resumed apply moves on; nothing else happens unless it is the newest. */
  lemma ResumeMoves(v: Scene, i: nat)
    ensures v.Resume(i) == v || (i < |v.runs| && Moves(v, v.Resume(i), v.runs[i].snapshot))
  {
    hide Moves, Scene.PopPhase, Scene.SpawnPhase;
    if i < |v.runs| {
      var run, rest := v.runs[i], v.(runs := v.runs[..i] + v.runs[i + 1..]);
      PhasesMove(rest, run.snapshot);
      FewerRuns(v, rest, run.snapshot);
      MovesOn(v, rest, rest.PopPhase(run.snapshot), run.snapshot);
      MovesOn(v, rest, rest.SpawnPhase(run.snapshot), run.snapshot);
    }
  }

  lemma FewerRuns(v: Scene, rest: Scene, s: Snapshot)
    requires rest == v.(runs := rest.runs) && forall run :: run in rest.runs ==> run in v.runs
    ensures Moves(v, rest, s)
  {
    hide TileIds;
  }

  lemma OnlyChangesApply(v: Scene, step: Step, parse: string -> Option<Snapshot>)
    ensures var w := v.Do(step, parse);
            if Applies(v.last, step, parse)
            then w.last == step.newVal && w.shown == parse(step.newVal.value).value && w.found == Looks(v.tiles)
            else w.last == v.last && w.shown == v.shown && w.found == v.found
  {
    hide Scene.Apply, Scene.Resume, Looks, AfterFinish;
    if Applies(v.last, step, parse) {
      ApplyMoves(v.(last := step.newVal), parse(step.newVal.value).value);
    } else if step.Resume? {
      ResumeMoves(v, step.i);
    }
  }

  lemma {:induction false} LastIsApplied(start: Scene, steps: seq<Step>, parse: string -> Option<Snapshot>)
    ensures After(start, steps, parse).last == LastApplied(start.last, steps, parse)
  {
    hide Scene.Do, Applies;
    if steps != [] {
      var n := |steps| - 1;
      LastIsApplied(start, steps[..n], parse);
      OnlyChangesApply(After(start, steps[..n], parse), steps[n], parse);
    }
  }

  /** What the newest apply found is what was mounted when the last attribute was applied. */
  lemma {:induction false} FoundAtLastApply(start: Scene, steps: seq<Step>, k: nat, parse: string -> Option<Snapshot>)
    requires AppliedLast(start, steps, k, parse)
    ensures var end := After(start, steps, parse);
            && parse(steps[k].newVal.value) == Some(end.shown)
            && end.found == Looks(After(start, steps[..k], parse).tiles)
  {
    hide Scene.Do, Looks;
    var n := |steps| - 1;
    OnlyChangesApply(After(start, steps[..n], parse), steps[n], parse);
    if k < n {
      forall m | 0 <= m <= n
        ensures steps[..n][..m] == steps[..m]
      {
      }
      FoundAtLastApply(start, steps[..n], k, parse);
    }
  }

  // ---------- Spawned tiles with fresh ids ----------

  /** Whatever is mounted, and whatever a suspended apply may mount, has an id in the set. */
  ghost predicate Within(v: Scene, ids: set<Id>) {
    v.tiles.Keys <= ids && forall run :: run in v.runs ==> TileIds(run.snapshot) <= ids
  }

  lemma {:induction false} FreshSpawnsAreNew(steps: seq<Step>, parse: string -> Option<Snapshot>)
    requires SpawnsFresh(None, steps, parse) && After(START, steps, parse).last.Some?
    ensures var end := After(START, steps, parse); SpawnsAreNew(end.found, end.shown)
  {
    hide Scene.Do, Applies, Within, UsedIds;
    if steps != [] {
      var n := |steps| - 1;
      var v := After(START, steps[..n], parse);
      OnlyChangesApply(v, steps[n], parse);
      LastIsApplied(START, steps[..n], parse);
      if Applies(v.last, steps[n], parse) {
        StaysWithin(steps[..n], parse);
        MountedWithin(v, UsedIds(None, steps[..n], parse));
      } else {
        FreshSpawnsAreNew(steps[..n], parse);
      }
    }
  }

  lemma MountedWithin(v: Scene, ids: set<Id>)
    requires Within(v, ids)
    ensures forall id :: id in Looks(v.tiles) ==> id in ids
  {
  }

  lemma {:induction false} StaysWithin(steps: seq<Step>, parse: string -> Option<Snapshot>)
    ensures Within(After(START, steps, parse), UsedIds(None, steps, parse))
  {
    hide Scene.Do, Applies, TileIds;
    if steps != [] {
      var n := |steps| - 1;
      var v, ids := After(START, steps[..n], parse), UsedIds(None, steps[..n], parse);
      StaysWithin(steps[..n], parse);
      LastIsApplied(START, steps[..n], parse);
      StepWithin(v, ids, steps[n], parse);
      hide After, UsedIds, Within;
    }
  }

  lemma StepWithin(v: Scene, ids: set<Id>, step: Step, parse: string -> Option<Snapshot>)
    requires Within(v, ids)
    ensures Within(v.Do(step, parse), ids + if Applies(v.last, step, parse) then TileIds(parse(step.newVal.value).value) else {})
  {
    hide Scene.Apply, Scene.Resume, Looks, TileIds;
    if Applies(v.last, step, parse) {
      ApplyMoves(v.(last := step.newVal), parse(step.newVal.value).value);
    } else if step.Resume? {
      ResumeMoves(v, step.i);
    }
  }

  // ---------- A tile flagged as spawned although it is mounted ----------

  /** One tile at a cell, and the same one flagged as spawned at the next. */
  function TwoStates(json: string): Option<Snapshot> {
    if json == "1" then Some(Snapshot([TileState("x", Look(0, 0, 2), false, false)], []))
    else if json == "2" then Some(Snapshot([TileState("x", Look(0, 1, 2), true, false)], []))
    else None
  }

  lemma FirstTile(v: Scene, t: TileState)
    requires v.tiles == map[] && !t.spawned && !t.merged
    ensures v.Apply(Snapshot([t], [])).tiles == map[t.id := Entry(v.nextEl, t.look)]
  {
    var s := Snapshot([t], []);
    var start := v.Cancel().(token := v.token + 1, shown := s, found := Looks(v.tiles));
    var dropped := start.Drop(s);
    assert dropped.tiles == map[];
    hide Looks, Scene.Drop, Scene.Cancel;
    OneTile(dropped, t);
    var slid := dropped.Mount(t.id, t.look);
    OneTile(slid, t);
    assert slid.PopPhase(s) == slid;
  }

  lemma OneTile(v: Scene, t: TileState)
    ensures v.SlideGhosts([]) == v && v.PlaceTiles([t]) == v.PlaceTile(t)
    ensures v.PopTiles([t]) == v.PopTile(t) && v.SpawnTiles([t]) == v.SpawnTile(t)
  {
    assert [t][..0] == [];
    assert v.PlaceTiles([]) == v && v.PopTiles([]) == v && v.SpawnTiles([]) == v;
  }

  /** The tile is not spawned again and stays where it was, so the board does not show the snapshot. */
  lemma ReflaggedSpawn()
    ensures var steps := [Changed(None, Some("1")), Changed(Some("1"), Some("2"))];
            var end := After(START, steps, TwoStates);
            && TwoStates("2") == Some(end.shown) && end.last == Some("2") && WellFormed(end.shown)
            && end.found == map["x" := Look(0, 0, 2)] && !SpawnsAreNew(end.found, end.shown)
            && !SpawnsFresh(None, steps, TwoStates)
  {
    hide Scene.Apply, TileIds, SpawnsFresh;
    var c, d := Changed(None, Some("1")), Changed(Some("1"), Some("2"));
    var steps := [c, d];
    var one, two := TwoStates("1").value, TwoStates("2").value;
    FirstTile(START.(last := Some("1")), one.tiles[0]);
    assert steps[..1] == [c] && [c][..0] == [];
    assert After(START, [], TwoStates) == START;
    var v := After(START, [c], TwoStates);
    assert v == START.(last := Some("1")).Apply(one);
    OnlyChangesApply(START, c, TwoStates);
    OnlyChangesApply(v, d, TwoStates);
    assert After(START, steps, TwoStates) == v.Do(d, TwoStates);
    hide Scene.Do, After;
    assert two.tiles[0] in two.tiles;
    if SpawnsFresh(None, steps, TwoStates) {
      FreshSpawnsAreNew(steps, TwoStates);
    }
    assert TileIds(two) !! GhostIds(two);
  }

  /** Phases still ahead. */
  ghost function Left(p: Phase): nat {
    match p
    case Slide => 3
    case Pop => 2
    case Spawn => 1
  }

  /** An element for every tile of the snapshot and no other, each with the tile's cell and value if the
      board is faithful, and only then. */
  ghost predicate Shows(tiles: map<Id, Entry>, board: map<nat, Look>, s: Snapshot, faithful: bool) {
    && |board| == |s.tiles| && tiles.Keys == TileIds(s)
    && (forall t :: t in s.tiles ==> t.id in tiles && tiles[t.id].el in board)
    && (forall i, j :: 0 <= i < j < |s.tiles| ==> tiles[s.tiles[i].id].el != tiles[s.tiles[j].id].el)
    && (faithful <==> forall t :: t in s.tiles ==> board[tiles[t.id].el] == t.look)
  }

  /** Once the newest apply has settled, the board shows its snapshot; faithfully exactly when no mounted
      tile was flagged as spawned at another cell or value. */
  lemma SettledShowsSnapshot(b: Board)
    requires b.Valid() && b.Settled() && b.applyToken > 0 && WellFormed(b.shown)
    ensures Shows(b.tiles, b.board, b.shown, SpawnsAreNew(b.found, b.shown))
  {
    hide Clock, Stage, Mirror, Shown, WellFormed, Shows, SpawnsAreNew;
    MirrorShows(b.tiles, b.board, b.nextEl, b.shown, SpawnsAreNew(b.found, b.shown));
  }

  lemma MirrorShows(tiles: map<Id, Entry>, board: map<nat, Look>, nextEl: nat, s: Snapshot, faithful: bool)
    requires Mirror(tiles, board, nextEl) && WellFormed(s) && Shown(Looks(tiles), s, faithful)
    ensures Shows(tiles, board, s, faithful)
  {
    hide Mirror, WellFormed, Shown, Looks, TileIds;
    CountElements(tiles, board, nextEl);
    CountShown(s);
    assert |tiles| == |tiles.Keys|;
    ShownMounted(tiles, s, faithful);
    TilesAreValid(s);
    OwnElements(tiles, board, nextEl, s);
  }

  lemma ShowsAll(tiles: map<Id, Entry>, board: map<nat, Look>, s: Snapshot, faithful: bool)
    requires Shows(tiles, board, s, faithful) && faithful
    ensures forall t :: t in s.tiles ==> t.id in tiles && tiles[t.id].el in board && board[tiles[t.id].el] == t.look
  {
  }

  lemma CountShown(s: Snapshot)
    requires WellFormed(s)
    ensures |TileIds(s)| == |s.tiles|
  {
    CountTiles(s.tiles);
    assert (set t | t in s.tiles :: t.id) == TileIds(s);
  }

  lemma OwnElements(tiles: map<Id, Entry>, board: map<nat, Look>, nextEl: nat, s: Snapshot)
    requires Mirror(tiles, board, nextEl) && WellFormed(s) && tiles.Keys == TileIds(s)
    ensures forall t :: t in s.tiles ==> t.id in tiles && tiles[t.id].el in board && board[tiles[t.id].el] == tiles[t.id].look
    ensures forall i, j :: 0 <= i < j < |s.tiles| ==> tiles[s.tiles[i].id].el != tiles[s.tiles[j].id].el
  {
    TilesAreValid(s);
    hide TileIds, GhostIds;
    forall i, j | 0 <= i < j < |s.tiles|
      ensures tiles[s.tiles[i].id].el != tiles[s.tiles[j].id].el
    {
      assert s.tiles[i] in s.tiles && s.tiles[j] in s.tiles;
    }
  }

  lemma ShownMounted(tiles: map<Id, Entry>, s: Snapshot, faithful: bool)
    requires Shown(Looks(tiles), s, faithful)
    ensures tiles.Keys == TileIds(s)
    ensures faithful <==> forall t :: t in s.tiles ==> t.id in tiles && tiles[t.id].look == t.look
  {
    assert Looks(tiles).Keys == tiles.Keys;
    assert forall id :: id in tiles ==> Looks(tiles)[id] == tiles[id].look;
    hide TileIds;
  }

  lemma OneLess<K, V>(m: map<K, V>, k: K)
    requires k in m
    ensures |m - {k}| == |m| - 1
  {
    assert (m - {k}).Keys == m.Keys - {k};
  }

  lemma {:induction false} CountElements(tiles: map<Id, Entry>, board: map<nat, Look>, nextEl: nat)
    requires Mirror(tiles, board, nextEl)
    ensures |board| == |tiles|
    decreases |tiles|
  {
    if tiles == map[] {
      assert forall e :: e !in board;
      assert board == map[];
    } else {
      var id :| id in tiles;
      var el := tiles[id].el;
      Removed(tiles, board, nextEl, id);
      hide Mirror, Looks;
      OneLess(tiles, id);
      OneLess(board, el);
      CountElements(tiles - {id}, board - {el}, nextEl);
    }
  }

  lemma {:induction false} CountTiles(tiles: seq<TileState>)
    requires forall i, j :: 0 <= i < j < |tiles| ==> tiles[i].id != tiles[j].id
    ensures |set t | t in tiles :: t.id| == |tiles|
  {
    if tiles == [] {
      assert (set t | t in tiles :: t.id) == {};
    } else {
      var front, last := tiles[..|tiles| - 1], tiles[|tiles| - 1];
      CountTiles(front);
      assert tiles == front + [last];
      assert (set t | t in tiles :: t.id) == (set t | t in front :: t.id) + {last.id};
    }
  }

  lemma ShownAfterFinish(tiles: map<Id, Entry>, tiles': map<Id, Entry>, s: Snapshot, faithful: bool)
    requires WellFormed(s) && Shown(Looks(tiles), s, faithful)
    requires tiles' == tiles || exists id :: id in GhostIds(s) && tiles' == tiles - {id}
    ensures tiles' == tiles
  {
    assert Looks(tiles).Keys == tiles.Keys;
  }

  lemma SlidAfterFinish(tiles: map<Id, Entry>, id: Id, s: Snapshot, faithful: bool)
    requires WellFormed(s) && Slid(Looks(tiles), s, faithful) && id in GhostIds(s)
    ensures Slid(Looks(tiles - {id}), s, faithful)
  {
    TilesAreValid(s);
    assert forall t :: t in s.tiles ==> t.id != id;
    assert Looks(tiles - {id}) == Looks(tiles) - {id};
  }

  lemma StageAfterFinish(run: Run, tiles: map<Id, Entry>, tiles': map<Id, Entry>, animations: map<nat, Anim>, a: nat,
                         s: Snapshot, faithful: bool)
    requires Stage(run, tiles, animations, s, faithful) && a in animations && animations[a].state.Running?
    requires tiles' == AfterFinish(tiles, animations[a])
    requires animations[a].leaving.Some? ==> animations[a].leaving.value.0 in GhostIds(s)
    ensures Stage(run, tiles', animations[a := animations[a].(state := Finished)], s, faithful)
  {
    if !WellFormed(s) {
      return;
    }
    hide WellFormed;
    if run.phase.Slide? {
      LeavingAfterFinish(run, tiles, tiles', animations, a, s);
    }
    if tiles' != tiles {
      var id := animations[a].leaving.value.0;
      if run.phase.Spawn? {
        ShownAfterFinish(tiles, tiles', s, faithful);
      } else {
        SlidAfterFinish(tiles, id, s, faithful);
      }
    }
  }

  lemma LeavingAfterFinish(run: Run, tiles: map<Id, Entry>, tiles': map<Id, Entry>, animations: map<nat, Anim>, a: nat, s: Snapshot)
    requires Leaving(tiles, animations, run.waits, s.ghosts) && a in animations && animations[a].state.Running?
    requires tiles' == AfterFinish(tiles, animations[a])
    ensures Leaving(tiles', animations[a := animations[a].(state := Finished)], run.waits, s.ghosts)
  {
    var animations' := animations[a := animations[a].(state := Finished)];
    forall g | g in s.ghosts && g.id in tiles'
      ensures HasAnim(animations', run.waits, (g.id, tiles'[g.id].el))
    {
      var b :| b in run.waits && b in animations && animations[b].state.Running? && animations[b].leaving == Some((g.id, tiles[g.id].el));
      assert animations'[b] == animations[b];
    }
  }

  lemma SlideDone(tiles: map<Id, Entry>, animations: map<nat, Anim>, waits: set<nat>, s: Snapshot, faithful: bool)
    requires Slid(Looks(tiles), s, faithful) && Leaving(tiles, animations, waits, s.ghosts)
    requires forall a :: a in waits && a in animations ==> !animations[a].state.Running?
    ensures ReadyToPop(tiles, s, faithful)
  {
    NoneLeft(tiles, animations, waits, s);
  }

  lemma NoneLeft(tiles: map<Id, Entry>, animations: map<nat, Anim>, waits: set<nat>, s: Snapshot)
    requires Leaving(tiles, animations, waits, s.ghosts)
    requires forall a :: a in waits && a in animations ==> !animations[a].state.Running?
    ensures tiles.Keys !! GhostIds(s)
  {
    forall id | id in tiles.Keys
      ensures id !in GhostIds(s)
    {
      assert !HasAnim(animations, waits, (id, tiles[id].el));
    }
  }

  lemma NoneLeaving(tiles: map<Id, Entry>, animations: map<nat, Anim>)
    ensures forall ghosts | ghosts == [] :: Leaving(tiles, animations, {}, ghosts)
  {
  }

  lemma TilesAreValid(s: Snapshot)
    ensures forall t :: t in s.tiles ==> t.id in TileIds(s)
  {
  }

  lemma GhostKnown(s: Snapshot, i: nat)
    requires i < |s.ghosts|
    ensures s.ghosts[i].id in GhostIds(s)
  {
  }

  lemma TileIsNoGhost(s: Snapshot, t: TileState)
    requires WellFormed(s) && t in s.tiles
    ensures forall g :: g in s.ghosts ==> g.id != t.id
  {
    assert t.id in TileIds(s);
    assert forall g :: g in s.ghosts ==> g.id in GhostIds(s);
  }
}
