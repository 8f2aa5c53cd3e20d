/** What the newest apply of the board waits for in each of its phases, and that nothing is mounted meanwhile. */
module Phases {
  import opened Options
  import opened GameBoard

  /** Numbers ahead are unused, and every mounted tile has an element of its own. */
  ghost predicate Numbered(v: Scene) {
    && (forall a :: a in v.animations ==> a < v.nextAnim)
    && (forall id :: id in v.tiles ==> v.tiles[id].el < v.nextEl)
    && OwnElements(v.tiles)
  }

  ghost predicate OwnElements(tiles: map<Id, Entry>) {
    forall id, id' :: id in tiles && id' in tiles && tiles[id].el == tiles[id'].el ==> id == id'
  }

  ghost function News(v: Scene, w: Scene): set<nat> {
    w.animations.Keys - v.animations.Keys
  }

  /** The animations begun on the way from `v` to `w`. */
  ghost function Begun(v: Scene, w: Scene): set<Anim> {
    set a | a in News(v, w) :: w.animations[a]
  }

  /** No element was given two of them. */
  ghost predicate OneEach(v: Scene, w: Scene) {
    forall a, b :: a in News(v, w) && b in News(v, w) && w.animations[a].motion.el == w.animations[b].motion.el ==> a == b
  }

  /** Exactly these animations were begun, each once, and what was there before is as it was. */
  ghost predicate Begins(v: Scene, w: Scene, due: set<Anim>) {
    Begun(v, w) == due && OneEach(v, w) && Grown(v.animations, w.animations) && Numbered(w)
  }

  ghost function Departure(tiles: map<Id, Entry>, g: GhostState): Anim
    requires g.id in tiles
  {
    Anim(Running, Between(tiles[g.id].el, tiles[g.id].look, g.r, g.c), Some((g.id, tiles[g.id].el)))
  }

  /** Mounted ghosts leave for the cells of the tiles they were merged into. */
  ghost function Departing(tiles: map<Id, Entry>, ghosts: seq<GhostState>): set<Anim> {
    set g | g in ghosts && g.id in tiles :: Departure(tiles, g)
  }

  /** The tile is kept and was mounted at another cell. */
  ghost predicate Moved(tiles: map<Id, Entry>, t: TileState) {
    !t.spawned && t.id in tiles && !SameCell(tiles[t.id].look, t.look)
  }

  ghost function Move(tiles: map<Id, Entry>, t: TileState): Anim
    requires t.id in tiles
  {
    Anim(Running, Between(tiles[t.id].el, tiles[t.id].look, t.look.r, t.look.c), None)
  }

  ghost function Moving(tiles: map<Id, Entry>, ts: seq<TileState>): set<Anim> {
    set t | t in ts && Moved(tiles, t) :: Move(tiles, t)
  }

  ghost function Swelling(tiles: map<Id, Entry>, ts: seq<TileState>): set<Anim> {
    set t | t in ts && t.merged && t.id in tiles :: Anim(Running, Swell(tiles[t.id].el), None)
  }

  /** The tile is to be spawned. */
  ghost predicate Missing(tiles: map<Id, Entry>, t: TileState) {
    t.spawned && t.id !in tiles
  }

  /** Those of the tiles mounted since that grow in. */
  ghost function Growing(before: map<Id, Entry>, after: map<Id, Entry>, ts: seq<TileState>): set<Anim> {
    set t | t in ts && Missing(before, t) && t.id in after :: Anim(Running, Grow(after[t.id].el), None)
  }

  ghost predicate OwnIds(ts: seq<TileState>) {
    forall i, j :: 0 <= i < j < |ts| ==> ts[i].id != ts[j].id
  }

  ghost predicate OwnGhostIds(gs: seq<GhostState>) {
    forall i, j :: 0 <= i < j < |gs| ==> gs[i].id != gs[j].id
  }

  // ---------- Beginning animations ----------

  ghost predicate Apart(xs: set<Anim>, ys: set<Anim>) {
    forall x, y :: x in xs && y in ys ==> x.motion.el != y.motion.el
  }

  lemma NoneBegun(v: Scene, w: Scene)
    requires Numbered(v) && Numbered(w) && w.animations == v.animations
    ensures Begins(v, w, {})
  {
  }

  lemma BothBegun(u: Scene, v: Scene, w: Scene, xs: set<Anim>, ys: set<Anim>)
    requires Begins(u, v, xs) && Begins(v, w, ys) && Apart(xs, ys)
    ensures Begins(u, w, xs + ys)
  {
    hide Numbered;
    GrownKeys(u.animations, v.animations);
    GrownKeys(v.animations, w.animations);
    assert News(u, w) == News(u, v) + News(v, w);
    forall a | a in News(u, v)
      ensures w.animations[a] == v.animations[a] && w.animations[a] in xs
    {
      assert v.animations[a] in Begun(u, v);
    }
    forall a | a in News(v, w)
      ensures w.animations[a] in ys
    {
      assert w.animations[a] in Begun(v, w);
    }
    forall x | x in xs
      ensures x in Begun(u, w)
    {
      var a :| a in News(u, v) && v.animations[a] == x;
      assert a in News(u, w);
    }
    forall y | y in ys
      ensures y in Begun(u, w)
    {
      var a :| a in News(v, w) && w.animations[a] == y;
      assert a in News(u, w);
    }
  }

  /** An animation begun on a tile that has just been mounted or restyled. */
  lemma OneBegun(u: Scene, v: Scene, motion: Motion, leaving: Option<(Id, nat)>)
    requires Numbered(u) && Numbered(v) && v.animations == u.animations && v.nextAnim == u.nextAnim
    ensures Begins(u, v.Animate(motion, leaving), {Anim(Running, motion, leaving)})
  {
    var w := v.Animate(motion, leaving);
    assert News(u, w) == {u.nextAnim};
    assert Begun(u, w) == {w.animations[u.nextAnim]};
  }

  lemma Renumbered(v: Scene, id: Id, look: Look)
    requires Numbered(v)
    ensures id in v.tiles ==> Numbered(v.Restyle(id, look))
    ensures Numbered(v.Mount(id, look))
  {
  }

  // ---------- Slides ----------

  /** The same tiles on the same elements. */
  ghost predicate Carried(v: Scene, w: Scene) {
    && v.tiles.Keys <= w.tiles.Keys && SameElements(v.tiles, w.tiles)
    && w.runs == v.runs && w.token == v.token && v.nextEl <= w.nextEl
  }

  lemma CarriedOn(u: Scene, v: Scene, w: Scene)
    requires Carried(u, v) && Carried(v, w)
    ensures Carried(u, w)
  {
  }

  ghost function DepartingOne(tiles: map<Id, Entry>, g: GhostState): set<Anim> {
    if g.id in tiles then {Departure(tiles, g)} else {}
  }

  lemma OneMoreGhost(tiles: map<Id, Entry>, front: seq<GhostState>, g: GhostState)
    requires OwnElements(tiles) && forall h :: h in front ==> h.id != g.id
    ensures Departing(tiles, front + [g]) == Departing(tiles, front) + DepartingOne(tiles, g)
    ensures Apart(Departing(tiles, front), DepartingOne(tiles, g))
  {
  }

  lemma {:induction false} GhostsSlide(v: Scene, ghosts: seq<GhostState>)
    requires Numbered(v) && OwnGhostIds(ghosts)
    ensures var w := v.SlideGhosts(ghosts);
            && Begins(v, w, Departing(v.tiles, ghosts)) && Carried(v, w) && w.tiles.Keys == v.tiles.Keys
            && forall id :: id in v.tiles && (forall g :: g in ghosts ==> g.id != id) ==> w.tiles[id] == v.tiles[id]
  {
    hide Begins, Departing, DepartingOne, Numbered, Apart, Scene.SlideGhost, Carried, OwnElements;
    if ghosts == [] {
      NoneBegun(v, v);
      NoneDue(v);
    } else {
      var front, g := ghosts[..|ghosts| - 1], ghosts[|ghosts| - 1];
      assert ghosts == front + [g];
      var u := v.SlideGhosts(front);
      GhostsSlide(v, front);
      ElementsAreOwn(v);
      OneMoreGhost(v.tiles, front, g);
      BegunIsNumbered(v, u, Departing(v.tiles, front));
      GhostSlides(u, g);
      assert DepartingOne(u.tiles, g) == DepartingOne(v.tiles, g) by {
        SameDeparture(v.tiles, u.tiles, g);
      }
      BothBegun(v, u, u.SlideGhost(g), Departing(v.tiles, front), DepartingOne(v.tiles, g));
      CarriedOn(v, u, u.SlideGhost(g));
    }
  }

  lemma NoneDue(v: Scene)
    ensures Departing(v.tiles, []) == {} && Moving(v.tiles, []) == {} && Swelling(v.tiles, []) == {} && Carried(v, v)
  {
  }

  lemma ElementsAreOwn(v: Scene)
    requires Numbered(v)
    ensures OwnElements(v.tiles)
  {
  }

  lemma BegunIsNumbered(v: Scene, w: Scene, due: set<Anim>)
    requires Begins(v, w, due)
    ensures Numbered(w)
  {
  }

  lemma SameDeparture(tiles: map<Id, Entry>, tiles': map<Id, Entry>, g: GhostState)
    requires tiles.Keys == tiles'.Keys && (g.id in tiles ==> tiles[g.id] == tiles'[g.id])
    ensures DepartingOne(tiles', g) == DepartingOne(tiles, g)
  {
  }

  lemma GhostSlides(u: Scene, g: GhostState)
    requires Numbered(u)
    ensures var w := u.SlideGhost(g);
            && Carried(u, w) && w.tiles.Keys == u.tiles.Keys && (forall id :: id in u.tiles && id != g.id ==> w.tiles[id] == u.tiles[id])
            && Begins(u, w, DepartingOne(u.tiles, g))
  {
    hide Begins, Numbered;
    if g.id in u.tiles {
      var Entry(el, was) := u.tiles[g.id];
      var look := Look(g.r, g.c, was.value);
      Renumbered(u, g.id, look);
      OneBegun(u, u.Restyle(g.id, look), Between(el, was, g.r, g.c), Some((g.id, el)));
    } else {
      NoneBegun(u, u);
    }
  }

  ghost function MovingOne(tiles: map<Id, Entry>, t: TileState): set<Anim> {
    if Moved(tiles, t) then {Move(tiles, t)} else {}
  }

  lemma OneMoreTile(tiles: map<Id, Entry>, front: seq<TileState>, t: TileState)
    requires OwnElements(tiles) && forall r :: r in front ==> r.id != t.id
    ensures Moving(tiles, front + [t]) == Moving(tiles, front) + MovingOne(tiles, t)
    ensures Apart(Moving(tiles, front), MovingOne(tiles, t))
  {
  }

  /** The tiles in `w` are those of `v` and the kept ones of `ts`. */
  ghost predicate KeptOnly(v: Scene, w: Scene, ts: seq<TileState>) {
    && v.tiles.Keys <= w.tiles.Keys
    && (forall t :: t in ts && !t.spawned ==> t.id in w.tiles)
    && forall id :: id in w.tiles ==> id in v.tiles || exists t :: t in ts && !t.spawned && t.id == id
  }

  ghost predicate OthersStay(v: Scene, w: Scene, ts: seq<TileState>) {
    forall id :: (forall t :: t in ts ==> t.id != id) ==> (id in w.tiles <==> id in v.tiles) && (id in v.tiles ==> w.tiles[id] == v.tiles[id])
  }

  lemma {:induction false} TilesSlide(v: Scene, ts: seq<TileState>)
    requires Numbered(v) && OwnIds(ts)
    ensures var w := v.PlaceTiles(ts);
            Begins(v, w, Moving(v.tiles, ts)) && Carried(v, w) && KeptOnly(v, w, ts) && OthersStay(v, w, ts)
  {
    hide Begins, Moving, MovingOne, Numbered, Apart, Scene.PlaceTile, Carried, OwnElements, KeptOnly, OthersStay;
    if ts == [] {
      NoneBegun(v, v);
      NoneDue(v);
      NonePlaced(v);
    } else {
      var front, t := ts[..|ts| - 1], ts[|ts| - 1];
      assert ts == front + [t];
      var u := v.PlaceTiles(front);
      var w := u.PlaceTile(t);
      TilesSlide(v, front);
      ElementsAreOwn(v);
      OneMoreTile(v.tiles, front, t);
      BegunIsNumbered(v, u, Moving(v.tiles, front));
      TileSlides(u, t);
      SameMove(v, u, front, t);
      BothBegun(v, u, w, Moving(v.tiles, front), MovingOne(v.tiles, t));
      CarriedOn(v, u, w);
      PlacedOn(v, u, w, front, t);
    }
  }

  lemma NonePlaced(v: Scene)
    ensures KeptOnly(v, v, []) && OthersStay(v, v, [])
  {
  }

  lemma SameMove(v: Scene, u: Scene, front: seq<TileState>, t: TileState)
    requires OthersStay(v, u, front) && forall r :: r in front ==> r.id != t.id
    ensures MovingOne(u.tiles, t) == MovingOne(v.tiles, t)
  {
  }

  lemma PlacedOn(v: Scene, u: Scene, w: Scene, front: seq<TileState>, t: TileState)
    requires KeptOnly(v, u, front) && OthersStay(v, u, front)
    requires w.tiles.Keys == u.tiles.Keys + (if t.spawned then {} else {t.id})
    requires forall id :: id in u.tiles && id != t.id ==> w.tiles[id] == u.tiles[id]
    ensures KeptOnly(v, w, front + [t]) && OthersStay(v, w, front + [t])
  {
    var ts := front + [t];
    assert t in ts && forall r :: r in front ==> r in ts;
  }

  lemma TileSlides(u: Scene, t: TileState)
    requires Numbered(u)
    ensures var w := u.PlaceTile(t);
            && Carried(u, w) && w.tiles.Keys == u.tiles.Keys + (if t.spawned then {} else {t.id})
            && (forall id :: id in u.tiles && id != t.id ==> w.tiles[id] == u.tiles[id])
            && Begins(u, w, MovingOne(u.tiles, t))
  {
    hide Begins, Numbered;
    Renumbered(u, t.id, t.look);
    if Moved(u.tiles, t) {
      var Entry(el, was) := u.tiles[t.id];
      OneBegun(u, u.Restyle(t.id, t.look), Between(el, was, t.look.r, t.look.c), None);
    } else {
      NoneBegun(u, u.PlaceTile(t));
    }
  }

  // ---------- Pops and spawns ----------

  /** All but the animations is as it was. */
  ghost predicate OnlyAnimates(v: Scene, w: Scene) {
    w == v.(animations := w.animations, nextAnim := w.nextAnim, active := w.active)
  }

  ghost function SwellingOne(tiles: map<Id, Entry>, t: TileState): set<Anim> {
    if t.merged && t.id in tiles then {Anim(Running, Swell(tiles[t.id].el), None)} else {}
  }

  lemma OneMorePop(tiles: map<Id, Entry>, front: seq<TileState>, t: TileState)
    requires OwnElements(tiles) && forall r :: r in front ==> r.id != t.id
    ensures Swelling(tiles, front + [t]) == Swelling(tiles, front) + SwellingOne(tiles, t)
    ensures Apart(Swelling(tiles, front), SwellingOne(tiles, t))
  {
  }

  lemma {:induction false} TilesPop(v: Scene, ts: seq<TileState>)
    requires Numbered(v) && OwnIds(ts)
    ensures var w := v.PopTiles(ts); Begins(v, w, Swelling(v.tiles, ts)) && OnlyAnimates(v, w)
  {
    hide Begins, Swelling, SwellingOne, Numbered, Apart, Scene.PopTile, OwnElements;
    if ts == [] {
      NoneBegun(v, v);
      NoneDue(v);
    } else {
      var front, t := ts[..|ts| - 1], ts[|ts| - 1];
      assert ts == front + [t];
      var u := v.PopTiles(front);
      TilesPop(v, front);
      ElementsAreOwn(v);
      OneMorePop(v.tiles, front, t);
      BegunIsNumbered(v, u, Swelling(v.tiles, front));
      TilePops(u, t);
      BothBegun(v, u, u.PopTile(t), Swelling(v.tiles, front), SwellingOne(v.tiles, t));
    }
  }

  lemma TilePops(u: Scene, t: TileState)
    requires Numbered(u)
    ensures var w := u.PopTile(t); Begins(u, w, SwellingOne(u.tiles, t)) && OnlyAnimates(u, w)
  {
    hide Begins, Numbered;
    if t.merged && t.id in u.tiles {
      OneBegun(u, u, Swell(u.tiles[t.id].el), None);
    } else {
      NoneBegun(u, u);
    }
  }

  /** What was mounted is as it was, and the missing ones of `ts` are mounted on new elements where they
      belong. */
  ghost predicate Mounts(v: Scene, w: Scene, ts: seq<TileState>) {
    && w.runs == v.runs && w.token == v.token && v.nextEl <= w.nextEl
    && (forall id :: id in v.tiles ==> id in w.tiles && w.tiles[id] == v.tiles[id])
    && (forall t :: t in ts && Missing(v.tiles, t) ==> t.id in w.tiles && w.tiles[t.id].look == t.look && v.nextEl <= w.tiles[t.id].el)
    && (forall id :: id in w.tiles ==> id in v.tiles || exists t :: t in ts && t.spawned && t.id == id)
  }

  ghost function GrowingOne(v: Scene, t: TileState): set<Anim> {
    if Missing(v.tiles, t) then {Anim(Running, Grow(v.nextEl), None)} else {}
  }

  lemma MountsOn(v: Scene, u: Scene, w: Scene, front: seq<TileState>, t: TileState)
    requires Mounts(v, u, front) && Mounts(u, w, [t]) && forall r :: r in front ==> r.id != t.id
    ensures Mounts(v, w, front + [t]) && (Missing(v.tiles, t) <==> Missing(u.tiles, t))
  {
    var ts := front + [t];
    assert t in ts && t in [t] && forall r :: r in front ==> r in ts;
    assert Missing(v.tiles, t) <==> Missing(u.tiles, t);
    forall id | id in w.tiles
      ensures id in v.tiles || exists r :: r in ts && r.spawned && r.id == id
    {
      if id !in u.tiles {
        assert t.id == id && t.spawned;
      }
    }
  }

  lemma SpawnedStay(v: Scene, u: Scene, w: Scene, front: seq<TileState>, t: TileState)
    requires Mounts(v, u, front) && Mounts(u, w, [t])
    ensures Growing(v.tiles, w.tiles, front) == Growing(v.tiles, u.tiles, front)
  {
    assert forall r :: r in front && Missing(v.tiles, r) ==> r.id in u.tiles && r.id in w.tiles && w.tiles[r.id] == u.tiles[r.id];
  }

  lemma GrowingSplits(before: map<Id, Entry>, after: map<Id, Entry>, front: seq<TileState>, t: TileState)
    ensures Growing(before, after, front + [t]) ==
            Growing(before, after, front) + if Missing(before, t) && t.id in after then {Anim(Running, Grow(after[t.id].el), None)} else {}
  {
    hide Missing;
    assert forall r :: r in front + [t] <==> r in front || r == t;
  }

  lemma NewIsApart(v: Scene, u: Scene, front: seq<TileState>, t: TileState)
    requires Numbered(u)
    ensures Apart(Growing(v.tiles, u.tiles, front), GrowingOne(u, t))
  {
  }

  lemma OneMoreSpawn(v: Scene, u: Scene, w: Scene, front: seq<TileState>, t: TileState)
    requires Numbered(u) && Mounts(v, u, front) && Mounts(u, w, [t]) && forall r :: r in front ==> r.id != t.id
    requires Missing(u.tiles, t) ==> t.id in w.tiles && w.tiles[t.id].el == u.nextEl
    ensures Growing(v.tiles, w.tiles, front + [t]) == Growing(v.tiles, u.tiles, front) + GrowingOne(u, t)
    ensures Apart(Growing(v.tiles, u.tiles, front), GrowingOne(u, t))
    ensures Mounts(v, w, front + [t])
  {
    hide Mounts, Missing, Growing, Numbered, Apart;
    MountsOn(v, u, w, front, t);
    SpawnedStay(v, u, w, front, t);
    GrowingSplits(v.tiles, w.tiles, front, t);
    NewIsApart(v, u, front, t);
  }

  lemma {:induction false} TilesSpawn(v: Scene, ts: seq<TileState>)
    requires Numbered(v) && OwnIds(ts)
    ensures var w := v.SpawnTiles(ts); Begins(v, w, Growing(v.tiles, w.tiles, ts)) && Mounts(v, w, ts)
  {
    hide Begins, Growing, GrowingOne, Numbered, Apart, Scene.SpawnTile, Mounts;
    if ts == [] {
      NoneBegun(v, v);
      NoneMissing(v);
    } else {
      var front, t := ts[..|ts| - 1], ts[|ts| - 1];
      assert ts == front + [t];
      var u := v.SpawnTiles(front);
      var w := u.SpawnTile(t);
      TilesSpawn(v, front);
      BegunIsNumbered(v, u, Growing(v.tiles, u.tiles, front));
      TileSpawns(u, t);
      OneMoreSpawn(v, u, w, front, t);
      BothBegun(v, u, w, Growing(v.tiles, u.tiles, front), GrowingOne(u, t));
    }
  }

  lemma NoneMissing(v: Scene)
    ensures Growing(v.tiles, v.tiles, []) == {} && Mounts(v, v, [])
  {
  }

  lemma TileSpawns(u: Scene, t: TileState)
    requires Numbered(u)
    ensures var w := u.SpawnTile(t);
            && Begins(u, w, GrowingOne(u, t)) && Mounts(u, w, [t])
            && (Missing(u.tiles, t) ==> t.id in w.tiles && w.tiles[t.id].el == u.nextEl)
  {
    hide Begins, Numbered;
    if Missing(u.tiles, t) {
      Renumbered(u, t.id, t.look);
      OneBegun(u, u.Mount(t.id, t.look), Grow(u.nextEl), None);
      assert t in [t];
    } else {
      NoneBegun(u, u);
    }
  }

  // ---------- The phases ----------

  /** The newest apply is suspended on all the animations begun since `v`, which are these, one an
      element. */
  ghost predicate Awaits(runs: seq<Run>, v: Scene, w: Scene, phase: Phase, s: Snapshot, due: set<Anim>) {
    && w.runs == runs + [Run(w.token, s, phase, News(v, w))]
    && Begun(v, w) == due && OneEach(v, w) && News(v, w) != {}
  }

  ghost predicate SomeMissing(tiles: map<Id, Entry>, s: Snapshot) {
    exists t :: t in s.tiles && Missing(tiles, t)
  }

  /** No tile that is to be spawned is mounted. */
  ghost predicate NoneSpawned(v: Scene, w: Scene, s: Snapshot) {
    forall t :: t in s.tiles && Missing(v.tiles, t) ==> t.id !in w.tiles
  }

  /** Every tile that is to be spawned is mounted where it belongs and grows in, and the newest apply
      waits for them. */
  ghost predicate AllSpawn(runs: seq<Run>, v: Scene, w: Scene, s: Snapshot) {
    && (forall t :: t in s.tiles && Missing(v.tiles, t) ==> t.id in w.tiles && w.tiles[t.id].look == t.look && v.nextEl <= w.tiles[t.id].el)
    && if SomeMissing(v.tiles, s) then Awaits(runs, v, w, Spawn, s, Growing(v.tiles, w.tiles, s.tiles))
       else w.runs == runs && News(v, w) == {}
  }

  /** Something was mounted that leaves or moves. */
  ghost predicate Slides(tiles: map<Id, Entry>, s: Snapshot) {
    (exists g :: g in s.ghosts && g.id in tiles) || exists t :: t in s.tiles && Moved(tiles, t)
  }

  lemma NothingNew(v: Scene, w: Scene)
    ensures Begun(v, w) == {} <==> News(v, w) == {}
  {
    if a :| a in News(v, w) {
      assert w.animations[a] in Begun(v, w);
    }
  }

  lemma SlidesIff(tiles: map<Id, Entry>, s: Snapshot)
    ensures Departing(tiles, s.ghosts) + Moving(tiles, s.tiles) != {} <==> Slides(tiles, s)
  {
    if g :| g in s.ghosts && g.id in tiles {
      assert Departure(tiles, g) in Departing(tiles, s.ghosts);
    }
    if t :| t in s.tiles && Moved(tiles, t) {
      assert Move(tiles, t) in Moving(tiles, s.tiles);
    }
  }

  lemma PopsIff(tiles: map<Id, Entry>, s: Snapshot)
    ensures Swelling(tiles, s.tiles) != {} <==> Pops(s, tiles)
  {
    if Pops(s, tiles) {
      var j :| 0 <= j < |s.tiles| && s.tiles[j].merged && s.tiles[j].id in tiles;
      assert Anim(Running, Swell(tiles[s.tiles[j].id].el), None) in Swelling(tiles, s.tiles);
    }
  }

  lemma SpawnsIff(v: Scene, w: Scene, s: Snapshot)
    requires Mounts(v, w, s.tiles)
    ensures Growing(v.tiles, w.tiles, s.tiles) != {} <==> SomeMissing(v.tiles, s)
  {
    if t :| t in s.tiles && Missing(v.tiles, t) {
      assert Anim(Running, Grow(w.tiles[t.id].el), None) in Growing(v.tiles, w.tiles, s.tiles);
    }
  }

  /** The third phase mounts every missing tile and waits until all have grown in. */
  lemma SpawnAwaits(v: Scene, s: Snapshot)
    requires Numbered(v) && WellFormed(s)
    ensures AllSpawn(v.runs, v, v.SpawnPhase(s), s) && v.SpawnPhase(s).token == v.token
  {
    hide Scene.SpawnTiles, Growing, Begun, News, OneEach, Numbered, Missing;
    var w := v.SpawnTiles(s.tiles);
    TilesSpawn(v, s.tiles);
    SpawnsIff(v, w, s);
    NothingNew(v, w);
    SameNews(v, w, v.SpawnPhase(s));
  }

  lemma SameNews(v: Scene, w: Scene, w': Scene)
    requires w'.animations == w.animations
    ensures News(v, w') == News(v, w) == w.animations.Keys - v.animations.Keys
    ensures Begun(v, w') == Begun(v, w) && OneEach(v, w') == OneEach(v, w)
  {
  }

  /** The second phase waits until every mounted merged tile has swollen; without any it spawns at once. */
  lemma PopAwaits(v: Scene, s: Snapshot)
    requires Numbered(v) && WellFormed(s)
    ensures var w := v.PopPhase(s);
            && w.token == v.token
            && if Pops(s, v.tiles) then w.tiles == v.tiles && Awaits(v.runs, v, w, Pop, s, Swelling(v.tiles, s.tiles))
               else AllSpawn(v.runs, v, w, s)
  {
    hide Scene.PopTiles, Scene.SpawnPhase, Swelling, Begun, OneEach, Numbered, AllSpawn, Pops;
    var u := v.PopTiles(s.tiles);
    TilesPop(v, s.tiles);
    PopsIff(v.tiles, s);
    NothingNew(v, u);
    if Pops(s, v.tiles) {
      SameNews(v, u, v.PopPhase(s));
    } else {
      NoNews(v, u);
      SpawnAwaits(u, s);
      SpawnsFrom(v.runs, v, u, v.PopPhase(s), s);
    }
  }

  lemma NoNews(v: Scene, w: Scene)
    requires News(v, w) == {} && Grown(v.animations, w.animations)
    ensures w.animations == v.animations
  {
    forall a | a in w.animations
      ensures a in v.animations
    {
      assert a !in News(v, w);
    }
  }

  lemma SpawnsFrom(runs: seq<Run>, v: Scene, u: Scene, w: Scene, s: Snapshot)
    requires AllSpawn(runs, u, w, s) && u.animations.Keys == v.animations.Keys && v.nextEl <= u.nextEl
    requires forall t :: t in s.tiles ==> (Missing(u.tiles, t) <==> Missing(v.tiles, t))
    ensures AllSpawn(runs, v, w, s)
  {
    assert News(v, w) == News(u, w);
    assert Growing(v.tiles, w.tiles, s.tiles) == Growing(u.tiles, w.tiles, s.tiles);
  }

  // ---------- A whole apply ----------

  /** A snapshot is taken on: what is under way is cancelled and superseded. */
  ghost function Taken(v: Scene, s: Snapshot): Scene {
    v.Cancel().(token := v.token + 1, shown := s, found := Looks(v.tiles))
  }

  ghost predicate SameAt(tiles: map<Id, Entry>, tiles': map<Id, Entry>, ids: set<Id>) {
    forall id :: id in ids ==> (id in tiles <==> id in tiles') && (id in tiles ==> tiles'[id] == tiles[id])
  }

  lemma Dropped(v: Scene, s: Snapshot)
    requires Numbered(v)
    ensures var start, dropped := Taken(v, s), Taken(v, s).Drop(s);
            && Numbered(start) && Numbered(dropped) && dropped.animations == start.animations
            && dropped.runs == v.runs && dropped.token == v.token + 1 && start.animations.Keys == v.animations.Keys
            && SameAt(v.tiles, dropped.tiles, TileIds(s) + GhostIds(s)) && dropped.tiles.Keys <= v.tiles.Keys
            && dropped.nextEl == v.nextEl
  {
    hide TileIds, GhostIds, Looks;
  }

  lemma DepartingSame(tiles: map<Id, Entry>, tiles': map<Id, Entry>, s: Snapshot)
    requires SameAt(tiles, tiles', GhostIds(s))
    ensures Departing(tiles', s.ghosts) == Departing(tiles, s.ghosts)
  {
    forall g | g in s.ghosts
      ensures g.id in GhostIds(s)
    {
    }
    hide GhostIds;
  }

  lemma MovingSame(tiles: map<Id, Entry>, tiles': map<Id, Entry>, s: Snapshot)
    requires SameAt(tiles, tiles', TileIds(s))
    ensures Moving(tiles', s.tiles) == Moving(tiles, s.tiles)
  {
    TilesAreValid(s);
    hide TileIds;
  }

  lemma LeftAlone(before: Scene, after: Scene, s: Snapshot)
    requires WellFormed(s) && after.tiles.Keys == before.tiles.Keys
    requires forall id :: id in before.tiles && (forall g :: g in s.ghosts ==> g.id != id) ==> after.tiles[id] == before.tiles[id]
    ensures SameAt(before.tiles, after.tiles, TileIds(s))
  {
    forall g | g in s.ghosts
      ensures g.id in GhostIds(s)
    {
    }
    hide TileIds, GhostIds;
  }

  lemma SameTwice(a: map<Id, Entry>, b: map<Id, Entry>, c: map<Id, Entry>, ids: set<Id>, more: set<Id>)
    requires SameAt(a, b, ids + more) && SameAt(b, c, ids)
    ensures SameAt(a, c, ids) && SameAt(a, b, more)
  {
    forall id | id in ids
      ensures (id in a <==> id in c) && (id in a ==> c[id] == a[id])
    {
      assert id in ids + more;
    }
    forall id | id in more
      ensures (id in a <==> id in b) && (id in a ==> b[id] == a[id])
    {
      assert id in ids + more;
    }
  }

  /** A departing ghost and a moving tile are different elements. */
  lemma LeaversAreApart(tiles: map<Id, Entry>, s: Snapshot)
    requires OwnElements(tiles) && WellFormed(s)
    ensures Apart(Departing(tiles, s.ghosts), Moving(tiles, s.tiles))
  {
    forall g, t | g in s.ghosts && t in s.tiles
      ensures g.id != t.id
    {
      assert g.id in GhostIds(s) && t.id in TileIds(s);
    }
    hide WellFormed, TileIds, GhostIds;
  }

  lemma SpawnedUnmounted(v: Scene, slid: Scene, w: Scene, s: Snapshot)
    requires OwnIds(s.tiles) && SameAt(v.tiles, slid.tiles, TileIds(s)) && KeptOnly(slid, w, s.tiles)
    ensures forall t :: t in s.tiles ==> (t.id in w.tiles <==> !Missing(v.tiles, t))
  {
    TilesAreValid(s);
    hide TileIds;
    forall t | t in s.tiles
      ensures t.id in w.tiles <==> !Missing(v.tiles, t)
    {
      assert t.id in TileIds(s);
      if t.id in w.tiles && t.id !in slid.tiles {
        var r :| r in s.tiles && !r.spawned && r.id == t.id;
        assert r == t;
      }
    }
  }

  /** The first phase as far as the slides have begun. */
  lemma SlidesBegin(v: Scene, s: Snapshot)
    requires Numbered(v) && WellFormed(s)
    ensures var w := Taken(v, s).Drop(s).SlideGhosts(s.ghosts).PlaceTiles(s.tiles);
            && Begins(Taken(v, s), w, Departing(v.tiles, s.ghosts) + Moving(v.tiles, s.tiles))
            && w.runs == v.runs && w.token == v.token + 1 && v.nextEl <= w.nextEl && Taken(v, s).animations.Keys == v.animations.Keys
            && forall t :: t in s.tiles ==> (t.id in w.tiles <==> !Missing(v.tiles, t))
  {
    assert OwnIds(s.tiles) && OwnGhostIds(s.ghosts);
    hide Taken, Scene.SlideGhosts, Scene.PlaceTiles, Scene.Cancel, Begins, Departing, Moving, Numbered, Looks, WellFormed, TileIds, GhostIds;
    hide Scene.Drop, KeptOnly, OthersStay, Apart, SameAt, OwnElements, Missing;
    var start := Taken(v, s);
    var dropped := start.Drop(s);
    var slid := dropped.SlideGhosts(s.ghosts);
    var w := slid.PlaceTiles(s.tiles);
    Dropped(v, s);
    NoneBegun(start, dropped);
    GhostsSlide(dropped, s.ghosts);
    BegunIsNumbered(dropped, slid, Departing(dropped.tiles, s.ghosts));
    TilesSlide(slid, s.tiles);
    LeftAlone(dropped, slid, s);
    SameTwice(v.tiles, dropped.tiles, slid.tiles, TileIds(s), GhostIds(s));
    DepartingSame(v.tiles, dropped.tiles, s);
    MovingSame(v.tiles, slid.tiles, s);
    ElementsAreOwn(v);
    LeaversAreApart(v.tiles, s);
    BothBegun(dropped, slid, w, Departing(v.tiles, s.ghosts), Moving(v.tiles, s.tiles));
    BegunFrom(start, dropped, w, Departing(v.tiles, s.ghosts) + Moving(v.tiles, s.tiles));
    SpawnedUnmounted(v, slid, w, s);
  }

  lemma BegunFrom(u: Scene, v: Scene, w: Scene, due: set<Anim>)
    requires Begins(v, w, due) && u.animations == v.animations
    ensures Begins(u, w, due)
  {
    hide Numbered;
    assert News(u, w) == News(v, w);
  }

  /** Some merged tile of the snapshot is mounted once the kept ones are in place. */
  ghost predicate SomeMerged(tiles: map<Id, Entry>, s: Snapshot) {
    exists t :: t in s.tiles && t.merged && !Missing(tiles, t)
  }

  /** After a snapshot is taken on, the newest apply is suspended on the slides if a ghost was mounted or
      a kept tile was mounted at another cell: on one running animation for each of them and on no other,
      while no tile that is to be spawned is mounted. Without any it waits for the pops, and without those
      for the spawned tiles. */
  lemma ApplyAwaits(v: Scene, s: Snapshot)
    requires Numbered(v) && WellFormed(s)
    ensures var w := v.Apply(s);
            && w.token == v.token + 1
            && if Slides(v.tiles, s) then
                 Awaits(v.runs, v, w, Slide, s, Departing(v.tiles, s.ghosts) + Moving(v.tiles, s.tiles)) && NoneSpawned(v, w, s)
               else if SomeMerged(v.tiles, s) then
                 Awaits(v.runs, v, w, Pop, s, Swelling(w.tiles, s.tiles)) && NoneSpawned(v, w, s)
               else AllSpawn(v.runs, v, w, s)
  {
    hide Scene.Drop, Scene.SlideGhosts, Scene.PlaceTiles, Scene.PopPhase, Scene.Cancel, Looks, WellFormed;
    hide Numbered, Departing, Moving, Swelling, Begun, OneEach, Missing, Slides, Pops, SomeMerged, AllSpawn;
    var start := Taken(v, s);
    var u := start.Drop(s).SlideGhosts(s.ghosts).PlaceTiles(s.tiles);
    SlidesBegin(v, s);
    SlidesIff(v.tiles, s);
    NothingNew(start, u);
    assert v.Apply(s) == u.Await(start, Slide, s, u.PopPhase(s));
    if Slides(v.tiles, s) {
      SameKeys(v, start, v.Apply(s));
      SameNews(start, u, v.Apply(s));
      SpawnedWait(v, u, v.Apply(s), s);
    } else {
      PopAwaits(u, s);
      MergedPop(v, u, s);
      NoNews(start, u);
      SameKeys(v, u, v.Apply(s));
      if SomeMerged(v.tiles, s) {
        SpawnedWait(v, u, v.Apply(s), s);
      } else {
        MissingStill(v, u, s);
        SpawnsFrom(v.runs, v, u, v.Apply(s), s);
      }
    }
  }

  lemma SameKeys(v: Scene, u: Scene, w: Scene)
    requires u.animations.Keys == v.animations.Keys
    ensures News(v, w) == News(u, w) && Begun(v, w) == Begun(u, w) && OneEach(v, w) == OneEach(u, w)
  {
    assert News(v, w) == News(u, w);
  }

  lemma MissingStill(v: Scene, u: Scene, s: Snapshot)
    requires forall t :: t in s.tiles ==> (t.id in u.tiles <==> !Missing(v.tiles, t))
    ensures forall t :: t in s.tiles ==> (Missing(u.tiles, t) <==> Missing(v.tiles, t))
  {
  }

  lemma SpawnedWait(v: Scene, u: Scene, w: Scene, s: Snapshot)
    requires w.tiles == u.tiles && forall t :: t in s.tiles ==> (t.id in u.tiles <==> !Missing(v.tiles, t))
    ensures NoneSpawned(v, w, s)
  {
  }

  lemma MergedPop(v: Scene, u: Scene, s: Snapshot)
    requires forall t :: t in s.tiles ==> (t.id in u.tiles <==> !Missing(v.tiles, t))
    ensures Pops(s, u.tiles) <==> SomeMerged(v.tiles, s)
  {
    hide Missing;
    if t :| t in s.tiles && t.merged && !Missing(v.tiles, t) {
      var j :| 0 <= j < |s.tiles| && s.tiles[j] == t;
      assert s.tiles[j].id in u.tiles;
    }
  }

  /** An apply that goes on after its slides waits for the pops, if a merged tile is mounted, and spawns
      otherwise; after the pops it spawns, and after the spawns it is over. A superseded one does nothing. */
  lemma ResumeAwaits(v: Scene, i: nat)
    requires Numbered(v) && i < |v.runs| && WellFormed(v.runs[i].snapshot)
    requires forall a :: a in v.runs[i].waits && a in v.animations ==> !v.animations[a].state.Running?
    ensures var Run(token, s, phase, _) := v.runs[i];
            var rest, w := v.runs[..i] + v.runs[i + 1..], v.Resume(i);
            && w.token == v.token
            && if token != v.token || phase.Spawn? then w == v.(runs := rest)
               else if phase.Slide? && Pops(s, v.tiles) then
                 w.tiles == v.tiles && Awaits(rest, v, w, Pop, s, Swelling(v.tiles, s.tiles))
               else AllSpawn(rest, v, w, s)
  {
    hide Scene.PopPhase, Scene.SpawnPhase, Numbered, Pops, AllSpawn, Awaits, WellFormed;
    var run, u := v.runs[i], v.(runs := v.runs[..i] + v.runs[i + 1..]);
    if run.token == v.token {
      FewerRunsNumbered(v, u);
      match run.phase {
        case Slide =>
          PopAwaits(u, run.snapshot);
          if Pops(run.snapshot, v.tiles) {
            AwaitsFrom(u.runs, v, u, v.Resume(i), Pop, run.snapshot, Swelling(v.tiles, run.snapshot.tiles));
          } else {
            SpawnsFrom(u.runs, v, u, v.Resume(i), run.snapshot);
          }
        case Pop =>
          SpawnAwaits(u, run.snapshot);
          SpawnsFrom(u.runs, v, u, v.Resume(i), run.snapshot);
        case Spawn =>
      }
    }
  }

  lemma FewerRunsNumbered(v: Scene, u: Scene)
    requires Numbered(v) && u == v.(runs := u.runs)
    ensures Numbered(u)
  {
  }

  lemma AwaitsFrom(runs: seq<Run>, v: Scene, u: Scene, w: Scene, phase: Phase, s: Snapshot, due: set<Anim>)
    requires Awaits(runs, u, w, phase, s, due) && u.animations == v.animations
    ensures Awaits(runs, v, w, phase, s, due)
  {
    SameKeys(v, u, w);
  }

  // ---------- While it waits ----------

  /** The run is suspended as the newest, and no other apply carries its token. */
  ghost predicate Suspended(v: Scene, r: Run) {
    r in v.runs && r.token == v.token && OwnTokens(v.runs)
  }

  ghost predicate Runs(v: Scene, a: nat) {
    a in v.animations && v.animations[a].state.Running?
  }

  /** Nothing was mounted, restyled or moved, though something may have been removed. */
  ghost predicate OnlyRemoved(v: Scene, w: Scene) {
    w.last == v.last && w.tiles.Keys <= v.tiles.Keys && forall id :: id in w.tiles ==> w.tiles[id] == v.tiles[id]
  }

  /** As long as an animation that the newest apply waits for still runs and no snapshot is taken on,
      whatever else happens mounts nothing and leaves the apply suspended where it is. */
  lemma {:induction false} NothingMountsYet(v: Scene, steps: seq<Step>, parse: string -> Option<Snapshot>, r: Run, a: nat)
    requires Suspended(v, r) && a in r.waits
    requires forall k :: 0 <= k < |steps| ==> !Applies(v.last, steps[k], parse)
    requires forall k :: 0 <= k <= |steps| ==> Runs(After(v, steps[..k], parse), a)
    ensures Suspended(After(v, steps, parse), r) && OnlyRemoved(v, After(v, steps, parse))
  {
    hide Scene.Do, Suspended, Applies, Runs, OnlyRemoved;
    if steps == [] {
      NoneRemoved(v);
    } else {
      var n := |steps| - 1;
      var u := After(v, steps[..n], parse);
      forall k | 0 <= k <= n
        ensures steps[..n][..k] == steps[..k]
      {
      }
      NothingMountsYet(v, steps[..n], parse, r, a);
      LastStays(v, u);
      OneStepMountsNothing(u, steps[n], parse, r, a);
      RemovedOn(v, u, u.Do(steps[n], parse));
    }
  }

  lemma NoneRemoved(v: Scene)
    ensures OnlyRemoved(v, v)
  {
  }

  lemma LastStays(v: Scene, u: Scene)
    requires OnlyRemoved(v, u)
    ensures u.last == v.last
  {
  }

  lemma RemovedOn(u: Scene, v: Scene, w: Scene)
    requires OnlyRemoved(u, v) && OnlyRemoved(v, w)
    ensures OnlyRemoved(u, w)
  {
  }

  lemma OneStepMountsNothing(u: Scene, step: Step, parse: string -> Option<Snapshot>, r: Run, a: nat)
    requires Suspended(u, r) && a in r.waits && Runs(u, a) && !Applies(u.last, step, parse)
    ensures Suspended(u.Do(step, parse), r) && OnlyRemoved(u, u.Do(step, parse))
  {
    hide Scene.PopPhase, Scene.SpawnPhase, Applies;
    if step.Resume? && step.i < |u.runs| && u.runs[step.i] != r {
      RunRemoved(u.runs, step.i);
      SameToken(u, r, step.i);
    }
  }

  lemma SameToken(u: Scene, r: Run, i: nat)
    requires Suspended(u, r) && i < |u.runs| && u.runs[i] != r
    ensures u.runs[i].token != u.token
  {
  }

  // ---------- Attributes that change nothing ----------

  /** An attribute that is taken away and put back leaves everything that is under way as it was; so does
      one that is set to what was applied last, or to what does not parse. */
  lemma StrippedAndRestored(v: Scene, oldVal: Option<string>, parse: string -> Option<Snapshot>)
    ensures After(v, [Changed(v.last, None), Changed(None, v.last)], parse) == v
    ensures v.Do(Changed(oldVal, v.last), parse) == v
    ensures forall text :: parse(text).None? ==> v.Do(Changed(oldVal, Some(text)), parse) == v
  {
    hide Scene.Apply;
    var a, b := Changed(v.last, None), Changed(None, v.last);
    assert [a, b][..1] == [a] && [a][..0] == [];
    assert After(v, [a], parse) == v.Do(a, parse);
  }

  /** Any other text that parses is taken on, whatever is under way. */
  lemma NewTextIsApplied(v: Scene, oldVal: Option<string>, text: string, parse: string -> Option<Snapshot>)
    requires parse(text).Some? && Some(text) != v.last && Some(text) != oldVal
    ensures var w := v.Do(Changed(oldVal, Some(text)), parse);
            w.last == Some(text) && parse(text) == Some(w.shown) && w.found == Looks(v.tiles)
  {
    hide Looks;
    OnlyChangesApply(v, Changed(oldVal, Some(text)), parse);
  }

  /** A component in order is numbered as the phases rely on. */
  lemma BoardIsNumbered(b: Board)
    requires b.Valid()
    ensures Numbered(b.Current()) && OwnTokens(b.runs)
  {
    hide Stage, Shown, WellFormed, SpawnsAreNew, Looks;
    var v := b.Current();
    forall id | id in v.tiles
      ensures v.tiles[id].el < v.nextEl
    {
      assert v.tiles[id].el in b.board;
    }
  }
}
