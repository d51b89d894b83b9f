/**
  The rules of the Flappy-bird demo (src/demos/fbird/index.ts): a bird that
  flaps while the up key is held, pipes and background tiles that scroll to
  the left and reappear on the right, and a `gameState` that turns from
  "active" to "over" once the bird touches a pipe, the ground or the ceiling.
  The key state is a parameter; `gameOver` acts on the world the systems run
  on.
 */
module FlappyBird {
  import opened Vector2
  import opened Store
  import opened Components
  import opened World
  import opened Updates

  const WorldWidth: real := 1000.0
  const WorldHeight: real := 500.0
  const SpaceBetweenPipes: real := 150.0
  const PipeWidth: real := 80.0
  const PipeHeight: real := 500.0
  const PipesCount: real := WorldWidth / (SpaceBetweenPipes + PipeWidth)
  const BackgroundTileWidth: real := 300.0
  const BackgroundTilesCount: real := WorldWidth / BackgroundTileWidth + 1.0

  /** The least time between two flaps, and the upward speed a flap sets. */
  const FlapInterval: real := 500.0
  const FlapSpeed: real := 0.3

  /** The lowest point the bird may reach: `WORLD_HEIGHT - 40`. */
  const Ground: real := WorldHeight - 40.0

  /*
    `gameOver`, and what "over is permanent" means.
   */

  /** The `gameState` map after `gameOver`: every entry "over", in the same order. */
  function AllOver(s: Store<Value>): Store<Value>
  {
    Store(s.keys, map e | e in s.vals :: StateVal(Over))
  }

  /** The components after `gameOver()`. */
  function EndGame(c: Holder): Holder
    requires GameState in c
  {
    c[GameState := AllOver(c[GameState])]
  }

  /** Some `gameState` entry is "over". */
  predicate IsOver(c: Holder)
  {
    GameState in c && exists e :: e in c[GameState].vals && c[GameState].vals[e] == StateVal(Over)
  }

  /**
    From `c` to `d` "over" is permanent: every over entry of `c` is still
    over in `d`, and an entry active in `d` was already active in `c`.
   */
  predicate StaysOver(c: Holder, d: Holder)
  {
    GameState in c ==>
      && GameState in d
      && (forall e :: e in c[GameState].vals && c[GameState].vals[e] == StateVal(Over) ==>
            e in d[GameState].vals && d[GameState].vals[e] == StateVal(Over))
      && (forall e :: e in d[GameState].vals && d[GameState].vals[e] == StateVal(Active) ==>
            e in c[GameState].vals && c[GameState].vals[e] == StateVal(Active))
  }

  /**
    `gameOver` makes every `gameState` entry "over", keeps the entries and
    their order and every other map, and changes nothing more when called
    again.  The game is over afterwards exactly when there is a `gameState`
    entry at all, and a game that was over stays over.
   */
  lemma EndGameFacts(c: Holder)
    requires GameState in c
    ensures EndGame(c).Keys == c.Keys
    ensures forall n :: n in c && n != GameState ==> EndGame(c)[n] == c[n]
    ensures EndGame(c)[GameState].keys == c[GameState].keys
    ensures EndGame(c)[GameState].vals.Keys == c[GameState].vals.Keys
    ensures forall e :: e in EndGame(c)[GameState].vals ==> EndGame(c)[GameState].vals[e] == StateVal(Over)
    ensures c[GameState].Valid() ==> EndGame(c)[GameState].Valid()
    ensures EndGame(EndGame(c)) == EndGame(c)
    ensures IsOver(EndGame(c)) <==> exists e :: e in c[GameState].vals
    ensures StaysOver(c, EndGame(c))
  {
    var s := AllOver(c[GameState]);
    assert AllOver(s).vals == s.vals;
    if e :| e in c[GameState].vals {
      assert s.vals[e] == StateVal(Over);
    }
  }

  /** The `gameState` map with the entries of `done` set to "over". */
  function OverFor(vals: map<int, Value>, done: seq<int>): map<int, Value>
  {
    map e | e in vals :: if e in done then StateVal(Over) else vals[e]
  }

  /** Before the first key nothing is marked. */
  lemma MarkNone(c0: Holder)
    requires GameState in c0
    ensures var s0 := c0[GameState]; c0[GameState := Store(s0.keys, OverFor(s0.vals, s0.keys[..0]))] == c0
  {
    var s0 := c0[GameState];
    assert OverFor(s0.vals, s0.keys[..0]) == s0.vals;
  }

  /** Marking the next key extends the marked prefix by one and keeps the iteration order. */
  lemma MarkStep(c0: Holder, keys: seq<int>, vals: map<int, Value>, i: nat)
    requires GameState in c0 && i < |keys| && keys[i] in vals
    ensures Put(c0[GameState := Store(keys, OverFor(vals, keys[..i]))], GameState, keys[i], StateVal(Over))
      == c0[GameState := Store(keys, OverFor(vals, keys[..i + 1]))]
  {
    assert keys[..i + 1] == keys[..i] + [keys[i]];
    assert OverFor(vals, keys[..i])[keys[i] := StateVal(Over)] == OverFor(vals, keys[..i + 1]);
  }

  /** Once every key is marked, the map is `AllOver`. */
  lemma MarkAll(s0: Store<Value>)
    requires s0.Valid()
    ensures Store(s0.keys, OverFor(s0.vals, s0.keys[..|s0.keys|])) == AllOver(s0)
  {
    assert s0.keys[..|s0.keys|] == s0.keys;
    assert forall e :: e in s0.vals ==> e in s0.keys;
    assert OverFor(s0.vals, s0.keys) == AllOver(s0).vals;
  }

  /** `gameOver()`: every key of the `gameState` map in turn gets "over". */
  method MarkGameOver(w: World)
    requires w.Valid() && GameState in w.components
    modifies w
    ensures w.Valid()
    ensures w.components == EndGame(old(w.components))
    ensures w.lastAssignedId == old(w.lastAssignedId) && w.active == old(w.active) && w.currentTime == old(w.currentTime)
  {
    ghost var c0 := w.components;
    ghost var s0 := c0[GameState];
    var keys := w.components[GameState].keys;
    KeysIn(s0);
    MarkNone(c0);
    for i := 0 to |keys|
      invariant w.Valid()
      invariant w.lastAssignedId == old(w.lastAssignedId) && w.active == old(w.active) && w.currentTime == old(w.currentTime)
      invariant w.components == c0[GameState := Store(keys, OverFor(s0.vals, keys[..i]))]
    {
      MarkStep(c0, keys, s0.vals, i);
      w.SetComponent(GameState, keys[i], StateVal(Over));
    }
    MarkAll(s0);
  }

  /*
    `UserControl`.
   */

  /** What a run of `UserControl` sees of the outside: `now` is `currentTime + delta`, `up` the up key. */
  datatype Press = Press(now: real, up: bool)

  /** The bird flaps: its last flap lies more than `FlapInterval` before `now`, and the up key is held. */
  predicate Flaps(last: real, p: Press)
  {
    last < p.now - FlapInterval && p.up
  }

  const ControlQuery: seq<Name> := [UserControl, Bird, Velocity]

  /** The loop body's write to `velocity` for a row `[entity, userControl, bird, velocity]`. */
  function FlapVelocity(row: Row, p: Press): Option<Value>
  {
    if Flaps(AsBird(Slot(row, 1)), p) then Some(VecVal(Vec(AsVec(Slot(row, 2)).x, -FlapSpeed))) else None
  }

  /** Its write to `bird` for the same row. */
  function FlapBird(row: Row, p: Press): Option<Value>
  {
    if Flaps(AsBird(Slot(row, 1)), p) then Some(BirdVal(p.now)) else None
  }

  /** The new velocities: one for every controlled bird that flaps. */
  function FlapVelocities(c: Holder, p: Press): (nv: map<int, Value>)
    requires Velocity in c
    ensures nv.Keys <= c[Velocity].vals.Keys
  {
    map e | e in c[Velocity].vals && Has(c, UserControl, e) && Has(c, Bird, e) && Flaps(AsBird(Get(c, Bird, e)), p) ::
      VecVal(Vec(AsVec(c[Velocity].vals[e]).x, -FlapSpeed))
  }

  /** The new bird records: the time of the flap for every controlled bird that flaps. */
  function FlapBirds(c: Holder, p: Press): (nv: map<int, Value>)
    requires Bird in c
    ensures nv.Keys <= c[Bird].vals.Keys
  {
    map e | e in c[Bird].vals && Has(c, UserControl, e) && Has(c, Velocity, e) && Flaps(AsBird(c[Bird].vals[e]), p) ::
      BirdVal(p.now)
  }

  /** The components after `UserControl`: nothing changes once the game is over. */
  function Controlled(c: Holder, p: Press): Holder
    requires Bird in c && Velocity in c
  {
    if IsOver(c) then c
    else c[Velocity := Overlay(c[Velocity], FlapVelocities(c, p))][Bird := Overlay(c[Bird], FlapBirds(c, p))]
  }

  /**
    Once the game is over nothing changes.  Otherwise a controlled bird that
    flaps gets the upward speed `0.3`, keeps its horizontal speed and records
    `now` as its last flap; a bird that does not flap keeps both.  No map
    other than `velocity` and `bird` changes, no key moves, and "over" is
    permanent.
   */
  lemma ControlledFacts(c: Holder, p: Press, e: int)
    requires Bird in c && Velocity in c
    ensures IsOver(c) ==> Controlled(c, p) == c
    ensures var flaps := !IsOver(c) && Has(c, UserControl, e) && Has(c, Bird, e) && Has(c, Velocity, e)
        && Flaps(AsBird(c[Bird].vals[e]), p);
      && (flaps ==> Controlled(c, p)[Velocity].vals[e] == VecVal(Vec(AsVec(c[Velocity].vals[e]).x, -FlapSpeed)))
      && (flaps ==> Controlled(c, p)[Bird].vals[e] == BirdVal(p.now))
      && (!flaps && Has(c, Bird, e) ==> Controlled(c, p)[Bird].vals[e] == c[Bird].vals[e])
      && (!flaps && Has(c, Velocity, e) ==> Controlled(c, p)[Velocity].vals[e] == c[Velocity].vals[e])
    ensures Controlled(c, p).Keys == c.Keys
    ensures Controlled(c, p)[Bird].keys == c[Bird].keys && Controlled(c, p)[Velocity].keys == c[Velocity].keys
    ensures Controlled(c, p)[Bird].vals.Keys == c[Bird].vals.Keys && Controlled(c, p)[Velocity].vals.Keys == c[Velocity].vals.Keys
    ensures forall n :: n in c && n != Bird && n != Velocity ==> Controlled(c, p)[n] == c[n]
    ensures StaysOver(c, Controlled(c, p))
  {
  }

  /**
    Flaps are at least `FlapInterval` apart: a bird that has just flapped at
    `now` does not flap again in a run whose `now` lies within the next
    `FlapInterval`, whatever the keys.
   */
  lemma FlapsSpaced(c: Holder, p: Press, q: Press, e: int)
    requires Bird in c && Velocity in c
    requires !IsOver(c) && Has(c, UserControl, e) && Has(c, Bird, e) && Has(c, Velocity, e) && Flaps(AsBird(c[Bird].vals[e]), p)
    requires q.now <= p.now + FlapInterval
    ensures Controlled(Controlled(c, p), q)[Bird].vals[e] == BirdVal(p.now)
    ensures Controlled(Controlled(c, p), q)[Velocity].vals[e] == Controlled(c, p)[Velocity].vals[e]
  {
    ControlledFacts(c, p, e);
    var d := Controlled(c, p);
    assert AsBird(d[Bird].vals[e]) == p.now;
    ControlledFacts(d, q, e);
  }

  /** The loop's two writes for the row of `e`. */
  lemma FlapsAt(c: Holder, e: int, p: Press)
    ensures Matches(c, ControlQuery, e) <==> Has(c, Bird, e) && Has(c, Velocity, e)
    ensures FlapVelocity(Row(e, Values(c, ControlQuery, e)), p)
      == if Flaps(AsBird(Get(c, Bird, e)), p) then Some(VecVal(Vec(AsVec(Get(c, Velocity, e)).x, -FlapSpeed))) else None
    ensures FlapBird(Row(e, Values(c, ControlQuery, e)), p)
      == if Flaps(AsBird(Get(c, Bird, e)), p) then Some(BirdVal(p.now)) else None
  {
    var vs := Values(c, ControlQuery, e);
    assert vs[1] == Get(c, Bird, e) && vs[2] == Get(c, Velocity, e);
    assert Matches(c, ControlQuery, e) <== Has(c, Bird, e) && Has(c, Velocity, e);
    assert Matches(c, ControlQuery, e) ==> Has(c, ControlQuery[1], e) && Has(c, ControlQuery[2], e);
  }

  lemma ControlledEnd(c0: Holder, c: Holder, p: Press)
    requires StoresValid(c0) && Bird in c0 && Velocity in c0 && !IsOver(c0)
    requires Others2(c, c0, Velocity, Bird)
    requires c[Velocity] == RunStore(c0[Velocity], Join(c0, ControlQuery), FlapVelocity, p, |Join(c0, ControlQuery)|)
    requires c[Bird] == RunStore(c0[Bird], Join(c0, ControlQuery), FlapBird, p, |Join(c0, ControlQuery)|)
    ensures c == Controlled(c0, p)
  {
    JoinStore(c0, ControlQuery, 2, FlapVelocity, p);
    JoinStore(c0, ControlQuery, 1, FlapBird, p);
    var nv := NewValues(Join(c0, ControlQuery), FlapVelocity, p);
    var nb := NewValues(Join(c0, ControlQuery), FlapBird, p);
    forall e
      ensures e in nv <==> e in FlapVelocities(c0, p)
      ensures e in nv ==> nv[e] == FlapVelocities(c0, p)[e]
      ensures e in nb <==> e in FlapBirds(c0, p)
      ensures e in nb ==> nb[e] == FlapBirds(c0, p)[e]
    {
      FlapsAt(c0, e, p);
    }
    SameMap(nv, FlapVelocities(c0, p));
    SameMap(nb, FlapBirds(c0, p));
    OthersEqual2(c, c0, Velocity, Bird, Overlay(c0[Velocity], FlapVelocities(c0, p)), Overlay(c0[Bird], FlapBirds(c0, p)));
  }

  /** The scan of the `gameState` map at the head of `UserControl`: some entry is "over". */
  method AnyOver(states: Store<Value>) returns (over: bool)
    requires states.Valid()
    ensures over <==> exists e :: e in states.vals && states.vals[e] == StateVal(Over)
  {
    KeysIn(states);
    for i := 0 to |states.keys|
      invariant forall k :: 0 <= k < i ==> states.vals[states.keys[k]] != StateVal(Over)
    {
      if states.vals[states.keys[i]] == StateVal(Over) {
        return true;
      }
    }
    forall e | e in states.vals
      ensures states.vals[e] != StateVal(Over)
    {
      var k :| 0 <= k < |states.keys| && states.keys[k] == e;
    }
    return false;
  }

  /** `UserControl(world, delta)` with the up key `up`. */
  method UserControlSystem(w: World, delta: real, up: bool)
    requires w.Valid() && GameState in w.components && Bird in w.components && Velocity in w.components
    modifies w
    ensures w.Valid()
    ensures w.components == Controlled(old(w.components), Press(old(w.currentTime) + delta, up))
    ensures w.lastAssignedId == old(w.lastAssignedId) && w.active == old(w.active) && w.currentTime == old(w.currentTime)
  {
    ghost var c0 := w.components;
    var p := Press(w.currentTime + delta, up);
    var over := AnyOver(w.components[GameState]);
    if over {
      assert IsOver(c0);
      assert Controlled(c0, p) == c0;
      return;
    }
    assert !IsOver(c0);
    var rows := w.EntitiesWithComponents(ControlQuery);
    JoinLive(c0, w.active, w.lastAssignedId, ControlQuery);
    WriteRows2(w, Velocity, Bird, rows, FlapVelocity, FlapBird, p);
    ControlledEnd(c0, w.components, p);
  }

  /*
    `PipeCollision`.
   */

  const BirdQuery: seq<Name> := [Bird, Position]
  const PipeQuery: seq<Name> := [Pipe, Position]

  /** A bird position strictly inside the pipe rectangle whose top-left corner is `p`. */
  predicate Inside(b: Vec, p: Vec)
  {
    b.x > p.x && b.x < p.x + PipeWidth && b.y > p.y && b.y < p.y + PipeHeight
  }

  /** The bird `b` touches the pipe `q`. */
  predicate Touches(c: Holder, b: int, q: int)
  {
    && Has(c, Bird, b) && Has(c, Position, b) && Has(c, Pipe, q) && Has(c, Position, q)
    && Inside(AsVec(c[Position].vals[b]), AsVec(c[Position].vals[q]))
  }

  /** Some bird touches some pipe. */
  predicate Collision(c: Holder)
  {
    Position in c && exists b, q :: b in c[Position].vals && q in c[Position].vals && Touches(c, b, q)
  }

  /** The components after `PipeCollision`: a touch ends the game, and nothing else changes. */
  function Collided(c: Holder): Holder
    requires GameState in c
  {
    if Collision(c) then EndGame(c) else c
  }

  /** `PipeCollision` keeps "over" permanent, and ends the game exactly on a collision. */
  lemma CollidedStaysOver(c: Holder)
    requires GameState in c
    ensures StaysOver(c, Collided(c))
    ensures Collision(c) ==> Collided(c) == EndGame(c)
    ensures !Collision(c) ==> Collided(c) == c
  {
    if Collision(c) {
      EndGameFacts(c);
    }
  }

  /** The loop's test for pipe row `i` and bird row `j`. */
  predicate RowsTouch(birds: seq<Row>, pipes: seq<Row>, i: nat, j: nat)
    requires i < |pipes| && j < |birds|
  {
    Inside(AsVec(Slot(birds[j], 1)), AsVec(Slot(pipes[i], 1)))
  }

  /** A bird touching a pipe shows up as a pair of rows that passes the test. */
  lemma TouchIsRows(c: Holder, b: int, q: int) returns (i: nat, j: nat)
    requires StoresValid(c) && Touches(c, b, q)
    ensures i < |Join(c, PipeQuery)| && j < |Join(c, BirdQuery)|
    ensures RowsTouch(Join(c, BirdQuery), Join(c, PipeQuery), i, j)
  {
    assert Matches(c, BirdQuery, b) && Matches(c, PipeQuery, q);
    j := JoinIndex(c, BirdQuery, b);
    i := JoinIndex(c, PipeQuery, q);
    assert Slot(Join(c, BirdQuery)[j], 1) == Get(c, Position, b);
    assert Slot(Join(c, PipeQuery)[i], 1) == Get(c, Position, q);
  }

  /** A pair of rows that passes the test is a bird touching a pipe. */
  lemma RowsAreTouch(c: Holder, i: nat, j: nat)
    requires StoresValid(c) && i < |Join(c, PipeQuery)| && j < |Join(c, BirdQuery)|
    requires RowsTouch(Join(c, BirdQuery), Join(c, PipeQuery), i, j)
    ensures Touches(c, Join(c, BirdQuery)[j].entity, Join(c, PipeQuery)[i].entity)
  {
    JoinRow(c, BirdQuery, j);
    JoinRow(c, PipeQuery, i);
    assert Has(c, BirdQuery[1], Join(c, BirdQuery)[j].entity);
    assert Has(c, PipeQuery[1], Join(c, PipeQuery)[i].entity);
  }

  /** A pair of rows passes the test exactly when some bird touches some pipe. */
  lemma RowsCollide(c: Holder)
    requires StoresValid(c)
    ensures var birds := Join(c, BirdQuery); var pipes := Join(c, PipeQuery);
      Collision(c) <==> exists i, j :: 0 <= i < |pipes| && 0 <= j < |birds| && RowsTouch(birds, pipes, i, j)
  {
    var birds := Join(c, BirdQuery);
    var pipes := Join(c, PipeQuery);
    if Collision(c) {
      var b, q :| b in c[Position].vals && q in c[Position].vals && Touches(c, b, q);
      var i, j := TouchIsRows(c, b, q);
    }
    if i, j :| 0 <= i < |pipes| && 0 <= j < |birds| && RowsTouch(birds, pipes, i, j) {
      RowsAreTouch(c, i, j);
      assert Position in c;
    }
  }

  /** `PipeCollision(world)`: pipes in the outer loop, birds in the inner; the first touch ends the game and the run. */
  method PipeCollision(w: World)
    requires w.Valid() && GameState in w.components && Position in w.components
    modifies w
    ensures w.Valid()
    ensures w.components == Collided(old(w.components))
    ensures w.lastAssignedId == old(w.lastAssignedId) && w.active == old(w.active) && w.currentTime == old(w.currentTime)
  {
    ghost var c0 := w.components;
    var birds := w.EntitiesWithComponents(BirdQuery);
    var pipes := w.EntitiesWithComponents(PipeQuery);
    RowsCollide(c0);
    for i := 0 to |pipes|
      invariant w.components == c0
      invariant forall i', j :: 0 <= i' < i && 0 <= j < |birds| ==> !RowsTouch(birds, pipes, i', j)
    {
      for j := 0 to |birds|
        invariant w.components == c0
        invariant forall j' :: 0 <= j' < j ==> !RowsTouch(birds, pipes, i, j')
      {
        if Inside(AsVec(Slot(birds[j], 1)), AsVec(Slot(pipes[i], 1))) {
          assert RowsTouch(birds, pipes, i, j);
          MarkGameOver(w);
          return;
        }
      }
    }
  }

  /*
    `Bounce`.
   */

  const BounceQuery: seq<Name> := [Bird, Position, Velocity]

  /** The bird leaves the playfield through the ground or the ceiling. */
  predicate OutOfField(y: real)
  {
    y > Ground || y < 0.0
  }

  /** The new height and vertical speed: on the ground up to half the speed back, at the ceiling a stop. */
  function Fall(y: real, vy: real): (real, real)
  {
    if y > Ground then (Ground, vy * -0.5)
    else if y < 0.0 then (0.0, 0.0)
    else (y, vy)
  }

  /** The loop body's write to `position` for a row `[entity, bird, position, velocity]`. */
  function FallPosition(row: Row, u: ()): Option<Value>
  {
    var pos := AsVec(Slot(row, 1));
    if OutOfField(pos.y) then Some(VecVal(Vec(pos.x, Fall(pos.y, AsVec(Slot(row, 2)).y).0))) else None
  }

  /** Its write to `velocity`. */
  function FallVelocity(row: Row, u: ()): Option<Value>
  {
    var vel := AsVec(Slot(row, 2));
    if OutOfField(AsVec(Slot(row, 1)).y) then Some(VecVal(Vec(vel.x, Fall(AsVec(Slot(row, 1)).y, vel.y).1))) else None
  }

  /** The row calls `gameOver()`. */
  predicate RowHits(row: Row)
  {
    OutOfField(AsVec(Slot(row, 1)).y)
  }

  /** One of the first `i` rows calls `gameOver()`. */
  predicate HitIn(rows: seq<Row>, i: nat)
    requires i <= |rows|
  {
    i > 0 && (HitIn(rows, i - 1) || RowHits(rows[i - 1]))
  }

  /** The bird `e`, with a position and a velocity, leaves the playfield. */
  predicate Bouncing(c: Holder, e: int)
  {
    Has(c, Bird, e) && Has(c, Position, e) && Has(c, Velocity, e) && OutOfField(AsVec(c[Position].vals[e]).y)
  }

  /** Some bird leaves the playfield. */
  predicate Grounded(c: Holder)
  {
    Position in c && exists e :: e in c[Position].vals && Bouncing(c, e)
  }

  function FallPositions(c: Holder): (nv: map<int, Value>)
    requires Position in c
    ensures nv.Keys <= c[Position].vals.Keys
  {
    map e | e in c[Position].vals && Bouncing(c, e) ::
      var pos := AsVec(c[Position].vals[e]);
      VecVal(Vec(pos.x, Fall(pos.y, AsVec(c[Velocity].vals[e]).y).0))
  }

  function FallVelocities(c: Holder): (nv: map<int, Value>)
    requires Velocity in c
    ensures nv.Keys <= c[Velocity].vals.Keys
  {
    map e | e in c[Velocity].vals && Bouncing(c, e) ::
      var vel := AsVec(c[Velocity].vals[e]);
      VecVal(Vec(vel.x, Fall(AsVec(c[Position].vals[e]).y, vel.y).1))
  }

  /** The positions and velocities after the loop, before `gameOver`. */
  function Fallen(c: Holder): Holder
    requires Position in c && Velocity in c
  {
    c[Position := Overlay(c[Position], FallPositions(c))][Velocity := Overlay(c[Velocity], FallVelocities(c))]
  }

  /** The components after `Bounce`: a bird out of the field ends the game. */
  function BirdBounced(c: Holder): Holder
    requires Position in c && Velocity in c && GameState in c
  {
    Fallen(c)[GameState := if Grounded(c) then AllOver(c[GameState]) else c[GameState]]
  }

  /**
    `Bounce` writes the fallen positions and velocities, ends the game
    exactly when some bird left the field, and changes no other map; "over"
    is permanent.
   */
  lemma BirdBouncedMaps(c: Holder)
    requires Position in c && Velocity in c && GameState in c
    ensures var d := BirdBounced(c);
      && d.Keys == c.Keys
      && (forall n :: n in c && n != Position && n != Velocity && n != GameState ==> d[n] == c[n])
      && d[Position] == Overlay(c[Position], FallPositions(c))
      && d[Velocity] == Overlay(c[Velocity], FallVelocities(c))
      && d[GameState] == if Grounded(c) then AllOver(c[GameState]) else c[GameState]
  {
  }

  /** After `Bounce` "over" is permanent, and the game is over once a bird left the field and there is a `gameState` entry. */
  lemma BounceStaysOver(c: Holder)
    requires Position in c && Velocity in c && GameState in c
    ensures StaysOver(c, BirdBounced(c))
    ensures Grounded(c) && (exists e :: e in c[GameState].vals) ==> IsOver(BirdBounced(c))
  {
    EndGameFacts(c);
    assert BirdBounced(c)[GameState] == EndGame(c)[GameState] || BirdBounced(c)[GameState] == c[GameState];
  }

  /**
    A bird below the ground is put on it and sent back up at half its speed;
    a bird above the ceiling is put on it and stopped; either keeps its
    horizontal position and speed.  Any other entry is untouched.
   */
  lemma BirdBouncedAt(c: Holder, e: int)
    requires Position in c && Velocity in c && GameState in c
    ensures var d := BirdBounced(c);
      Bouncing(c, e) ==>
        var pos := AsVec(c[Position].vals[e]);
        var vel := AsVec(c[Velocity].vals[e]);
        && AsVec(d[Position].vals[e]).x == pos.x && AsVec(d[Velocity].vals[e]).x == vel.x
        && (pos.y > Ground ==> AsVec(d[Position].vals[e]).y == Ground && AsVec(d[Velocity].vals[e]).y == -0.5 * vel.y)
        && (pos.y < 0.0 ==> AsVec(d[Position].vals[e]).y == 0.0 && AsVec(d[Velocity].vals[e]).y == 0.0)
    ensures var d := BirdBounced(c);
      !Bouncing(c, e) ==>
        (e in c[Position].vals ==> d[Position].vals[e] == c[Position].vals[e])
        && (e in c[Velocity].vals ==> d[Velocity].vals[e] == c[Velocity].vals[e])
  {
    assert BirdBounced(c)[Position] == Overlay(c[Position], FallPositions(c));
    assert BirdBounced(c)[Velocity] == Overlay(c[Velocity], FallVelocities(c));
  }

  /** After `Bounce` every bird with a position and a velocity lies between the ceiling and the ground. */
  lemma BirdBouncedInField(c: Holder, e: int)
    requires Position in c && Velocity in c && GameState in c
    requires Has(c, Bird, e) && Has(c, Position, e) && Has(c, Velocity, e)
    ensures 0.0 <= AsVec(BirdBounced(c)[Position].vals[e]).y <= Ground
  {
    var d := BirdBounced(c)[Position];
    assert d == Overlay(c[Position], FallPositions(c));
    if Bouncing(c, e) {
      assert d.vals[e] == FallPositions(c)[e];
    } else {
      assert d.vals[e] == c[Position].vals[e];
    }
  }

  /** `gameOver` a second time changes nothing. */
  lemma AllOverTwice(s: Store<Value>)
    ensures AllOver(AllOver(s)) == AllOver(s)
  {
  }

  /** `HitIn` is "some row among the first `i`". */
  lemma {:induction false} HitInSome(rows: seq<Row>, i: nat)
    requires i <= |rows|
    ensures HitIn(rows, i) <==> exists k :: 0 <= k < i && RowHits(rows[k])
  {
    if i > 0 {
      HitInSome(rows, i - 1);
      if HitIn(rows, i) && !RowHits(rows[i - 1]) {
        var k :| 0 <= k < i - 1 && RowHits(rows[k]);
      }
    }
  }

  /** A bird leaving the field shows up as a row that calls `gameOver()`. */
  lemma BouncingRow(c: Holder, e: int) returns (k: nat)
    requires StoresValid(c) && Bouncing(c, e)
    ensures k < |Join(c, BounceQuery)| && RowHits(Join(c, BounceQuery)[k])
  {
    assert Matches(c, BounceQuery, e);
    k := JoinIndex(c, BounceQuery, e);
    assert Slot(Join(c, BounceQuery)[k], 1) == Get(c, Position, e);
  }

  /** A row that calls `gameOver()` is a bird leaving the field. */
  lemma RowBouncing(c: Holder, k: nat)
    requires StoresValid(c) && k < |Join(c, BounceQuery)| && RowHits(Join(c, BounceQuery)[k])
    ensures Bouncing(c, Join(c, BounceQuery)[k].entity)
  {
    JoinRow(c, BounceQuery, k);
    var e := Join(c, BounceQuery)[k].entity;
    assert Has(c, BounceQuery[1], e) && Has(c, BounceQuery[2], e);
  }

  /** Some row of the query calls `gameOver()` exactly when some bird leaves the field. */
  lemma GroundedRows(c: Holder)
    requires StoresValid(c)
    ensures var rows := Join(c, BounceQuery); Grounded(c) <==> HitIn(rows, |rows|)
  {
    var rows := Join(c, BounceQuery);
    if Grounded(c) {
      var e :| e in c[Position].vals && Bouncing(c, e);
      var k := BouncingRow(c, e);
      HitInSome(rows, |rows|);
    }
    HitInSome(rows, |rows|);
    if HitIn(rows, |rows|) {
      var k :| 0 <= k < |rows| && RowHits(rows[k]);
      RowBouncing(c, k);
      assert Position in c;
    }
  }

  /** The loop's two writes for the row of `e`. */
  lemma FallAt(c: Holder, e: int)
    ensures Matches(c, BounceQuery, e) <==> Has(c, Position, e) && Has(c, Velocity, e)
    ensures Has(c, Bird, e) && Has(c, Position, e) && Has(c, Velocity, e) ==>
      && (FallPosition(Row(e, Values(c, BounceQuery, e)), ()).Some? <==> Bouncing(c, e))
      && (FallVelocity(Row(e, Values(c, BounceQuery, e)), ()).Some? <==> Bouncing(c, e))
      && (Bouncing(c, e) ==> FallPosition(Row(e, Values(c, BounceQuery, e)), ()).value == FallPositions(c)[e])
      && (Bouncing(c, e) ==> FallVelocity(Row(e, Values(c, BounceQuery, e)), ()).value == FallVelocities(c)[e])
  {
    var vs := Values(c, BounceQuery, e);
    assert vs[1] == Get(c, Position, e) && vs[2] == Get(c, Velocity, e);
    assert Matches(c, BounceQuery, e) <== Has(c, Position, e) && Has(c, Velocity, e);
    assert Matches(c, BounceQuery, e) ==> Has(c, BounceQuery[1], e) && Has(c, BounceQuery[2], e);
  }

  /** What holds of the world after the first `i` rows of `Bounce`, started from `c0`. */
  predicate BounceAfter(c: Holder, c0: Holder, rows: seq<Row>, i: nat)
    requires Position in c0 && Velocity in c0 && GameState in c0 && i <= |rows|
  {
    && GameState in c
    && Others2(c, c0[GameState := c[GameState]], Position, Velocity)
    && c[Position] == RunStore(c0[Position], rows, FallPosition, (), i)
    && c[Velocity] == RunStore(c0[Velocity], rows, FallVelocity, (), i)
    && c[GameState] == if HitIn(rows, i) then AllOver(c0[GameState]) else c0[GameState]
  }

  /** Writing two maps and then the `gameState` map is writing the `gameState` map first. */
  lemma UpdatesCommute(c: Holder, g: Store<Value>, x: Store<Value>, y: Store<Value>)
    ensures c[GameState := g][Position := x][Velocity := y] == c[Position := x][Velocity := y][GameState := g]
  {
  }

  lemma BounceEnd(c0: Holder, c: Holder, rows: seq<Row>)
    requires StoresValid(c0) && Position in c0 && Velocity in c0 && GameState in c0
    requires rows == Join(c0, BounceQuery) && BounceAfter(c, c0, rows, |rows|)
    ensures c == BirdBounced(c0)
  {
    JoinStore(c0, BounceQuery, 1, FallPosition, ());
    JoinStore(c0, BounceQuery, 2, FallVelocity, ());
    var np := NewValues(rows, FallPosition, ());
    var nw := NewValues(rows, FallVelocity, ());
    forall e
      ensures e in np <==> e in FallPositions(c0)
      ensures e in np ==> np[e] == FallPositions(c0)[e]
      ensures e in nw <==> e in FallVelocities(c0)
      ensures e in nw ==> nw[e] == FallVelocities(c0)[e]
    {
      FallAt(c0, e);
    }
    SameMap(np, FallPositions(c0));
    SameMap(nw, FallVelocities(c0));
    var x := Overlay(c0[Position], FallPositions(c0));
    var y := Overlay(c0[Velocity], FallVelocities(c0));
    OthersEqual2(c, c0[GameState := c[GameState]], Position, Velocity, x, y);
    UpdatesCommute(c0, c[GameState], x, y);
    GroundedRows(c0);
  }

  /** After a row's writes the record is still the start with its `gameState` map replaced, apart from the two written maps. */
  lemma RowFrame(c0: Holder, g: Store<Value>, c: Holder)
    requires Others2(c, c0[GameState := g], Position, Velocity)
    ensures GameState in c && c[GameState] == g && Others2(c, c0[GameState := c[GameState]], Position, Velocity)
  {
  }

  /** `gameOver` inside the loop changes only the `gameState` map. */
  lemma OverFrame(c0: Holder, c: Holder)
    requires Position in c0 && Velocity in c0 && GameState in c && Others2(c, c0[GameState := c[GameState]], Position, Velocity)
    ensures Others2(EndGame(c), c0[GameState := EndGame(c)[GameState]], Position, Velocity)
    ensures EndGame(c)[Position] == c[Position] && EndGame(c)[Velocity] == c[Velocity]
  {
  }

  /** The `gameState` map after row `i`: "over" once some row so far called `gameOver()`. */
  lemma GameStateStep(s0: Store<Value>, rows: seq<Row>, i: nat, g: Store<Value>, g': Store<Value>)
    requires i < |rows|
    requires g == if HitIn(rows, i) then AllOver(s0) else s0
    requires g' == if RowHits(rows[i]) then AllOver(g) else g
    ensures g' == if HitIn(rows, i + 1) then AllOver(s0) else s0
  {
    AllOverTwice(s0);
  }

  lemma BounceStart(c0: Holder, rows: seq<Row>)
    requires Position in c0 && Velocity in c0 && GameState in c0
    ensures BounceAfter(c0, c0, rows, 0)
  {
    assert c0[GameState := c0[GameState]] == c0;
  }

  /** Turn `i` of `Bounce`: the row's writes, then `gameOver()` if the bird left the field. */
  method BounceRow(w: World, rows: seq<Row>, i: nat, ghost c0: Holder)
    requires w.Valid() && Position in c0 && Velocity in c0 && GameState in c0 && i < |rows|
    requires rows[i].entity in w.active
    requires BounceAfter(w.components, c0, rows, i)
    modifies w
    ensures w.Valid()
    ensures w.lastAssignedId == old(w.lastAssignedId) && w.active == old(w.active) && w.currentTime == old(w.currentTime)
    ensures BounceAfter(w.components, c0, rows, i + 1)
  {
    ghost var g := w.components[GameState];
    ghost var c1 := c0[GameState := g];
    assert c1[Position] == c0[Position] && c1[Velocity] == c0[Velocity];
    WriteRow2(w, Position, Velocity, rows, FallPosition, FallVelocity, (), i, c1);
    RowFrame(c0, g, w.components);
    if RowHits(rows[i]) {
      ghost var cb := w.components;
      MarkGameOver(w);
      OverFrame(c0, cb);
    }
    GameStateStep(c0[GameState], rows, i, g, w.components[GameState]);
  }

  /** The loop of `Bounce` over its rows. */
  method BounceRows(w: World, rows: seq<Row>)
    requires w.Valid() && GameState in w.components && Position in w.components && Velocity in w.components
    requires forall k :: 0 <= k < |rows| ==> rows[k].entity in w.active
    modifies w
    ensures w.Valid()
    ensures BounceAfter(w.components, old(w.components), rows, |rows|)
    ensures w.lastAssignedId == old(w.lastAssignedId) && w.active == old(w.active) && w.currentTime == old(w.currentTime)
  {
    ghost var c0 := w.components;
    BounceStart(c0, rows);
    var i := 0;
    while i < |rows|
      invariant 0 <= i <= |rows|
      invariant w.Valid()
      invariant w.lastAssignedId == old(w.lastAssignedId) && w.active == old(w.active) && w.currentTime == old(w.currentTime)
      invariant BounceAfter(w.components, c0, rows, i)
    {
      BounceRow(w, rows, i, c0);
      i := i + 1;
    }
  }

  /** `Bounce(world)`. */
  method Bounce(w: World)
    requires w.Valid() && GameState in w.components && Position in w.components && Velocity in w.components
    modifies w
    ensures w.Valid()
    ensures w.components == BirdBounced(old(w.components))
    ensures w.lastAssignedId == old(w.lastAssignedId) && w.active == old(w.active) && w.currentTime == old(w.currentTime)
  {
    ghost var c0 := w.components;
    var rows := w.EntitiesWithComponents(BounceQuery);
    JoinLive(c0, w.active, w.lastAssignedId, BounceQuery);
    BounceRows(w, rows);
    BounceEnd(c0, w.components, rows);
  }

  /*
    `RespawnPipes` and `RespawnBackgroundTiles`.
   */

  /** How far a pipe jumps to the right: `(SPACE_BETWEEN_PIPES + PIPE_WIDTH) * PIPES_COUNT + SPACE_BETWEEN_PIPES`. */
  const PipeShift: real := (SpaceBetweenPipes + PipeWidth) * PipesCount + SpaceBetweenPipes

  /** How far a background tile jumps: `BACKGROUND_TILE_WIDTH * BACKGROUND_TILES_COUNT`. */
  const TileShift: real := BackgroundTileWidth * BackgroundTilesCount

  /** A pipe jumps one world width plus one gap; a tile one world width plus one tile. */
  lemma Shifts()
    ensures PipeShift == WorldWidth + SpaceBetweenPipes == 1150.0
    ensures TileShift == WorldWidth + BackgroundTileWidth == 1300.0
  {
  }

  /** The settings of one respawn system: the query's tag, the left edge `-limit`, and the jump. */
  datatype Respawn = Respawn(tag: Name, limit: real, shift: real)

  const PipeRespawn: Respawn := Respawn(Pipe, PipeWidth, PipeShift)
  const TileRespawn: Respawn := Respawn(Tile, BackgroundTileWidth, TileShift)

  /** The new `x`: past the left edge it jumps right by `shift`. */
  function Wrap(x: real, r: Respawn): real
  {
    if x < -r.limit then x + r.shift else x
  }

  /**
    A position past the left edge by less than one jump reappears at or
    right of the edge and left of `shift - limit`; a position at or right of
    the edge stays, so a second run changes nothing more.
   */
  lemma WrapLands(x: real, r: Respawn)
    requires r.shift > 0.0
    ensures -r.limit - r.shift <= x < -r.limit ==> -r.limit <= Wrap(x, r) < r.shift - r.limit
    ensures x >= -r.limit ==> Wrap(x, r) == x
    ensures -r.limit - r.shift <= x ==> Wrap(Wrap(x, r), r) == Wrap(x, r)
    ensures Wrap(x, r) >= x
  {
  }

  function RespawnQuery(r: Respawn): seq<Name>
  {
    [r.tag, Position]
  }

  /** The loop body's write to `position` for a row `[entity, tag, position]`. */
  function RespawnStep(row: Row, r: Respawn): Option<Value>
  {
    var pos := AsVec(Slot(row, 1));
    if pos.x < -r.limit then Some(VecVal(Vec(Wrap(pos.x, r), pos.y))) else None
  }

  /** The new positions: one for every tagged entity past the left edge. */
  function Respawns(c: Holder, r: Respawn): (nv: map<int, Value>)
    requires Position in c
    ensures nv.Keys <= c[Position].vals.Keys
  {
    map e | e in c[Position].vals && Has(c, r.tag, e) && AsVec(c[Position].vals[e]).x < -r.limit ::
      var pos := AsVec(c[Position].vals[e]);
      VecVal(Vec(Wrap(pos.x, r), pos.y))
  }

  /** The components after the respawn system `r`. */
  function Respawned(c: Holder, r: Respawn): Holder
    requires Position in c
  {
    c[Position := Overlay(c[Position], Respawns(c, r))]
  }

  /**
    A tagged entity past the left edge jumps right by `shift` and keeps its
    height; every other position is kept; the position map keeps its keys
    and order, and no other map changes.
   */
  lemma RespawnedFacts(c: Holder, r: Respawn, e: int)
    requires Position in c
    ensures Has(c, r.tag, e) && Has(c, Position, e) && AsVec(c[Position].vals[e]).x < -r.limit ==>
      Respawned(c, r)[Position].vals[e] == VecVal(Vec(AsVec(c[Position].vals[e]).x + r.shift, AsVec(c[Position].vals[e]).y))
    ensures Has(c, Position, e) && !(Has(c, r.tag, e) && AsVec(c[Position].vals[e]).x < -r.limit) ==>
      Respawned(c, r)[Position].vals[e] == c[Position].vals[e]
    ensures Respawned(c, r).Keys == c.Keys
    ensures Respawned(c, r)[Position].keys == c[Position].keys
    ensures Respawned(c, r)[Position].vals.Keys == c[Position].vals.Keys
    ensures forall n :: n in c && n != Position ==> Respawned(c, r)[n] == c[n]
  {
  }

  /** A respawn system touches no `gameState` entry, so "over" stays permanent. */
  lemma RespawnedStaysOver(c: Holder, r: Respawn)
    requires Position in c
    ensures StaysOver(c, Respawned(c, r))
  {
    RespawnedFacts(c, r, 0);
  }

  /** The loop's write for the row of `e`. */
  lemma RespawnAt(c: Holder, r: Respawn, e: int)
    requires Position in c
    ensures Has(c, r.tag, e) && Matches(c, RespawnQuery(r), e) && RespawnStep(Row(e, Values(c, RespawnQuery(r), e)), r).Some?
      <==> e in Respawns(c, r)
    ensures e in Respawns(c, r) ==> RespawnStep(Row(e, Values(c, RespawnQuery(r), e)), r).value == Respawns(c, r)[e]
  {
    var q := RespawnQuery(r);
    assert Values(c, q, e)[1] == Get(c, Position, e);
    assert Matches(c, q, e) <==> Has(c, Position, e);
  }

  lemma RespawnEnd(c0: Holder, c: Holder, r: Respawn)
    requires StoresValid(c0) && Position in c0 && Others(c, c0, Position)
    requires c[Position] == RunStore(c0[Position], Join(c0, RespawnQuery(r)), RespawnStep, r, |Join(c0, RespawnQuery(r))|)
    ensures c == Respawned(c0, r)
  {
    var q := RespawnQuery(r);
    JoinStore(c0, q, 1, RespawnStep, r);
    var nv := NewValues(Join(c0, q), RespawnStep, r);
    forall e
      ensures e in nv <==> e in Respawns(c0, r)
      ensures e in nv ==> nv[e] == Respawns(c0, r)[e]
    {
      RespawnAt(c0, r, e);
    }
    SameMap(nv, Respawns(c0, r));
    OthersEqual(c, c0, Position, Overlay(c0[Position], Respawns(c0, r)));
  }

  /** One respawn system: every tagged position past the left edge jumps right. */
  method RespawnSystem(w: World, r: Respawn)
    requires w.Valid() && Position in w.components
    modifies w
    ensures w.Valid()
    ensures w.components == Respawned(old(w.components), r)
    ensures w.lastAssignedId == old(w.lastAssignedId) && w.active == old(w.active) && w.currentTime == old(w.currentTime)
  {
    ghost var c0 := w.components;
    var rows := w.EntitiesWithComponents(RespawnQuery(r));
    JoinLive(c0, w.active, w.lastAssignedId, RespawnQuery(r));
    WriteRows(w, Position, rows, RespawnStep, r);
    RespawnEnd(c0, w.components, r);
  }

  /** `RespawnPipes(world)`. */
  method RespawnPipes(w: World)
    requires w.Valid() && Position in w.components
    modifies w
    ensures w.Valid()
    ensures w.components == Respawned(old(w.components), PipeRespawn)
    ensures w.lastAssignedId == old(w.lastAssignedId) && w.active == old(w.active) && w.currentTime == old(w.currentTime)
  {
    RespawnSystem(w, PipeRespawn);
  }

  /** `RespawnBackgroundTiles(world)`. */
  method RespawnBackgroundTiles(w: World)
    requires w.Valid() && Position in w.components
    modifies w
    ensures w.Valid()
    ensures w.components == Respawned(old(w.components), TileRespawn)
    ensures w.lastAssignedId == old(w.lastAssignedId) && w.active == old(w.active) && w.currentTime == old(w.currentTime)
  {
    RespawnSystem(w, TileRespawn);
  }

  /*
    `GameOver`.
   */

  /** The message shown once the game is over. */
  const GameOverText: Text := Text("Game Over", "100px Times New Roman", "orange", 250.0, 250.0)

  /** The `gameState` entry of `e` is "over". */
  predicate OverAt(g: Store<Value>, e: int)
  {
    e in g.vals && g.vals[e] == StateVal(Over)
  }

  /** The `canvasText` map after the loop's first `i` turns: an "over" entity without a text gets the message. */
  function Messages(t: Store<Value>, g: Store<Value>, i: nat): Store<Value>
    requires i <= |g.keys|
  {
    if i == 0 then t
    else
      var r := Messages(t, g, i - 1);
      var e := g.keys[i - 1];
      if OverAt(g, e) && e !in r.vals then r.Set(e, TextVal(GameOverText)) else r
  }

  /** One of the first `i` entries of `g` is "over". */
  predicate OverIn(g: Store<Value>, i: nat)
    requires i <= |g.keys|
  {
    i > 0 && (OverIn(g, i - 1) || OverAt(g, g.keys[i - 1]))
  }

  /** The entities that carry the component `tag`. */
  function Tagged(c: Holder, tag: Name): set<int>
  {
    if tag in c then c[tag].vals.Keys else {}
  }

  /** The new velocities of a halt: the velocities of `tagged` with `x` set to `0`. */
  function HaltsOf(v: Store<Value>, tagged: set<int>): (nv: map<int, Value>)
    ensures nv.Keys <= v.vals.Keys
  {
    map e | e in v.vals && e in tagged :: VecVal(Vec(0.0, AsVec(v.vals[e]).y))
  }

  /** The velocities once pipes and tiles are halted. */
  function Halted(c: Holder): Store<Value>
    requires Velocity in c
  {
    Overlay(c[Velocity], HaltsOf(c[Velocity], Tagged(c, Pipe) + Tagged(c, Tile)))
  }

  /** The components after `GameOver`. */
  function GameOverShown(c: Holder): Holder
    requires GameState in c && CanvasText in c && Velocity in c
  {
    var g := c[GameState];
    c[CanvasText := Messages(c[CanvasText], g, |g.keys|)][Velocity := if OverIn(g, |g.keys|) then Halted(c) else c[Velocity]]
  }

  /**
    The messages: a text that was there stays; among the first `i` entries
    every "over" one ends up with a text; a text that was not there is the
    message and belongs to an "over" entity; the texts that were there keep
    their places in front.
   */
  lemma {:induction false} MessagesFacts(t: Store<Value>, g: Store<Value>, i: nat)
    requires t.Valid() && i <= |g.keys|
    ensures Messages(t, g, i).Valid()
    ensures t.vals.Keys <= Messages(t, g, i).vals.Keys
    ensures forall e :: e in t.vals ==> Messages(t, g, i).vals[e] == t.vals[e]
    ensures forall k :: 0 <= k < i && OverAt(g, g.keys[k]) ==> g.keys[k] in Messages(t, g, i).vals
    ensures forall e :: e in Messages(t, g, i).vals && e !in t.vals ==>
      Messages(t, g, i).vals[e] == TextVal(GameOverText) && OverAt(g, e)
    ensures |t.keys| <= |Messages(t, g, i).keys| && Messages(t, g, i).keys[..|t.keys|] == t.keys
  {
    if i > 0 {
      MessagesFacts(t, g, i - 1);
      var r := Messages(t, g, i - 1);
      var e := g.keys[i - 1];
      if OverAt(g, e) && e !in r.vals {
        assert r.Set(e, TextVal(GameOverText)).keys[..|t.keys|] == r.keys[..|t.keys|];
      }
    }
  }

  /** With no "over" entry among the first `i`, no text is added. */
  lemma {:induction false} MessagesNone(t: Store<Value>, g: Store<Value>, i: nat)
    requires i <= |g.keys| && !OverIn(g, i)
    ensures Messages(t, g, i) == t
  {
    if i > 0 {
      MessagesNone(t, g, i - 1);
    }
  }

  /** `OverIn` over all keys is `IsOver`. */
  lemma {:induction false} OverInSome(g: Store<Value>, i: nat)
    requires i <= |g.keys|
    ensures OverIn(g, i) <==> exists k :: 0 <= k < i && OverAt(g, g.keys[k])
  {
    if i > 0 {
      OverInSome(g, i - 1);
      if OverIn(g, i) && !OverAt(g, g.keys[i - 1]) {
        var k :| 0 <= k < i - 1 && OverAt(g, g.keys[k]);
      }
    }
  }

  lemma OverInIsOver(c: Holder)
    requires GameState in c && c[GameState].Valid()
    ensures OverIn(c[GameState], |c[GameState].keys|) <==> IsOver(c)
  {
    var g := c[GameState];
    OverInSome(g, |g.keys|);
    KeysIn(g);
    if IsOver(c) {
      var e :| e in g.vals && g.vals[e] == StateVal(Over);
      assert e in g.keys;
      var k :| 0 <= k < |g.keys| && g.keys[k] == e;
      assert OverAt(g, g.keys[k]);
    }
  }

  /** Halting pipes, then tiles, is one halt of both. */
  lemma HaltsCompose(v: Store<Value>, a: set<int>, b: set<int>)
    ensures var h := Overlay(v, HaltsOf(v, a));
      Overlay(h, HaltsOf(h, b)) == Overlay(v, HaltsOf(v, a + b))
  {
    var h := Overlay(v, HaltsOf(v, a));
    SameMap((h.vals + HaltsOf(h, b)), (v.vals + HaltsOf(v, a + b)));
  }

  /** Halting halted velocities changes nothing. */
  lemma HaltsFixed(v: Store<Value>, a: set<int>)
    ensures var h := Overlay(v, HaltsOf(v, a)); Overlay(h, HaltsOf(h, a)) == h
  {
    var h := Overlay(v, HaltsOf(v, a));
    SameMap(h.vals + HaltsOf(h, a), h.vals);
  }

  /** The pass over `[tag, velocity]` writes `HaltsOf` for the entities carrying `tag`. */
  lemma HaltRun(c: Holder, tag: Name)
    requires StoresValid(c) && Velocity in c
    ensures var q := [tag, Velocity];
      RunStore(c[Velocity], Join(c, q), HaltStep, (), |Join(c, q)|) == Overlay(c[Velocity], HaltsOf(c[Velocity], Tagged(c, tag)))
  {
    var q := [tag, Velocity];
    JoinStore(c, q, 1, HaltStep, ());
    var nv := NewValues(Join(c, q), HaltStep, ());
    forall e
      ensures e in nv <==> e in HaltsOf(c[Velocity], Tagged(c, tag))
      ensures e in nv ==> nv[e] == HaltsOf(c[Velocity], Tagged(c, tag))[e]
    {
      assert Values(c, q, e)[1] == Get(c, Velocity, e);
      assert Matches(c, q, e) <==> Has(c, Velocity, e);
    }
    SameMap(nv, HaltsOf(c[Velocity], Tagged(c, tag)));
  }

  /** The loop body of the two halting passes for a row `[entity, tag, velocity]`. */
  function HaltStep(row: Row, u: ()): Option<Value>
  {
    Some(VecVal(Vec(0.0, AsVec(Slot(row, 1)).y)))
  }

  /** A second write of a map replaces the first. */
  lemma UpdateTwice(c: Holder, n: Name, x: Store<Value>, y: Store<Value>)
    ensures c[n := x][n := y] == c[n := y]
  {
  }

  /** One halting pass: every velocity of an entity carrying `tag` gets `x = 0`. */
  method HaltPass(w: World, tag: Name)
    requires w.Valid() && Velocity in w.components
    modifies w
    ensures w.Valid()
    ensures w.components == old(w.components)[Velocity := Overlay(old(w.components)[Velocity], HaltsOf(old(w.components)[Velocity], Tagged(old(w.components), tag)))]
    ensures w.lastAssignedId == old(w.lastAssignedId) && w.active == old(w.active) && w.currentTime == old(w.currentTime)
  {
    ghost var c0 := w.components;
    var rows := w.EntitiesWithComponents([tag, Velocity]);
    JoinLive(c0, w.active, w.lastAssignedId, [tag, Velocity]);
    WriteRows(w, Velocity, rows, HaltStep, ());
    HaltRun(c0, tag);
    OthersEqual(w.components, c0, Velocity, Overlay(c0[Velocity], HaltsOf(c0[Velocity], Tagged(c0, tag))));
  }

  /** The two passes inside `GameOver`: every pipe's and then every tile's velocity gets `x = 0`. */
  method HaltAll(w: World)
    requires w.Valid() && Velocity in w.components
    modifies w
    ensures w.Valid()
    ensures w.components == old(w.components)[Velocity := Halted(old(w.components))]
    ensures w.lastAssignedId == old(w.lastAssignedId) && w.active == old(w.active) && w.currentTime == old(w.currentTime)
  {
    ghost var c0 := w.components;
    ghost var x := Overlay(c0[Velocity], HaltsOf(c0[Velocity], Tagged(c0, Pipe)));
    HaltPass(w, Pipe);
    ghost var c1 := w.components;
    assert c1[Velocity] == x && Tagged(c1, Tile) == Tagged(c0, Tile);
    HaltPass(w, Tile);
    HaltsCompose(c0[Velocity], Tagged(c0, Pipe), Tagged(c0, Tile));
    assert w.components == c1[Velocity := Halted(c0)];
    UpdateTwice(c0, Velocity, x, Halted(c0));
  }

  /** The state after the first `i` turns of `GameOver`, started from `c0`. */
  function GameOverAt(c0: Holder, i: nat): Holder
    requires GameState in c0 && CanvasText in c0 && Velocity in c0 && i <= |c0[GameState].keys|
  {
    var g := c0[GameState];
    c0[CanvasText := Messages(c0[CanvasText], g, i)][Velocity := if OverIn(g, i) then Halted(c0) else c0[Velocity]]
  }

  /** A halt in a later turn finds the velocities halted already, or halts them for the first time. */
  lemma HaltSettles(c0: Holder, m: Store<Value>, v: Store<Value>)
    requires Velocity in c0 && (v == c0[Velocity] || v == Halted(c0))
    ensures Halted(c0[CanvasText := m][Velocity := v]) == Halted(c0)
  {
    var c := c0[CanvasText := m][Velocity := v];
    assert Tagged(c, Pipe) + Tagged(c, Tile) == Tagged(c0, Pipe) + Tagged(c0, Tile);
    HaltsFixed(c0[Velocity], Tagged(c0, Pipe) + Tagged(c0, Tile));
  }

  /** What turn `i` adds: for an "over" entry its text where it has none, and the halt. */
  lemma TurnStep(c0: Holder, i: nat)
    requires GameState in c0 && CanvasText in c0 && Velocity in c0 && i < |c0[GameState].keys|
    ensures var g := c0[GameState]; var e := g.keys[i]; var m := Messages(c0[CanvasText], g, i);
      GameOverAt(c0, i + 1) ==
        if OverAt(g, e) then GameOverAt(c0, i)[CanvasText := if e in m.vals then m else m.Set(e, TextVal(GameOverText))][Velocity := Halted(c0)]
        else GameOverAt(c0, i)
  {
  }

  /** The body of `GameOver` for an "over" entity `e`: its message where it has no text, then the halt. */
  method ShowGameOver(w: World, e: int)
    requires w.Valid() && CanvasText in w.components && Velocity in w.components && e in w.active
    modifies w
    ensures w.Valid()
    ensures var c := old(w.components); var t := c[CanvasText];
      w.components == c[CanvasText := if e in t.vals then t else t.Set(e, TextVal(GameOverText))][Velocity := Halted(c)]
    ensures w.lastAssignedId == old(w.lastAssignedId) && w.active == old(w.active) && w.currentTime == old(w.currentTime)
  {
    ghost var c0 := w.components;
    var texts := w.components[CanvasText];
    if e !in texts.vals {
      w.SetComponent(CanvasText, e, TextVal(GameOverText));
    } else {
      assert c0[CanvasText := texts] == c0;
    }
    ghost var c1 := w.components;
    HaltAll(w);
    HaltSettles(c0, c1[CanvasText], c1[Velocity]);
  }

  /** Turn `i` of `GameOver`, for the entry `g.keys[i]` of the `gameState` map `g`. */
  method GameOverTurn(w: World, g: Store<Value>, i: nat, ghost c0: Holder)
    requires w.Valid() && GameState in c0 && CanvasText in c0 && Velocity in c0 && g == c0[GameState]
    requires i < |g.keys| && g.keys[i] in g.vals
    requires w.components == GameOverAt(c0, i)
    modifies w
    ensures w.Valid()
    ensures w.components == GameOverAt(c0, i + 1)
    ensures w.lastAssignedId == old(w.lastAssignedId) && w.active == old(w.active) && w.currentTime == old(w.currentTime)
  {
    TurnStep(c0, i);
    var e := g.keys[i];
    if g.vals[e] == StateVal(Over) {
      assert e in w.components[GameState].vals;
      ghost var c1 := w.components;
      ShowGameOver(w, e);
      HaltSettles(c0, c1[CanvasText], c1[Velocity]);
    }
  }

  /** `GameOver(world)`. */
  method GameOverSystem(w: World)
    requires w.Valid() && GameState in w.components && CanvasText in w.components && Velocity in w.components
    modifies w
    ensures w.Valid()
    ensures w.components == GameOverShown(old(w.components))
    ensures w.lastAssignedId == old(w.lastAssignedId) && w.active == old(w.active) && w.currentTime == old(w.currentTime)
  {
    ghost var c0 := w.components;
    var g := w.components[GameState];
    KeysIn(g);
    assert GameOverAt(c0, 0) == c0;
    for i := 0 to |g.keys|
      invariant w.Valid()
      invariant w.lastAssignedId == old(w.lastAssignedId) && w.active == old(w.active) && w.currentTime == old(w.currentTime)
      invariant w.components == GameOverAt(c0, i)
    {
      GameOverTurn(w, g, i, c0);
    }
  }

  /** While the game runs `GameOver` changes nothing. */
  lemma GameOverIdle(c: Holder)
    requires GameState in c && CanvasText in c && Velocity in c && c[GameState].Valid() && !IsOver(c)
    ensures GameOverShown(c) == c
  {
    var g := c[GameState];
    OverInIsOver(c);
    MessagesNone(c[CanvasText], g, |g.keys|);
    assert c[CanvasText := c[CanvasText]][Velocity := c[Velocity]] == c;
  }

  /** `GameOver` changes only the text and velocity maps. */
  lemma GameOverFrame(c: Holder)
    requires GameState in c && CanvasText in c && Velocity in c
    ensures var d := GameOverShown(c);
      && d.Keys == c.Keys
      && (forall n :: n in c && n != CanvasText && n != Velocity ==> d[n] == c[n])
  {
  }

  /** `GameOver` touches no `gameState` entry, so "over" stays permanent. */
  lemma GameOverStaysOver(c: Holder)
    requires GameState in c && CanvasText in c && Velocity in c
    ensures StaysOver(c, GameOverShown(c))
  {
    GameOverFrame(c);
  }

  /**
    After `GameOver` every "over" entity has a text: the one it had, or the
    message where it had none; no other entity gains one.
   */
  lemma GameOverTexts(c: Holder, e: int)
    requires StoresValid(c) && GameState in c && CanvasText in c && Velocity in c
    ensures var d := GameOverShown(c)[CanvasText];
      && (OverAt(c[GameState], e) ==> e in d.vals)
      && (e in c[CanvasText].vals ==> e in d.vals && d.vals[e] == c[CanvasText].vals[e])
      && (e in d.vals && e !in c[CanvasText].vals ==> d.vals[e] == TextVal(GameOverText) && OverAt(c[GameState], e))
  {
    var g := c[GameState];
    MessagesFacts(c[CanvasText], g, |g.keys|);
    assert GameOverShown(c)[CanvasText] == Messages(c[CanvasText], g, |g.keys|);
    if OverAt(g, e) {
      KeysIn(g);
      assert e in g.keys;
      var k :| 0 <= k < |g.keys| && g.keys[k] == e;
    }
  }

  /**
    Once the game is over every pipe and tile has stopped moving sideways and
    keeps its vertical speed; every other velocity is kept.
   */
  lemma GameOverHalts(c: Holder, e: int)
    requires StoresValid(c) && GameState in c && CanvasText in c && Velocity in c
    ensures var d := GameOverShown(c);
      IsOver(c) && e in c[Velocity].vals && (Has(c, Pipe, e) || Has(c, Tile, e)) ==>
        d[Velocity].vals[e] == VecVal(Vec(0.0, AsVec(c[Velocity].vals[e]).y))
    ensures var d := GameOverShown(c);
      e in c[Velocity].vals && !(Has(c, Pipe, e) || Has(c, Tile, e)) ==> d[Velocity].vals[e] == c[Velocity].vals[e]
  {
    OverInIsOver(c);
  }

  /** Running `GameOver` again changes nothing more. */
  lemma GameOverTwice(c: Holder)
    requires StoresValid(c) && GameState in c && CanvasText in c && Velocity in c
    ensures GameOverShown(GameOverShown(c)) == GameOverShown(c)
  {
    var g := c[GameState];
    var d := GameOverShown(c);
    MessagesFacts(c[CanvasText], g, |g.keys|);
    assert d[GameState] == g;
    MessagesSettled(d[CanvasText], g, |g.keys|);
    if OverIn(g, |g.keys|) {
      HaltSettles(c, d[CanvasText], Halted(c));
    } else {
      assert d[Velocity] == c[Velocity];
    }
  }

  /** Where every "over" entity already has a text, the messages add nothing. */
  lemma {:induction false} MessagesSettled(t: Store<Value>, g: Store<Value>, i: nat)
    requires i <= |g.keys|
    requires forall k :: 0 <= k < i && OverAt(g, g.keys[k]) ==> g.keys[k] in t.vals
    ensures Messages(t, g, i) == t
  {
    if i > 0 {
      MessagesSettled(t, g, i - 1);
    }
  }
}
