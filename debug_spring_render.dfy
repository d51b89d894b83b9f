/**
  `DebugSpringRender` (src/lib/systems/DebugSpringRender.ts), also in the
  combined snapshots: the line drawn for a spring follows the positions of
  its two endpoints.  Only the line data is modelled; nothing is drawn.
 */
module DebugSpringRenderSystem {
  import opened Vector2
  import opened Store
  import opened Components
  import opened World
  import opened Updates

  const Query: seq<Name> := [Spring, CanvasLine]

  /** `line` with its two ends moved to `p1` and `p2`; style and depth are kept. */
  function Reposition(line: Line, p1: Vec, p2: Vec): Line
  {
    Line(line.strokeStyle, p1.x, p1.y, p2.x, p2.y, line.zIndex)
  }

  /** The loop body for a row `[entity, spring, canvasLine]`, reading the position map `pos`. */
  function Draw(row: Row, pos: Store<Value>): Option<Value>
  {
    var s := AsSpring(Slot(row, 0));
    if s.entity1 !in pos.vals || s.entity2 !in pos.vals then None
    else Some(LineVal(Reposition(AsLine(Slot(row, 1)), AsVec(pos.vals[s.entity1]), AsVec(pos.vals[s.entity2]))))
  }

  /** Both endpoints of spring `s` have a position. */
  predicate EndsPlaced(c: Holder, s: SpringData)
  {
    Has(c, Position, s.entity1) && Has(c, Position, s.entity2)
  }

  /** The new lines: one for every spring entity with a line whose endpoints both have positions. */
  function NewLines(c: Holder): (nv: map<int, Value>)
    requires CanvasLine in c
    ensures nv.Keys <= c[CanvasLine].vals.Keys
  {
    map e | e in c[CanvasLine].vals && Has(c, Spring, e) && EndsPlaced(c, AsSpring(Get(c, Spring, e))) ::
      var s := AsSpring(Get(c, Spring, e));
      LineVal(Reposition(AsLine(c[CanvasLine].vals[e]), AsVec(Get(c, Position, s.entity1)), AsVec(Get(c, Position, s.entity2))))
  }

  /** The components after `DebugSpringRender(world)`. */
  function Rendered(c: Holder): Holder
    requires CanvasLine in c
  {
    c[CanvasLine := Overlay(c[CanvasLine], NewLines(c))]
  }

  /**
    For a spring entity with a line, when both endpoints have positions the
    line runs from endpoint 1's position to endpoint 2's; when either is
    missing the line is unchanged.  Lines of entities without a spring are
    unchanged too.
   */
  lemma RenderedFacts(c: Holder, e: int)
    requires CanvasLine in c && Shaped(c)
    ensures Has(c, Spring, e) && Has(c, CanvasLine, e) && EndsPlaced(c, c[Spring].vals[e].spring) ==>
      var s := c[Spring].vals[e].spring;
      var p1 := c[Position].vals[s.entity1].vec;
      var p2 := c[Position].vals[s.entity2].vec;
      var l := Rendered(c)[CanvasLine].vals[e].line;
      Rendered(c)[CanvasLine].vals[e].LineVal? && l.x1 == p1.x && l.y1 == p1.y && l.x2 == p2.x && l.y2 == p2.y
    ensures Has(c, Spring, e) && Has(c, CanvasLine, e) && !EndsPlaced(c, c[Spring].vals[e].spring) ==>
      Rendered(c)[CanvasLine].vals[e] == c[CanvasLine].vals[e]
    ensures Has(c, CanvasLine, e) && !Has(c, Spring, e) ==> Rendered(c)[CanvasLine].vals[e] == c[CanvasLine].vals[e]
  {
    if Has(c, CanvasLine, e) && Has(c, Spring, e) {
      assert Fits(Spring, c[Spring].vals[e]);
      var s := c[Spring].vals[e].spring;
      if EndsPlaced(c, s) {
        assert Fits(Position, c[Position].vals[s.entity1]) && Fits(Position, c[Position].vals[s.entity2]);
      }
    }
  }

  /** Every line stays a line with its style and depth. */
  lemma RenderedStyle(c: Holder, e: int)
    requires CanvasLine in c && Shaped(c)
    ensures Has(c, CanvasLine, e) ==>
      var l := AsLine(Rendered(c)[CanvasLine].vals[e]);
      Rendered(c)[CanvasLine].vals[e].LineVal?
        && l.strokeStyle == AsLine(c[CanvasLine].vals[e]).strokeStyle && l.zIndex == AsLine(c[CanvasLine].vals[e]).zIndex
  {
    if Has(c, CanvasLine, e) {
      assert Fits(CanvasLine, c[CanvasLine].vals[e]);
    }
  }

  /** No map gains or loses a key, the line map keeps its order, and every other map is unchanged. */
  lemma RenderedFrame(c: Holder)
    requires CanvasLine in c
    ensures Rendered(c).Keys == c.Keys
    ensures Rendered(c)[CanvasLine].keys == c[CanvasLine].keys && Rendered(c)[CanvasLine].vals.Keys == c[CanvasLine].vals.Keys
    ensures forall n :: n in c && n != CanvasLine ==> Rendered(c)[n] == c[n]
  {
  }

  /** The loop body on the row the query yields for `e`. */
  lemma DrawAt(c: Holder, e: int)
    requires Position in c
    ensures Matches(c, Query, e) <==> Has(c, CanvasLine, e)
    ensures var s := AsSpring(Get(c, Spring, e));
      Draw(Row(e, Values(c, Query, e)), c[Position])
        == if EndsPlaced(c, s)
           then Some(LineVal(Reposition(AsLine(Get(c, CanvasLine, e)), AsVec(Get(c, Position, s.entity1)), AsVec(Get(c, Position, s.entity2)))))
           else None
  {
    var vs := Values(c, Query, e);
    assert vs[0] == Get(c, Spring, e) && vs[1] == Get(c, CanvasLine, e);
  }

  /** The line writes of the whole loop are the new lines. */
  lemma LinesAreRun(c: Holder)
    requires StoresValid(c) && Position in c && CanvasLine in c
    ensures RunStore(c[CanvasLine], Join(c, Query), Draw, c[Position], |Join(c, Query)|) == Overlay(c[CanvasLine], NewLines(c))
  {
    JoinStore(c, Query, 1, Draw, c[Position]);
    var nv := NewValues(Join(c, Query), Draw, c[Position]);
    forall e
      ensures e in nv <==> e in NewLines(c)
      ensures e in nv ==> nv[e] == NewLines(c)[e]
    {
      DrawAt(c, e);
    }
    SameMap(nv, NewLines(c));
  }

  lemma RenderedEnd(c0: Holder, c: Holder)
    requires StoresValid(c0) && Position in c0 && CanvasLine in c0 && Others(c, c0, CanvasLine)
    requires c[CanvasLine] == RunStore(c0[CanvasLine], Join(c0, Query), Draw, c0[Position], |Join(c0, Query)|)
    ensures c == Rendered(c0)
  {
    LinesAreRun(c0);
    OthersEqual(c, c0, CanvasLine, Overlay(c0[CanvasLine], NewLines(c0)));
  }

  /** `DebugSpringRender(world)`. */
  method DebugSpringRender(w: World)
    requires w.Valid() && Position in w.components && CanvasLine in w.components
    modifies w
    ensures w.Valid()
    ensures w.components == Rendered(old(w.components))
    ensures w.lastAssignedId == old(w.lastAssignedId) && w.active == old(w.active) && w.currentTime == old(w.currentTime)
  {
    ghost var c0 := w.components;
    var rows := w.EntitiesWithComponents(Query);
    var position := w.components[Position];
    JoinLive(c0, w.active, w.lastAssignedId, Query);
    WriteRows(w, CanvasLine, rows, Draw, position);
    RenderedEnd(c0, w.components);
  }
}
