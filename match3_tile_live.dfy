/**
 * The tile of src/Match3/Tile.tsx: the same falling animation, except that `useRender` never
 * stores the row it was rendered at, so `prev_y` stays -1.
 */
module Match3TileLive {
  import opened Match3Tile

  /** `useRender`'s update of the fields: `falling` is set, `prev_y` is left alone. */
  function LiveRenderStep(s: TileState, y: int): (r: TileState)
    ensures r.prevY == s.prevY
    ensures s.prevY != y ==> r.falling
    ensures s.prevY == y ==> r == s
  {
    if s.prevY != y then s.(falling := true) else s
  }

  function LiveStep(s: TileState, e: Event): TileState
  {
    match e
    case RenderAt(y) => LiveRenderStep(s, y)
    case AnimationEnd => EndStep(s)
  }

  function LiveRun(s: TileState, events: seq<Event>): TileState
    decreases |events|
  {
    if events == [] then s else LiveRun(LiveStep(s, events[0]), events[1..])
  }

  /** `prev_y` keeps its initial -1 whatever happens. */
  lemma {:induction false} PrevYNeverChanges(events: seq<Event>)
    ensures LiveRun(Initial, events).prevY == -1
  {
    PrevYKept(Initial, events);
  }

  lemma {:induction false} PrevYKept(s: TileState, events: seq<Event>)
    ensures LiveRun(s, events).prevY == s.prevY
    decreases |events|
  {
    if events != [] {
      PrevYKept(LiveStep(s, events[0]), events[1..]);
    }
  }

  /** From the initial state, a render on any row other than -1 leaves the tile falling. */
  lemma RenderOffRowFalls(events: seq<Event>, y: int)
    requires y != -1
    ensures LiveRun(Initial, events + [RenderAt(y)]).falling
  {
    LiveRunSnoc(Initial, events, RenderAt(y));
    PrevYNeverChanges(events);
  }

  /** From the initial state, a render on row -1 leaves `falling` as it was. */
  lemma RenderOnRowKeeps(events: seq<Event>)
    ensures LiveRun(Initial, events + [RenderAt(-1)]) == LiveRun(Initial, events)
  {
    LiveRunSnoc(Initial, events, RenderAt(-1));
    PrevYNeverChanges(events);
  }

  lemma {:induction false} LiveRunSnoc(s: TileState, events: seq<Event>, e: Event)
    ensures LiveRun(s, events + [e]) == LiveStep(LiveRun(s, events), e)
    decreases |events|
  {
    if events == [] {
      assert events + [e] == [e];
    } else {
      assert (events + [e])[1..] == events[1..] + [e];
      LiveRunSnoc(LiveStep(s, events[0]), events[1..], e);
    }
  }

  class LiveTile {
    var state: TileState
    var rendered: bool
    var forceUpdates: nat
    var delCalls: seq<(int, int)>

    ghost predicate Valid()
      reads this
    {
      state.prevY == -1
    }

    constructor()
      ensures Valid() && state == Initial && !rendered && forceUpdates == 0 && delCalls == []
    {
      state := Initial;
      rendered := false;
      forceUpdates := 0;
      delCalls := [];
    }

    method Render(props: TileProps) returns (style: Style)
      requires Valid()
      modifies this`state, this`forceUpdates, this`rendered
      ensures Valid() && rendered
      ensures state == LiveRenderStep(old(state), props.y)
      ensures forceUpdates == old(forceUpdates) + (if props.y != -1 && !old(state).falling then 1 else 0)
      ensures style == StyleOf(state)
    {
      rendered := true;
      if state.prevY != props.y {
        if !state.falling {
          forceUpdates := forceUpdates + 1;
        }
        state := state.(falling := true);
      }
      style := StyleOf(state);
    }

    method OnAnimationEnd()
      requires Valid()
      modifies this`state, this`forceUpdates
      ensures Valid()
      ensures state == EndStep(old(state))
      ensures forceUpdates == old(forceUpdates) + (if rendered && old(state).falling then 1 else 0)
    {
      if state.falling && rendered {
        forceUpdates := forceUpdates + 1;
      }
      state := state.(falling := false);
    }

    method OnClick(props: TileProps)
      modifies this`delCalls
      ensures delCalls == old(delCalls) + [(props.x, props.y)]
    {
      delCalls := delCalls + [(props.x, props.y)];
    }
  }
}
