/**
 * The falling-tile component of src/components/Match3/Tile.tsx: `falling` is a render-affecting
 * field of a `HookCls` and `prev_y` remembers the row of the last render.
 */
module Match3Tile {

  /** The inline style `style` returns. */
  datatype Style = NoStyle | Drop(animationName: string, animationDuration: string)

  /** The fields `falling` and `prev_y`. */
  datatype TileState = TileState(falling: bool, prevY: int)

  /** The props a tile is rendered with (the `del` callback is the click log of `Tile`). */
  datatype TileProps = TileProps(x: int, y: int)

  datatype Event = RenderAt(y: int) | AnimationEnd

  /** Stands for the class name the CSS module generates for its `drop1` keyframes (`styles.drop1`). */
  const DropAnimation: string := "drop1"

  const Initial := TileState(false, -1)

  /** `useRender`'s update of the fields for a render at row `y`. */
  function RenderStep(s: TileState, y: int): (r: TileState)
    ensures r.prevY == y
    ensures s.prevY != y ==> r.falling
    ensures s.prevY == y ==> r == s
  {
    if s.prevY != y then TileState(true, y) else s
  }

  /** The `onAnimationEnd` handler. */
  function EndStep(s: TileState): (r: TileState)
    ensures !r.falling && r.prevY == s.prevY
  {
    s.(falling := false)
  }

  function Step(s: TileState, e: Event): TileState
  {
    match e
    case RenderAt(y) => RenderStep(s, y)
    case AnimationEnd => EndStep(s)
  }

  /** The fields after a sequence of renders and animation ends. */
  function Run(s: TileState, events: seq<Event>): TileState
    decreases |events|
  {
    if events == [] then s else Run(Step(s, events[0]), events[1..])
  }

  /** `style`: the drop animation exactly while `falling`. */
  function StyleOf(s: TileState): (r: Style)
    ensures r.Drop? <==> s.falling
    ensures r.Drop? ==> r == Drop(DropAnimation, "1s")
  {
    if s.falling then Drop(DropAnimation, "1s") else NoStyle
  }

  /** After a run that ends with a render, `prev_y` is that render's row. */
  lemma {:induction false} PrevYIsLastRender(s: TileState, events: seq<Event>, y: int)
    ensures Run(s, events + [RenderAt(y)]).prevY == y
    decreases |events|
  {
    if events == [] {
      assert events + [RenderAt(y)] == [RenderAt(y)];
    } else {
      assert (events + [RenderAt(y)])[1..] == events[1..] + [RenderAt(y)];
      PrevYIsLastRender(Step(s, events[0]), events[1..], y);
    }
  }

  /** Once the animation has ended, renders on the same row never start it again. */
  lemma {:induction false} SameRowStaysStill(s: TileState, n: nat)
    requires !s.falling
    ensures Run(s, Repeat(RenderAt(s.prevY), n)) == s
    decreases n
  {
    if n > 0 {
      SameRowStaysStill(s, n - 1);
    }
  }

  function Repeat(e: Event, n: nat): (r: seq<Event>)
    ensures |r| == n
  {
    if n == 0 then [] else [e] + Repeat(e, n - 1)
  }

  class Tile {
    var state: TileState
    /** Whether the first render has installed `_force_update`. */
    var rendered: bool
    /** Render requests made through `_force_update`. */
    var forceUpdates: nat
    /** Every `del(x, y)` call the click handler made. */
    var delCalls: seq<(int, int)>

    constructor()
      ensures state == Initial && !rendered && forceUpdates == 0 && delCalls == []
    {
      state := Initial;
      rendered := false;
      forceUpdates := 0;
      delCalls := [];
    }

    /** The proxy's write of `falling`: a render is requested when a rendered tile's value changes. */
    method SetFalling(v: bool)
      modifies this`state, this`forceUpdates
      ensures state == old(state).(falling := v)
      ensures forceUpdates == old(forceUpdates) + (if rendered && v != old(state).falling then 1 else 0)
    {
      var doUpdate := v != state.falling;
      state := state.(falling := v);
      if doUpdate && rendered {
        forceUpdates := forceUpdates + 1;
      }
    }

    /** `[HOC_RENDER]` installs `_force_update`, then `useRender` runs; the result's style is returned. */
    method Render(props: TileProps) returns (style: Style)
      modifies this`state, this`forceUpdates, this`rendered
      ensures rendered
      ensures state == RenderStep(old(state), props.y)
      ensures forceUpdates == old(forceUpdates) + (if old(state).prevY != props.y && !old(state).falling then 1 else 0)
      ensures style == StyleOf(state)
    {
      rendered := true;
      if state.prevY != props.y {
        SetFalling(true);
        state := state.(prevY := props.y);
      }
      style := StyleOf(state);
    }

    method OnAnimationEnd()
      modifies this`state, this`forceUpdates
      ensures state == EndStep(old(state))
      ensures forceUpdates == old(forceUpdates) + (if rendered && old(state).falling then 1 else 0)
    {
      SetFalling(false);
    }

    /** The click handler reports the tile's own coordinates to `del`. */
    method OnClick(props: TileProps)
      modifies this`delCalls
      ensures delCalls == old(delCalls) + [(props.x, props.y)]
    {
      delCalls := delCalls + [(props.x, props.y)];
    }
  }
}
