/** The keyboard-driven example components of src/lib/HookCompExamples.tsx. */
module HookCompExamples {

  /** A `{x, y}` object; `ref` is its identity, so `===` compares `ref`s. */
  datatype Point = Point(ref: nat, x: int, y: int)

  predicate IsMoveKey(key: string)
  {
    key == "w" || key == "a" || key == "s" || key == "d"
  }

  /**
   * `updatePos(currPos, ev)`: "w"/"s" move up/down, "a"/"d" left/right, as a new object
   * (identity `newRef`); any other key returns the very same object.
   */
  function UpdatePos(currPos: Point, key: string, newRef: nat): (r: Point)
    requires newRef != currPos.ref
    ensures key == "w" ==> r.x == currPos.x && r.y == currPos.y - 1
    ensures key == "a" ==> r.x == currPos.x - 1 && r.y == currPos.y
    ensures key == "s" ==> r.x == currPos.x && r.y == currPos.y + 1
    ensures key == "d" ==> r.x == currPos.x + 1 && r.y == currPos.y
    ensures IsMoveKey(key) ==> r.ref == newRef
    ensures !IsMoveKey(key) ==> r == currPos
  {
    var (x, y) := (currPos.x, currPos.y);
    if key == "w" then Point(newRef, x, y - 1)
    else if key == "a" then Point(newRef, x - 1, y)
    else if key == "s" then Point(newRef, x, y + 1)
    else if key == "d" then Point(newRef, x + 1, y)
    else currPos
  }

  function Abs(n: int): nat
  {
    if n < 0 then -n else n
  }

  /**
   * An identity check sees a change exactly for the four movement keys; a movement gives a
   * newRef object one step away in exactly one coordinate.
   */
  lemma UpdatePosChange(currPos: Point, key: string, newRef: nat)
    requires newRef != currPos.ref
    ensures (UpdatePos(currPos, key, newRef) != currPos) <==> IsMoveKey(key)
    ensures IsMoveKey(key) ==>
      var r := UpdatePos(currPos, key, newRef);
      r.ref == newRef && Abs(r.x - currPos.x) + Abs(r.y - currPos.y) == 1
  {
  }

  /** `InstVarsComponent`: the position is an instance field replaced on every key press. */
  class InstVarsComponent {
    var loc: Point
    /** Identity of the next object allocated by `updatePos`. */
    var nextRef: nat

    ghost predicate Valid()
      reads this
    {
      loc.ref < nextRef
    }

    constructor()
      ensures Valid() && loc.x == 0 && loc.y == 0
    {
      loc := Point(0, 0, 0);
      nextRef := 1;
    }

    /** `handleKey`: `this.loc = updatePos(this.loc, ev)`. */
    method HandleKey(key: string)
      requires Valid()
      modifies this
      ensures Valid()
      ensures loc == UpdatePos(old(loc), key, old(nextRef))
    {
      loc := UpdatePos(loc, key, nextRef);
      nextRef := nextRef + 1;
    }
  }

  /** `Counter`: the message field is a plain (not render-affecting) field. */
  class Counter {
    var message: string

    constructor()
      ensures message == "hello "
    {
      message := "hello ";
    }

    /** `handle`: appends a space and then the key. */
    method Handle(key: string)
      modifies this
      ensures message == old(message) + " " + key
    {
      message := message + " ";
      message := message + key;
    }
  }
}
