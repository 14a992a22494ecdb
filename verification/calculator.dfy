/**
 * The on-screen calculator driven by hand gestures. Once per video frame the
 * caller hands it the palm centre and the hand's status; a fist over a key
 * commits that key to the expression, after which input is held off for a
 * fixed number of frames.
 */
module GestureCalculator {
  import opened Wrappers
  import opened Keypad
  import opened Expression

  /** Frames during which input is ignored after a key has been committed. */
  const Cooldown: int := 20

  /** The hand status that presses a key. */
  const FistStatus: string := "fist"

  class Calculator {
    /** Top-left corner of the calculator: the expression display starts here. */
    const origin: (int, int)
    /** Width and height of every key. */
    const buttonSize: int
    /** Frames still to wait before the next key can be committed. */
    var delayCounter: int
    /** The expression text on show. */
    var myEquation: string
    /** Whether myEquation holds a result that the next key press clears. */
    var calculated: bool
    /** The keys, row by row. */
    var buttons: seq<Button>

    /**
     * The cooldown never runs below zero or above its reset value. (The keys
     * are fixed by the constructor, which ensures `buttons == Layout(...)`;
     * SetEquation, GetButtonRegions and CheckHandInput leave them unchanged.)
     */
    ghost predicate Valid()
      reads this
    {
      0 <= delayCounter <= Cooldown
    }

    /** The expression together with its result flag. */
    function Current(): Entry
      reads this
    {
      Entry(myEquation, calculated)
    }

    /** A calculator with an empty expression, no cooldown and the 4x4 keypad below `origin`. */
    constructor (origin: (int, int) := (800, 50), buttonSize: int := 100)
      ensures Valid()
      ensures this.origin == origin && this.buttonSize == buttonSize
      ensures delayCounter == 0 && Current() == Initial
      ensures buttons == Layout(origin.0, origin.1, buttonSize)
    {
      this.origin := origin;
      this.buttonSize := buttonSize;
      delayCounter := 0;
      myEquation := "";
      calculated := false;
      buttons := [];
      new;
      CreateButtons();
    }

    /** Appends the 16 keys, row by row and left to right in each row. */
    method CreateButtons()
      modifies this`buttons
      ensures buttons == old(buttons) + Layout(origin.0, origin.1, buttonSize)
    {
      var ox, oy := origin.0, origin.1;
      ghost var grid := Layout(ox, oy, buttonSize);
      for y := 0 to 4
        invariant buttons == old(buttons) + grid[..4 * y]
      {
        for x := 0 to 4
          invariant buttons == old(buttons) + grid[..4 * y + x]
        {
          var xpos := ox + x * buttonSize;
          var ypos := oy + DisplayHeight + y * buttonSize;
          var value := KeyRows[y][x];
          LayoutCell(ox, oy, buttonSize, y, x);
          assert grid[..4 * y + x + 1] == grid[..4 * y + x] + [Button(xpos, ypos, value)];
          buttons := buttons + [Button(xpos, ypos, value)];
        }
      }
      assert grid[..16] == grid;
    }

    /** Replaces the expression text, leaving the rest of the state as it is. */
    method SetEquation(eq: string)
      requires Valid()
      modifies this`myEquation
      ensures Valid()
      ensures myEquation == eq
    {
      myEquation := eq;
    }

    /** The box of every key, in the keys' order; nothing is changed. */
    method GetButtonRegions() returns (regions: seq<Region>)
      ensures regions == Regions(buttons, buttonSize)
    {
      regions := [];
      for i := 0 to |buttons|
        invariant regions == Regions(buttons, buttonSize)[..i]
      {
        var b := buttons[i];
        regions := regions + [Region(b.value, b.x, b.y, b.x + buttonSize, b.y + buttonSize)];
      }
    }

    /**
     * One frame of input. A running cooldown only counts down. Otherwise a
     * fist at `palmPos` commits the first key, in grid order, whose box
     * contains it, and starts the cooldown; anything else changes nothing.
     */
    method CheckHandInput(palmPos: (int, int), handStatus: string, eval: string -> Option<string>)
      requires Valid()
      modifies this`delayCounter, this`myEquation, this`calculated
      ensures Valid()
      ensures old(delayCounter) > 0 ==>
        delayCounter == old(delayCounter) - 1 && Current() == old(Current())
      ensures old(delayCounter) == 0 && handStatus != FistStatus ==>
        delayCounter == 0 && Current() == old(Current())
      ensures old(delayCounter) == 0 && handStatus == FistStatus &&
              FirstHit(Regions(buttons, buttonSize), palmPos.0, palmPos.1).None? ==>
        delayCounter == 0 && Current() == old(Current())
      ensures old(delayCounter) == 0 && handStatus == FistStatus &&
              FirstHit(Regions(buttons, buttonSize), palmPos.0, palmPos.1).Some? ==>
        var k := FirstHit(Regions(buttons, buttonSize), palmPos.0, palmPos.1).value;
        delayCounter == Cooldown && Current() == Press(old(Current()), buttons[k].value, eval)
    {
      if delayCounter > 0 {
        delayCounter := delayCounter - 1;
        return;
      }
      if handStatus != FistStatus {
        return;
      }
      var px, py := palmPos.0, palmPos.1;
      var regions := GetButtonRegions();
      for i := 0 to |regions|
        invariant forall j :: 0 <= j < i ==> !Contains(regions[j], px, py)
        invariant delayCounter == 0 && Current() == old(Current())
      {
        var region := regions[i];
        if region.x1 <= px <= region.x2 && region.y1 <= py <= region.y2 {
          var value := region.value;
          if calculated {
            myEquation := "";
            calculated := false;
          }
          if value == EqualsKey {
            match eval(myEquation) {
              case Some(result) =>
                myEquation := result;
              case None =>
                myEquation := ErrorText;
            }
            calculated := true;
          } else {
            myEquation := myEquation + value;
          }
          delayCounter := Cooldown;
          break;
        }
      }
    }
  }
}
