/**
 * The calculator's keypad: a fixed 4x4 grid of square keys laid out row by
 * row below the expression display, the edge-inclusive box of every key, and
 * the first-match hit test a fist position is run through.
 */
module Keypad {
  import opened Wrappers

  /** Height of the expression display that sits above the first key row. */
  const DisplayHeight: int := 100

  /** The key labels, row by row from the top. */
  const KeyRows: seq<seq<string>> :=
    [["7", "8", "9", "*"],
     ["4", "5", "6", "-"],
     ["1", "2", "3", "+"],
     ["0", "/", ".", "="]]

  /** A key: the top-left corner of its square and its label. */
  datatype Button = Button(x: int, y: int, value: string)

  /** The box a key covers, corners included: (x1, y1) top-left, (x2, y2) bottom-right. */
  datatype Region = Region(value: string, x1: int, y1: int, x2: int, y2: int)

  /**
   * The 16 keys for a calculator anchored at (ox, oy) with keys `size` wide,
   * in row-major order: index 4 * row + col is the key of that row and column.
   */
  function Layout(ox: int, oy: int, size: int): (bs: seq<Button>)
    ensures |bs| == 16
  {
    seq(16, i requires 0 <= i < 16 =>
      Button(ox + (i % 4) * size, oy + DisplayHeight + (i / 4) * size, KeyRows[i / 4][i % 4]))
  }

  /** The layout formula: the key in row `row`, column `col` and where it sits. */
  lemma LayoutCell(ox: int, oy: int, size: int, row: nat, col: nat)
    requires row < 4 && col < 4
    ensures Layout(ox, oy, size)[4 * row + col]
         == Button(ox + col * size, oy + DisplayHeight + row * size, KeyRows[row][col])
  {
    var i := 4 * row + col;
    assert i / 4 == row && i % 4 == col;
  }

  /** One region per key, in the keys' order, each `size` wide and high. */
  function Regions(bs: seq<Button>, size: int): (rs: seq<Region>)
    ensures |rs| == |bs|
    ensures forall i :: 0 <= i < |bs| ==>
      rs[i].value == bs[i].value &&
      rs[i].x1 == bs[i].x && rs[i].y1 == bs[i].y &&
      rs[i].x2 == rs[i].x1 + size && rs[i].y2 == rs[i].y1 + size
  {
    seq(|bs|, i requires 0 <= i < |bs| =>
      Region(bs[i].value, bs[i].x, bs[i].y, bs[i].x + size, bs[i].y + size))
  }

  /** Whether (px, py) lies in the box, all four edges included. */
  predicate Contains(r: Region, px: int, py: int) {
    r.x1 <= px <= r.x2 && r.y1 <= py <= r.y2
  }

  /**
   * The index of the first region, in list order, that contains (px, py),
   * or None when no region does.
   */
  function FirstHit(rs: seq<Region>, px: int, py: int): (k: Option<nat>)
    ensures k.Some? ==> k.value < |rs| && Contains(rs[k.value], px, py)
    ensures k.Some? ==> forall j :: 0 <= j < k.value ==> !Contains(rs[j], px, py)
    ensures k.None? <==> forall j :: 0 <= j < |rs| ==> !Contains(rs[j], px, py)
  {
    if rs == [] then None
    else if Contains(rs[0], px, py) then Some(0)
    else match FirstHit(rs[1..], px, py)
      case None => None
      case Some(j) => Some(j + 1)
  }

  /** A region that contains the point, with none before it, is the first hit. */
  lemma FirstHitIs(rs: seq<Region>, px: int, py: int, k: nat)
    requires k < |rs| && Contains(rs[k], px, py)
    requires forall j :: 0 <= j < k ==> !Contains(rs[j], px, py)
    ensures FirstHit(rs, px, py) == Some(k)
  {
    var hit := FirstHit(rs, px, py);
    assert hit.Some?;
    assert !(hit.value < k);
    assert !(k < hit.value);
  }

  /** The regions of the keypad anchored at (ox, oy) with keys `size` wide. */
  function KeypadRegions(ox: int, oy: int, size: int): (rs: seq<Region>)
    ensures |rs| == 16
  {
    Regions(Layout(ox, oy, size), size)
  }

  /** The region of the key in row `row`, column `col`. */
  lemma KeypadCell(ox: int, oy: int, size: int, row: nat, col: nat)
    requires row < 4 && col < 4
    ensures var r := KeypadRegions(ox, oy, size)[4 * row + col];
      r.value == KeyRows[row][col] &&
      r.x1 == ox + col * size && r.x2 == r.x1 + size &&
      r.y1 == oy + DisplayHeight + row * size && r.y2 == r.y1 + size
  {
    LayoutCell(ox, oy, size, row, col);
  }

  /** Grid coordinates `a < b` are at least one key size apart on screen. */
  lemma {:induction false} ScaleGap(a: int, b: int, size: int)
    requires a < b && size > 0
    ensures a * size + size <= b * size
    decreases b - a
  {
    if a + 1 < b {
      ScaleGap(a, b - 1, size);
    }
  }

  /** One grid step further on is one key size further on screen. */
  lemma ScaleStep(a: int, size: int)
    ensures (a + 1) * size == a * size + size
  {
  }

  /** A point within a key's square, edges included, is in its box. */
  lemma InsideKey(ox: int, oy: int, size: int, row: nat, col: nat, px: int, py: int)
    requires row < 4 && col < 4
    requires ox + col * size <= px <= ox + col * size + size
    requires oy + DisplayHeight + row * size <= py <= oy + DisplayHeight + row * size + size
    ensures Contains(KeypadRegions(ox, oy, size)[4 * row + col], px, py)
  {
    KeypadCell(ox, oy, size, row, col);
  }

  /** A point to the left of, right of, above or below a key's square is not in its box. */
  lemma OutsideKey(ox: int, oy: int, size: int, row: nat, col: nat, px: int, py: int)
    requires row < 4 && col < 4
    requires px < ox + col * size || ox + col * size + size < px ||
             py < oy + DisplayHeight + row * size || oy + DisplayHeight + row * size + size < py
    ensures !Contains(KeypadRegions(ox, oy, size)[4 * row + col], px, py)
  {
    KeypadCell(ox, oy, size, row, col);
  }

  /**
   * A point right of the left edge and below the top edge of key (row, col)
   * lies in no box earlier in grid order: every earlier row ends at or above
   * that top edge, and every earlier key of the same row ends at or left of
   * that left edge.
   */
  lemma NoEarlierKeyContains(ox: int, oy: int, size: int, row: nat, col: nat, px: int, py: int)
    requires size > 0 && row < 4 && col < 4
    requires ox + col * size < px
    requires oy + DisplayHeight + row * size < py
    ensures forall j :: 0 <= j < 4 * row + col ==> !Contains(KeypadRegions(ox, oy, size)[j], px, py)
  {
    forall j | 0 <= j < 4 * row + col
      ensures !Contains(KeypadRegions(ox, oy, size)[j], px, py)
    {
      var r, c := j / 4, j % 4;
      assert j == 4 * r + c;
      if r < row {
        ScaleGap(r, row, size);
      } else {
        ScaleGap(c, col, size);
      }
      OutsideKey(ox, oy, size, r, c, px, py);
    }
  }

  /**
   * A point left of the right edge and above the bottom edge of key (row, col)
   * lies in no box later in grid order: every later row starts at or below
   * that bottom edge, and every later key of the same row starts at or right
   * of that right edge.
   */
  lemma NoLaterKeyContains(ox: int, oy: int, size: int, row: nat, col: nat, px: int, py: int)
    requires size > 0 && row < 4 && col < 4
    requires px < ox + col * size + size
    requires py < oy + DisplayHeight + row * size + size
    ensures forall j :: 4 * row + col < j < 16 ==> !Contains(KeypadRegions(ox, oy, size)[j], px, py)
  {
    forall j | 4 * row + col < j < 16
      ensures !Contains(KeypadRegions(ox, oy, size)[j], px, py)
    {
      var r, c := j / 4, j % 4;
      assert j == 4 * r + c;
      if row < r {
        ScaleGap(row, r, size);
      } else {
        ScaleGap(col, c, size);
      }
      OutsideKey(ox, oy, size, r, c, px, py);
    }
  }

  /**
   * A point strictly inside a key's square lies in no other key's box, so
   * that key is the one hit. (The strict bounds leave room for such a point
   * only when the key size is at least 2.)
   */
  lemma InteriorHitsOwnKey(ox: int, oy: int, size: int, row: nat, col: nat, px: int, py: int)
    requires row < 4 && col < 4
    requires ox + col * size < px < ox + col * size + size
    requires oy + DisplayHeight + row * size < py < oy + DisplayHeight + row * size + size
    ensures forall j :: 0 <= j < 16 && j != 4 * row + col ==> !Contains(KeypadRegions(ox, oy, size)[j], px, py)
    ensures FirstHit(KeypadRegions(ox, oy, size), px, py) == Some(4 * row + col)
  {
    InsideKey(ox, oy, size, row, col, px, py);
    NoEarlierKeyContains(ox, oy, size, row, col, px, py);
    NoLaterKeyContains(ox, oy, size, row, col, px, py);
    FirstHitIs(KeypadRegions(ox, oy, size), px, py, 4 * row + col);
  }

  /**
   * Neighbouring keys in a row share an edge: a point on that edge lies in
   * both boxes, and the left-hand key, earlier in grid order, is the one hit.
   */
  lemma SharedColumnEdgeHitsLeftKey(ox: int, oy: int, size: int, row: nat, col: nat, py: int)
    requires row < 4 && col < 3
    requires oy + DisplayHeight + row * size < py < oy + DisplayHeight + row * size + size
    ensures Contains(KeypadRegions(ox, oy, size)[4 * row + col + 1], ox + col * size + size, py)
    ensures FirstHit(KeypadRegions(ox, oy, size), ox + col * size + size, py) == Some(4 * row + col)
  {
    var px := ox + col * size + size;
    ScaleStep(col, size);
    InsideKey(ox, oy, size, row, col + 1, px, py);
    InsideKey(ox, oy, size, row, col, px, py);
    NoEarlierKeyContains(ox, oy, size, row, col, px, py);
    FirstHitIs(KeypadRegions(ox, oy, size), px, py, 4 * row + col);
  }

  /**
   * Neighbouring keys in a column share an edge: a point on that edge lies
   * in both boxes, and the upper key, earlier in grid order, is the one hit.
   */
  lemma SharedRowEdgeHitsUpperKey(ox: int, oy: int, size: int, row: nat, col: nat, px: int)
    requires row < 3 && col < 4
    requires ox + col * size < px < ox + col * size + size
    ensures Contains(KeypadRegions(ox, oy, size)[4 * (row + 1) + col], px, oy + DisplayHeight + row * size + size)
    ensures FirstHit(KeypadRegions(ox, oy, size), px, oy + DisplayHeight + row * size + size) == Some(4 * row + col)
  {
    var py := oy + DisplayHeight + row * size + size;
    ScaleStep(row, size);
    InsideKey(ox, oy, size, row + 1, col, px, py);
    InsideKey(ox, oy, size, row, col, px, py);
    NoEarlierKeyContains(ox, oy, size, row, col, px, py);
    FirstHitIs(KeypadRegions(ox, oy, size), px, py, 4 * row + col);
  }

  /**
   * Some key is hit exactly when the point lies in the keypad's outer
   * square, edges included. (With key size 0 every box and the square are
   * the same single point; with a negative size all of them are empty.)
   */
  lemma HitIffOnKeypad(ox: int, oy: int, size: int, px: int, py: int)
    ensures FirstHit(KeypadRegions(ox, oy, size), px, py).Some?
        <==> ox <= px <= ox + 4 * size &&
             oy + DisplayHeight <= py <= oy + DisplayHeight + 4 * size
  {
    var rs := KeypadRegions(ox, oy, size);
    var top := oy + DisplayHeight;
    if ox <= px <= ox + 4 * size && top <= py <= top + 4 * size {
      var col: nat := if px <= ox + size then 0 else if px <= ox + 2 * size then 1
                      else if px <= ox + 3 * size then 2 else 3;
      var row: nat := if py <= top + size then 0 else if py <= top + 2 * size then 1
                      else if py <= top + 3 * size then 2 else 3;
      KeypadCell(ox, oy, size, row, col);
      assert Contains(rs[4 * row + col], px, py);
    } else if size > 0 {
      forall j | 0 <= j < 16
        ensures !Contains(rs[j], px, py)
      {
        var r, c := j / 4, j % 4;
        assert j == 4 * r + c;
        ScaleGap(-1, c, size);
        ScaleGap(c, 4, size);
        ScaleGap(-1, r, size);
        ScaleGap(r, 4, size);
        OutsideKey(ox, oy, size, r, c, px, py);
      }
    } else {
      forall j | 0 <= j < 16
        ensures !Contains(rs[j], px, py)
      {
        var r, c := j / 4, j % 4;
        assert j == 4 * r + c;
        KeypadCell(ox, oy, size, r, c);
        if size == 0 {
          assert c * size == 0 && r * size == 0;
        }
      }
    }
  }
}
