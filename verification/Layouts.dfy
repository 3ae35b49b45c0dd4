/** The panel layouts of the cockpit as rectangles in the unit square. */
module Layouts {
  datatype Slot = Slot(x: real, y: real, w: real, h: real)

  const FULL := Slot(0.0, 0.0, 1.0, 1.0)

  const THIRD := 1.0 / 3.0

  const NAMES := ["1", "2h", "2v", "4", "3L", "3T", "6", "8", "9", "10"]

  /** The slots of a layout; a name that is not a layout has none. */
  function Slots(layout: string): seq<Slot> {
    if layout == "1" then [FULL]
    else if layout == "2h" then [Slot(0.0, 0.0, 0.5, 1.0), Slot(0.5, 0.0, 0.5, 1.0)]
    else if layout == "2v" then [Slot(0.0, 0.0, 1.0, 0.5), Slot(0.0, 0.5, 1.0, 0.5)]
    else if layout == "4" then [
      Slot(0.0, 0.0, 0.5, 0.5), Slot(0.5, 0.0, 0.5, 0.5),
      Slot(0.0, 0.5, 0.5, 0.5), Slot(0.5, 0.5, 0.5, 0.5)]
    else if layout == "3L" then [
      Slot(0.0, 0.0, 0.6, 1.0),
      Slot(0.6, 0.0, 0.4, 0.5), Slot(0.6, 0.5, 0.4, 0.5)]
    else if layout == "3T" then [
      Slot(0.0, 0.0, 1.0, 0.6),
      Slot(0.0, 0.6, 0.5, 0.4), Slot(0.5, 0.6, 0.5, 0.4)]
    else if layout == "6" then [
      Slot(0.0, 0.0, THIRD, 0.5), Slot(THIRD, 0.0, THIRD, 0.5), Slot(2.0 / 3.0, 0.0, THIRD, 0.5),
      Slot(0.0, 0.5, THIRD, 0.5), Slot(THIRD, 0.5, THIRD, 0.5), Slot(2.0 / 3.0, 0.5, THIRD, 0.5)]
    else if layout == "8" then [
      Slot(0.0, 0.0, 0.25, 0.5), Slot(0.25, 0.0, 0.25, 0.5), Slot(0.5, 0.0, 0.25, 0.5), Slot(0.75, 0.0, 0.25, 0.5),
      Slot(0.0, 0.5, 0.25, 0.5), Slot(0.25, 0.5, 0.25, 0.5), Slot(0.5, 0.5, 0.25, 0.5), Slot(0.75, 0.5, 0.25, 0.5)]
    else if layout == "9" then [
      Slot(0.0, 0.0, THIRD, THIRD), Slot(THIRD, 0.0, THIRD, THIRD), Slot(2.0 / 3.0, 0.0, THIRD, THIRD),
      Slot(0.0, THIRD, THIRD, THIRD), Slot(THIRD, THIRD, THIRD, THIRD), Slot(2.0 / 3.0, THIRD, THIRD, THIRD),
      Slot(0.0, 2.0 / 3.0, THIRD, THIRD), Slot(THIRD, 2.0 / 3.0, THIRD, THIRD), Slot(2.0 / 3.0, 2.0 / 3.0, THIRD, THIRD)]
    else if layout == "10" then [
      Slot(0.0, 0.0, 0.2, 0.5), Slot(0.2, 0.0, 0.2, 0.5), Slot(0.4, 0.0, 0.2, 0.5), Slot(0.6, 0.0, 0.2, 0.5), Slot(0.8, 0.0, 0.2, 0.5),
      Slot(0.0, 0.5, 0.2, 0.5), Slot(0.2, 0.5, 0.2, 0.5), Slot(0.4, 0.5, 0.2, 0.5), Slot(0.6, 0.5, 0.2, 0.5), Slot(0.8, 0.5, 0.2, 0.5)]
    else []
  }

  predicate Known(layout: string) {
    layout in NAMES
  }

  /** The slots a layout name is drawn with. */
  function DrawnSlots(layout: string): (slots: seq<Slot>)
    ensures slots != []
  {
    if Known(layout) then Slots(layout) else Slots("1")
  }

  /** The point lies in the slot, whose left and top edges belong to it. */
  predicate Inside(s: Slot, x: real, y: real) {
    s.x <= x < s.x + s.w && s.y <= y < s.y + s.h
  }

  predicate InUnitSquare(x: real, y: real) {
    0.0 <= x < 1.0 && 0.0 <= y < 1.0
  }

  /** The slots that hold the point, by index. */
  function Holders(slots: seq<Slot>, x: real, y: real): nat {
    if slots == [] then 0 else (if Inside(slots[0], x, y) then 1 else 0) + Holders(slots[1..], x, y)
  }

  lemma HoldersCons(s: Slot, rest: seq<Slot>, x: real, y: real)
    ensures Holders([s] + rest, x, y) == (if Inside(s, x, y) then 1 else 0) + Holders(rest, x, y)
  {
    assert ([s] + rest)[1..] == rest;
  }

  lemma {:induction false} HoldersOfSum(a: seq<Slot>, b: seq<Slot>, x: real, y: real)
    ensures Holders(a + b, x, y) == Holders(a, x, y) + Holders(b, x, y)
  {
    if a == [] {
      assert a + b == b;
    } else {
      HoldersOfSum(a[1..], b, x, y);
      assert a + b == [a[0]] + (a[1..] + b);
      HoldersCons(a[0], a[1..] + b, x, y);
    }
  }

  /** Slots side by side from `x` to the right. */
  function Strip(x: real, widths: seq<real>, y: real, h: real): seq<Slot>
    decreases |widths|
  {
    if widths == [] then [] else [Slot(x, y, widths[0], h)] + Strip(x + widths[0], widths[1..], y, h)
  }

  function Total(widths: seq<real>): real {
    if widths == [] then 0.0 else widths[0] + Total(widths[1..])
  }

  lemma {:induction false} StripIsSeamless(x0: real, widths: seq<real>, y0: real, h: real, x: real, y: real)
    requires forall i :: 0 <= i < |widths| ==> widths[i] > 0.0
    ensures Total(widths) >= 0.0
    ensures Holders(Strip(x0, widths, y0, h), x, y) == if Inside(Slot(x0, y0, Total(widths), h), x, y) then 1 else 0
    decreases |widths|
  {
    if widths != [] {
      StripIsSeamless(x0 + widths[0], widths[1..], y0, h, x, y);
      HoldersCons(Slot(x0, y0, widths[0], h), Strip(x0 + widths[0], widths[1..], y0, h), x, y);
    }
  }

  /** Two, three, four or five equal slots side by side. */
  function EqualStrip(n: nat, y: real, h: real): seq<Slot>
    requires 2 <= n <= 5
  {
    if n == 2 then [Slot(0.0, y, 0.5, h), Slot(0.5, y, 0.5, h)]
    else if n == 3 then [Slot(0.0, y, THIRD, h), Slot(THIRD, y, THIRD, h), Slot(2.0 / 3.0, y, THIRD, h)]
    else if n == 4 then [Slot(0.0, y, 0.25, h), Slot(0.25, y, 0.25, h), Slot(0.5, y, 0.25, h), Slot(0.75, y, 0.25, h)]
    else [Slot(0.0, y, 0.2, h), Slot(0.2, y, 0.2, h), Slot(0.4, y, 0.2, h), Slot(0.6, y, 0.2, h), Slot(0.8, y, 0.2, h)]
  }

  function EqualWidths(n: nat, w: real): seq<real> {
    seq(n, i => w)
  }

  lemma {:induction false} StripStep(x: real, n: nat, w: real, y: real, h: real)
    requires n > 0
    ensures Strip(x, EqualWidths(n, w), y, h) == [Slot(x, y, w, h)] + Strip(x + w, EqualWidths(n - 1, w), y, h)
    ensures Total(EqualWidths(n, w)) == w + Total(EqualWidths(n - 1, w))
  {
    assert EqualWidths(n, w)[1..] == EqualWidths(n - 1, w);
  }

  lemma EqualStripIsSeamless(n: nat, y0: real, h: real, x: real, y: real)
    requires 2 <= n <= 5
    ensures Holders(EqualStrip(n, y0, h), x, y) == if Inside(Slot(0.0, y0, 1.0, h), x, y) then 1 else 0
  {
    var w := if n == 2 then 0.5 else if n == 3 then THIRD else if n == 4 then 0.25 else 0.2;
    StripIsSeamless(0.0, EqualWidths(n, w), y0, h, x, y);
    StripStep(0.0, n, w, y0, h);
    StripStep(w, n - 1, w, y0, h);
    if n > 2 {
      StripStep(2.0 * w, n - 2, w, y0, h);
    }
    if n > 3 {
      StripStep(3.0 * w, n - 3, w, y0, h);
    }
    if n > 4 {
      StripStep(4.0 * w, n - 4, w, y0, h);
    }
    assert Strip(0.0, EqualWidths(n, w), y0, h) == EqualStrip(n, y0, h);
  }

  lemma RowsTile(n: nat, x: real, y: real)
    requires 2 <= n <= 5
    ensures Holders(EqualStrip(n, 0.0, 0.5) + EqualStrip(n, 0.5, 0.5), x, y) == if InUnitSquare(x, y) then 1 else 0
  {
    EqualStripIsSeamless(n, 0.0, 0.5, x, y);
    EqualStripIsSeamless(n, 0.5, 0.5, x, y);
    HoldersOfSum(EqualStrip(n, 0.0, 0.5), EqualStrip(n, 0.5, 0.5), x, y);
  }

  lemma NineTile(x: real, y: real)
    ensures Holders(Slots("9"), x, y) == if InUnitSquare(x, y) then 1 else 0
  {
    var a, b, c := EqualStrip(3, 0.0, THIRD), EqualStrip(3, THIRD, THIRD), EqualStrip(3, 2.0 / 3.0, THIRD);
    EqualStripIsSeamless(3, 0.0, THIRD, x, y);
    EqualStripIsSeamless(3, THIRD, THIRD, x, y);
    EqualStripIsSeamless(3, 2.0 / 3.0, THIRD, x, y);
    HoldersOfSum(a, b + c, x, y);
    HoldersOfSum(b, c, x, y);
    assert Slots("9") == a + (b + c);
  }

  lemma ThreeTile(a: Slot, b: Slot, c: Slot, x: real, y: real)
    ensures Holders([a, b, c], x, y) ==
      (if Inside(a, x, y) then 1 else 0) + (if Inside(b, x, y) then 1 else 0) + (if Inside(c, x, y) then 1 else 0)
  {
    HoldersCons(a, [b, c], x, y);
    HoldersCons(b, [c], x, y);
    HoldersCons(c, [], x, y);
    assert [a, b, c] == [a] + [b, c] && [b, c] == [b] + [c] && [c] == [c] + [];
  }

  lemma UnevenLayoutsTile(layout: string, x: real, y: real)
    requires layout in ["1", "2v", "3L", "3T"]
    ensures Holders(Slots(layout), x, y) == if InUnitSquare(x, y) then 1 else 0
  {
    if layout == "1" {
      HoldersCons(FULL, [], x, y);
      assert Slots(layout) == [FULL] + [];
    } else if layout == "2v" {
      var top, bottom := Slot(0.0, 0.0, 1.0, 0.5), Slot(0.0, 0.5, 1.0, 0.5);
      HoldersCons(top, [bottom], x, y);
      HoldersCons(bottom, [], x, y);
      assert Slots(layout) == [top] + [bottom] && [bottom] == [bottom] + [];
    } else if layout == "3L" {
      ThreeTile(Slot(0.0, 0.0, 0.6, 1.0), Slot(0.6, 0.0, 0.4, 0.5), Slot(0.6, 0.5, 0.4, 0.5), x, y);
    } else {
      ThreeTile(Slot(0.0, 0.0, 1.0, 0.6), Slot(0.0, 0.6, 0.5, 0.4), Slot(0.5, 0.6, 0.5, 0.4), x, y);
    }
  }

  lemma TwoRows(layout: string)
    requires layout in ["4", "6", "8", "10"]
    ensures var n := if layout == "4" then 2 else if layout == "6" then 3 else if layout == "8" then 4 else 5;
      Slots(layout) == EqualStrip(n, 0.0, 0.5) + EqualStrip(n, 0.5, 0.5)
  {
  }

  /** Every layout tiles the grid: each point of it lies in exactly one slot, and no slot sticks out. */
  lemma LayoutsTile(layout: string, x: real, y: real)
    requires layout in NAMES
    ensures Holders(Slots(layout), x, y) == if InUnitSquare(x, y) then 1 else 0
  {
    if layout == "2h" {
      EqualStripIsSeamless(2, 0.0, 1.0, x, y);
    } else if layout == "9" {
      NineTile(x, y);
    } else if layout in ["4", "6", "8", "10"] {
      TwoRows(layout);
      RowsTile(if layout == "4" then 2 else if layout == "6" then 3 else if layout == "8" then 4 else 5, x, y);
    } else {
      UnevenLayoutsTile(layout, x, y);
    }
  }

  lemma {:induction false} HoldersHas(slots: seq<Slot>, i: nat, x: real, y: real)
    requires i < |slots| && Inside(slots[i], x, y)
    ensures Holders(slots, x, y) >= 1
  {
    if i > 0 {
      HoldersHas(slots[1..], i - 1, x, y);
    }
  }

  lemma HeldTwice(slots: seq<Slot>, i: nat, j: nat, x: real, y: real)
    requires i < j < |slots| && Inside(slots[i], x, y) && Inside(slots[j], x, y)
    ensures Holders(slots, x, y) >= 2
  {
    var a, b := slots[..j], slots[j..];
    HoldersHas(a, i, x, y);
    HoldersHas(b, 0, x, y);
    HoldersOfSum(a, b, x, y);
    assert slots == a + b;
  }

  predicate HasArea(s: Slot) {
    s.w > 0.0 && s.h > 0.0
  }

  /** Exactly the known names have slots. */
  lemma KnownHasSlots(layout: string)
    ensures Known(layout) <==> Slots(layout) != []
  {
  }

  /** How many slots each layout has, and how the ones with two and three are cut. */
  lemma LayoutShapes()
    ensures |Slots("1")| == 1 && |Slots("2h")| == 2 && |Slots("2v")| == 2 && |Slots("4")| == 4
    ensures |Slots("3L")| == 3 && |Slots("3T")| == 3 && |Slots("6")| == 6 && |Slots("8")| == 8
    ensures |Slots("9")| == 9 && |Slots("10")| == 10
    ensures Slots("2h")[0].h == 1.0 == Slots("2h")[1].h && Slots("2h")[0].x < Slots("2h")[1].x
    ensures Slots("2v")[0].w == 1.0 == Slots("2v")[1].w && Slots("2v")[0].y < Slots("2v")[1].y
    ensures Slots("3L")[0].x == 0.0 && Slots("3L")[0].w == 0.6 && Slots("3L")[0].h == 1.0
    ensures Slots("3T")[0].y == 0.0 && Slots("3T")[0].w == 1.0 && Slots("3T")[0].h == 0.6
  {
  }

  /** The slots are numbered row by row, from left to right. */
  lemma SlotsInReadingOrder(layout: string, i: nat, j: nat)
    requires i < j < |Slots(layout)|
    ensures var a, b := Slots(layout)[i], Slots(layout)[j]; a.y < b.y || (a.y == b.y && a.x < b.x)
  {
  }

  lemma SlotsHaveArea(layout: string, i: nat)
    requires i < |Slots(layout)|
    ensures HasArea(Slots(layout)[i])
  {
  }

  /** No two slots of a layout have a point in common. */
  lemma SlotsAreApart(layout: string, i: nat, j: nat, x: real, y: real)
    requires i < j < |Slots(layout)|
    ensures !(Inside(Slots(layout)[i], x, y) && Inside(Slots(layout)[j], x, y))
  {
    KnownHasSlots(layout);
    LayoutsTile(layout, x, y);
    if Inside(Slots(layout)[i], x, y) && Inside(Slots(layout)[j], x, y) {
      HeldTwice(Slots(layout), i, j, x, y);
    }
  }

  lemma SlotsAreDistinct(layout: string, i: nat, j: nat)
    requires i < j < |Slots(layout)|
    ensures Slots(layout)[i] != Slots(layout)[j]
  {
    var s := Slots(layout)[i];
    SlotsHaveArea(layout, i);
    SlotsAreApart(layout, i, j, s.x, s.y);
  }

  lemma DrawnSlotsAreApart(layout: string, i: nat, j: nat, x: real, y: real)
    requires i < j < |DrawnSlots(layout)|
    ensures var slots := DrawnSlots(layout); slots[i] != slots[j] && !(Inside(slots[i], x, y) && Inside(slots[j], x, y))
  {
    var name := if Known(layout) then layout else "1";
    SlotsAreApart(name, i, j, x, y);
    SlotsAreDistinct(name, i, j);
  }
}
