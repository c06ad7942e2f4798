/** The fan the visible cards of a hand are laid out in: each card is shifted
    sideways, lowered along an arc and turned in proportion to its distance
    from the middle of the hand, and stacked in dealing order. */
module Fan {

  /** The `handLayout` settings the fan reads. */
  datatype Layout = Layout(spacing: real, arcHeight: real, rotationFactor: real)

  /** What `arrangeCardsInFan` writes into one card: its offsets, its rotation,
      and its z-index (also kept as `originalZIndex`). */
  datatype Placement = Placement(x: real, y: real, r: real, zIndex: int)

  function Abs(v: real): (a: real)
    ensures a >= 0.0 && (a == v || a == -v)
  {
    if v < 0.0 then -v else v
  }

  /** `ni`: the position of card `index` counted from the middle of a hand of
      `total` cards, negative to the left and positive to the right. */
  function Centered(index: int, total: int): (ni: real)
    ensures 2.0 * ni == (2 * index - (total - 1)) as real
  {
    index as real - (total - 1) as real / 2.0
  }

  /** The placement of the card dealt at `index` among `total` visible cards. */
  function Place(index: int, total: int, layout: Layout): (p: Placement)
    ensures p.zIndex == index
    ensures 2.0 * p.x == (2 * index - (total - 1)) as real * layout.spacing
    ensures 2.0 * p.r == (2 * index - (total - 1)) as real * layout.rotationFactor
    ensures var d := (2 * index - (total - 1)) as real; 4.0 * p.y == d * d * layout.arcHeight
  {
    var ni := Centered(index, total);
    assert 2.0 * (ni * layout.spacing) == (2.0 * ni) * layout.spacing;
    assert 2.0 * (ni * layout.rotationFactor) == (2.0 * ni) * layout.rotationFactor;
    ArcHeight(ni, (2 * index - (total - 1)) as real, layout.arcHeight);
    Placement(ni * layout.spacing, Abs(ni) * (Abs(ni) * layout.arcHeight), ni * layout.rotationFactor, index)
  }

  /** The drop `|ni|·(|ni|·arcHeight)`, a quarter of the square of the doubled
      position times the arc height. */
  lemma ArcHeight(ni: real, d: real, h: real)
    requires 2.0 * ni == d
    ensures 4.0 * (Abs(ni) * (Abs(ni) * h)) == d * d * h
  {
    var a := Abs(ni);
    assert a * a == ni * ni;
    assert 4.0 * (a * (a * h)) == (2.0 * ni) * (2.0 * ni) * h;
  }

  /** Card `i` and card `total - 1 - i` sit at mirrored places: opposite
      offsets and turns, the same height. */
  lemma FanMirror(i: int, total: int, layout: Layout)
    ensures var p, q := Place(i, total, layout), Place(total - 1 - i, total, layout);
      q.x == -p.x && q.r == -p.r && q.y == p.y
  {
    var ni := Centered(i, total);
    var nj := Centered(total - 1 - i, total);
    assert nj == -ni;
    assert Abs(nj) == Abs(ni);
  }

  /** With a non-negative arc, no card is raised above the middle. */
  lemma FanArcNonNegative(i: int, total: int, layout: Layout)
    requires layout.arcHeight >= 0.0
    ensures Place(i, total, layout).y >= 0.0
  {
    var a := Abs(Centered(i, total));
    assert a * layout.arcHeight >= 0.0;
  }

  /** With a non-negative arc, a card further from the middle is never higher
      than one closer to it. */
  lemma FanArcMonotone(i: int, j: int, total: int, layout: Layout)
    requires layout.arcHeight >= 0.0
    requires Abs(Centered(i, total)) <= Abs(Centered(j, total))
    ensures Place(i, total, layout).y <= Place(j, total, layout).y
  {
    SquareMonotone(Abs(Centered(i, total)), Abs(Centered(j, total)), layout.arcHeight);
  }

  lemma SquareMonotone(a: real, b: real, h: real)
    requires 0.0 <= a <= b && h >= 0.0
    ensures a * (a * h) <= b * (b * h)
  {
    ScaleMonotone(a, b, h);
    var x, y := a * h, b * h;
    ScaleMonotone(x, y, a);
    ScaleMonotone(a, b, y);
    assert a * x <= a * y <= b * y;
  }

  lemma ScaleMonotone(u: real, v: real, c: real)
    requires u <= v && c >= 0.0
    ensures u * c <= v * c
  {
    assert v * c - u * c == (v - u) * c;
  }

  /** The middle card of a hand with an odd number of cards lies flat at the
      centre. */
  lemma FanMiddle(total: int, layout: Layout)
    requires total > 0 && total % 2 == 1
    ensures var p := Place((total - 1) / 2, total, layout); p.x == 0.0 && p.y == 0.0 && p.r == 0.0
  {
    assert 2 * ((total - 1) / 2) - (total - 1) == 0;
    assert Centered((total - 1) / 2, total) == 0.0;
  }

  /** Three cards with spacing 100, arc 5 and rotation 5. */
  lemma FanOfThree()
    ensures var l := Layout(100.0, 5.0, 5.0);
      && Place(0, 3, l) == Placement(-100.0, 5.0, -5.0, 0)
      && Place(1, 3, l) == Placement(0.0, 0.0, 0.0, 1)
      && Place(2, 3, l) == Placement(100.0, 5.0, 5.0, 2)
  {
    assert Centered(0, 3) == -1.0 && Centered(1, 3) == 0.0 && Centered(2, 3) == 1.0;
  }
}
