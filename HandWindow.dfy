/** The scrolling window over the cards of a hand: at most `maxVisibleCards`
    consecutive cards are shown, the mouse wheel moves the window one card at a
    time, and the shown cards are laid out in a fan. */
module HandWindow {
  import opened JsText
  import opened Fan

  /** A card element as the window sees it: whether its `display` is not
      "none", and the placement the last fan wrote into it (none before the
      first). */
  datatype CardView = CardView(shown: bool, placement: Option<Placement>)

  // ---------------------------------------------------------------------------
  // The window

  /** The last start of a full window: `Math.max(0, n - maxVisibleCards)`. */
  function MaxStart(n: int, maxVisible: int): (m: int)
    ensures m >= 0 && m >= n - maxVisible
  {
    Max(0, n - maxVisible)
  }

  /** The start after `updateHandView`'s two guards: first lowered to the last
      start, then raised to 0. */
  function ClampStart(start: int, n: int, maxVisible: int): (c: int)
    ensures 0 <= c <= MaxStart(n, maxVisible)
    ensures 0 <= start <= MaxStart(n, maxVisible) ==> c == start
    ensures start > MaxStart(n, maxVisible) ==> c == MaxStart(n, maxVisible)
    ensures start < 0 ==> c == 0
  {
    var s := if start > MaxStart(n, maxVisible) then MaxStart(n, maxVisible) else start;
    if s < 0 then 0 else s
  }

  predicate InWindow(idx: int, start: int, maxVisible: int) {
    start <= idx < start + maxVisible
  }

  /** How many of the cards `0 .. k-1` lie in the window starting at `start`. */
  function WindowCount(k: int, start: int, maxVisible: int): int {
    Max(0, Min(k, start + maxVisible) - start)
  }

  /** A clamped window over `n` cards shows `min(n, maxVisibleCards)` of them
      (none when the cap is not positive). */
  lemma VisibleCount(n: nat, start: int, maxVisible: int)
    requires start == ClampStart(start, n, maxVisible)
    ensures WindowCount(n, start, maxVisible) == Max(0, Min(n, maxVisible))
  {
  }

  /** The number of shown cards among the first `k` of `flags`: the rank in
      the fan of card `k` when it is shown. */
  function ShownBefore(flags: seq<bool>, k: nat): (c: nat)
    requires k <= |flags|
    ensures c <= k
  {
    if k == 0 then 0 else ShownBefore(flags, k - 1) + if flags[k - 1] then 1 else 0
  }

  /** When the shown cards are exactly those of a window, the shown cards
      before `k` are those of the window before `k`; so a shown card's rank in
      the fan is its distance from the start of the window. */
  lemma {:induction false} WindowRank(flags: seq<bool>, start: int, maxVisible: int, k: nat)
    requires 0 <= start && k <= |flags|
    requires forall j :: 0 <= j < |flags| ==> flags[j] == InWindow(j, start, maxVisible)
    ensures ShownBefore(flags, k) == WindowCount(k, start, maxVisible)
  {
    if k > 0 {
      WindowRank(flags, start, maxVisible, k - 1);
    }
  }

  /** In a clamped window the fan ranks the shown cards from the start of the
      window, and it spreads them over `min(n, maxVisibleCards)` places. */
  lemma WindowFan(flags: seq<bool>, start: int, maxVisible: int)
    requires start == ClampStart(start, |flags|, maxVisible)
    requires forall j :: 0 <= j < |flags| ==> flags[j] == InWindow(j, start, maxVisible)
    ensures forall k :: 0 <= k < |flags| && flags[k] ==> ShownBefore(flags, k) == k - start
    ensures ShownBefore(flags, |flags|) == Max(0, Min(|flags|, maxVisible))
  {
    forall k | 0 <= k < |flags| && flags[k]
      ensures ShownBefore(flags, k) == k - start
    {
      WindowRank(flags, start, maxVisible, k);
    }
    WindowRank(flags, start, maxVisible, |flags|);
    VisibleCount(|flags|, start, maxVisible);
  }

  /** The `display` flags of a row of cards. */
  function ShownFlags(cs: seq<CardView>): (flags: seq<bool>)
    ensures |flags| == |cs| && forall k :: 0 <= k < |cs| ==> flags[k] == cs[k].shown
  {
    seq(|cs|, k requires 0 <= k < |cs| => cs[k].shown)
  }

  /** The cards after their `display` is set from the window. */
  function Windowed(cs: seq<CardView>, start: int, maxVisible: int): (ws: seq<CardView>)
    ensures |ws| == |cs|
    ensures forall k :: 0 <= k < |cs| ==> ws[k].placement == cs[k].placement
    ensures forall k :: 0 <= k < |cs| ==> (ws[k].shown <==> start <= k < start + maxVisible)
  {
    seq(|cs|, k requires 0 <= k < |cs| => cs[k].(shown := InWindow(k, start, maxVisible)))
  }

  /** The cards after `arrangeCardsInFan`: a shown card is placed by its rank
      among the shown cards, a hidden card is left as it was. */
  function Fanned(cs: seq<CardView>, layout: Layout): (fs: seq<CardView>)
    ensures |fs| == |cs|
    ensures forall k :: 0 <= k < |cs| && !cs[k].shown ==> fs[k] == cs[k]
    ensures forall k :: 0 <= k < |cs| ==> fs[k].shown == cs[k].shown
  {
    var flags := ShownFlags(cs);
    seq(|cs|, k requires 0 <= k < |cs| =>
      if cs[k].shown then cs[k].(placement := Some(Place(ShownBefore(flags, k), ShownBefore(flags, |cs|), layout)))
      else cs[k])
  }

  /** `updateHandView` as a whole: after the window is applied and fanned, the
      cards of the window are shown and placed from the start of the window
      as a fan of `min(n, maxVisibleCards)` cards; every other card is hidden
      and keeps its old placement. */
  lemma WindowedFan(cs: seq<CardView>, start: int, maxVisible: int, layout: Layout)
    requires start == ClampStart(start, |cs|, maxVisible)
    ensures var fs := Fanned(Windowed(cs, start, maxVisible), layout);
      forall k :: 0 <= k < |cs| ==>
        fs[k] == if InWindow(k, start, maxVisible)
          then CardView(true, Some(Place(k - start, Max(0, Min(|cs|, maxVisible)), layout)))
          else cs[k].(shown := false)
  {
    var ws := Windowed(cs, start, maxVisible);
    var flags := ShownFlags(ws);
    var fs := Fanned(ws, layout);
    WindowFan(flags, start, maxVisible);
    forall k | 0 <= k < |cs|
      ensures fs[k] == if InWindow(k, start, maxVisible)
        then CardView(true, Some(Place(k - start, Max(0, Min(|cs|, maxVisible)), layout)))
        else cs[k].(shown := false)
    {
      if flags[k] {
        assert ShownBefore(flags, k) == k - start;
        assert fs[k] == ws[k].(placement := Some(Place(ShownBefore(flags, k), ShownBefore(flags, |cs|), layout)));
      }
    }
  }

  // ---------------------------------------------------------------------------
  // The wheel

  /** The start after a wheel event: unchanged when every card fits, else one
      card further (`deltaY > 0`) or back, clamped. */
  function WheelStart(start: int, deltaY: real, n: int, maxVisible: int): (s: int)
    ensures n <= maxVisible ==> s == start
    ensures n > maxVisible ==> 0 <= s <= n - maxVisible
    ensures n > maxVisible && 0 <= start <= n - maxVisible && (if deltaY > 0.0 then start < n - maxVisible else start > 0) ==>
              s == start + (if deltaY > 0.0 then 1 else -1)
  {
    if n <= maxVisible then start
    else ClampStart(start + (if deltaY > 0.0 then 1 else -1), n, maxVisible)
  }

  /** The start after `k` scrolls down. */
  function ScrollDowns(start: int, k: nat, n: int, maxVisible: int): int
    decreases k
  {
    if k == 0 then start else ScrollDowns(WheelStart(start, 1.0, n, maxVisible), k - 1, n, maxVisible)
  }

  /** Scrolling down from the first card advances one card per event until the
      last full window. */
  lemma {:induction false} ScrollDownsFromStart(start: int, k: nat, n: int, maxVisible: int)
    requires n > maxVisible && 0 <= start <= n - maxVisible
    ensures ScrollDowns(start, k, n, maxVisible) == Min(start + k, n - maxVisible)
    decreases k
  {
    if k > 0 {
      ScrollDownsFromStart(WheelStart(start, 1.0, n, maxVisible), k - 1, n, maxVisible);
    }
  }

  /** Ten cards, six visible: five scrolls down from the start end at card 4. */
  lemma TenCardsFiveScrolls()
    ensures ScrollDowns(0, 5, 10, 6) == 4
  {
    ScrollDownsFromStart(0, 5, 10, 6);
  }

  /** Inside the range a scroll down and a scroll up cancel; at either end the
      window stays put. */
  lemma WheelBackAndForth(start: int, n: int, maxVisible: int)
    requires n > maxVisible && 0 <= start < n - maxVisible
    ensures WheelStart(WheelStart(start, 1.0, n, maxVisible), -1.0, n, maxVisible) == start
    ensures WheelStart(0, -1.0, n, maxVisible) == 0
    ensures WheelStart(n - maxVisible, 1.0, n, maxVisible) == n - maxVisible
  {
  }

  // ---------------------------------------------------------------------------
  // The hand's card elements

  /** The `renderHand` closure state: the start of the window and the card
      elements of the hand, with the layout settings. */
  class HandView {
    var visibleStartIndex: int
    const cards: array<CardView>
    const maxVisibleCards: int
    const layout: Layout

    /** The hand as built: the window at the first card, every card element
        displayed and not yet placed. */
    constructor (cardCount: nat, maxVisibleCards: int, layout: Layout)
      ensures visibleStartIndex == 0 && fresh(cards) && cards.Length == cardCount
      ensures forall k :: 0 <= k < cardCount ==> cards[k] == CardView(true, None)
      ensures this.maxVisibleCards == maxVisibleCards && this.layout == layout
    {
      visibleStartIndex := 0;
      cards := new CardView[cardCount](_ => CardView(true, None));
      this.maxVisibleCards := maxVisibleCards;
      this.layout := layout;
    }

    /** `arrangeCardsInFan` over the card elements in order. */
    method ArrangeCardsInFan()
      modifies cards
      ensures cards[..] == Fanned(old(cards[..]), layout)
    {
      ghost var fanned := Fanned(cards[..], layout);
      ghost var flags := ShownFlags(cards[..]);
      var total := CountVisible();
      var index := 0;
      for k := 0 to cards.Length
        invariant index == ShownBefore(flags, k)
        invariant forall j :: 0 <= j < cards.Length ==> cards[j] == if j < k then fanned[j] else old(cards[j])
      {
        if cards[k].shown {
          assert fanned[k] == cards[k].(placement := Some(Place(index, total, layout)));
          cards[k] := cards[k].(placement := Some(Place(index, total, layout)));
          index := index + 1;
        }
      }
      assert cards[..] == fanned;
    }

    /** `visible.length`: the number of shown cards. */
    method CountVisible() returns (total: nat)
      ensures total == ShownBefore(ShownFlags(cards[..]), cards.Length)
    {
      ghost var flags := ShownFlags(cards[..]);
      total := 0;
      for k := 0 to cards.Length
        invariant total == ShownBefore(flags, k)
      {
        if cards[k].shown {
          total := total + 1;
        }
      }
    }

    /** Sets each card's `display` from its place in the window. */
    method ShowWindow()
      modifies cards
      ensures cards[..] == Windowed(old(cards[..]), visibleStartIndex, maxVisibleCards)
    {
      ghost var windowed := Windowed(cards[..], visibleStartIndex, maxVisibleCards);
      for idx := 0 to cards.Length
        invariant forall j :: 0 <= j < cards.Length ==> cards[j] == if j < idx then windowed[j] else old(cards[j])
      {
        cards[idx] := cards[idx].(shown := visibleStartIndex <= idx < visibleStartIndex + maxVisibleCards);
      }
      assert cards[..] == windowed;
    }

    /** `updateHandView`: clamps the start, shows exactly the cards of the
        window and fans them out (see `WindowedFan`). */
    method UpdateHandView()
      modifies this, cards
      ensures visibleStartIndex == ClampStart(old(visibleStartIndex), cards.Length, maxVisibleCards)
      ensures cards[..] == Fanned(Windowed(old(cards[..]), visibleStartIndex, maxVisibleCards), layout)
    {
      var maxStart := Max(0, cards.Length - maxVisibleCards);
      if visibleStartIndex > maxStart {
        visibleStartIndex := maxStart;
      }
      if visibleStartIndex < 0 {
        visibleStartIndex := 0;
      }
      ShowWindow();
      ArrangeCardsInFan();
    }

    /** The wheel handler on a card: nothing happens when every card fits;
        otherwise the window moves by one card and the view is updated. */
    method Wheel(deltaY: real)
      modifies this, cards
      ensures visibleStartIndex == WheelStart(old(visibleStartIndex), deltaY, cards.Length, maxVisibleCards)
      ensures cards.Length <= maxVisibleCards ==> unchanged(cards)
      ensures cards.Length > maxVisibleCards ==>
        cards[..] == Fanned(Windowed(old(cards[..]), visibleStartIndex, maxVisibleCards), layout)
    {
      if cards.Length <= maxVisibleCards {
        return;
      }
      visibleStartIndex := visibleStartIndex + (if deltaY > 0.0 then 1 else -1);
      UpdateHandView();
    }
  }
}
