/** The resource trackers of the status HUD (armor slots, hope, stress, hit
    points) and the damage thresholds shown beside them. */
module StatusHud {
  import opened JsText

  // ---------------------------------------------------------------------------
  // createTracker

  /** A tracker's value and capacity after clamping: the capacity is at least
      0 and the value lies between 0 and the capacity. */
  datatype Tracker = Tracker(cur: int, max: int)

  predicate ValidTracker(t: Tracker) {
    0 <= t.cur <= t.max
  }

  /** `max = Math.max(0, max)` then `cur = Math.max(0, Math.min(cur, max))`. */
  function ClampTracker(cur: int, max: int): (t: Tracker)
    ensures ValidTracker(t)
    ensures t.max == (if max < 0 then 0 else max)
    ensures 0 <= cur <= t.max ==> t.cur == cur
    ensures cur < 0 ==> t.cur == 0
    ensures cur > t.max ==> t.cur == t.max
  {
    var m := Max(0, max);
    Tracker(Max(0, Min(cur, m)), m)
  }

  /** Clamping a tracker that is already in range changes nothing. */
  lemma ClampIdempotent(cur: int, max: int)
    ensures var t := ClampTracker(cur, max); ClampTracker(t.cur, t.max) == t
  {
  }

  /** The crystals of a tracker, from crystal 1 to crystal `max`: each one is
      filled when its number is at most `cur`. */
  method BuildCrystals(cur: int, max: int) returns (filled: seq<bool>)
    ensures var t := ClampTracker(cur, max);
      |filled| == t.max && forall k :: 0 <= k < |filled| ==> (filled[k] <==> k + 1 <= t.cur)
  {
    var t := ClampTracker(cur, max);
    filled := [];
    var i := 1;
    while i <= t.max
      invariant 1 <= i <= t.max + 1
      invariant |filled| == i - 1
      invariant forall k :: 0 <= k < |filled| ==> (filled[k] <==> k + 1 <= t.cur)
    {
      filled := filled + [i <= t.cur];
      i := i + 1;
    }
  }

  /** The number of filled crystals is the clamped value. */
  function FilledCount(filled: seq<bool>): (n: nat)
    ensures n <= |filled|
  {
    if filled == [] then 0 else FilledCount(filled[..|filled| - 1]) + (if filled[|filled| - 1] then 1 else 0)
  }

  /** Counting the filled crystals of a built tracker gives back its value. */
  lemma {:induction false} CrystalsCountValue(filled: seq<bool>, cur: nat)
    requires cur <= |filled|
    requires forall k :: 0 <= k < |filled| ==> (filled[k] <==> k + 1 <= cur)
    ensures FilledCount(filled) == cur
  {
    if filled != [] {
      var n := |filled| - 1;
      if cur == |filled| {
        CrystalsCountValue(filled[..n], n);
      } else {
        CrystalsCountValue(filled[..n], cur);
      }
    }
  }

  /** `${label} (${cur}/${max})`. */
  function TrackerLabel(name: string, t: Tracker): (text: string)
    ensures |text| > |name| + 2 && text[..|name| + 2] == name + " (" && text[|text| - 1] == ')'
    ensures ValidTracker(t) ==>
      text[|name| + 2..|text| - 1] == NatToDecimal(t.cur) + "/" + NatToDecimal(t.max)
  {
    name + " (" + IntToDecimal(t.cur) + "/" + IntToDecimal(t.max) + ")"
  }

  /** Two clamped trackers of the same name whose labels read the same hold
      the same value and capacity. */
  lemma TrackerLabelInjective(name: string, t: Tracker, u: Tracker)
    requires ValidTracker(t) && ValidTracker(u)
    requires TrackerLabel(name, t) == TrackerLabel(name, u)
    ensures t == u
  {
    var a, b := NatToDecimal(t.cur), NatToDecimal(t.max) + ")";
    var a', b' := NatToDecimal(u.cur), NatToDecimal(u.max) + ")";
    var prefix := name + " (";
    assert TrackerLabel(name, t) == prefix + (a + ['/'] + b);
    assert TrackerLabel(name, u) == prefix + (a' + ['/'] + b');
    assert a + ['/'] + b == a' + ['/'] + b' by {
      var x, y := TrackerLabel(name, t), TrackerLabel(name, u);
      assert x[|prefix|..] == a + ['/'] + b;
      assert y[|prefix|..] == a' + ['/'] + b';
    }
    DecimalHasNo(t.cur, '/');
    DecimalHasNo(u.cur, '/');
    SplitAtSeparator(a, b, a', b', '/');
    assert NatToDecimal(t.max) == b[..|b| - 1] && NatToDecimal(u.max) == b'[..|b'| - 1];
    DecimalInjective(t.cur, u.cur);
    DecimalInjective(t.max, u.max);
  }

  /** The value written when crystal `i` is clicked while the stored value is
      `current`: clicking the top filled crystal empties it, any other click
      fills up to the clicked crystal. */
  function ClickValue(i: int, current: int): (v: int)
    ensures v == i || v == i - 1
    ensures v == i - 1 <==> current == i
  {
    if i == current then i - 1 else i
  }

  /** A click on one of the crystals keeps the value within the tracker. */
  lemma ClickStaysInRange(i: int, current: int, t: Tracker)
    requires ValidTracker(t) && 1 <= i <= t.max
    ensures 0 <= ClickValue(i, current) <= t.max
  {
  }

  /** After a click on crystal `i`, the crystals below it are filled, those
      above it are empty, and crystal `i` itself flips off exactly when it was
      the top filled one. */
  lemma ClickFillsUpTo(i: int, current: int, k: int)
    requires 1 <= i && 1 <= k
    ensures k <= ClickValue(i, current) <==> k < i || (k == i && current != i)
  {
  }

  /** Once crystal `i` has been clicked, further clicks on it alternate the
      value between `i` and `i - 1`: two more clicks come back to where the
      first one left it. */
  lemma ClickTwiceToggles(i: int, current: int)
    ensures ClickValue(i, ClickValue(i, ClickValue(i, current))) == ClickValue(i, current)
  {
  }

  /** The capacity of the armor tracker: the base score, else the marks'
      maximum, else the current marks. */
  function ArmorMax(baseScore: Option<int>, marksMax: Option<int>, armorCur: int): (m: int)
    ensures baseScore.Some? ==> m == baseScore.value
    ensures baseScore.None? && marksMax.Some? ==> m == marksMax.value
    ensures baseScore.None? && marksMax.None? ==> m == armorCur
  {
    match baseScore
    case Some(s) => s
    case None => (match marksMax case Some(x) => x case None => armorCur)
  }

  /** The armor tracker as `createTracker` shows it. With neither a base score
      nor a recorded maximum, the capacity is the current marks, so a
      non-negative mark count shows as a full tracker. With a base score, the
      marks are clamped to it: marks above the base score show as full. */
  lemma ArmorTracker(baseScore: Option<int>, marksMax: Option<int>, armorCur: int)
    ensures baseScore.None? && marksMax.None? && armorCur >= 0 ==>
      ClampTracker(armorCur, ArmorMax(baseScore, marksMax, armorCur)) == Tracker(armorCur, armorCur)
    ensures baseScore.Some? ==>
      ClampTracker(armorCur, ArmorMax(baseScore, marksMax, armorCur)) == ClampTracker(armorCur, baseScore.value)
    ensures baseScore.Some? && 0 <= baseScore.value < armorCur ==>
      var t := ClampTracker(armorCur, ArmorMax(baseScore, marksMax, armorCur));
      t.cur == t.max == baseScore.value
    ensures baseScore.None? && marksMax.Some? ==>
      ClampTracker(armorCur, ArmorMax(baseScore, marksMax, armorCur)).max == (if marksMax.value < 0 then 0 else marksMax.value)
  {
  }

  // ---------------------------------------------------------------------------
  // Damage thresholds

  /** A thresholds record as stored: either bound may be missing. */
  datatype Thresholds = Thresholds(major: Option<int>, severe: Option<int>)

  /** `x || 0` for a number that may be missing. */
  function OrZero(x: Option<int>): int {
    match x
    case None => 0
    case Some(v) => v
  }

  /** The level: `levelData.level.current ?? level ?? 0`. */
  function Level(current: Option<int>, level: Option<int>): int {
    match current
    case Some(c) => c
    case None => OrZero(level)
  }

  /** The thresholds the HUD shows: the equipped armor's base thresholds, or
      the actor's own when no armor is equipped, each raised by the level read
      from `levelData.level.current` or `level`. A missing record counts as
      empty. */
  function FinalThresholds(armor: Option<Option<Thresholds>>, actorThresholds: Option<Thresholds>,
                           current: Option<int>, levelField: Option<int>): (r: (int, int))
    ensures var base := BaseThresholds(armor, actorThresholds);
      r == (OrZero(base.major) + Level(current, levelField), OrZero(base.severe) + Level(current, levelField))
  {
    var level := Level(current, levelField);
    var data := match armor
      case Some(t) => t
      case None => actorThresholds;
    var base := match data case Some(t) => t case None => Thresholds(None, None);
    (OrZero(base.major) + level, OrZero(base.severe) + level)
  }

  /** The base thresholds in use. */
  function BaseThresholds(armor: Option<Option<Thresholds>>, actorThresholds: Option<Thresholds>): Thresholds {
    match armor
    case Some(Some(t)) => t
    case Some(None) => Thresholds(None, None)
    case None => match actorThresholds case Some(t) => t case None => Thresholds(None, None)
  }

  /** Each threshold is its base plus the level, so the gap between major and
      severe is the base gap, the order of the two is kept, the current level
      wins over the plain `level` field, and an equipped armor's thresholds
      replace the actor's whatever they are. */
  lemma ThresholdsShiftByLevel(armor: Option<Option<Thresholds>>, actorThresholds: Option<Thresholds>,
                               current: Option<int>, levelField: Option<int>, other: Option<Thresholds>)
    ensures var r := FinalThresholds(armor, actorThresholds, current, levelField);
      var base := BaseThresholds(armor, actorThresholds);
      && r.1 - r.0 == OrZero(base.severe) - OrZero(base.major)
      && (OrZero(base.major) <= OrZero(base.severe) ==> r.0 <= r.1)
      && (current.Some? ==> r.0 == OrZero(base.major) + current.value)
      && (current.None? ==> r.0 == OrZero(base.major) + OrZero(levelField))
    ensures armor.Some? ==>
      FinalThresholds(armor, other, current, levelField) == FinalThresholds(armor, actorThresholds, current, levelField)
  {
  }
}
