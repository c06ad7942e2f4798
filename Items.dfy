/** The items of the actor and the choice of cards a hand shows: which items
    go into the domain-card ("config"), items and features hands, and the
    order they are dealt in. */
module Items {

  /** An item of the actor, as far as the hand looks at it. `kind` is the item
      type (empty when missing), `level` and `sort` read 0 when missing, and
      `owned` says that the item belongs to an actor the user owns. */
  datatype Item = Item(id: string, kind: string, level: int, sort: int, name: string,
                       inVault: bool, equipped: bool, owned: bool)

  // ---------------------------------------------------------------------------
  // Item types

  /** `toLowerCase` on the ASCII letters. */
  function LowerChar(c: char): (d: char)
    ensures 'A' <= c <= 'Z' ==> d as int == c as int + 32
    ensures !('A' <= c <= 'Z') ==> d == c
  {
    if 'A' <= c <= 'Z' then (c as int + 32) as char else c
  }

  function Lower(s: string): (t: string)
    ensures |t| == |s| && forall k :: 0 <= k < |s| ==> t[k] == LowerChar(s[k])
  {
    seq(|s|, k requires 0 <= k < |s| => LowerChar(s[k]))
  }

  /** The item type compared without regard to case. */
  predicate KindIs(it: Item, kind: string) {
    Lower(it.kind) == kind
  }

  predicate IsDomainCard(it: Item) {
    KindIs(it, "domaincard")
  }

  /** Lower-casing changes nothing in a type name that is already lower case. */
  lemma LowerOfLowerCase(s: string)
    requires forall k :: 0 <= k < |s| ==> !('A' <= s[k] <= 'Z')
    ensures Lower(s) == s
  {
  }

  /** "domaincard" spelt with any mix of upper- and lower-case letters counts
      as a domain card. */
  lemma DomainCardAnyCase(it: Item)
    requires |it.kind| == 10
    requires forall k :: 0 <= k < 10 ==> it.kind[k] == "domaincard"[k] || it.kind[k] == "DOMAINCARD"[k]
    ensures IsDomainCard(it)
  {
    assert Lower(it.kind) == "domaincard";
  }

  // ---------------------------------------------------------------------------
  // The filter of renderHand

  /** Whether `it` is dealt into a hand of type `handType`. The config hand
      takes the domain cards (only those out of the vault once the selection is
      confirmed), the items hand takes loot, consumables and equipped weapons,
      the features hand takes features, and any other hand takes nothing. Only
      items of an owned actor are dealt at all. */
  predicate InHand(it: Item, handType: string, confirmed: bool)
    ensures InHand(it, handType, confirmed) ==>
      it.owned && (handType == "config" || handType == "items" || handType == "features")
    ensures InHand(it, handType, confirmed) && handType != "config" ==> !IsDomainCard(it)
  {
    && it.owned
    && if handType == "config" then
         IsDomainCard(it) && (confirmed ==> !it.inVault)
       else if handType == "items" then
         if KindIs(it, "weapon") then it.equipped else KindIs(it, "loot") || KindIs(it, "consumable")
       else if handType == "features" then
         KindIs(it, "feature")
       else
         false
  }

  /** The items dealt into the hand, in the actor's order. */
  function HandFilter(items: seq<Item>, handType: string, confirmed: bool): (hand: seq<Item>)
    ensures |hand| <= |items|
    ensures forall x :: multiset(hand)[x] == if InHand(x, handType, confirmed) then multiset(items)[x] else 0
  {
    if items == [] then []
    else
      var n := |items| - 1;
      assert items == items[..n] + [items[n]];
      HandFilter(items[..n], handType, confirmed) + if InHand(items[n], handType, confirmed) then [items[n]] else []
  }

  /** An item is in the hand exactly when it is among the items and the hand
      takes it. */
  lemma InHandFilter(items: seq<Item>, handType: string, confirmed: bool, x: Item)
    ensures x in HandFilter(items, handType, confirmed) <==> x in items && InHand(x, handType, confirmed)
  {
    assert multiset(HandFilter(items, handType, confirmed))[x] > 0 <==> x in HandFilter(items, handType, confirmed);
  }

  /** A hand type other than config, items and features is always empty. */
  lemma OtherHandIsEmpty(items: seq<Item>, handType: string, confirmed: bool)
    requires handType != "config" && handType != "items" && handType != "features"
    ensures HandFilter(items, handType, confirmed) == []
  {
    var hand := HandFilter(items, handType, confirmed);
    assert multiset(hand) == multiset{};
  }

  /** Confirming the selection only hides cards: the confirmed config hand is
      the unconfirmed one without the vaulted cards. */
  lemma ConfirmedHandIsOutOfVault(items: seq<Item>, x: Item)
    ensures multiset(HandFilter(items, "config", true))[x]
            == if x.inVault then 0 else multiset(HandFilter(items, "config", false))[x]
  {
  }

  /** The items hand holds a weapon only when it is equipped. */
  lemma ItemsHandWeapons(items: seq<Item>, confirmed: bool, x: Item)
    requires x in HandFilter(items, "items", confirmed) && KindIs(x, "weapon")
    ensures x.equipped
  {
    InHandFilter(items, "items", confirmed, x);
  }

  // ---------------------------------------------------------------------------
  // The order of the hand

  /** Names are compared character by character (`localeCompare` without a
      locale's collation). */
  predicate NameBefore(a: string, b: string) {
    if b == [] then false
    else if a == [] then true
    else if a[0] != b[0] then a[0] < b[0]
    else NameBefore(a[1..], b[1..])
  }

  lemma {:induction false} NameBeforeIrreflexive(a: string)
    ensures !NameBefore(a, a)
  {
    if a != [] {
      NameBeforeIrreflexive(a[1..]);
    }
  }

  lemma {:induction false} NameBeforeTransitive(a: string, b: string, c: string)
    requires NameBefore(a, b) && NameBefore(b, c)
    ensures NameBefore(a, c)
  {
    if a != [] && a[0] == b[0] && b[0] == c[0] {
      NameBeforeTransitive(a[1..], b[1..], c[1..]);
    }
  }

  lemma {:induction false} NameBeforeTotal(a: string, b: string)
    ensures a == b || NameBefore(a, b) || NameBefore(b, a)
  {
    if a != [] && b != [] && a[0] == b[0] {
      NameBeforeTotal(a[1..], b[1..]);
      if a[1..] == b[1..] {
        assert a == [a[0]] + a[1..] && b == [b[0]] + b[1..];
      }
    }
  }

  /** Whether `x` strictly precedes `y`: by level in the config hand, else by
      `sort` and then by name. */
  predicate Before(x: Item, y: Item, byLevel: bool) {
    if byLevel then x.level < y.level
    else x.sort < y.sort || (x.sort == y.sort && NameBefore(x.name, y.name))
  }

  /** `x` may come before `y`. */
  predicate Le(x: Item, y: Item, byLevel: bool) {
    !Before(y, x, byLevel)
  }

  /** An item that strictly precedes another may come before it. */
  lemma BeforeAsymmetric(x: Item, y: Item, byLevel: bool)
    requires Before(x, y, byLevel)
    ensures Le(x, y, byLevel)
  {
    if !byLevel && x.sort == y.sort && NameBefore(y.name, x.name) {
      NameBeforeTransitive(x.name, y.name, x.name);
      NameBeforeIrreflexive(x.name);
    }
  }

  lemma LeTransitive(x: Item, y: Item, z: Item, byLevel: bool)
    requires Le(x, y, byLevel) && Le(y, z, byLevel)
    ensures Le(x, z, byLevel)
  {
    if !byLevel && x.sort == y.sort && y.sort == z.sort {
      NameBeforeTotal(x.name, y.name);
      NameBeforeTotal(y.name, z.name);
      if NameBefore(z.name, x.name) {
        if x.name == y.name {
        } else if NameBefore(x.name, y.name) {
          NameBeforeTransitive(z.name, x.name, y.name);
        }
      }
    }
  }

  predicate Sorted(s: seq<Item>, byLevel: bool) {
    forall i, j :: 0 <= i < j < |s| ==> Le(s[i], s[j], byLevel)
  }

  predicate AdjacentSorted(s: seq<Item>, byLevel: bool) {
    forall k :: 0 < k < |s| ==> Le(s[k - 1], s[k], byLevel)
  }

  /** Neighbours in order means every pair in order. */
  lemma {:induction false} AdjacentSortedIsSorted(s: seq<Item>, byLevel: bool)
    requires AdjacentSorted(s, byLevel)
    ensures Sorted(s, byLevel)
  {
    if |s| > 1 {
      var t := s[..|s| - 1];
      AdjacentSortedIsSorted(t, byLevel);
      forall i | 0 <= i < |s| - 1
        ensures Le(s[i], s[|s| - 1], byLevel)
      {
        if i < |s| - 2 {
          assert Le(t[i], t[|s| - 2], byLevel);
          LeTransitive(s[i], s[|s| - 2], s[|s| - 1], byLevel);
        }
      }
    }
  }

  /** Whether a hand is ordered by level: the config hand (and a hand named
      after the domain cards). */
  predicate SortsByLevel(handType: string) {
    handType == "config" || handType == "domaincard"
  }

  /** `itemsToDisplay.sort(...)`: sorts the hand in place. */
  method SortHand(a: array<Item>, byLevel: bool)
    modifies a
    ensures Sorted(a[..], byLevel)
    ensures multiset(a[..]) == old(multiset(a[..]))
  {
    var i := 0;
    while i < a.Length
      invariant 0 <= i <= a.Length
      invariant AdjacentSorted(a[..i], byLevel)
      invariant multiset(a[..]) == old(multiset(a[..]))
    {
      Insert(a, i, byLevel);
      i := i + 1;
    }
    AdjacentSortedIsSorted(a[..], byLevel);
  }

  /** Moves `a[i]` down into the sorted prefix `a[..i]`. */
  method Insert(a: array<Item>, i: nat, byLevel: bool)
    requires i < a.Length && AdjacentSorted(a[..i], byLevel)
    modifies a
    ensures AdjacentSorted(a[..i + 1], byLevel)
    ensures multiset(a[..]) == old(multiset(a[..]))
  {
    var j := i;
    while j > 0 && Before(a[j], a[j - 1], byLevel)
      invariant 0 <= j <= i
      invariant forall k :: 0 < k <= i && k != j ==> Le(a[k - 1], a[k], byLevel)
      invariant 0 < j < i ==> Le(a[j - 1], a[j + 1], byLevel)
      invariant multiset(a[..]) == old(multiset(a[..]))
    {
      BeforeAsymmetric(a[j], a[j - 1], byLevel);
      SwapDown(a, j);
      j := j - 1;
    }
  }

  /** Swaps `a[j - 1]` and `a[j]`. */
  method SwapDown(a: array<Item>, j: nat)
    requires 0 < j < a.Length
    modifies a
    ensures a[j - 1] == old(a[j]) && a[j] == old(a[j - 1])
    ensures forall k :: 0 <= k < a.Length && k != j - 1 && k != j ==> a[k] == old(a[k])
    ensures multiset(a[..]) == old(multiset(a[..]))
  {
    a[j - 1], a[j] := a[j], a[j - 1];
  }

  /** The cards of a hand, in the order they are dealt: the filtered items,
      sorted. */
  method RenderHandItems(items: seq<Item>, handType: string, confirmed: bool) returns (hand: seq<Item>)
    ensures multiset(hand) == multiset(HandFilter(items, handType, confirmed))
    ensures Sorted(hand, SortsByLevel(handType))
  {
    var filtered := HandFilter(items, handType, confirmed);
    var a := new Item[|filtered|](k requires 0 <= k < |filtered| => filtered[k]);
    assert a[..] == filtered;
    SortHand(a, SortsByLevel(handType));
    hand := a[..];
  }
}
