/** The domain-card loadout: the per-actor selection of at most five domain
    cards, the counter on the Setup tab, the flags of a card in the config
    hand, and the vault updates that confirming or resetting the loadout
    writes to the actor's items. */
module DomainConfig {
  import opened JsText
  import opened Items

  /** The most domain cards that can be selected. */
  const MaxSelected: nat := 5

  predicate NoDup(s: seq<string>) {
    forall i, j :: 0 <= i < j < |s| ==> s[i] != s[j]
  }

  // ---------------------------------------------------------------------------
  // The persisted state and its defaults

  /** The selection as the HUD keeps it for one actor. */
  datatype Selection = Selection(selectedItems: seq<string>, confirmed: bool)

  /** The stored object: each key may be absent. */
  datatype Stored = Stored(selectedItems: Option<seq<string>>, confirmed: Option<bool>)

  const DefaultSelection := Selection([], false)

  /** `{ ...defaultState, ...stored }`: a key present in the stored object wins,
      an absent one takes the default. Nothing stored (or nothing readable)
      counts as the empty object. */
  function MergeDefaults(stored: Option<Stored>): (s: Selection)
    ensures stored.None? ==> s == DefaultSelection
    ensures stored.Some? && stored.value.selectedItems.Some? ==> s.selectedItems == stored.value.selectedItems.value
    ensures stored.Some? && stored.value.selectedItems.None? ==> s.selectedItems == []
    ensures stored.Some? && stored.value.confirmed.Some? ==> s.confirmed == stored.value.confirmed.value
    ensures stored.Some? && stored.value.confirmed.None? ==> !s.confirmed
  {
    match stored
    case None => DefaultSelection
    case Some(st) =>
      Selection(match st.selectedItems case Some(v) => v case None => [],
                match st.confirmed case Some(v) => v case None => false)
  }

  /** What `saveState` writes: every key. */
  function Save(s: Selection): Stored {
    Stored(Some(s.selectedItems), Some(s.confirmed))
  }

  /** Loading what was saved gives back the same selection. */
  lemma LoadAfterSave(s: Selection)
    ensures MergeDefaults(Some(Save(s))) == s
  {
  }

  // ---------------------------------------------------------------------------
  // The right-click toggle

  /** What a right click on a card did. */
  datatype ToggleOutcome = Removed | Added | RejectedFull

  /** `sel.indexOf(id)`: the first position of `id`, or -1. */
  function Position(sel: seq<string>, id: string): (i: int)
    ensures -1 <= i < |sel|
    ensures i == -1 <==> id !in sel
    ensures 0 <= i ==> sel[i] == id && id !in sel[..i]
  {
    if sel == [] then -1
    else if sel[0] == id then 0
    else
      var i := Position(sel[1..], id);
      assert sel[1..][..if i < 0 then 0 else i] == sel[1..if i < 0 then 1 else i + 1];
      if i < 0 then -1 else i + 1
  }

  /** The toggle on a selectable domain card: a selected id is removed, an
      unselected one is appended unless five are already selected. */
  function Toggle(sel: seq<string>, id: string): (r: (seq<string>, ToggleOutcome))
    ensures r.1 == Removed <==> id in sel
    ensures r.1 == RejectedFull <==> id !in sel && |sel| >= MaxSelected
    ensures r.1 == RejectedFull ==> r.0 == sel
  {
    var i := Position(sel, id);
    if i > -1 then (sel[..i] + sel[i + 1..], Removed)
    else if |sel| >= MaxSelected then (sel, RejectedFull)
    else (sel + [id], Added)
  }

  /** `s` without any occurrence of `x`, the rest in order. */
  function Without(s: seq<string>, x: string): (r: seq<string>)
    ensures forall y :: y in r <==> y in s && y != x
  {
    if s == [] then []
    else (if s[0] == x then [] else [s[0]]) + Without(s[1..], x)
  }

  /** Removing a selected id leaves the other ids in their order. */
  lemma {:induction false} ToggleRemoves(sel: seq<string>, id: string)
    requires NoDup(sel) && id in sel
    ensures Toggle(sel, id).0 == Without(sel, id)
  {
    var i := Position(sel, id);
    var rest := sel[i + 1..];
    NotAfter(sel, i);
    calc {
      Without(sel, id);
      { assert sel == sel[..i] + ([id] + rest); }
      Without(sel[..i] + ([id] + rest), id);
      { WithoutConcat(sel[..i], [id] + rest, id); }
      Without(sel[..i], id) + Without([id] + rest, id);
      { WithoutAbsent(sel[..i], id); WithoutFront(id, rest); }
      sel[..i] + Without(rest, id);
      { WithoutAbsent(rest, id); }
      sel[..i] + rest;
    }
  }

  /** An entry of a duplicate-free selection does not recur after it. */
  lemma NotAfter(sel: seq<string>, i: nat)
    requires NoDup(sel) && i < |sel|
    ensures sel[i] !in sel[i + 1..]
  {
    forall k | i + 1 <= k < |sel|
      ensures sel[k] != sel[i]
    {
    }
  }

  lemma WithoutFront(x: string, rest: seq<string>)
    ensures Without([x] + rest, x) == Without(rest, x)
  {
    assert ([x] + rest)[0] == x && ([x] + rest)[1..] == rest;
  }

  lemma {:induction false} WithoutAbsent(s: seq<string>, x: string)
    requires x !in s
    ensures Without(s, x) == s
  {
    if s != [] {
      WithoutAbsent(s[1..], x);
    }
  }

  lemma {:induction false} WithoutConcat(s: seq<string>, t: seq<string>, x: string)
    ensures Without(s + t, x) == Without(s, x) + Without(t, x)
  {
    if s == [] {
      assert s + t == t;
    } else {
      assert (s + t)[0] == s[0];
      assert (s + t)[1..] == s[1..] + t;
      WithoutConcat(s[1..], t, x);
    }
  }

  /** A selection of at most five distinct ids stays so under the toggle, and
      only the toggled id changes its membership. */
  lemma ToggleKeepsSelectionValid(sel: seq<string>, id: string)
    requires NoDup(sel) && |sel| <= MaxSelected
    ensures var r := Toggle(sel, id).0;
      && NoDup(r) && |r| <= MaxSelected
      && (id in r <==> id !in sel && |sel| < MaxSelected)
      && forall y :: y != id ==> (y in r <==> y in sel)
  {
    var r := Toggle(sel, id).0;
    if id in sel {
      var i := Position(sel, id);
      forall a, b | 0 <= a < b < |r|
        ensures r[a] != r[b]
      {
        var a' := if a < i then a else a + 1;
        var b' := if b < i then b else b + 1;
        assert r[a] == sel[a'] && r[b] == sel[b'];
      }
      ToggleRemoves(sel, id);
    }
  }

  /** Selecting an id and right-clicking it again restores the selection. */
  lemma AddThenRemove(sel: seq<string>, id: string)
    requires id !in sel && |sel| < MaxSelected
    ensures Toggle(Toggle(sel, id).0, id) == (sel, Removed)
  {
    var t := sel + [id];
    assert Toggle(sel, id).0 == t;
    assert t[..|sel|] == sel && t[|sel| + 1..] == [];
    PositionOfFirst(t, id, |sel|);
    assert t[..|sel|] + t[|sel| + 1..] == sel;
  }

  /** `sel.indexOf(id)`, searched from the front. */
  method FindId(sel: seq<string>, id: string) returns (idx: int)
    ensures idx == Position(sel, id)
  {
    idx := 0;
    while idx < |sel| && sel[idx] != id
      invariant 0 <= idx <= |sel|
      invariant id !in sel[..idx]
    {
      assert sel[..idx + 1] == sel[..idx] + [sel[idx]];
      idx := idx + 1;
    }
    if idx == |sel| {
      assert sel[..idx] == sel;
      idx := -1;
    } else {
      PositionOfFirst(sel, id, idx);
    }
  }

  /** The first occurrence is the one `Position` finds. */
  lemma {:induction false} PositionOfFirst(sel: seq<string>, id: string, i: nat)
    requires i < |sel| && sel[i] == id && id !in sel[..i]
    ensures Position(sel, id) == i
  {
    if i > 0 {
      assert sel[0] == sel[..i][0];
      assert sel[1..][..i - 1] == sel[1..i];
      assert forall y :: y in sel[1..i] ==> y in sel[..i];
      PositionOfFirst(sel[1..], id, i - 1);
    }
  }

  // ---------------------------------------------------------------------------
  // Card flags in the config hand

  /** The classes a card gets: `legendary` in the confirmed config hand,
      `selectable` in the unconfirmed one, `selected` when selectable and
      selected. */
  datatype CardFlags = CardFlags(legendary: bool, selectable: bool, selected: bool)

  function FlagsFor(handType: string, s: Selection, it: Item): (f: CardFlags)
    ensures handType != "config" ==> f == CardFlags(false, false, false)
    ensures f.legendary ==> s.confirmed && IsDomainCard(it)
    ensures f.selected ==> !s.confirmed && it.id in s.selectedItems
  {
    var selectable := handType == "config" && !s.confirmed;
    CardFlags(handType == "config" && s.confirmed && IsDomainCard(it), selectable,
              selectable && it.id in s.selectedItems)
  }

  /** A card is never both legendary and selectable, and only a selectable card
      shows as selected. */
  lemma FlagsConsistent(handType: string, s: Selection, it: Item)
    ensures !(FlagsFor(handType, s, it).legendary && FlagsFor(handType, s, it).selectable)
    ensures FlagsFor(handType, s, it).selected ==> FlagsFor(handType, s, it).selectable
  {
  }

  /** In the confirmed config hand every card is legendary; in the unconfirmed
      one every card is selectable and shows as selected exactly when its id is
      selected. */
  lemma ConfigHandFlags(items: seq<Item>, s: Selection, x: Item)
    requires x in HandFilter(items, "config", s.confirmed)
    ensures s.confirmed ==> FlagsFor("config", s, x).legendary
    ensures !s.confirmed ==>
              FlagsFor("config", s, x).selectable && (FlagsFor("config", s, x).selected <==> x.id in s.selectedItems)
  {
    InHandFilter(items, "config", s.confirmed, x);
  }

  /** What a right click on a card does. */
  datatype CardAction = Toggled(outcome: ToggleOutcome) | UseItem

  // ---------------------------------------------------------------------------
  // The counter on the Setup tab

  /** `Setup (txt)`, or just `Setup` for an empty text. */
  function SetupLabel(txt: string): string {
    "Setup" + if txt != "" then " (" + txt + ")" else ""
  }

  /** The counter: "Confirmed" once confirmed, else how many of five are
      selected. A missing state reads as nothing selected. */
  function CounterText(state: Option<Selection>): (text: string)
    ensures state.None? ==> text == "Setup (Selected 0/5)"
    ensures state.Some? && state.value.confirmed ==> text == "Setup (Confirmed)"
    ensures state.Some? && !state.value.confirmed && state.value.selectedItems == [] ==> text == "Setup (Selected 0/5)"
  {
    var s := match state case Some(s) => s case None => DefaultSelection;
    if s.confirmed then SetupLabel("Confirmed")
    else SetupLabel("Selected " + NatToDecimal(|s.selectedItems|) + "/5")
  }

  /** The unconfirmed counter is the fixed prefix, the count, then "/5)". */
  lemma SelectedLabelShape(a: string)
    ensures SetupLabel("Selected " + a + "/5") == "Setup (Selected " + (a + ['/'] + "5)")
  {
    var txt := "Selected " + a + "/5";
    assert txt != [];
    assert "Setup" + (" (" + txt + ")") == "Setup (Selected " + (a + ['/'] + "5)");
  }

  /** The counter tells a confirmed loadout from an unconfirmed one, and the
      number selected in an unconfirmed one. */
  lemma CounterDistinguishes(s: Selection, t: Selection)
    requires CounterText(Some(s)) == CounterText(Some(t))
    ensures s.confirmed == t.confirmed
    ensures !s.confirmed ==> |s.selectedItems| == |t.selectedItems|
  {
    var x, y := CounterText(Some(s)), CounterText(Some(t));
    assert x[7] == if s.confirmed then 'C' else 'S';
    assert y[7] == if t.confirmed then 'C' else 'S';
    if !s.confirmed {
      var a, a' := NatToDecimal(|s.selectedItems|), NatToDecimal(|t.selectedItems|);
      var pre := "Setup (Selected ";
      SelectedLabelShape(a);
      SelectedLabelShape(a');
      assert a + ['/'] + "5)" == a' + ['/'] + "5)" by {
        assert x[|pre|..] == a + ['/'] + "5)";
        assert y[|pre|..] == a' + ['/'] + "5)";
      }
      DecimalHasNo(|s.selectedItems|, '/');
      DecimalHasNo(|t.selectedItems|, '/');
      SplitAtSeparator(a, "5)", a', "5)", '/');
      DecimalInjective(|s.selectedItems|, |t.selectedItems|);
    }
  }

  // ---------------------------------------------------------------------------
  // Vault updates

  /** One item update: set `inVault` of the item with this id. */
  datatype VaultUpdate = VaultUpdate(id: string, inVault: bool)

  /** The domain cards among the items, in order. */
  function DomainCards(items: seq<Item>): (cards: seq<Item>)
    ensures forall x :: x in cards <==> x in items && IsDomainCard(x)
  {
    if items == [] then []
    else
      var n := |items| - 1;
      assert items == items[..n] + [items[n]];
      DomainCards(items[..n]) + if IsDomainCard(items[n]) then [items[n]] else []
  }

  /** The updates `performUpdate` sends: one for each card whose `inVault`
      differs from "not selected", in the cards' order. */
  function VaultDiff(cards: seq<Item>, sel: seq<string>): (updates: seq<VaultUpdate>)
    ensures |updates| <= |cards|
    ensures forall k :: 0 <= k < |updates| ==> updates[k].inVault == (updates[k].id !in sel)
  {
    if cards == [] then []
    else
      var n := |cards| - 1;
      var c := cards[n];
      VaultDiff(cards[..n], sel) + if c.inVault == (c.id in sel) then [VaultUpdate(c.id, c.id !in sel)] else []
  }

  /** `performUpdate`: walks the domain cards and collects the updates. */
  method PerformUpdate(items: seq<Item>, sel: seq<string>) returns (updates: seq<VaultUpdate>)
    ensures updates == VaultDiff(DomainCards(items), sel)
  {
    var cards := DomainCards(items);
    updates := [];
    for k := 0 to |cards|
      invariant updates == VaultDiff(cards[..k], sel)
    {
      var card := cards[k];
      var isSelected := card.id in sel;
      var shouldBeInVault := !isSelected;
      assert cards[..k + 1][..k] == cards[..k];
      if card.inVault != shouldBeInVault {
        updates := updates + [VaultUpdate(card.id, shouldBeInVault)];
      }
    }
    assert cards[..|cards|] == cards;
  }

  /** The updates the Reset tab sends: every domain card back into the vault. */
  function ResetUpdates(items: seq<Item>): (updates: seq<VaultUpdate>)
    ensures |updates| == |DomainCards(items)|
  {
    var cards := DomainCards(items);
    seq(|cards|, k requires 0 <= k < |cards| => VaultUpdate(cards[k].id, true))
  }

  /** The value the first update for `id` sets, if any. */
  function Lookup(updates: seq<VaultUpdate>, id: string): Option<bool> {
    if updates == [] then None
    else if updates[0].id == id then Some(updates[0].inVault)
    else Lookup(updates[1..], id)
  }

  function Applied(it: Item, updates: seq<VaultUpdate>): Item {
    match Lookup(updates, it.id)
    case Some(v) => it.(inVault := v)
    case None => it
  }

  /** The items after the actor applied the updates. */
  function ApplyUpdates(items: seq<Item>, updates: seq<VaultUpdate>): (after: seq<Item>)
    ensures |after| == |items|
    ensures forall k :: 0 <= k < |items| ==> after[k] == Applied(items[k], updates)
  {
    seq(|items|, k requires 0 <= k < |items| => Applied(items[k], updates))
  }

  predicate UniqueIds(items: seq<Item>) {
    forall i, j :: 0 <= i < j < |items| ==> items[i].id != items[j].id
  }

  lemma {:induction false} LookupAppend(a: seq<VaultUpdate>, b: seq<VaultUpdate>, id: string)
    ensures Lookup(a + b, id) == if Lookup(a, id).Some? then Lookup(a, id) else Lookup(b, id)
  {
    if a == [] {
      assert a + b == b;
    } else {
      assert (a + b)[0] == a[0];
      assert (a + b)[1..] == a[1..] + b;
      LookupAppend(a[1..], b, id);
    }
  }

  /** Every update of the diff sets a card to "not selected", and a card whose
      `inVault` disagrees with that has an update. */
  lemma {:induction false} DiffLookup(cards: seq<Item>, sel: seq<string>, id: string)
    ensures Lookup(VaultDiff(cards, sel), id) == None || Lookup(VaultDiff(cards, sel), id) == Some(id !in sel)
    ensures (forall c :: c in cards ==> c.id != id) ==> Lookup(VaultDiff(cards, sel), id) == None
    ensures (exists c :: c in cards && c.id == id && c.inVault == (id in sel)) ==>
              Lookup(VaultDiff(cards, sel), id).Some?
  {
    if cards != [] {
      var n := |cards| - 1;
      var c := cards[n];
      var tail := if c.inVault == (c.id in sel) then [VaultUpdate(c.id, c.id !in sel)] else [];
      DiffLookup(cards[..n], sel, id);
      LookupAppend(VaultDiff(cards[..n], sel), tail, id);
      assert cards == cards[..n] + [c];
    }
  }

  /** Applying the updates of `performUpdate` puts exactly the unselected domain
      cards into the vault and leaves every other item as it was. */
  lemma VaultMatchesSelection(items: seq<Item>, sel: seq<string>)
    requires UniqueIds(items)
    ensures var after := ApplyUpdates(items, VaultDiff(DomainCards(items), sel));
      forall k :: 0 <= k < |items| ==>
        && (IsDomainCard(items[k]) ==> after[k] == items[k].(inVault := items[k].id !in sel))
        && (!IsDomainCard(items[k]) ==> after[k] == items[k])
  {
    var cards := DomainCards(items);
    forall k | 0 <= k < |items|
      ensures IsDomainCard(items[k]) ==> Applied(items[k], VaultDiff(cards, sel)) == items[k].(inVault := items[k].id !in sel)
      ensures !IsDomainCard(items[k]) ==> Applied(items[k], VaultDiff(cards, sel)) == items[k]
    {
      DiffLookup(cards, sel, items[k].id);
      if !IsDomainCard(items[k]) {
        forall c | c in cards
          ensures c.id != items[k].id
        {
          var j :| 0 <= j < |items| && items[j] == c;
          assert j != k;
        }
      }
    }
  }

  /** Once applied, the diff is empty: a second `performUpdate` sends nothing. */
  lemma DiffIsIdempotent(items: seq<Item>, sel: seq<string>)
    requires UniqueIds(items)
    ensures VaultDiff(DomainCards(ApplyUpdates(items, VaultDiff(DomainCards(items), sel))), sel) == []
  {
    var after := ApplyUpdates(items, VaultDiff(DomainCards(items), sel));
    VaultMatchesSelection(items, sel);
    forall c | c in DomainCards(after)
      ensures c.inVault == (c.id !in sel)
    {
      var k :| 0 <= k < |after| && after[k] == c;
      assert after[k].kind == items[k].kind;
    }
    DiffEmpty(DomainCards(after), sel);
  }

  lemma {:induction false} DiffEmpty(cards: seq<Item>, sel: seq<string>)
    requires forall c :: c in cards ==> c.inVault == (c.id !in sel)
    ensures VaultDiff(cards, sel) == []
  {
    if cards != [] {
      var n := |cards| - 1;
      assert cards[n] in cards;
      assert forall c :: c in cards[..n] ==> c in cards;
      DiffEmpty(cards[..n], sel);
    }
  }

  /** Every reset update sets a card into the vault; a card has one. */
  lemma {:induction false} ResetLookup(items: seq<Item>, id: string)
    ensures Lookup(ResetUpdates(items), id) == None || Lookup(ResetUpdates(items), id) == Some(true)
    ensures (exists c :: c in DomainCards(items) && c.id == id) <==> Lookup(ResetUpdates(items), id).Some?
  {
    var cards := DomainCards(items);
    LookupIn(ResetUpdates(items), id);
    assert forall k :: 0 <= k < |cards| ==> ResetUpdates(items)[k].id == cards[k].id;
    if Lookup(ResetUpdates(items), id).Some? {
      var k :| 0 <= k < |cards| && ResetUpdates(items)[k].id == id;
      assert cards[k] in cards;
    }
  }

  /** `Lookup` finds the first update for the id, and only ids that occur. */
  lemma {:induction false} LookupIn(updates: seq<VaultUpdate>, id: string)
    ensures Lookup(updates, id).Some? <==> exists k :: 0 <= k < |updates| && updates[k].id == id
    ensures Lookup(updates, id).Some? ==> exists k :: 0 <= k < |updates| && updates[k] == VaultUpdate(id, Lookup(updates, id).value)
  {
    if updates != [] {
      LookupIn(updates[1..], id);
      if updates[0].id != id && Lookup(updates, id).Some? {
        var k :| 0 <= k < |updates[1..]| && updates[1..][k] == VaultUpdate(id, Lookup(updates, id).value);
        assert updates[k + 1] == updates[1..][k];
      }
      if updates[0].id != id && (exists k :: 0 <= k < |updates| && updates[k].id == id) {
        var k :| 0 <= k < |updates| && updates[k].id == id;
        assert updates[1..][k - 1] == updates[k];
      }
    }
  }

  /** Resetting has the same effect as confirming an empty selection: every
      domain card in the vault, every other item untouched. */
  lemma ResetIsEmptySelection(items: seq<Item>)
    requires UniqueIds(items)
    ensures ApplyUpdates(items, ResetUpdates(items)) == ApplyUpdates(items, VaultDiff(DomainCards(items), []))
    ensures forall k :: 0 <= k < |items| && IsDomainCard(items[k]) ==> ApplyUpdates(items, ResetUpdates(items))[k].inVault
  {
    var reset := ApplyUpdates(items, ResetUpdates(items));
    var diff := ApplyUpdates(items, VaultDiff(DomainCards(items), []));
    VaultMatchesSelection(items, []);
    forall k | 0 <= k < |items|
      ensures reset[k] == diff[k]
    {
      ResetAt(items, k);
    }
  }

  /** The reset puts one item into the vault if it is a domain card and leaves
      it alone otherwise. */
  lemma ResetAt(items: seq<Item>, k: nat)
    requires UniqueIds(items) && k < |items|
    ensures Applied(items[k], ResetUpdates(items))
            == if IsDomainCard(items[k]) then items[k].(inVault := true) else items[k]
  {
    ResetLookup(items, items[k].id);
    if IsDomainCard(items[k]) {
      assert items[k] in DomainCards(items);
    } else {
      forall c | c in DomainCards(items)
        ensures c.id != items[k].id
      {
        var j :| 0 <= j < |items| && items[j] == c;
        assert j != k;
      }
    }
  }

  // ---------------------------------------------------------------------------
  // The confirmed flag on load

  /** How many domain cards are out of the vault. */
  function OutOfVault(items: seq<Item>): (n: nat)
    ensures n <= |items|
  {
    if items == [] then 0
    else
      var k := |items| - 1;
      OutOfVault(items[..k]) + if IsDomainCard(items[k]) && !items[k].inVault then 1 else 0
  }

  /** On load the confirmation stands only while the number of domain cards
      out of the vault matches the number selected. */
  function RecomputeConfirmed(s: Selection, items: seq<Item>): (confirmed: bool)
    ensures confirmed ==> s.confirmed
    ensures s.confirmed ==> (confirmed <==> OutOfVault(items) == |s.selectedItems|)
  {
    s.confirmed && OutOfVault(items) == |s.selectedItems|
  }

  /** How many domain cards have an id in `ids`. */
  function CountSelected(items: seq<Item>, ids: set<string>): nat {
    if items == [] then 0
    else
      var k := |items| - 1;
      CountSelected(items[..k], ids) + if IsDomainCard(items[k]) && items[k].id in ids then 1 else 0
  }

  /** The ids of the domain cards. */
  function DomainIds(items: seq<Item>): (ids: set<string>)
    ensures forall x :: x in items && IsDomainCard(x) ==> x.id in ids
    ensures forall id :: id in ids ==> exists k :: 0 <= k < |items| && IsDomainCard(items[k]) && items[k].id == id
  {
    if items == [] then {}
    else
      var k := |items| - 1;
      assert items == items[..k] + [items[k]];
      DomainIds(items[..k]) + if IsDomainCard(items[k]) then {items[k].id} else {}
  }

  /** With distinct ids, counting the domain cards whose id is in `ids` counts
      the ids that name a domain card. */
  lemma {:induction false} CountSelectedIsCardinality(items: seq<Item>, ids: set<string>)
    requires UniqueIds(items)
    ensures CountSelected(items, ids) == |ids * DomainIds(items)|
  {
    if items != [] {
      var k := |items| - 1;
      var prefix := items[..k];
      CountSelectedIsCardinality(prefix, ids);
      var x := items[k];
      forall j | 0 <= j < |prefix|
        ensures prefix[j].id != x.id
      {
        assert items[j].id != items[k].id;
      }
      assert DomainIds(items) == DomainIds(prefix) + if IsDomainCard(x) then {x.id} else {};
      if IsDomainCard(x) {
        CardinalityStep(ids, DomainIds(prefix), x.id);
      }
    }
  }

  lemma CardinalityStep(ids: set<string>, d: set<string>, y: string)
    requires y !in d
    ensures |ids * (d + {y})| == |ids * d| + if y in ids then 1 else 0
  {
    if y in ids {
      assert ids * (d + {y}) == ids * d + {y};
    } else {
      assert ids * (d + {y}) == ids * d;
    }
  }

  lemma SubsetCardinality(a: set<string>, b: set<string>)
    requires a <= b
    ensures |a| <= |b|
    decreases a
  {
    if a != {} {
      var y :| y in a;
      SubsetCardinality(a - {y}, b - {y});
    }
  }

  /** Two hands that agree, card by card, on which cards count give the same
      count. */
  lemma {:induction false} OutOfVaultCountsSelected(after: seq<Item>, items: seq<Item>, ids: set<string>)
    requires |after| == |items|
    requires forall k :: 0 <= k < |items| ==>
               (IsDomainCard(after[k]) && !after[k].inVault <==> IsDomainCard(items[k]) && items[k].id in ids)
    ensures OutOfVault(after) == CountSelected(items, ids)
  {
    if items != [] {
      var k := |items| - 1;
      OutOfVaultCountsSelected(after[..k], items[..k], ids);
    }
  }

  lemma {:induction false} DistinctCardinality(s: seq<string>)
    requires NoDup(s)
    ensures |set x | x in s| == |s|
  {
    if s != [] {
      var k := |s| - 1;
      DistinctCardinality(s[..k]);
      assert (set x | x in s) == (set x | x in s[..k]) + {s[k]};
      forall j | 0 <= j < k
        ensures s[..k][j] != s[k]
      {
        assert s[j] != s[k];
      }
    }
  }

  /** A confirmed loadout of distinct domain-card ids survives a reload: after
      `performUpdate` the number of cards out of the vault is the number
      selected, so the recomputation keeps it confirmed. */
  lemma ConfirmSurvivesReload(items: seq<Item>, sel: seq<string>)
    requires UniqueIds(items) && NoDup(sel)
    requires forall id :: id in sel ==> id in DomainIds(items)
    ensures RecomputeConfirmed(Selection(sel, true), ApplyUpdates(items, VaultDiff(DomainCards(items), sel)))
  {
    var after := ApplyUpdates(items, VaultDiff(DomainCards(items), sel));
    var ids := set x | x in sel;
    VaultMatchesSelection(items, sel);
    OutOfVaultCountsSelected(after, items, ids);
    CountSelectedIsCardinality(items, ids);
    assert ids * DomainIds(items) == ids;
    DistinctCardinality(sel);
  }

  /** A selected id that names no domain card makes the confirmation drop on
      reload. */
  lemma StaleSelectionDropsConfirmation(items: seq<Item>, sel: seq<string>, stale: string)
    requires UniqueIds(items) && NoDup(sel)
    requires stale in sel && stale !in DomainIds(items)
    ensures !RecomputeConfirmed(Selection(sel, true), ApplyUpdates(items, VaultDiff(DomainCards(items), sel)))
  {
    var after := ApplyUpdates(items, VaultDiff(DomainCards(items), sel));
    var ids := set x | x in sel;
    VaultMatchesSelection(items, sel);
    OutOfVaultCountsSelected(after, items, ids);
    CountSelectedIsCardinality(items, ids);
    DistinctCardinality(sel);
    SubsetCardinality(ids * DomainIds(items), ids - {stale});
    assert |ids - {stale}| == |ids| - 1;
  }

  // ---------------------------------------------------------------------------
  // The selection state of one actor

  class Loadout {
    var selectedItems: seq<string>
    var confirmed: bool

    function State(): Selection
      reads this
    {
      Selection(selectedItems, confirmed)
    }

    /** Restores the stored state over the defaults. */
    constructor Load(stored: Option<Stored>)
      ensures State() == MergeDefaults(stored)
    {
      var s := MergeDefaults(stored);
      selectedItems := s.selectedItems;
      confirmed := s.confirmed;
    }

    /** The right click on a card: on a selectable domain card it toggles the
        selection, on any other card it uses the item. */
    method ContextMenu(id: string, selectable: bool, isDomain: bool) returns (action: CardAction)
      modifies this
      ensures selectable && isDomain ==> action == Toggled(Toggle(old(selectedItems), id).1)
                                          && selectedItems == Toggle(old(selectedItems), id).0
      ensures !(selectable && isDomain) ==> action == UseItem && selectedItems == old(selectedItems)
      ensures confirmed == old(confirmed)
    {
      if selectable && isDomain {
        var idx := FindId(selectedItems, id);
        if idx > -1 {
          selectedItems := selectedItems[..idx] + selectedItems[idx + 1..];
          action := Toggled(Removed);
        } else if |selectedItems| >= MaxSelected {
          action := Toggled(RejectedFull);
        } else {
          selectedItems := selectedItems + [id];
          action := Toggled(Added);
        }
      } else {
        action := UseItem;
      }
    }

    /** The Confirm tab: sends the vault diff, then marks the loadout
        confirmed. */
    method Confirm(items: seq<Item>) returns (updates: seq<VaultUpdate>)
      modifies this
      ensures updates == VaultDiff(DomainCards(items), old(selectedItems))
      ensures selectedItems == old(selectedItems) && confirmed
    {
      updates := PerformUpdate(items, selectedItems);
      confirmed := true;
    }

    /** On load: the confirmation is kept only while it matches the vault. */
    method Reconcile(items: seq<Item>)
      modifies this
      ensures State() == Selection(old(selectedItems), RecomputeConfirmed(old(State()), items))
    {
      var equipped := CountOutOfVault(items);
      confirmed := confirmed && equipped == |selectedItems|;
    }
  }

  /** `items.filter(domain card and not in vault).length`. */
  method CountOutOfVault(items: seq<Item>) returns (n: nat)
    ensures n == OutOfVault(items)
  {
    n := 0;
    for k := 0 to |items|
      invariant n == OutOfVault(items[..k])
    {
      assert items[..k + 1][..k] == items[..k];
      if IsDomainCard(items[k]) && !items[k].inVault {
        n := n + 1;
      }
    }
    assert items[..|items|] == items;
  }
}
