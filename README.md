# Poker-hand HUD: a verified model of its rules

`scripts/poker-hand-hud.js` draws a heads-up display for a tabletop game
client. The HUD has two parts:

- a status panel with resource trackers (armor slots, hope, stress, hit
  points) and damage thresholds;
- a "poker hand" of cards for the actor's domain cards, items and features.

Most of the script builds the page. This project models the rules that sit
under the page code, in Dafny, and proves what they promise:

| Module | What it models |
|---|---|
| `JsText` | The JavaScript semantics the rules depend on: `String.prototype.trim`, `parseInt(s, 16)`, the decimal text of an integer in a template string, `Math.max` and `Math.min`. |
| `Colors` | `hexToRgba`: the default gold, `#rgb` and `#rrggbb`. |
| `HudSettings` | The sparkle rates, the theme-image URL resolvers, the global-collapse decision, and the choice of the actor the hand is built for. |
| `StatusHud` | The tracker clamp, its crystals, its label and its click rule; the armor capacity and the damage thresholds. |
| `Items` | Which items each hand type shows, and the in-place sort of the hand. |
| `DomainConfig` | The domain-card loadout: |
| | - the stored state merged over its defaults; |
| | - the right-click toggle, capped at five; |
| | - the card flags and the counter text; |
| | - the vault updates sent by Confirm and by Reset; |
| | - the `confirmed` flag recomputed on load; |
| | - a `Loadout` class whose methods update the selection in place. |
| `Fan` | The fan placement of `arrangeCardsInFan`, on real numbers. |
| `HandWindow` | The scroll window of `updateHandView` and the wheel handler. `HandView` is a class over an array of card views that shows the window and lays out the fan in place. |
| `Retraction` | The retract timer and the entrance timer, as a step function over explicit events with an explicit clock. `HandTimers` is a class whose listener methods follow that function. |

The JavaScript state that is changed in place is modelled as classes:

- the window start and the card elements;
- the selection;
- the timers.

The array sort and the loops are modelled as methods, each proved against a
pure function. The properties are proved about those functions as lemmas.

## Model

| member | source | states |
|---|---|---|
| JsText.TrimSpec | scripts/poker-hand-hud.js:7 | `trim` returns the middle part of the string: the whitespace it removes lies only at the two ends, and the result neither starts nor ends with whitespace |
| JsText.Trim | scripts/poker-hand-hud.js:7 | `trim` never lengthens a string, and a non-empty result neither starts nor ends with whitespace |
| JsText.ParseIntHex | scripts/poker-hand-hud.js:8 | `parseInt(s, 16)` of the empty string is NaN; a string made only of hex digits reads as its value; a string of at most two characters reads as NaN or a number within −15..255 |
| JsText.TrimIdempotent | scripts/poker-hand-hud.js:329-331 | trimming twice is the same as trimming once |
| JsText.ParseTwoHexDigits | scripts/poker-hand-hud.js:8 | `parseInt` of two hex digits in base 16 is 16·high + low, a byte value |
| JsText.DecimalRoundTrip | scripts/poker-hand-hud.js:713 | reading back the decimal text of a count gives the count |
| JsText.DecimalInjective | scripts/poker-hand-hud.js:713 | different counts print differently |
| Colors.Pair | scripts/poker-hand-hud.js:11 | `slice(i, i+2)` is the two characters from `i`, cut short at the end of the string |
| Colors.EmptyColourIsGold | scripts/poker-hand-hud.js:6 | an empty colour gives `rgba(192,160,96,a)` |
| Colors.ParseColor | scripts/poker-hand-hud.js:6-11 | an empty colour gives the default gold, and every component is NaN or within −15..255 (a leading `-` in a slice makes a negative component) |
| Colors.HexToRgba | scripts/poker-hand-hud.js:5-13 | the text starts with `rgba(` and ends with `,` followed by the alpha text and `)` |
| Colors.ColorTextComponents | scripts/poker-hand-hud.js:12 | the text is `rgba(`, then the three components as `parseInt` left them (a number in decimal, or `NaN`) and the alpha, separated by commas, then `)` |
| Colors.FormatHexToRgba | scripts/poker-hand-hud.js:5-13 | for every three bytes, the colour written `#rrggbb` gives `rgba(r,g,b,a)` with the bytes in decimal |
| Colors.ParseByte | scripts/poker-hand-hud.js:8-11 | two hex digits give the component 16·high + low, within 0..255 |
| Colors.ShortColorOfDigits | scripts/poker-hand-hud.js:10 | with three hex digits each component is 17 times its digit |
| Colors.LongColorOfDigits | scripts/poker-hand-hud.js:11 | with six hex digits the components are the three byte pairs |
| Colors.ShortForm | scripts/poker-hand-hud.js:6-10 | a colour whose digits, after the first `#` is removed and the rest trimmed, are three hex digits has components 17·digit, each within 0..255 |
| Colors.LongForm | scripts/poker-hand-hud.js:6-11 | a colour whose digits are six hex digits has the three byte pairs as components, each within 0..255 |
| Colors.DigitsAfterHash | scripts/poker-hand-hud.js:7 | the digits of `#` followed by digits are what follows the `#` |
| Colors.HashSixDigits | scripts/poker-hand-hud.js:6-11 | `#` followed by six hex digits is read as three slices |
| Colors.HashThreeDigits | scripts/poker-hand-hud.js:6-10 | `#` followed by three hex digits is read with each digit doubled |
| Colors.ShortFormIsDoubled | scripts/poker-hand-hud.js:10-11 | `#abc` and `#aabbcc` give the same colour |
| Colors.FormatHexRoundTrip | scripts/poker-hand-hud.js:7-11 | any three bytes written as `#rrggbb` are parsed back to the same three components |
| HudSettings.RatesFor | scripts/poker-hand-hud.js:201-206 | the hover gap is shorter than the resting gap; any level other than "low" or "high" gets the medium rates 700/300 |
| HudSettings.RatesOrdered | scripts/poker-hand-hud.js:201-206 | "high" has the shortest gaps and "low" the longest, at rest and hovered |
| HudSettings.ResolveUrl | scripts/poker-hand-hud.js:327-338 | the trimmed client URL wins when it is not blank; otherwise the trimmed world URL is used; a missing setting reads as "" |
| HudSettings.ResolvedUrlIsTrimmed | scripts/poker-hand-hud.js:327-338 | the resolved URL is already trimmed, and feeding a non-blank result back in as the client setting gives it again |
| HudSettings.ApplyCollapse | scripts/poker-hand-hud.js:184-194 | the HUD folds exactly when collapsed; the hand folds exactly when collapsed and not `sleepHudOnly`; the deck sleeps exactly when collapsed |
| HudSettings.HandFoldsOnlyWithHud | scripts/poker-hand-hud.js:189-192 | the hand is folded only together with the HUD, and never under `sleepHudOnly` |
| HudSettings.TokenActors | scripts/poker-hand-hud.js:575 | the controlled actors are exactly the actors of the tokens that have one |
| HudSettings.OwnedCharacters | scripts/poker-hand-hud.js:578 | the owned characters are exactly the owned actors of type "character" |
| HudSettings.SelectActor | scripts/poker-hand-hud.js:574-580 | some actor is chosen exactly when there is a controlled actor, a user character or an owned character |
| HudSettings.LastControlledWins | scripts/poker-hand-hud.js:575-576 | the actor of the last controlled token that has one is chosen, whatever the user's character is |
| HudSettings.UserCharacterBeforeOwned | scripts/poker-hand-hud.js:577 | with no controlled actor, the user's character is chosen |
| HudSettings.FirstOwnedCharacterChosen | scripts/poker-hand-hud.js:578-579 | with neither a controlled actor nor a user character, the first owned character is chosen |
| StatusHud.ClampTracker | scripts/poker-hand-hud.js:705-706 | the capacity is at least 0 and the value lies in [0, capacity]; an in-range value is kept, and values below or above the range go to 0 or to the capacity |
| StatusHud.ClampIdempotent | scripts/poker-hand-hud.js:705-706 | clamping an already clamped tracker changes nothing |
| StatusHud.BuildCrystals | scripts/poker-hand-hud.js:716-717 | the tracker has `max` crystals, and crystal k+1 is filled exactly when k+1 ≤ cur |
| StatusHud.CrystalsCountValue | scripts/poker-hand-hud.js:716-717 | the number of filled crystals is the clamped value |
| StatusHud.TrackerLabelInjective | scripts/poker-hand-hud.js:713 | two clamped trackers of the same name with equal labels `name (cur/max)` have the same value and capacity |
| StatusHud.TrackerLabel | scripts/poker-hand-hud.js:713 | the label is the name, ` (`, then for a clamped tracker the unsigned decimal value, `/` and the unsigned decimal capacity, then `)` |
| StatusHud.ClickValue | scripts/poker-hand-hud.js:718-721 | a click on crystal i writes i, or i−1 exactly when the current value is i |
| StatusHud.ClickStaysInRange | scripts/poker-hand-hud.js:716-721 | a click on any crystal writes a value in [0, max] |
| StatusHud.ClickFillsUpTo | scripts/poker-hand-hud.js:716-721 | after a click on crystal i, the crystals below i are filled and those above are empty; crystal i itself empties exactly when it was the value |
| StatusHud.ClickTwiceToggles | scripts/poker-hand-hud.js:718-721 | repeated clicks on one crystal alternate between i and i−1 |
| StatusHud.ArmorMax | scripts/poker-hand-hud.js:744 | the armor capacity is the base score, else the marks' maximum, else the current marks |
| StatusHud.ArmorTracker | scripts/poker-hand-hud.js:741-745 | with neither a base score nor a marks maximum, a non-negative mark count shows as a full tracker; with a base score the marks are clamped to it, and marks above it show as full; otherwise the capacity is the marks maximum, floored at 0 |
| StatusHud.FinalThresholds | scripts/poker-hand-hud.js:785-788 | each threshold is the chosen base record's bound (missing bound 0) plus the level, where the level is `levelData.level.current`, else `level`, else 0 |
| StatusHud.ThresholdsShiftByLevel | scripts/poker-hand-hud.js:785-788 | each threshold is its base plus the level, so the major/severe gap and order are kept; the current level wins over the plain `level` field; equipped armor replaces the actor's thresholds |
| Items.DomainCardAnyCase | scripts/poker-hand-hud.js:922-923 | a card whose type spells "domaincard" with any mix of upper- and lower-case letters is a domain card, because the type is lower-cased before it is compared |
| Items.HandFilter | scripts/poker-hand-hud.js:916-929 | the hand is the sub-multiset of the items the hand type takes, and is no longer than the items |
| Items.InHand | scripts/poker-hand-hud.js:916-929 | only owned items are dealt, only into the config, items or features hand, and domain cards only into the config hand |
| Items.InHandFilter | scripts/poker-hand-hud.js:916-929 | an item is in the hand exactly when it is among the owned items and its hand type takes it |
| Items.OtherHandIsEmpty | scripts/poker-hand-hud.js:929 | a hand type other than config, items and features is empty |
| Items.ConfirmedHandIsOutOfVault | scripts/poker-hand-hud.js:921-923 | the confirmed config hand is the unconfirmed one without the vaulted cards |
| Items.ItemsHandWeapons | scripts/poker-hand-hud.js:924-926 | a weapon is in the items hand only when it is equipped |
| Items.NameBeforeTransitive | scripts/poker-hand-hud.js:934 | the name order is transitive |
| Items.NameBeforeTotal | scripts/poker-hand-hud.js:934 | any two different names are ordered one way or the other |
| Items.LeTransitive | scripts/poker-hand-hud.js:931-935 | "may come before" is transitive for both comparators |
| Items.AdjacentSortedIsSorted | scripts/poker-hand-hud.js:931-935 | neighbours in order means every pair is in order |
| Items.SortHand | scripts/poker-hand-hud.js:931-935 | sorting in place leaves the array sorted and a permutation of what it held |
| Items.RenderHandItems | scripts/poker-hand-hud.js:916-935 | the dealt hand is a permutation of the filtered items: sorted by level for the config hand, otherwise by `sort` and then by name |
| DomainConfig.MergeDefaults | scripts/poker-hand-hud.js:1503-1507 | a stored key wins; a missing key, or nothing stored, takes the default `{selectedItems: [], confirmed: false}` |
| DomainConfig.LoadAfterSave | scripts/poker-hand-hud.js:1506-1509 | loading what was saved gives the same selection back |
| DomainConfig.Position | scripts/poker-hand-hud.js:1176 | `indexOf` is −1 exactly when the id is absent; otherwise it is the first occurrence |
| DomainConfig.FindId | scripts/poker-hand-hud.js:1176 | the search loop computes `indexOf` |
| DomainConfig.Toggle | scripts/poker-hand-hud.js:1176-1182 | a selected id is removed; an unselected id is rejected exactly when five are selected, and then nothing changes |
| DomainConfig.ToggleRemoves | scripts/poker-hand-hud.js:1177 | removing a selected id keeps the other ids in their order |
| DomainConfig.ToggleKeepsSelectionValid | scripts/poker-hand-hud.js:1173-1182 | a selection of at most five distinct ids stays so; only the toggled id changes membership |
| DomainConfig.AddThenRemove | scripts/poker-hand-hud.js:1176-1182 | selecting an id and toggling it again restores the selection |
| DomainConfig.FlagsConsistent | scripts/poker-hand-hud.js:1155-1164 | a card is never both legendary and selectable, and only a selectable card is selected |
| DomainConfig.ConfigHandFlags | scripts/poker-hand-hud.js:1155-1164 | every card of the confirmed config hand is legendary; every card of the unconfirmed one is selectable, and selected exactly when its id is selected |
| DomainConfig.FlagsFor | scripts/poker-hand-hud.js:1155-1164 | outside the config hand a card has no flag; a legendary card is a domain card of a confirmed loadout; a selected card belongs to an unconfirmed loadout that selects its id |
| DomainConfig.CounterText | scripts/poker-hand-hud.js:842-846 | a missing state and an empty unconfirmed one read "Setup (Selected 0/5)"; a confirmed one reads "Setup (Confirmed)" |
| DomainConfig.CounterDistinguishes | scripts/poker-hand-hud.js:842-846 | the counter text determines whether the loadout is confirmed and, when it is not, how many cards are selected |
| DomainConfig.DomainCards | scripts/poker-hand-hud.js:851 | the domain cards are exactly the items of type domaincard |
| DomainConfig.PerformUpdate | scripts/poker-hand-hud.js:849-858 | the loop computes the vault diff of the domain cards |
| DomainConfig.VaultDiff | scripts/poker-hand-hud.js:852-856 | there are at most as many updates as cards, and each update sets `inVault` to "not selected" for its id |
| DomainConfig.DiffLookup | scripts/poker-hand-hud.js:852-856 | each update sets a card to "not selected", and every card whose `inVault` disagrees with that gets one |
| DomainConfig.VaultMatchesSelection | scripts/poker-hand-hud.js:849-857 | after the updates, each domain card is in the vault exactly when it is not selected, and no other item changes |
| DomainConfig.DiffIsIdempotent | scripts/poker-hand-hud.js:849-857 | a second `performUpdate` after the first is applied sends nothing |
| DomainConfig.ResetUpdates | scripts/poker-hand-hud.js:895-896 | one update per domain card |
| DomainConfig.ResetIsEmptySelection | scripts/poker-hand-hud.js:895-897 | Reset has the same effect as confirming an empty selection: every domain card goes into the vault and other items are untouched |
| DomainConfig.ResetAt | scripts/poker-hand-hud.js:896-897 | Reset puts each domain card into the vault and leaves every other item as it was |
| DomainConfig.RecomputeConfirmed | scripts/poker-hand-hud.js:1541-1542 | `confirmed` never turns on; it stays on exactly when the number of domain cards out of the vault equals the number selected |
| DomainConfig.CountOutOfVault | scripts/poker-hand-hud.js:1541 | the loop counts the domain cards out of the vault |
| DomainConfig.ConfirmSurvivesReload | scripts/poker-hand-hud.js:1541-1542 | a confirmed loadout of distinct domain-card ids stays confirmed after a reload (after the updates of lines 849-857 are applied) |
| DomainConfig.StaleSelectionDropsConfirmation | scripts/poker-hand-hud.js:1541-1542 | a selected id that names no domain card makes the confirmation drop on reload |
| DomainConfig.Loadout.Load | scripts/poker-hand-hud.js:1503-1508 | the loaded state is the stored state merged over the defaults |
| DomainConfig.Loadout.ContextMenu | scripts/poker-hand-hud.js:1171-1186 | on a selectable domain card the selection becomes the toggle of the old one; any other card is used and the selection is kept |
| DomainConfig.Loadout.Confirm | scripts/poker-hand-hud.js:881-890 | Confirm sends the vault diff of the current selection and then marks the loadout confirmed |
| DomainConfig.Loadout.Reconcile | scripts/poker-hand-hud.js:1541-1542 | the stored flag is replaced by its recomputation |
| Fan.Centered | scripts/poker-hand-hud.js:1058 | twice the centred index is 2·index − (total − 1) |
| Fan.Place | scripts/poker-hand-hud.js:1057-1063 | the card dealt at position `index` gets z-index `index`; its sideways offset and its turn are half of (2·index − (total − 1)) times the spacing and the rotation factor, and its drop is a quarter of (2·index − (total − 1))² times the arc height |
| Fan.FanMirror | scripts/poker-hand-hud.js:1058-1062 | card i and card total−1−i have opposite x and r and equal y |
| Fan.FanArcNonNegative | scripts/poker-hand-hud.js:1061 | with a non-negative arc no card has y below 0 |
| Fan.FanArcMonotone | scripts/poker-hand-hud.js:1061 | with a non-negative arc, y does not decrease with the distance from the middle |
| Fan.FanMiddle | scripts/poker-hand-hud.js:1058-1062 | the middle card of an odd hand has x = y = r = 0 |
| Fan.FanOfThree | scripts/poker-hand-hud.js:1058-1066 | three cards with spacing 100, arc 5 and rotation 5 get x = −100, 0, 100; y = 5, 0, 5; r = −5, 0, 5; z = 0, 1, 2 |
| HandWindow.ClampStart | scripts/poker-hand-hud.js:1073-1075 | the start ends up in [0, max(0, n − maxVisibleCards)], and an in-range start is kept |
| HandWindow.VisibleCount | scripts/poker-hand-hud.js:1073-1076 | a clamped window shows min(n, maxVisibleCards) cards |
| HandWindow.WindowRank | scripts/poker-hand-hud.js:1055-1058 | a shown card's rank among the shown cards is its distance from the start of the window |
| HandWindow.Windowed | scripts/poker-hand-hud.js:1076 | card k is displayed exactly when start ≤ k < start + maxVisibleCards, and placements are untouched |
| HandWindow.Fanned | scripts/poker-hand-hud.js:1054-1069 | hidden cards are left as they were, and no card's display changes |
| HandWindow.WindowedFan | scripts/poker-hand-hud.js:1072-1077 | after `updateHandView` the cards of the window are shown, with card start+j placed at rank j of a fan of min(n, maxVisibleCards) cards; every other card is hidden and keeps its placement |
| HandWindow.WheelStart | scripts/poker-hand-hud.js:1189 | a wheel event leaves the start alone when every card fits; otherwise the start stays in range and moves by ±1 when there is room |
| HandWindow.ScrollDownsFromStart | scripts/poker-hand-hud.js:1189 | k scrolls down move the start to min(start + k, n − maxVisibleCards) |
| HandWindow.TenCardsFiveScrolls | scripts/poker-hand-hud.js:1189 | ten cards with six visible: five scrolls down from 0 end at 4 |
| HandWindow.WheelBackAndForth | scripts/poker-hand-hud.js:1189 | inside the range a scroll down and a scroll up cancel; at either end the start stays put |
| HandWindow.HandView.constructor | scripts/poker-hand-hud.js:915 | a new hand starts at card 0, with every card displayed and none placed yet |
| HandWindow.HandView.ArrangeCardsInFan | scripts/poker-hand-hud.js:1054-1069 | the array becomes the fan of its old contents |
| HandWindow.HandView.CountVisible | scripts/poker-hand-hud.js:1055-1056 | the count is the number of displayed cards |
| HandWindow.HandView.ShowWindow | scripts/poker-hand-hud.js:1076 | the array becomes the windowed cards |
| HandWindow.HandView.UpdateHandView | scripts/poker-hand-hud.js:1072-1078 | the start is clamped, and the cards become the fan of the windowed cards |
| HandWindow.HandView.Wheel | scripts/poker-hand-hud.js:1189 | the start follows `WheelStart`; the cards are untouched when all fit, otherwise they are re-windowed and re-fanned |
| Retraction.EntranceDuration | scripts/poker-hand-hud.js:1202 | the entrance lasts at least 700 ms, and at most 700 ms plus one delay per card, and at most 700 ms plus one delay per visible slot |
| Retraction.Rendered | scripts/poker-hand-hud.js:950-952 | a new hand is face-down and raised exactly when not collapsed, with no retract timer and the entrance timer armed (the entrance timer is set at line 1203) |
| Retraction.Step | scripts/poker-hand-hud.js:957-967 | entering while collapsed does nothing; leaving sets the retract deadline; a tick drops the hand and turns it face-down exactly when a timer is due (the entrance timer is the one at line 1203) |
| Retraction.LeaveReplacesTimer | scripts/poker-hand-hud.js:962 | a second leave replaces the first deadline, and leaving changes nothing else |
| Retraction.ReenterKeepsHandActive | scripts/poker-hand-hud.js:962-967 | with no entrance timer pending, leave then enter while not collapsed keeps the hand raised and face-up at any later time |
| Retraction.DeadlineLowersHand | scripts/poker-hand-hud.js:962 | once the deadline after a leave has passed, the hand is lowered and face-down; before it, the retract timer does nothing |
| Retraction.CollapsedEnterIsIgnored | scripts/poker-hand-hud.js:966 | entering while collapsed changes nothing, so a due timer still lowers the hand |
| Retraction.EntranceTimerIgnoresPointer | scripts/poker-hand-hud.js:1202-1203 | entering does not cancel the entrance timer, and it lowers the hand when due |
| Retraction.RenderedHandDrops | scripts/poker-hand-hud.js:1202-1203 | a fresh hand that the pointer enters still drops when the entrance is over |
| Retraction.TickIsIdempotent | scripts/poker-hand-hud.js:962 | each timer fires once: a second tick at the same time changes nothing (and the entrance timer of line 1203) |
| Retraction.HandTimers.Render | scripts/poker-hand-hud.js:1202-1203 | the timers of a new hand are the rendered state with the entrance duration |
| Retraction.HandTimers.CancelRetractTimer | scripts/poker-hand-hud.js:963 | the retract timer is cleared, the hand is raised, and the deck wakes unless collapsed |
| Retraction.HandTimers.MouseEnter | scripts/poker-hand-hud.js:966 | the hand container's listener follows `Step` for `Enter` |
| Retraction.HandTimers.MouseLeave | scripts/poker-hand-hud.js:967 | the hand container's listener (`startRetractTimer`, line 962) follows `Step` for `Leave` |
| Retraction.HandTimers.Tick | scripts/poker-hand-hud.js:1203 | running the due timers follows `Step` for `Tick` (with the retract timer of line 962) |
| Retraction.HandTimers.DeckSleep | scripts/poker-hand-hud.js:957 | the deck turns face-down |
| Retraction.HandTimers.DeckWake | scripts/poker-hand-hud.js:958 | the deck turns face-up unless collapsed |

## Left out

- Settings registration, the settings-menu tweaks and import/export. These are host API calls, file I/O and JSON parsing.
- CSS injection, and every style or class write other than the modelled display, placement, height and face-down state. These are presentation only.
- Sparkle particles, the entrance dust, the fly-away animation and the per-card entrance transforms. They depend on `Math.random`, intervals and animation frames.
- Sound effects, `useItemAndChat`, the hover tilt and `smartPlaceTooltip`. These are audio, foreign async calls and measured geometry. A right click on a card that is not selectable is modelled only as the `UseItem` outcome.
- The `scheduleRebuild` debounce, `cleanup` and hook registration. These are host event plumbing.
- `localStorage`. The collapsed flag and the per-actor state are in-memory values: `Stored` is the parsed object, and a failed read is `None`. Stored values of the wrong JSON type are not modelled.
- Document writes (`target.update`, `updateEmbeddedDocuments`). The model computes the update list, or the written value; applying the updates is the pure function `ApplyUpdates`.
- Floating point. The fan is computed on exact reals, and the rounding of `String(x)` in the card dataset is not modelled.
- Numbers read from documents and settings (`Number(...)`, `|| 0`, `?? 0`) are integers in the model. NaN and fractional values are not modelled, and neither is `-0`.
- `Colors.HexToRgba`: the alpha argument is passed in as its printed text. How JavaScript prints a number is not modelled.
- `Items.Lower`: `toLowerCase` is modelled on ASCII letters only.
- `Items.NameBefore`: `localeCompare` is modelled as code-point order, not a locale's collation. Code-point order also differs from UTF-16 code-unit order for characters outside the Basic Multilingual Plane compared with U+E000–U+FFFF.
- `Items.SortHand`: `Array.prototype.sort` is stable. The model proves that the result is sorted and a permutation, but does not prove stability.
- `Items.RenderHandItems`: the order of items whose keys tie is not stated. The source's sort is stable, so domain cards of equal level (and items with equal `sort` and name) keep the actor's order, and that order decides which cards the scroll window shows. The model promises only that the hand is sorted and a permutation of the filtered items.
- An item's missing `inVault` (`undefined`) is read as `false`. This matches the filters of lines 922 and 1541.
- `DomainConfig.VaultDiff`: with `inVault` read as a boolean, a selected card whose `inVault` is undefined gets no update. In the source, the strict `!==` at line 856 sends `inVault: false` for such a card, since `undefined` differs from every boolean.
- Strings are sequences of Unicode scalar values (`seq<char>`), while JavaScript's `length`, `slice` and indexing count UTF-16 code units. For text with characters outside the Basic Multilingual Plane, lengths and indices differ. For example, `Colors.ParseColor` sees two characters in `#` followed by an emoji and one digit and reads two-character slices, where the source sees three code units and takes the three-digit branch.
- `Retraction.Step`: hover on the status HUD is not modelled; `Enter` and `Leave` are the hand container's events. The HUD's listeners are bound once per HUD element, to the timers of the render that first saw the element (lines 969-974). `createStatusHUD` builds a new HUD element without them on actor and item updates (lines 1520-1534), and a re-rendered hand keeps the old HUD, whose listeners still drive the previous render's timer.
- `Retraction.Step`: the 150 ms delayed `deckWake` of the global collapse is the explicit `DeckWake` event. The check that the container is still in the document, done by the entrance timer, is assumed true.
- `HudSettings.SelectActor`: the token, user and actor collections are passed in. Reading them from the host is not modelled.
- The per-card `wheel` listener uses the length of the displayed items. That length equals the number of card elements, which the model uses.
