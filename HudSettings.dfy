/** The small decisions the HUD takes from its settings: sparkle rates, which
    theme image to use, which containers the global collapse folds, and which
    actor the hand shows. */
module HudSettings {
  import opened JsText

  // ---------------------------------------------------------------------------
  // getSparkleRates

  /** Milliseconds between sparkles, at rest and while hovered. */
  datatype SparkleRates = SparkleRates(base: nat, hover: nat)

  /** The rates for the `sparkleIntensity` setting: "low", "high", anything
      else is read as the medium rate. */
  function RatesFor(level: string): (r: SparkleRates)
    ensures r.hover < r.base
    ensures level != "low" && level != "high" ==> r == SparkleRates(700, 300)
  {
    if level == "low" then SparkleRates(1100, 520)
    else if level == "high" then SparkleRates(380, 180)
    else SparkleRates(700, 300)
  }

  /** A higher intensity means shorter gaps, at rest and hovered alike. */
  lemma RatesOrdered(level: string)
    ensures RatesFor("high").base < RatesFor(level).base || level == "high"
    ensures RatesFor(level).base <= RatesFor("low").base
    ensures RatesFor("high").hover <= RatesFor(level).hover <= RatesFor("low").hover
  {
  }

  // ---------------------------------------------------------------------------
  // resolveCardBackUrl / resolveHudBgUrl

  /** The image URL for a theme slot: the trimmed per-client setting when it is
      not blank, else the trimmed world setting. A setting that is null or
      undefined reads as the empty string. */
  function ResolveUrl(client: Option<string>, world: Option<string>): (url: string)
    ensures url == Trim(OrEmpty(client)) || url == Trim(OrEmpty(world))
    ensures Trim(OrEmpty(client)) != "" ==> url == Trim(OrEmpty(client))
    ensures Trim(OrEmpty(client)) == "" ==> url == Trim(OrEmpty(world))
  {
    var c := Trim(OrEmpty(client));
    if c != "" then c else Trim(OrEmpty(world))
  }

  /** `value || ""` for a string setting. */
  function OrEmpty(value: Option<string>): string {
    match value
    case None => ""
    case Some(s) => s
  }

  /** The resolved URL carries no surrounding whitespace, so resolving it again
      as a client setting gives it back. */
  lemma ResolvedUrlIsTrimmed(client: Option<string>, world: Option<string>)
    ensures Trim(ResolveUrl(client, world)) == ResolveUrl(client, world)
    ensures ResolveUrl(client, world) != "" ==>
              ResolveUrl(Some(ResolveUrl(client, world)), world) == ResolveUrl(client, world)
  {
    TrimIdempotent(OrEmpty(client));
    TrimIdempotent(OrEmpty(world));
  }

  // ---------------------------------------------------------------------------
  // applyGlobalCollapse

  /** What happens to the deck after the collapse flag is applied. */
  datatype DeckAction = Sleep | WakeLater

  /** The `collapsed` classes of the status HUD and of the hand container, and
      the deck action. */
  datatype CollapseView = CollapseView(hudCollapsed: bool, handCollapsed: bool, deck: DeckAction)

  function ApplyCollapse(collapsed: bool, sleepHudOnly: bool): (v: CollapseView)
    ensures v.hudCollapsed == collapsed
    ensures v.handCollapsed <==> collapsed && !sleepHudOnly
    ensures v.deck == Sleep <==> collapsed
  {
    CollapseView(collapsed, if sleepHudOnly then false else collapsed,
                 if collapsed then Sleep else WakeLater)
  }

  /** The hand is only ever folded together with the HUD, and with
      `sleepHudOnly` it is never folded. */
  lemma HandFoldsOnlyWithHud(collapsed: bool, sleepHudOnly: bool)
    ensures ApplyCollapse(collapsed, sleepHudOnly).handCollapsed ==>
              ApplyCollapse(collapsed, sleepHudOnly).hudCollapsed
    ensures sleepHudOnly ==> !ApplyCollapse(collapsed, sleepHudOnly).handCollapsed
  {
  }

  // ---------------------------------------------------------------------------
  // selectActorOriginal

  datatype Actor = Actor(id: string, isOwner: bool, kind: string)

  /** The actors of the controlled tokens that have one, in order. */
  function TokenActors(tokens: seq<Option<Actor>>): (actors: seq<Actor>)
    ensures forall a :: a in actors <==> Some(a) in tokens
  {
    if tokens == [] then []
    else
      var rest := TokenActors(tokens[..|tokens| - 1]);
      assert tokens == tokens[..|tokens| - 1] + [tokens[|tokens| - 1]];
      match tokens[|tokens| - 1]
      case None => rest
      case Some(a) => rest + [a]
  }

  /** The owned actors of type "character", in order. */
  function OwnedCharacters(actors: seq<Actor>): (owned: seq<Actor>)
    ensures forall a :: a in owned <==> a in actors && a.isOwner && a.kind == "character"
  {
    if actors == [] then []
    else
      var rest := OwnedCharacters(actors[..|actors| - 1]);
      var a := actors[|actors| - 1];
      assert actors == actors[..|actors| - 1] + [a];
      if a.isOwner && a.kind == "character" then rest + [a] else rest
  }

  /** The actor the hand is built for: the actor of the last controlled token
      that has one, else the user's character, else the first owned character. */
  function SelectActor(tokens: seq<Option<Actor>>, userCharacter: Option<Actor>,
                       actors: seq<Actor>): (chosen: Option<Actor>)
    ensures chosen.Some? <==>
              (exists a :: Some(a) in tokens) || userCharacter.Some?
              || (exists a :: a in actors && a.isOwner && a.kind == "character")
  {
    var controlled := TokenActors(tokens);
    if |controlled| > 0 then
      Some(controlled[|controlled| - 1])
    else if userCharacter.Some? then
      userCharacter
    else
      var owned := OwnedCharacters(actors);
      if |owned| > 0 then
        assert owned[0] in owned;
        Some(owned[0])
      else
        assert forall a :: a in actors && a.isOwner && a.kind == "character" ==> a in owned;
        None
  }

  /** The last token that carries an actor decides, whatever the tokens before
      it and whatever the user's character is. */
  lemma {:induction false} LastControlledWins(tokens: seq<Option<Actor>>, i: nat, userCharacter: Option<Actor>,
                                              actors: seq<Actor>)
    requires i < |tokens| && tokens[i].Some?
    requires forall j :: i < j < |tokens| ==> tokens[j].None?
    ensures SelectActor(tokens, userCharacter, actors) == tokens[i]
  {
    LastTokenActor(tokens, i);
  }

  /** The last actor of `TokenActors` is the one of the last token holding one. */
  lemma {:induction false} LastTokenActor(tokens: seq<Option<Actor>>, i: nat)
    requires i < |tokens| && tokens[i].Some?
    requires forall j :: i < j < |tokens| ==> tokens[j].None?
    ensures var actors := TokenActors(tokens); |actors| > 0 && Some(actors[|actors| - 1]) == tokens[i]
    decreases |tokens|
  {
    if i < |tokens| - 1 {
      LastTokenActor(tokens[..|tokens| - 1], i);
    }
  }

  /** With no controlled actor, the user's character beats the owned ones. */
  lemma UserCharacterBeforeOwned(tokens: seq<Option<Actor>>, user: Actor, actors: seq<Actor>)
    requires forall t :: t in tokens ==> t.None?
    ensures SelectActor(tokens, Some(user), actors) == Some(user)
  {
    var controlled := TokenActors(tokens);
    assert forall a :: a !in controlled;
  }

  /** With neither a controlled actor nor a user character, the first owned
      character in the actor list is chosen. */
  lemma FirstOwnedCharacterChosen(tokens: seq<Option<Actor>>, actors: seq<Actor>, i: nat)
    requires forall t :: t in tokens ==> t.None?
    requires i < |actors| && actors[i].isOwner && actors[i].kind == "character"
    requires forall j :: 0 <= j < i ==> !(actors[j].isOwner && actors[j].kind == "character")
    ensures SelectActor(tokens, None, actors) == Some(actors[i])
  {
    var controlled := TokenActors(tokens);
    assert forall a :: a !in controlled;
    FirstOwned(actors, i);
  }

  /** The first of `OwnedCharacters` is the first owned character. */
  lemma {:induction false} FirstOwned(actors: seq<Actor>, i: nat)
    requires i < |actors| && actors[i].isOwner && actors[i].kind == "character"
    requires forall j :: 0 <= j < i ==> !(actors[j].isOwner && actors[j].kind == "character")
    ensures var owned := OwnedCharacters(actors); |owned| > 0 && owned[0] == actors[i]
    decreases |actors|
  {
    var prefix := actors[..|actors| - 1];
    if i < |actors| - 1 {
      FirstOwned(prefix, i);
    } else {
      var rest := OwnedCharacters(prefix);
      assert forall a :: a in prefix ==> !(a.isOwner && a.kind == "character");
      assert forall a :: a !in rest;
    }
  }
}
