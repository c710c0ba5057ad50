/**
 * Game modes: the four modes, the table from aliases to modes that is filled
 * on first use, and the numeric ids of the modes.
 */
module GameModes {
  import opened Common
  import Languages

  /** The game mode kinds; `OtherType(code)` is any value of the enumeration outside the four named ones. */
  datatype GameModeType = Adventure | Creative | Spectator | Survival | OtherType(code: int)

  /** A game mode: its kind, English name, translatable name and the aliases it is known by. */
  datatype GameMode = GameMode(
    kind: GameModeType,
    englishName: string,
    translatableName: Languages.Translatable,
    aliases: seq<string>)

  // The four modes as registered. Every one of them is given the English
  // name "Survival".
  const SurvivalMode := GameMode(Survival, "Survival", Languages.Key("gamemode.survival"), ["survival", "s", "0"])
  const CreativeMode := GameMode(Creative, "Survival", Languages.Key("gamemode.creative"), ["creative", "c", "1"])
  const AdventureMode := GameMode(Adventure, "Survival", Languages.Key("gamemode.adventure"), ["adventure", "a", "2"])
  const SpectatorMode := GameMode(Spectator, "Survival", Languages.Key("gamemode.spectator"), ["spectator", "view", "3"])

  /** `table` after registering `member`: each of its aliases maps to it, replacing an earlier entry. */
  function Registered(table: map<string, GameMode>, member: GameMode): (r: map<string, GameMode>)
    ensures forall a :: a in member.aliases ==> a in r && r[a] == member
    ensures forall a :: a !in member.aliases ==> (a in r <==> a in table)
    ensures forall a :: a !in member.aliases && a in table ==> r[a] == table[a]
  {
    table + map a | a in member.aliases :: member
  }

  /** `table` after the four modes are registered, in order. */
  function SetUp(table: map<string, GameMode>): map<string, GameMode> {
    Registered(Registered(Registered(Registered(table, SurvivalMode), CreativeMode), AdventureMode), SpectatorMode)
  }

  /** The alias table once set up: each mode under each of its aliases. */
  function Aliases(): map<string, GameMode> {
    map[
      "survival" := SurvivalMode, "s" := SurvivalMode, "0" := SurvivalMode,
      "creative" := CreativeMode, "c" := CreativeMode, "1" := CreativeMode,
      "adventure" := AdventureMode, "a" := AdventureMode, "2" := AdventureMode,
      "spectator" := SpectatorMode, "view" := SpectatorMode, "3" := SpectatorMode]
  }

  /** A table that agrees with `table` registered with `member` at every key is that table. */
  lemma RegisteredPointwise(m: map<string, GameMode>, table: map<string, GameMode>, member: GameMode)
    requires forall a :: a in member.aliases ==> a in m && m[a] == member
    requires forall a :: a !in member.aliases ==> (a in m <==> a in table)
    requires forall a :: a !in member.aliases && a in table ==> m[a] == table[a]
    ensures m == Registered(table, member)
  {
    assert m.Keys == Registered(table, member).Keys;
  }

  /** Registering a member with three aliases updates the table under each of them. */
  lemma RegisteredThree(table: map<string, GameMode>, member: GameMode, a: string, b: string, c: string)
    requires member.aliases == [a, b, c]
    ensures Registered(table, member) == table[a := member][b := member][c := member]
  {
    var u := table[a := member][b := member][c := member];
    assert forall k :: k in member.aliases <==> k == a || k == b || k == c;
    RegisteredPointwise(u, table, member);
  }

  /** Registering the four modes into an empty table gives the alias table. */
  lemma SetUpFromEmpty()
    ensures SetUp(map[]) == Aliases()
  {
    var t1 := Registered(map[], SurvivalMode);
    var t2 := Registered(t1, CreativeMode);
    var t3 := Registered(t2, AdventureMode);
    RegisteredThree(map[], SurvivalMode, "survival", "s", "0");
    RegisteredThree(t1, CreativeMode, "creative", "c", "1");
    RegisteredThree(t2, AdventureMode, "adventure", "a", "2");
    RegisteredThree(t3, SpectatorMode, "spectator", "view", "3");
  }

  /** The mode an alias names, if any. */
  function Lookup(alias: string): (r: Option<GameMode>)
    ensures r.Some? <==> alias in Aliases()
  {
    if alias in Aliases() then Some(Aliases()[alias]) else None
  }

  /** A string that is none of the twelve aliases names no mode. */
  lemma UnknownAlias(s: string)
    requires s !in {"survival", "s", "0", "creative", "c", "1", "adventure", "a", "2", "spectator", "view", "3"}
    ensures Lookup(s).None?
  {

  }

  /** Every registered mode carries the English name "Survival". */
  lemma EnglishNames(alias: string)
    requires alias in Aliases()
    ensures Aliases()[alias].englishName == "Survival"
  {

  }

  /** The alias `FromId` looks up for each id. */
  function IdAlias(id: int): (a: Option<string>)
    ensures a.Some? <==> 0 <= id <= 3
  {
    match id
    case 0 => Some("survival")
    case 1 => Some("creative")
    case 2 => Some("adventure")
    case 3 => Some("spectator")
    case _ => None
  }

  /** The mode of an id, or nothing for an id outside 0..3. */
  function FromId(id: int): (r: Option<GameMode>)
    ensures r.Some? <==> 0 <= id <= 3
  {
    match IdAlias(id)
    case Some(alias) => Lookup(alias)
    case None => None
  }

  /** The id of a mode's kind; a kind outside the four raises. */
  function ToId(gameMode: GameMode): (r: Result<int>)
    ensures r.Ok? <==> !gameMode.kind.OtherType?
    ensures r.Ok? ==> 0 <= r.value <= 3
    ensures r.Err? ==> r.error == ArgumentError("Game mode is not mapped.")
  {
    match gameMode.kind
    case Survival => Ok(0)
    case Creative => Ok(1)
    case Adventure => Ok(2)
    case Spectator => Ok(3)
    case OtherType(_) => Err(ArgumentError("Game mode is not mapped."))
  }

  /** The mode of an id has that id. */
  lemma ToIdOfFromId(id: int)
    requires 0 <= id <= 3
    ensures ToId(FromId(id).value) == Ok(id)
  {

  }

  /** The id of a mode gives back a mode of the same kind. */
  lemma FromIdOfToId(gameMode: GameMode)
    requires ToId(gameMode).Ok?
    ensures FromId(ToId(gameMode).value).Some?
    ensures FromId(ToId(gameMode).value).value.kind == gameMode.kind
  {

  }

  /** The alias table, empty until the first lookup fills it. */
  class AliasRegistry {
    var aliasMap: map<string, GameMode>

    /** The table is either empty or fully set up: only `Setup` writes it. */
    ghost predicate Valid()
      reads this
    {
      aliasMap == map[] || aliasMap == Aliases()
    }

    constructor ()
      ensures Valid() && aliasMap == map[]
    {
      aliasMap := map[];
    }

    /** Whether the table has been filled. */
    predicate CheckInit()
      reads this
    {
      !(|aliasMap| <= 0)
    }

    /** Maps every alias of `member` to it, one at a time. */
    method Register(member: GameMode)
      modifies this
      ensures aliasMap == Registered(old(aliasMap), member)
    {
      var aliases := member.aliases;
      for i := 0 to |aliases|
        invariant forall a :: a in aliases[..i] ==> a in aliasMap && aliasMap[a] == member
        invariant forall a :: a !in aliases[..i] ==> (a in aliasMap <==> a in old(aliasMap))
        invariant forall a :: a !in aliases[..i] && a in old(aliasMap) ==> aliasMap[a] == old(aliasMap)[a]
      {
        assert aliases[..i + 1] == aliases[..i] + [aliases[i]];
        aliasMap := aliasMap[aliases[i] := member];
      }
      assert aliases[..|aliases|] == aliases;
      RegisteredPointwise(aliasMap, old(aliasMap), member);
    }

    /** Registers the four modes. */
    method Setup()
      modifies this
      ensures aliasMap == SetUp(old(aliasMap))
    {
      Register(SurvivalMode);
      Register(CreativeMode);
      Register(AdventureMode);
      Register(SpectatorMode);
    }

    /** The mode `str` names, setting the table up first when it is empty. */
    method FromString(str: string) returns (r: Option<GameMode>)
      requires Valid()
      modifies this
      ensures Valid() && aliasMap == Aliases()
      ensures old(CheckInit()) ==> aliasMap == old(aliasMap)
      ensures r == Lookup(str)
    {
      if !CheckInit() {
        Setup();
        SetUpFromEmpty();
      }
      r := if str in aliasMap then Some(aliasMap[str]) else None;
    }

    /** `GameModeIdMap.FromId`: the mode of an id, through its alias. */
    method ModeOfId(id: int) returns (r: Option<GameMode>)
      requires Valid()
      modifies this
      ensures Valid()
      ensures r == FromId(id)
    {
      match id {
        case 0 => r := FromString("survival");
        case 1 => r := FromString("creative");
        case 2 => r := FromString("adventure");
        case 3 => r := FromString("spectator");
        case _ => r := None;
      }
    }
  }
}
