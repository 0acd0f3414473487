/**
  `SaplingHelper`: which saplings a roamer race receives, looked up
  case-insensitively by race name, and how many of each.
 */
module SaplingHelper {
  import opened Base

  /**
    The upper-casing of one character as `String.toUpperCase` does it for the
    characters whose upper case is a single character among the race names'
    letters: ASCII letters, the dotless `ı` and the long `ſ`. Every other
    character is kept.
   */
  function UpperChar(c: char): char
  {
    if 'a' <= c <= 'z' then (c as int - 32) as char
    else if c == 'ı' then 'I'
    else if c == 'ſ' then 'S'
    else c
  }

  function ToUpper(s: string): (r: string)
    ensures |r| == |s|
    ensures forall i :: 0 <= i < |s| ==> r[i] == UpperChar(s[i])
  {
    seq(|s|, i requires 0 <= i < |s| => UpperChar(s[i]))
  }

  /** Upper-casing twice is upper-casing once. */
  lemma ToUpperIdempotent(s: string)
    ensures ToUpper(ToUpper(s)) == ToUpper(s)
  {
    var u := ToUpper(s);
    assert forall i :: 0 <= i < |u| ==> UpperChar(u[i]) == u[i];
  }

  /** The race table, keyed by upper-case race name; the arctic race is spelled "ARTIC". */
  const RACE_SAPLINGS: map<string, seq<Item>> := map[
    "PLAINS" := [Sapling(Oak), Sapling(Birch)],
    "TAIGA" := [Sapling(Spruce)],
    "JUNGLE" := [Sapling(Jungle), Sapling(Oak)],
    "SAVANNA" := [Sapling(Acacia), Sapling(Oak)],
    "CHERRY" := [Sapling(Cherry)],
    "DESERT" := [],
    "BADLANDS" := [],
    "ARTIC" := []
  ]

  /** Number of saplings of each kind a new roamer receives. */
  const SAPLING_COUNT: nat := 8

  /** `getSaplingsForRace(raceName)`: the table entry of the upper-cased name, or the empty list. */
  function GetSaplingsForRace(raceName: string): (r: seq<Item>)
    ensures ToUpper(raceName) !in RACE_SAPLINGS ==> r == []
    ensures ToUpper(raceName) in RACE_SAPLINGS ==> r == RACE_SAPLINGS[ToUpper(raceName)]
    ensures forall i :: 0 <= i < |r| ==> r[i].Sapling?
  {
    var key := ToUpper(raceName);
    if key in RACE_SAPLINGS then RACE_SAPLINGS[key] else []
  }

  /** `getSaplingCount()`. */
  function GetSaplingCount(): (r: nat)
    ensures r == SAPLING_COUNT
  {
    8
  }

  /** `raceUsesWood(raceName)`: the race has a table entry and it is not empty. */
  function RaceUsesWood(raceName: string): (r: bool)
    ensures r <==> |GetSaplingsForRace(raceName)| > 0
  {
    var key := ToUpper(raceName);
    key in RACE_SAPLINGS && |RACE_SAPLINGS[key]| > 0
  }

  /** A race uses wood exactly when it receives some sapling. */
  lemma UsesWoodIffSaplings(raceName: string)
    ensures RaceUsesWood(raceName) <==> |GetSaplingsForRace(raceName)| > 0
  {
  }

  /** The lookup does not depend on the case of the name. */
  lemma CaseInsensitive(raceName: string)
    ensures GetSaplingsForRace(raceName) == GetSaplingsForRace(ToUpper(raceName))
    ensures RaceUsesWood(raceName) == RaceUsesWood(ToUpper(raceName))
  {
    ToUpperIdempotent(raceName);
  }

  /** The table's entries, in their order. */
  lemma RaceTable()
    ensures GetSaplingsForRace("PLAINS") == [Sapling(Oak), Sapling(Birch)]
    ensures GetSaplingsForRace("TAIGA") == [Sapling(Spruce)]
    ensures GetSaplingsForRace("JUNGLE") == [Sapling(Jungle), Sapling(Oak)]
    ensures GetSaplingsForRace("SAVANNA") == [Sapling(Acacia), Sapling(Oak)]
    ensures GetSaplingsForRace("CHERRY") == [Sapling(Cherry)]
    ensures GetSaplingsForRace("DESERT") == []
    ensures GetSaplingsForRace("BADLANDS") == []
    ensures GetSaplingsForRace("ARTIC") == []
    ensures GetSaplingsForRace("plains") == [Sapling(Oak), Sapling(Birch)]
  {
    assert ToUpper("PLAINS") == "PLAINS";
    assert ToUpper("TAIGA") == "TAIGA";
    assert ToUpper("JUNGLE") == "JUNGLE";
    assert ToUpper("SAVANNA") == "SAVANNA";
    assert ToUpper("CHERRY") == "CHERRY";
    assert ToUpper("DESERT") == "DESERT";
    assert ToUpper("BADLANDS") == "BADLANDS";
    assert ToUpper("ARTIC") == "ARTIC";
    assert ToUpper("plains") == "PLAINS";
  }

  /** The correctly spelled "ARCTIC" is no key, so it yields the empty list, as does any unknown race. */
  lemma ArcticSpelling()
    ensures GetSaplingsForRace("ARCTIC") == []
    ensures !RaceUsesWood("ARCTIC") && !RaceUsesWood("artic")
  {
    assert ToUpper("ARCTIC") == "ARCTIC";
    assert ToUpper("artic") == "ARTIC";
  }

  /** Only the five wood-using races receive saplings, and no race receives the same sapling twice. */
  lemma SaplingRaces(raceName: string)
    ensures |GetSaplingsForRace(raceName)| > 0 ==>
              ToUpper(raceName) in {"PLAINS", "TAIGA", "JUNGLE", "SAVANNA", "CHERRY"}
    ensures var r := GetSaplingsForRace(raceName);
            forall i, j :: 0 <= i < j < |r| ==> r[i] != r[j]
  {
  }

  /** The stacks a new roamer of a wood-using race is given: `SAPLING_COUNT` of each of its saplings, in table order. */
  function StarterSaplings(raceName: string): (r: seq<Stack>)
    ensures |r| == |GetSaplingsForRace(raceName)|
    ensures forall i :: 0 <= i < |r| ==> r[i] == Stack(GetSaplingsForRace(raceName)[i], GetSaplingCount())
    ensures forall i :: 0 <= i < |r| ==> IsSaplingStack(r[i])
  {
    var saplings := GetSaplingsForRace(raceName);
    seq(|saplings|, i requires 0 <= i < |saplings| => Stack(saplings[i], GetSaplingCount()))
  }
}
