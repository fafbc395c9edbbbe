/**
 * Spawnpoints (Spawnpoint.java): named arena locations with a spawn type and a team.
 * A spawnpoint is never changed after construction, so it is a value here.
 */
module Spawns {
  import opened Wrappers
  import opened Text
  import opened Platform
  import Teams

  /** A spawn type: its name and whether it spawns entities. */
  datatype SpawnType = SpawnType(name: string, isSpawner: bool)

  datatype Spawnpoint = Spawnpoint(
    name: string,
    searchName: string,
    spawnType: SpawnType,
    team: Teams.ArenaTeam,
    location: Location)

  /** What every constructor establishes: a non-empty name and its lower-cased search name. */
  predicate Valid(sp: Spawnpoint) {
    |sp.name| > 0 && sp.searchName == ToLower(sp.name)
  }

  /** The constructors without a team argument; the team stays NONE. */
  function NewSpawnpoint(name: string, spawnType: SpawnType, location: Location): (sp: Spawnpoint)
    requires |name| > 0
    ensures Valid(sp)
    ensures sp.name == name && sp.spawnType == spawnType && sp.location == location
    ensures sp.team == Teams.NoTeam
    ensures |sp.searchName| == |name| && forall i :: 0 <= i < |name| ==> !IsUpper(sp.searchName[i])
  {
    Spawnpoint(name, ToLower(name), spawnType, Teams.NoTeam, location)
  }

  /** The constructors with a team argument; that team is stored. */
  function NewTeamSpawnpoint(name: string, spawnType: SpawnType, team: Teams.ArenaTeam, location: Location): (sp: Spawnpoint)
    requires |name| > 0
    ensures Valid(sp)
    ensures sp.name == name && sp.spawnType == spawnType && sp.location == location
    ensures sp.team == team
    ensures |sp.searchName| == |name| && forall i :: 0 <= i < |name| ==> !IsUpper(sp.searchName[i])
  {
    Spawnpoint(name, ToLower(name), spawnType, team, location)
  }

  /** Two spawnpoints whose names differ only in case share a search name. */
  lemma SearchNameIgnoresCase(a: Spawnpoint, b: Spawnpoint)
    requires Valid(a) && Valid(b)
    ensures a.searchName == b.searchName <==> EqualIgnoringCase(a.name, b.name)
  {
    ToLowerSameIffEqualIgnoringCase(a.name, b.name);
  }

  /** A request to the spawn type to spawn `count` entities at a location. */
  datatype SpawnRequest = SpawnRequest(spawnType: SpawnType, location: Location, count: int)

  /**
   * `spawn(arena, count)`: the count must be positive; a spawn type that is
   * not a spawner gives null, otherwise the spawn type spawns at this point.
   */
  function Spawn(sp: Spawnpoint, count: int): (r: Option<SpawnRequest>)
    requires count > 0
    ensures r.None? <==> !sp.spawnType.isSpawner
    ensures r.Some? ==> r.value.location == sp.location && r.value.count == count
                        && r.value.spawnType == sp.spawnType
  {
    if !sp.spawnType.isSpawner then None
    else Some(SpawnRequest(sp.spawnType, sp.location, count))
  }
}
