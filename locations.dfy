/**
 * The serialisable coordinate value type and the host location it is copied from.
 *
 * Coordinates, yaw and pitch are whole numbers here (the host stores doubles and floats);
 * captured block positions are always integral.
 */
module Locations {
  import opened Failures

  /** A loaded host world; the host identifies worlds by name. */
  datatype World = World(name: string)

  /** A live host location. */
  datatype Location = Location(world: World, x: int, y: int, z: int, yaw: int, pitch: int)

  /** A location that holds its world by name instead of by reference. */
  datatype SerializableLocation =
    SerializableLocation(worldName: string, x: int, y: int, z: int, yaw: int, pitch: int)

  /** The worlds currently loaded, by name: the host's world lookup. */
  type WorldRegistry = map<string, World>

  /** The copying constructor: every field comes from `loc` unchanged. */
  function FromLocation(loc: Location): (s: SerializableLocation)
    ensures s.worldName == loc.world.name
    ensures s.x == loc.x && s.y == loc.y && s.z == loc.z
    ensures s.yaw == loc.yaw && s.pitch == loc.pitch
  {
    SerializableLocation(loc.world.name, loc.x, loc.y, loc.z, loc.yaw, loc.pitch)
  }

  /** Resolves the stored world name and rebuilds a live location. */
  function ToLocation(s: SerializableLocation, worlds: WorldRegistry): (r: Result<Location>)
    ensures r.Fail? <==> s.worldName !in worlds
    ensures r.Fail? ==> r.error == WorldNotFound(s.worldName)
    ensures r.Ok? ==> r.value.world == worlds[s.worldName]
    ensures r.Ok? ==> r.value.x == s.x && r.value.y == s.y && r.value.z == s.z
    ensures r.Ok? ==> r.value.yaw == s.yaw && r.value.pitch == s.pitch
  {
    if s.worldName !in worlds then Fail(WorldNotFound(s.worldName))
    else Ok(Location(worlds[s.worldName], s.x, s.y, s.z, s.yaw, s.pitch))
  }

  /** Whether the world a location names is loaded under that name. */
  predicate Registered(loc: Location, worlds: WorldRegistry)
  {
    loc.world.name in worlds && worlds[loc.world.name] == loc.world
  }

  /** Copying a location and resolving it again gives the location back. */
  lemma RoundTrip(loc: Location, worlds: WorldRegistry)
    requires Registered(loc, worlds)
    ensures ToLocation(FromLocation(loc), worlds) == Ok(loc)
  {
  }

  /** Copying a resolved location gives the stored value back, when the world keeps its name. */
  lemma RoundTripStored(s: SerializableLocation, worlds: WorldRegistry)
    requires s.worldName in worlds && worlds[s.worldName].name == s.worldName
    ensures ToLocation(s, worlds).Ok? && FromLocation(ToLocation(s, worlds).value) == s
  {
  }
}
