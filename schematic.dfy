/**
 * A schematic: the blocks of a captured region, keyed by absolute position, and the origin
 * every transform and paste is taken relative to.
 *
 * The host world is reached through three parameters: `terrain` reads the material of a
 * block of a loaded world, `worlds` resolves a world name, and a paste returns the block
 * writes it issues, in order. The registry is assumed to resolve a name to a world of that
 * name, so a key rebuilt from a resolved location keeps its world name.
 */
module Schematics {
  import opened Failures
  import opened Locations
  import opened Envelope
  import opened Transforms

  /** A block material; only AIR is ever singled out. */
  datatype Material = Air | Other(name: string)

  /** The host's block read: the material of world `w` at block (x, y, z). */
  type Terrain = (World, int, int, int) -> Material

  /** The largest value of a Java `int`. */
  const IntMax: int := 0x7fff_ffff

  /** getFileExtension: the suffix of schematic file names, one dot and then a name. */
  function FileExtension(): (ext: string)
    ensures |ext| > 1 && ext[0] == '.' && '.' !in ext[1..]
  {
    ".tachyon"
  }

  /** The block position of a location. */
  function Corner(loc: Location): Point
  {
    Point(loc.x, loc.y, loc.z)
  }

  /** The key stored for block `p` of world `w`: a location built from x, y, z alone. */
  function KeyAt(w: World, p: Point): SerializableLocation
  {
    FromLocation(Location(w, p.x, p.y, p.z, 0, 0))
  }

  // ---------------------------------------------------------------- capture

  /** The map after inserting, one after another, the block read at each listed point. */
  function CaptureMap(w: World, coords: seq<Point>, terrain: Terrain)
    : map<SerializableLocation, Material>
    decreases |coords|
  {
    if coords == [] then map[]
    else
      var p := coords[|coords| - 1];
      CaptureMap(w, coords[..|coords| - 1], terrain)[KeyAt(w, p) := terrain(w, p.x, p.y, p.z)]
  }

  /**
   * Inserting a list of distinct points gives one entry per point, keyed by the point in
   * world `w` with yaw and pitch 0, holding the material read there.
   */
  lemma {:induction false} CaptureMapFacts(w: World, coords: seq<Point>, terrain: Terrain)
    requires Distinct(coords)
    ensures |CaptureMap(w, coords, terrain)| == |coords|
    ensures forall k :: k in CaptureMap(w, coords, terrain) <==>
      k.worldName == w.name && k.yaw == 0 && k.pitch == 0 && Point(k.x, k.y, k.z) in coords
    ensures forall k :: k in CaptureMap(w, coords, terrain) ==>
      CaptureMap(w, coords, terrain)[k] == terrain(w, k.x, k.y, k.z)
    decreases |coords|
  {
    if coords != [] {
      var init, p := coords[..|coords| - 1], coords[|coords| - 1];
      assert coords == init + [p];
      assert Distinct(init);
      CaptureMapFacts(w, init, terrain);
      assert p !in init;
    }
  }

  /** The forEach of copyBlocks: read the block at each listed point and record it. */
  method ReadBlocks(world: World, coords: seq<Point>, terrain: Terrain)
    returns (captured: map<SerializableLocation, Material>)
    ensures captured == CaptureMap(world, coords, terrain)
  {
    captured := map[];
    var i := 0;
    while i < |coords|
      invariant 0 <= i <= |coords|
      invariant captured == CaptureMap(world, coords[..i], terrain)
    {
      var loc := Location(world, coords[i].x, coords[i].y, coords[i].z, 0, 0);
      captured := captured[FromLocation(loc) := terrain(world, loc.x, loc.y, loc.z)];
      assert coords[..i + 1][..i] == coords[..i];
      i := i + 1;
    }
    assert coords[..i] == coords;
  }

  /** The blocks copyBlocks records for the region between `start` and `end`. */
  function Captured(start: Location, end: Location, terrain: Terrain)
    : map<SerializableLocation, Material>
  {
    CaptureMap(start.world, Box(Min(Corner(start), Corner(end)), Max(Corner(start), Corner(end))),
               terrain)
  }

  /** The capture holds one block per point of the envelope: (|dx|+1)(|dy|+1)(|dz|+1). */
  lemma CapturedSize(start: Location, end: Location, terrain: Terrain)
    ensures |Captured(start, end, terrain)| == Volume(Corner(start), Corner(end))
  {
    var a, b := Corner(start), Corner(end);
    var box := Box(Min(a, b), Max(a, b));
    EnvelopeFacts(a, b);
    CaptureMapFacts(start.world, box, terrain);
  }

  /**
   * The capture holds exactly the integer points of the closed envelope of the two corners,
   * in the world of `start` with yaw and pitch 0, each holding the material the world has
   * there.
   */
  lemma CapturedContents(start: Location, end: Location, terrain: Terrain)
    ensures forall k :: k in Captured(start, end, terrain) <==>
      && k.worldName == start.world.name && k.yaw == 0 && k.pitch == 0
      && Within(Point(k.x, k.y, k.z), Min(Corner(start), Corner(end)), Max(Corner(start), Corner(end)))
    ensures forall k :: k in Captured(start, end, terrain) ==>
      Captured(start, end, terrain)[k] == terrain(start.world, k.x, k.y, k.z)
  {
    var a, b := Corner(start), Corner(end);
    var box := Box(Min(a, b), Max(a, b));
    EnvelopeFacts(a, b);
    CaptureMapFacts(start.world, box, terrain);
    assert Captured(start, end, terrain) == CaptureMap(start.world, box, terrain);
  }

  /** Passing the corners the other way round captures the same blocks. */
  lemma CapturedSymmetric(start: Location, end: Location, terrain: Terrain)
    requires start.world == end.world
    ensures Captured(start, end, terrain) == Captured(end, start, terrain)
  {
    EnvelopeSymmetric(Corner(start), Corner(end));
  }

  // ---------------------------------------------------------------- replace

  /** The blocks after every `from` entry is replaced by `to`. */
  function Replaced(m: map<SerializableLocation, Material>, from: Material, to: Material)
    : map<SerializableLocation, Material>
  {
    map k | k in m :: if m[k] == from then to else m[k]
  }

  /**
   * Replacement keeps every key, turns `from` into `to` and leaves every other material;
   * afterwards no block is `from` unless `from` is `to`, and replacing again changes nothing.
   */
  lemma ReplacedFacts(m: map<SerializableLocation, Material>, from: Material, to: Material)
    ensures Replaced(m, from, to).Keys == m.Keys && |Replaced(m, from, to)| == |m|
    ensures forall k :: k in m && m[k] == from ==> Replaced(m, from, to)[k] == to
    ensures forall k :: k in m && m[k] != from ==> Replaced(m, from, to)[k] == m[k]
    ensures from != to ==> from !in Replaced(m, from, to).Values
    ensures Replaced(Replaced(m, from, to), from, to) == Replaced(m, from, to)
  {
    assert Replaced(m, from, to).Keys == m.Keys;
  }

  // ---------------------------------------------------------------- paste

  /** One block write: the location and the material given to setSectionBlock. */
  datatype Write = Write(at: Location, material: Material)

  /** The keys a paste writes: all of them, or all but the AIR blocks. */
  function PasteKeys(m: map<SerializableLocation, Material>, ignoreAir: bool)
    : (keys: set<SerializableLocation>)
    ensures keys <= m.Keys
    ensures !ignoreAir ==> keys == m.Keys
    ensures ignoreAir ==> forall k :: k in keys ==> m[k] != Air
    ensures forall k :: k in m && m[k] != Air ==> k in keys
  {
    set k | k in m && !(ignoreAir && m[k] == Air)
  }

  /** The location a key is written at: its offset from the origin, added to the target. */
  function Target(world: World, k: SerializableLocation, origin: SerializableLocation,
                  paste: Location): Location
  {
    Location(world, k.x - origin.x + paste.x, k.y - origin.y + paste.y, k.z - origin.z + paste.z,
             k.yaw, k.pitch)
  }

  /** All keys of a map name the same world. */
  ghost predicate OneWorld(m: map<SerializableLocation, Material>)
  {
    forall a, b :: a in m && b in m ==> a.worldName == b.worldName
  }

  /** Some key of `keys` names a world that is not loaded. */
  ghost predicate SomeUnresolved(keys: set<SerializableLocation>, worlds: WorldRegistry)
  {
    exists k :: k in keys && k.worldName !in worlds
  }

  class Schematic {
    var blocks: map<SerializableLocation, Material>
    var origin: SerializableLocation

    /** Every block was captured from one world, and transforms keep the world name. */
    ghost predicate Valid()
      reads this
    {
      OneWorld(blocks)
    }

    /**
     * getBlockCount: the size of the block map as a Java `int`. The map's size saturates at
     * the largest `int` rather than wrapping.
     */
    function BlockCount(): (n: nat)
      reads this
      ensures n <= IntMax && n <= |blocks|
      ensures n == |blocks| <==> |blocks| <= IntMax
      ensures |blocks| > IntMax ==> n == IntMax
    {
      if |blocks| > IntMax then IntMax else |blocks|
    }

    /** The private constructor running copyBlocks: list the envelope, then read each block. */
    constructor Capture(start: Location, end: Location, origin: Location, terrain: Terrain)
      ensures Valid()
      ensures blocks == Captured(start, end, terrain)
      ensures this.origin == FromLocation(origin)
      ensures |blocks| == Volume(Corner(start), Corner(end))
    {
      var world := start.world;
      var lo := Min(Corner(start), Corner(end));
      var hi := Max(Corner(start), Corner(end));
      this.origin := FromLocation(origin);
      var coords := Coordinates(lo, hi);
      var captured := ReadBlocks(world, coords, terrain);
      blocks := captured;
      CapturedContents(start, end, terrain);
      CapturedSize(start, end, terrain);
    }

    /** create(start, end, origin) */
    static method Create(start: Location, end: Location, origin: Location, terrain: Terrain)
      returns (s: Schematic)
      ensures fresh(s) && s.Valid()
      ensures s.blocks == Captured(start, end, terrain) && s.origin == FromLocation(origin)
    {
      s := new Schematic.Capture(start, end, origin, terrain);
    }

    /**
     * The loop shared by rotate and the four flips: resolve the origin, carry every block
     * to its new position in a fresh map, and only then replace the blocks. A world that
     * does not resolve aborts the loop and leaves the blocks as they were.
     */
    method Relocate(t: Transform, worlds: WorldRegistry) returns (outcome: Outcome)
      requires Valid()
      modifies this`blocks
      ensures Valid()
      ensures outcome.Failed? <==>
        origin.worldName !in worlds || SomeUnresolved(old(blocks).Keys, worlds)
      ensures origin.worldName !in worlds ==> outcome == Failed(WorldNotFound(origin.worldName))
      ensures outcome.Failed? && origin.worldName in worlds ==>
        exists k :: k in old(blocks) && k.worldName !in worlds
          && outcome == Failed(WorldNotFound(k.worldName))
      ensures outcome.Failed? ==> blocks == old(blocks)
      ensures outcome.Done? ==> blocks == Image(old(blocks), t, origin)
      ensures origin == old(origin)
    {
      var originLoc := ToLocation(origin, worlds);
      if originLoc.Fail? {
        return Failed(originLoc.error);
      }
      ghost var m0 := blocks;
      var moved: map<SerializableLocation, Material> := map[];
      var todo := blocks.Keys;
      while todo != {}
        invariant blocks == m0
        invariant todo <= m0.Keys
        invariant moved == Image(m0 - todo, t, origin)
        invariant forall k :: k in m0 && k !in todo ==> k.worldName in worlds
        decreases |todo|
      {
        var k :| k in todo;
        var loc := ToLocation(k, worlds);
        if loc.Fail? {
          return Failed(loc.error);
        }
        ImageInsert(m0 - (todo - {k}), t, origin, k);
        RemoveOneMore(m0, todo, k);
        moved := moved[Move(t, origin, k) := blocks[k]];
        todo := todo - {k};
      }
      RemoveNothing(m0);
      assert m0 - todo == m0;
      ghost var o := origin;
      assert moved == Image(m0, t, o);
      OneWorldImage(m0, t, o);
      blocks := moved;
      assert origin == o && old(blocks) == m0;
      return Done;
    }

    /** rotate(angle): turn every block about the origin by the angle rounded to quarter turns. */
    method Rotate(angle: int, worlds: WorldRegistry) returns (outcome: Outcome)
      requires Valid()
      modifies this`blocks
      ensures Valid()
      ensures outcome.Failed? <==>
        origin.worldName !in worlds || SomeUnresolved(old(blocks).Keys, worlds)
      ensures outcome.Failed? ==> outcome.error.WorldNotFound? && blocks == old(blocks)
      ensures outcome.Done? ==> blocks == Rotated(old(blocks), origin, angle)
      ensures origin == old(origin) && BlockCount() == old(BlockCount())
      ensures origin.worldName !in worlds ==> outcome == Failed(WorldNotFound(origin.worldName))
      ensures outcome.Failed? && origin.worldName in worlds ==>
        exists k :: k in old(blocks) && k.worldName !in worlds
          && outcome == Failed(WorldNotFound(k.worldName))
    {
      var effectiveRotations := EffectiveRotations(angle);
      ghost var m := blocks;
      outcome := Relocate(Turn(effectiveRotations), worlds);
      if outcome.Done? {
        ImageSize(m, Turn(effectiveRotations), origin);
      }
    }

    /** flip(direction): dispatch on the lower-cased name, or reject it. */
    method Flip(direction: string, worlds: WorldRegistry) returns (outcome: Outcome)
      requires Valid()
      modifies this`blocks
      ensures Valid()
      ensures ParseDirection(direction).Fail? ==>
        outcome == Failed(InvalidFlipDirection(direction)) && blocks == old(blocks)
      ensures ParseDirection(direction).Ok? ==>
        (outcome.Failed? <==> origin.worldName !in worlds || SomeUnresolved(old(blocks).Keys, worlds))
      ensures outcome.Failed? ==> blocks == old(blocks)
      ensures outcome.Done? ==>
        ParseDirection(direction).Ok?
        && blocks == Flipped(old(blocks), origin, ParseDirection(direction).value)
      ensures origin == old(origin) && BlockCount() == old(BlockCount())
      ensures ParseDirection(direction).Ok? && origin.worldName !in worlds ==>
        outcome == Failed(WorldNotFound(origin.worldName))
      ensures ParseDirection(direction).Ok? && outcome.Failed? && origin.worldName in worlds ==>
        exists k :: k in old(blocks) && k.worldName !in worlds
          && outcome == Failed(WorldNotFound(k.worldName))
    {
      var d := ParseDirection(direction);
      if d.Fail? {
        return Failed(d.error);
      }
      match d.value
      case Up => outcome := FlipUp(worlds);
      case Down => outcome := FlipDown(worlds);
      case Left => outcome := FlipLeft(worlds);
      case Right => outcome := FlipRight(worlds);
    }

    /** flipUp: negate the vertical offset from the origin. */
    method FlipUp(worlds: WorldRegistry) returns (outcome: Outcome)
      requires Valid()
      modifies this`blocks
      ensures Valid()
      ensures outcome.Failed? <==>
        origin.worldName !in worlds || SomeUnresolved(old(blocks).Keys, worlds)
      ensures outcome.Failed? ==> blocks == old(blocks)
      ensures outcome.Done? ==> blocks == Flipped(old(blocks), origin, Up)
      ensures origin == old(origin) && BlockCount() == old(BlockCount())
      ensures origin.worldName !in worlds ==> outcome == Failed(WorldNotFound(origin.worldName))
      ensures outcome.Failed? && origin.worldName in worlds ==>
        exists k :: k in old(blocks) && k.worldName !in worlds
          && outcome == Failed(WorldNotFound(k.worldName))
    {
      assert Mirror(Up) == MirrorY;
      ghost var m := blocks;
      outcome := Relocate(MirrorY, worlds);
      if outcome.Done? {
        ImageSize(m, MirrorY, origin);
      }
    }

    /** flipDown: the same operation as flipUp. */
    method FlipDown(worlds: WorldRegistry) returns (outcome: Outcome)
      requires Valid()
      modifies this`blocks
      ensures Valid()
      ensures outcome.Failed? <==>
        origin.worldName !in worlds || SomeUnresolved(old(blocks).Keys, worlds)
      ensures outcome.Failed? ==> blocks == old(blocks)
      ensures outcome.Done? ==> blocks == Flipped(old(blocks), origin, Down)
      ensures origin == old(origin) && BlockCount() == old(BlockCount())
      ensures origin.worldName !in worlds ==> outcome == Failed(WorldNotFound(origin.worldName))
      ensures outcome.Failed? && origin.worldName in worlds ==>
        exists k :: k in old(blocks) && k.worldName !in worlds
          && outcome == Failed(WorldNotFound(k.worldName))
    {
      assert Mirror(Down) == MirrorY;
      ghost var m := blocks;
      outcome := Relocate(MirrorY, worlds);
      if outcome.Done? {
        ImageSize(m, MirrorY, origin);
      }
    }

    /** flipLeft: negate the x offset from the origin. */
    method FlipLeft(worlds: WorldRegistry) returns (outcome: Outcome)
      requires Valid()
      modifies this`blocks
      ensures Valid()
      ensures outcome.Failed? <==>
        origin.worldName !in worlds || SomeUnresolved(old(blocks).Keys, worlds)
      ensures outcome.Failed? ==> blocks == old(blocks)
      ensures outcome.Done? ==> blocks == Flipped(old(blocks), origin, Left)
      ensures origin == old(origin) && BlockCount() == old(BlockCount())
      ensures origin.worldName !in worlds ==> outcome == Failed(WorldNotFound(origin.worldName))
      ensures outcome.Failed? && origin.worldName in worlds ==>
        exists k :: k in old(blocks) && k.worldName !in worlds
          && outcome == Failed(WorldNotFound(k.worldName))
    {
      assert Mirror(Left) == MirrorX;
      ghost var m := blocks;
      outcome := Relocate(MirrorX, worlds);
      if outcome.Done? {
        ImageSize(m, MirrorX, origin);
      }
    }

    /** flipRight: the same operation as flipLeft. */
    method FlipRight(worlds: WorldRegistry) returns (outcome: Outcome)
      requires Valid()
      modifies this`blocks
      ensures Valid()
      ensures outcome.Failed? <==>
        origin.worldName !in worlds || SomeUnresolved(old(blocks).Keys, worlds)
      ensures outcome.Failed? ==> blocks == old(blocks)
      ensures outcome.Done? ==> blocks == Flipped(old(blocks), origin, Right)
      ensures origin == old(origin) && BlockCount() == old(BlockCount())
      ensures origin.worldName !in worlds ==> outcome == Failed(WorldNotFound(origin.worldName))
      ensures outcome.Failed? && origin.worldName in worlds ==>
        exists k :: k in old(blocks) && k.worldName !in worlds
          && outcome == Failed(WorldNotFound(k.worldName))
    {
      assert Mirror(Right) == MirrorX;
      ghost var m := blocks;
      outcome := Relocate(MirrorX, worlds);
      if outcome.Done? {
        ImageSize(m, MirrorX, origin);
      }
    }

    /** replaceBlocks(from, to): overwrite, entry by entry, every value equal to `from`. */
    method ReplaceBlocks(from: Material, to: Material)
      requires Valid()
      modifies this`blocks
      ensures Valid()
      ensures blocks == Replaced(old(blocks), from, to)
      ensures blocks.Keys == old(blocks).Keys && origin == old(origin)
    {
      var todo := blocks.Keys;
      while todo != {}
        invariant todo <= blocks.Keys == old(blocks).Keys
        invariant forall k :: k in blocks ==>
          blocks[k] == if k in todo then old(blocks)[k] else Replaced(old(blocks), from, to)[k]
        decreases |todo|
      {
        var k :| k in todo;
        if blocks[k] == from {
          blocks := blocks[k := to];
        }
        todo := todo - {k};
      }
    }

    /**
     * pasteSync(pasteLocation, ignoreAir): resolve the origin, then write every entry that
     * is not skipped at its offset from the origin added to the paste location. The order
     * of the entries is not specified; `order` records the one taken.
     */
    method PasteSync(paste: Location, ignoreAir: bool, worlds: WorldRegistry)
      returns (outcome: Outcome, writes: seq<Write>, ghost order: seq<SerializableLocation>)
      requires Valid()
      ensures outcome.Failed? <==>
        origin.worldName !in worlds || SomeUnresolved(PasteKeys(blocks, ignoreAir), worlds)
      ensures origin.worldName !in worlds ==> outcome == Failed(WorldNotFound(origin.worldName))
      ensures outcome.Failed? && origin.worldName in worlds ==>
        exists k :: k in PasteKeys(blocks, ignoreAir) && k.worldName !in worlds
          && outcome == Failed(WorldNotFound(k.worldName))
      ensures outcome.Failed? ==> writes == []
      ensures outcome.Done? ==>
        && Distinct(order)
        && (forall k :: k in order <==> k in PasteKeys(blocks, ignoreAir))
        && |writes| == |order|
        && (forall i :: 0 <= i < |order| ==>
              && order[i].worldName in worlds
              && writes[i] == Write(Target(worlds[order[i].worldName], order[i], origin, paste),
                                    blocks[order[i]]))
      ensures outcome.Done? ==> |writes| == |PasteKeys(blocks, ignoreAir)|
      ensures outcome.Done? && !ignoreAir ==> |writes| == |blocks|
      ensures outcome.Done? && !ignoreAir && |blocks| <= IntMax ==> |writes| == BlockCount()
    {
      writes, order := [], [];
      var originLoc := ToLocation(origin, worlds);
      if originLoc.Fail? {
        return Failed(originLoc.error), writes, order;
      }
      // All keys share one world, so either every key resolves or none does.
      ghost var unresolved := SomeUnresolved(blocks.Keys, worlds);
      OneWorldUnresolved(blocks, worlds);
      var todo := blocks.Keys;
      while todo != {}
        invariant todo <= blocks.Keys
        invariant Distinct(order)
        invariant forall k :: k in order <==> k in PasteKeys(blocks, ignoreAir) && k !in todo
        invariant unresolved ==> order == []
        invariant Listed(blocks, origin, paste, worlds, order, writes)
        decreases |todo|
      {
        var k :| k in todo;
        todo := todo - {k};
        if ignoreAir && blocks[k] == Air {
          continue;
        }
        var loc := ToLocation(k, worlds);
        if loc.Fail? {
          assert unresolved by {
            assert k in blocks.Keys && k.worldName !in worlds;
          }
          return Failed(loc.error), writes, order;
        }
        var target := Location(loc.value.world, loc.value.x - originLoc.value.x + paste.x,
                               loc.value.y - originLoc.value.y + paste.y,
                               loc.value.z - originLoc.value.z + paste.z,
                               loc.value.yaw, loc.value.pitch);
        assert !unresolved;
        assert target == Target(worlds[k.worldName], k, origin, paste);
        ListedAppend(blocks, origin, paste, worlds, order, writes, k);
        writes := writes + [Write(target, blocks[k])];
        order := order + [k];
      }
      DistinctSize(order, PasteKeys(blocks, ignoreAir));
      return Done, writes, order;
    }
  }

  /** `writes` are the writes a paste issues for the keys of `order`, in that order. */
  ghost predicate Listed(m: map<SerializableLocation, Material>, origin: SerializableLocation,
                         paste: Location, worlds: WorldRegistry,
                         order: seq<SerializableLocation>, writes: seq<Write>)
  {
    && |writes| == |order|
    && forall i :: 0 <= i < |order| ==>
      && order[i] in m && order[i].worldName in worlds
      && writes[i] == Write(Target(worlds[order[i].worldName], order[i], origin, paste),
                            m[order[i]])
  }

  /** In a single-world map, one key of an unloaded world means every key is of it. */
  lemma OneWorldUnresolved(m: map<SerializableLocation, Material>, worlds: WorldRegistry)
    requires OneWorld(m)
    ensures SomeUnresolved(m.Keys, worlds) ==> forall q :: q in m ==> q.worldName !in worlds
  {
    if SomeUnresolved(m.Keys, worlds) {
      var k :| k in m.Keys && k.worldName !in worlds;
      forall q | q in m ensures q.worldName !in worlds {
        assert q.worldName == k.worldName;
      }
    }
  }

  /** Writing one more resolved key extends the listing by its write. */
  lemma ListedAppend(m: map<SerializableLocation, Material>, origin: SerializableLocation,
                     paste: Location, worlds: WorldRegistry,
                     order: seq<SerializableLocation>, writes: seq<Write>,
                     k: SerializableLocation)
    requires Listed(m, origin, paste, worlds, order, writes)
    requires k in m && k.worldName in worlds
    ensures Listed(m, origin, paste, worlds, order + [k],
                   writes + [Write(Target(worlds[k.worldName], k, origin, paste), m[k])])
  {
  }

  /** A key inserted into the original is inserted, moved, into the image. */
  lemma ImageInsert(m: map<SerializableLocation, Material>, t: Transform, o: SerializableLocation,
                    p: SerializableLocation)
    requires p in m
    ensures Image(m, t, o) == Image(m - {p}, t, o)[Move(t, o, p) := m[p]]
  {
    var r, r' := Image(m, t, o), Image(m - {p}, t, o);
    ImageInsertKeys(m, t, o, p);
    forall q | q in r ensures r[q] == r'[Move(t, o, p) := m[p]][q] {
      ImageAt(m, t, o, q);
      if q != Move(t, o, p) {
        ImageAt(m - {p}, t, o, q);
      } else {
        UndoMove(t, o, p);
      }
    }
  }

  /** Removing the keys still to do, one at a time, from a map. */
  /** Removing no keys leaves a map as it was. */
  lemma RemoveNothing(m: map<SerializableLocation, Material>)
    ensures m - {} == m
  {
    assert (m - {}).Keys == m.Keys;
  }

  lemma RemoveOneMore(m: map<SerializableLocation, Material>, todo: set<SerializableLocation>,
                      k: SerializableLocation)
    ensures k in todo ==> (m - (todo - {k})) - {k} == m - todo
  {
    if k in todo {
      assert ((m - (todo - {k})) - {k}).Keys == (m - todo).Keys;
    }
  }

  /** Transforms keep world names, so a single-world map stays single-world. */
  lemma OneWorldImage(m: map<SerializableLocation, Material>, t: Transform, o: SerializableLocation)
    requires OneWorld(m)
    ensures OneWorld(Image(m, t, o))
  {
    forall a, b | a in Image(m, t, o) && b in Image(m, t, o) ensures a.worldName == b.worldName {
      ImageAt(m, t, o, a);
      ImageAt(m, t, o, b);
    }
  }

  /** A duplicate-free listing of a set has as many entries as the set. */
  lemma {:induction false} DistinctSize<T>(s: seq<T>, keys: set<T>)
    requires Distinct(s)
    requires forall k :: k in s <==> k in keys
    ensures |s| == |keys|
    decreases |s|
  {
    if s != [] {
      var init, last := s[..|s| - 1], s[|s| - 1];
      assert s == init + [last];
      assert Distinct(init);
      assert last !in init;
      DistinctSize(init, keys - {last});
    } else {
      assert keys == {};
    }
  }
}
