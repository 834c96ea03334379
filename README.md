# Tachyon schematics in Dafny

Tachyon is a Minecraft server plugin library for copying a region of a world into a
*schematic* and pasting it elsewhere. A schematic is a map from block position to material,
together with an *origin* that every transform and every paste is taken relative to. This
project models the schematic class and the serialisable location it keys its blocks by, and
proves what each operation does to the blocks.

The modules follow the source:

- `Failures` (failures.dfy): the two exceptions the core throws, as values. They are
  "World not found" from `toLocation` and "Invalid flip direction" from `flip`.
- `Locations` (locations.dfy): `SerializableLocation`, its copying constructor
  (`FromLocation`) and `toLocation` (`ToLocation`). The host's world lookup is a map from
  world name to world.
- `Envelope` (envelope.dfy): the closed box between two corners and the order copyBlocks
  lists its points in (x outermost, then y, then z). It holds the three nested loops
  (`AppendRow`, `AppendSlab`, `Coordinates`), each proved against a recursive
  specification function.
- `Transforms` (transforms.dfy): the geometry shared by rotate and the four flips. `Move`
  carries one position about the origin and `Image` carries a whole block map. This module
  also holds the angle arithmetic of rotate and the direction switch of flip.
- `Schematics` (schematic.dfy): the `Schematic` class with its two mutable fields `blocks`
  and `origin`.
  - The private constructor that runs copyBlocks (`Capture`) and `create` (`Create`).
  - rotate, flip and the four flips, all built on one shared rebuilding loop (`Relocate`).
  - replaceBlocks, which rewrites entries in place.
  - pasteSync, which returns the block writes it issues.
  - getBlockCount (`BlockCount`) and getFileExtension (`FileExtension`).

The host is reached only through parameters:

- `terrain` is the material a loaded world has at a block.
- `worlds` resolves a world name (Bukkit's world lookup).
- pasteSync returns its block writes, in order, where the source calls `BlockChanger`.

rotate, flip and pasteSync resolve the origin first, then every key they visit. A name that
does not resolve raises "World not found".

- rotate and flip fill a fresh map and assign it to `blocks` only at the end, so a failure
  leaves the blocks as they were.
- Every key of a schematic comes from the one world of the capture (`Schematic.Valid`). So
  when pasteSync fails on a key, it fails before it has written anything.

The source's map keys by object identity: `SerializableLocation` has no `equals`. The model
keys by value. Every transform is injective on positions (`Transforms.MoveInjective`), and
capture lists each point once, so no two entries ever meet at one key.

Capture never fails in the code. It takes the world object from `start` and never resolves a
name. The model follows the code.

## Model

| member | source | states |
|---|---|---|
| Locations.FromLocation | src/main/java/me/athish/tachyon/serialization/SerializableLocation.java:18-25 | the copy has the location's world name, x, y, z, yaw and pitch, unchanged |
| Locations.ToLocation | src/main/java/me/athish/tachyon/serialization/SerializableLocation.java:27-33 | fails exactly when the stored world name is not loaded, with "World not found" for that name; otherwise the location has the registered world and exactly the stored x, y, z, yaw and pitch |
| Locations.RoundTrip | src/main/java/me/athish/tachyon/serialization/SerializableLocation.java:18-32 | copying a location whose world is registered under its name and resolving it again gives the same location |
| Locations.RoundTripStored | src/main/java/me/athish/tachyon/serialization/SerializableLocation.java:18-32 | resolving a stored location and copying the result gives the stored value back, when the registry names the world by its name |
| Envelope.Min | src/main/java/me/athish/tachyon/Schematic.java:72-74 | on each axis the min corner is one of the two coordinates and no larger than either |
| Envelope.Max | src/main/java/me/athish/tachyon/Schematic.java:75-77 | on each axis the max corner is one of the two coordinates and no smaller than either |
| Envelope.AppendRow | src/main/java/me/athish/tachyon/Schematic.java:85-87 | the innermost loop appends exactly the row (x, y, lz..hz), in ascending z |
| Envelope.AppendSlab | src/main/java/me/athish/tachyon/Schematic.java:84-88 | the middle loop appends exactly the rows for y = ly..hy, in ascending y |
| Envelope.Coordinates | src/main/java/me/athish/tachyon/Schematic.java:81-89 | the nested loops list exactly the box enumeration from the min corner to the max corner |
| Envelope.BoxLength | src/main/java/me/athish/tachyon/Schematic.java:83-89 | the enumeration has (hi.x-lo.x+1)(hi.y-lo.y+1)(hi.z-lo.z+1) entries |
| Envelope.BoxContents | src/main/java/me/athish/tachyon/Schematic.java:83-89 | a point is listed exactly when it lies in the closed box, and no point is listed twice |
| Envelope.EnvelopeFacts | src/main/java/me/athish/tachyon/Schematic.java:72-89 | for two corners, the listing of their min/max envelope has (\|dx\|+1)(\|dy\|+1)(\|dz\|+1) entries, holds exactly the points of the envelope and repeats none |
| Envelope.EnvelopeSymmetric | src/main/java/me/athish/tachyon/Schematic.java:72-77 | swapping the two corners gives the same min, max and listing |
| Schematics.CaptureMapFacts | src/main/java/me/athish/tachyon/Schematic.java:92-95 | inserting distinct points gives one entry per point; the key is the point in the capture world with yaw and pitch 0, and the value is the world's material there |
| Schematics.ReadBlocks | src/main/java/me/athish/tachyon/Schematic.java:92-95 | the insertion loop over the listed points builds exactly the capture map of those points |
| Schematics.CapturedSize | src/main/java/me/athish/tachyon/Schematic.java:70-96 | a capture holds (\|dx\|+1)(\|dy\|+1)(\|dz\|+1) blocks |
| Schematics.CapturedContents | src/main/java/me/athish/tachyon/Schematic.java:70-96 | a key is captured exactly when it names start's world, has yaw and pitch 0 and lies in the envelope of the corners; its value is the world's material there |
| Schematics.CapturedSymmetric | src/main/java/me/athish/tachyon/Schematic.java:70-96 | for corners in one world, passing them the other way round captures the same blocks |
| Schematics.Schematic.Capture | src/main/java/me/athish/tachyon/Schematic.java:70-96 | the new schematic holds exactly the captured blocks, (\|dx\|+1)(\|dy\|+1)(\|dz\|+1) of them, all from one world; its origin is the copy of the given origin |
| Schematics.Schematic.Create | src/main/java/me/athish/tachyon/Schematic.java:188-190 | a fresh schematic holding the captured blocks and the given origin |
| Transforms.MoveInjective | src/main/java/me/athish/tachyon/Schematic.java:252-284 | no transform sends two positions to the same place, so no two blocks collide in the new map |
| Transforms.ImageAt | src/main/java/me/athish/tachyon/Schematic.java:318-330 | the rebuilt map holds a block at q exactly when the old one holds one at the undone position of q, with the same material |
| Transforms.ImageSize | src/main/java/me/athish/tachyon/Schematic.java:318-330 | the rebuilt map has as many blocks as the old one |
| Transforms.ImageValues | src/main/java/me/athish/tachyon/Schematic.java:318-330 | the rebuilt map has the same set of materials |
| Transforms.ImageCompose | src/main/java/me/athish/tachyon/Schematic.java:252-284 | rebuilding along two transforms equals rebuilding along their composite |
| Transforms.ImageIdentity | src/main/java/me/athish/tachyon/Schematic.java:273-274 | a transform that moves no position leaves the map as it is |
| Transforms.JavaRemainder360 | src/main/java/me/athish/tachyon/Schematic.java:244 | Java's `% 360`: the remainder lies strictly between -360 and 360, has the dividend's sign and differs from it by a multiple of 360 |
| Transforms.NormalizeAngle | src/main/java/me/athish/tachyon/Schematic.java:244 | the normalised angle lies in [0, 360) and equals the Euclidean remainder of the angle by 360 |
| Transforms.RoundQuarters | src/main/java/me/athish/tachyon/Schematic.java:247 | the rounded count r of quarter turns satisfies 90r - 45 <= angle < 90r + 45 (halves round up) |
| Transforms.EffectiveRotations | src/main/java/me/athish/tachyon/Schematic.java:244-250 | the effective rotation count is in 0..4; it is 0, 1, 2, 3 or 4 exactly when the angle modulo 360 is below 45, in [45, 135), [135, 225), [225, 315) or at least 315 |
| Transforms.EffectiveRotationsModulo | src/main/java/me/athish/tachyon/Schematic.java:244-250 | angles congruent modulo 360 give the same rotation count |
| Transforms.RotatedEntries | src/main/java/me/athish/tachyon/Schematic.java:252-284 | rotation keeps the height and maps (dx, dz) to (-dz, dx), (-dx, -dz) or (dz, -dx) for 1, 2 or 3 rotations and fixes every block otherwise; it keeps each material, the block count and the set of materials |
| Transforms.RotatedModulo | src/main/java/me/athish/tachyon/Schematic.java:244-250 | an angle rotates like its remainder modulo 360; -90 rotates like 270, and 360 moves nothing |
| Transforms.RotatedNearFullTurn | src/main/java/me/athish/tachyon/Schematic.java:260-275 | angles from 315 up to a full turn fall to the default branch and move nothing |
| Transforms.RotatedTwice | src/main/java/me/athish/tachyon/Schematic.java:252-284 | two 90° rotations equal one 180° rotation, and 180 equals -180 |
| Transforms.RotatedFourTimes | src/main/java/me/athish/tachyon/Schematic.java:252-284 | four 90° rotations give the blocks back |
| Transforms.Lower | src/main/java/me/athish/tachyon/Schematic.java:293 | ASCII lower-casing keeps the length, leaves no upper-case letter, keeps every other character and moves each upper-case letter to its lower-case form |
| Transforms.ParseDirection | src/main/java/me/athish/tachyon/Schematic.java:292-308 | the direction is Up, Down, Left or Right exactly when its lower-cased name is "up", "down", "left" or "right"; any other name fails with "Invalid flip direction" naming the original string |
| Transforms.ParseDirectionNames | src/main/java/me/athish/tachyon/Schematic.java:293-305 | "up", "down", "left" and "right", and their upper-case spellings, select Up, Down, Left and Right |
| Transforms.ParseDirectionIgnoresCase | src/main/java/me/athish/tachyon/Schematic.java:293-305 | two names that agree after lower-casing are accepted or rejected together, as the same direction |
| Transforms.FlippedEntries | src/main/java/me/athish/tachyon/Schematic.java:314-397 | up and down negate only the vertical offset from the origin, left and right only the x offset; each material, the block count and the set of materials are kept |
| Transforms.FlippedTwice | src/main/java/me/athish/tachyon/Schematic.java:314-397 | flipping twice in the same direction gives the blocks back |
| Schematics.Schematic.Relocate | src/main/java/me/athish/tachyon/Schematic.java:315-330 | the shared rebuilding loop fails exactly when the origin's world or some block's world is not loaded, with "World not found" naming it, and then leaves the blocks unchanged; otherwise the blocks become their image; the origin is never touched and the blocks stay in one world |
| Schematics.Schematic.Rotate | src/main/java/me/athish/tachyon/Schematic.java:239-285 | fails exactly when some world does not resolve, leaving the blocks; the failure is "World not found" naming the origin's world when that is missing, else a missing world of some block; otherwise the blocks become the rotation by the angle; origin and block count are kept |
| Schematics.Schematic.Flip | src/main/java/me/athish/tachyon/Schematic.java:292-309 | an unknown direction fails with "Invalid flip direction" and leaves the blocks; a known one fails exactly when some world does not resolve, with "World not found" naming the origin's world when that is missing and else a missing world of some block, and otherwise flips the blocks in that direction; origin and block count are kept |
| Schematics.Schematic.FlipUp | src/main/java/me/athish/tachyon/Schematic.java:314-331 | the blocks become their flip with the vertical offset negated, unless a world does not resolve; then they stay as they were and the failure is "World not found" naming the origin's world when that is missing, else a missing world of some block |
| Schematics.Schematic.FlipDown | src/main/java/me/athish/tachyon/Schematic.java:336-353 | the blocks become their flip with the vertical offset negated, unless a world does not resolve; then they stay as they were and the failure is "World not found" naming the origin's world when that is missing, else a missing world of some block |
| Schematics.Schematic.FlipLeft | src/main/java/me/athish/tachyon/Schematic.java:358-375 | the blocks become their flip with the x offset negated, unless a world does not resolve; then they stay as they were and the failure is "World not found" naming the origin's world when that is missing, else a missing world of some block |
| Schematics.Schematic.FlipRight | src/main/java/me/athish/tachyon/Schematic.java:380-397 | the blocks become their flip with the x offset negated, unless a world does not resolve; then they stay as they were and the failure is "World not found" naming the origin's world when that is missing, else a missing world of some block |
| Schematics.ReplacedFacts | src/main/java/me/athish/tachyon/Schematic.java:405-411 | replacement keeps every key; `from` entries become `to` and all others are unchanged; afterwards no entry is `from` unless `from` is `to`; replacing twice is replacing once |
| Schematics.Schematic.ReplaceBlocks | src/main/java/me/athish/tachyon/Schematic.java:405-411 | the in-place loop leaves exactly the replaced map, with the same keys and origin |
| Schematics.PasteKeys | src/main/java/me/athish/tachyon/Schematic.java:106-107 | the pasted keys are keys of the map; all of them when AIR is not skipped; none of them AIR when it is; and every key that is not AIR is pasted |
| Schematics.Schematic.BlockCount | src/main/java/me/athish/tachyon/Schematic.java:418-420 | the block count is the map's size when that fits a Java `int`, and saturates at 2^31-1 otherwise (as the map's `size` does); it never exceeds the size |
| Schematics.FileExtension | src/main/java/me/athish/tachyon/Schematic.java:427-429 | the schematic file suffix (the constant returned is declared at Schematic.java:26) is a single dot followed by a dot-free name (".tachyon") |
| Schematics.Schematic.PasteSync | src/main/java/me/athish/tachyon/Schematic.java:104-114 | fails exactly when the origin's world or the world of a pasted key is not loaded, with "World not found" naming it and writing nothing; otherwise it writes every pasted key exactly once, at key - origin + paste location in the resolved world, with the key's material; the number of writes is the number of pasted keys; when AIR is not skipped it is the number of blocks, which is getBlockCount whenever that fits an `int` |

## Left out

- Saving and loading (`save`, `load`, `saveAsync`, `create(File)`, `createAsync(File)`, the file-loading constructor and SchematicSerializer.java) are not part of this model. They delegate to the Kryo serialisation library.
- `pasteAsync` and `createAsync` are not modelled separately. They run the same loop as `pasteSync` and the constructor on another thread.
- The `parallelStream` loops of copyBlocks, rotate, the flips and replaceBlocks are modelled as sequential loops. The order in which pasteSync visits the keys is not specified: the writes are a real result, and the order of keys they follow is a ghost result.
- Coordinates, yaw, pitch and the rotation angle are whole numbers. The host uses doubles and floats; captured positions are integral, but a fractional origin or angle is not modelled.
- Bukkit's `Location.subtract` and `add` throw when the two locations are in different worlds. This affects rotate and flip with the origin in another world than the blocks, and pastes into another world. That host check is not modelled: these operations go through with the offsets.
- `toLowerCase` is modelled as lower-casing ASCII letters; locale rules are not modelled.
- The world registry is assumed to resolve a name to a world of that name (`Locations.RoundTrip` requires it); a plugin that registers a different world under a name is not modelled.
- Map keys are compared by value, not by object identity (see above).
- The no-argument constructor of `SerializableLocation` exists only for Kryo and is not modelled.
- Coordinates are unbounded integers, not 32-bit Java `int`s. The capture loops of copyBlocks count with `int`, so a corner at 2^31-1 would make `x++` wrap around and the loop never end; the model's loops always stop.
- `BlockChanger` is not part of this model: its writes are the returned list, in issue order.
- ExamplePlugin.java and Tachyon.java, the command front end, are not part of this model.
