/**
 * The geometry of rotate and flip: how one block position moves about the origin, how a
 * whole block map is carried along, how an angle becomes a number of quarter turns and how
 * a direction name is recognised.
 *
 * Keys are compared by value. The host map keys by object identity, so a transform that sent
 * two positions to the same place would keep both entries there; every transform below is
 * injective on positions (MoveInjective), so keying by value loses nothing.
 */
module Transforms {
  import opened Failures
  import opened Locations

  /**
   * Turn(k) is the switch on the number of effective rotations (only 1, 2 and 3 move
   * anything; every other value falls to the default branch). MirrorY negates the
   * vertical offset, as flipUp and flipDown do; MirrorX negates the x offset, as
   * flipLeft and flipRight do.
   */
  datatype Transform = Turn(quarters: int) | MirrorY | MirrorX

  /** Where the block at `p` goes: offset from the origin, transformed, offset back. */
  function Move(t: Transform, o: SerializableLocation, p: SerializableLocation): SerializableLocation
  {
    var dx, dy, dz := p.x - o.x, p.y - o.y, p.z - o.z;
    match t
    case Turn(k) =>
      var nx := if k == 1 then -dz else if k == 2 then -dx else if k == 3 then dz else dx;
      var nz := if k == 1 then dx else if k == 2 then -dz else if k == 3 then -dx else dz;
      p.(x := nx + o.x, z := nz + o.z)
    case MirrorY => p.(y := -dy + o.y)
    case MirrorX => p.(x := -dx + o.x)
  }

  /** The transform that undoes `t`. */
  function Undo(t: Transform): Transform
  {
    match t
    case Turn(k) => if k == 1 then Turn(3) else if k == 3 then Turn(1) else t
    case _ => t
  }

  /** Undoing a move returns the block to where it was. */
  lemma UndoMove(t: Transform, o: SerializableLocation, p: SerializableLocation)
    ensures Move(Undo(t), o, Move(t, o, p)) == p
  {
  }

  /** Moving a block that was moved back returns it to where it was. */
  lemma MoveUndo(t: Transform, o: SerializableLocation, q: SerializableLocation)
    ensures Move(t, o, Move(Undo(t), o, q)) == q
  {
  }

  /** No two positions are sent to the same place, so no two entries collide. */
  lemma MoveInjective(t: Transform, o: SerializableLocation)
    ensures forall p, q :: Move(t, o, p) == Move(t, o, q) ==> p == q
  {
    forall p, q | Move(t, o, p) == Move(t, o, q) ensures p == q {
      UndoMove(t, o, p);
      UndoMove(t, o, q);
    }
  }

  /** Every entry of `m` carried to its new position, with its value unchanged. */
  function Image<V>(m: map<SerializableLocation, V>, t: Transform, o: SerializableLocation)
    : map<SerializableLocation, V>
  {
    MoveInjective(t, o);
    map p | p in m :: Move(t, o, p) := m[p]
  }

  /** The image holds a block at `q` exactly when the original holds one where `q` came from. */
  lemma ImageAt<V>(m: map<SerializableLocation, V>, t: Transform, o: SerializableLocation,
                   q: SerializableLocation)
    ensures q in Image(m, t, o) <==> Move(Undo(t), o, q) in m
    ensures q in Image(m, t, o) ==> Image(m, t, o)[q] == m[Move(Undo(t), o, q)]
  {
    if q in Image(m, t, o) {
      var p :| p in m && Move(t, o, p) == q;
      UndoMove(t, o, p);
    }
    if Move(Undo(t), o, q) in m {
      MoveUndo(t, o, q);
    }
  }

  /** Each block of the original reaches its moved position with its value. */
  lemma ImageMoved<V>(m: map<SerializableLocation, V>, t: Transform, o: SerializableLocation,
                      p: SerializableLocation)
    requires p in m
    ensures Move(t, o, p) in Image(m, t, o) && Image(m, t, o)[Move(t, o, p)] == m[p]
  {
    ImageAt(m, t, o, Move(t, o, p));
    UndoMove(t, o, p);
  }

  /** Adding one block to the original adds its moved position to the image. */
  lemma ImageInsertKeys<V>(m: map<SerializableLocation, V>, t: Transform, o: SerializableLocation,
                           p: SerializableLocation)
    requires p in m
    ensures Image(m, t, o).Keys == Image(m - {p}, t, o).Keys + {Move(t, o, p)}
    ensures Move(t, o, p) !in Image(m - {p}, t, o)
  {
    var m' := m - {p};
    UndoMove(t, o, p);
    forall q ensures q in Image(m, t, o) <==> q in Image(m', t, o) || q == Move(t, o, p) {
      ImageAt(m, t, o, q);
      ImageAt(m', t, o, q);
      if Move(Undo(t), o, q) == p {
        MoveUndo(t, o, q);
      }
    }
    ImageAt(m', t, o, Move(t, o, p));
  }

  /** Carrying a map along keeps its number of entries. */
  lemma {:induction false} ImageSize<V>(m: map<SerializableLocation, V>, t: Transform,
                                        o: SerializableLocation)
    ensures |Image(m, t, o)| == |m|
    decreases |m|
  {
    if m != map[] {
      var p :| p in m;
      ImageSize(m - {p}, t, o);
      ImageInsertKeys(m, t, o, p);
      assert m.Keys == (m - {p}).Keys + {p};
    }
  }

  /** Carrying a map along keeps its set of materials. */
  lemma ImageValues<V>(m: map<SerializableLocation, V>, t: Transform, o: SerializableLocation)
    ensures Image(m, t, o).Values == m.Values
  {
    var r := Image(m, t, o);
    forall v | v in m.Values ensures v in r.Values {
      var p :| p in m && m[p] == v;
      ImageMoved(m, t, o, p);
    }
    forall v | v in r.Values ensures v in m.Values {
      var q :| q in r && r[q] == v;
      ImageAt(m, t, o, q);
    }
  }

  /** Carrying a map along two transforms is carrying it along their composite. */
  lemma ImageCompose<V>(m: map<SerializableLocation, V>, t1: Transform, t2: Transform,
                        t3: Transform, o: SerializableLocation)
    requires forall p :: Move(t2, o, Move(t1, o, p)) == Move(t3, o, p)
    ensures Image(Image(m, t1, o), t2, o) == Image(m, t3, o)
  {
    var mid, lhs, rhs := Image(m, t1, o), Image(Image(m, t1, o), t2, o), Image(m, t3, o);
    forall q ensures (q in lhs <==> q in rhs) && (q in lhs ==> lhs[q] == rhs[q]) {
      var p := Move(Undo(t3), o, q);
      MoveUndo(t3, o, q);
      UndoMove(t2, o, Move(t1, o, p));
      UndoMove(t1, o, p);
      ImageAt(mid, t2, o, q);
      ImageAt(m, t1, o, Move(Undo(t2), o, q));
      ImageAt(m, t3, o, q);
    }
  }

  /** A transform that moves nothing leaves the map as it is. */
  lemma ImageIdentity<V>(m: map<SerializableLocation, V>, t: Transform, o: SerializableLocation)
    requires forall p :: Move(t, o, p) == p
    ensures Image(m, t, o) == m
  {
    var r := Image(m, t, o);
    forall q ensures (q in r <==> q in m) && (q in r ==> r[q] == m[q]) {
      MoveUndo(t, o, q);
      ImageAt(m, t, o, q);
    }
  }

  // ---------------------------------------------------------------- rotate

  /** Java's `a % 360`: the remainder has the sign of the dividend. */
  function JavaRemainder360(a: int): (r: int)
    ensures -360 < r < 360
    ensures 0 <= a ==> 0 <= r
    ensures a < 0 ==> r <= 0
    ensures (a - r) % 360 == 0
  {
    if a >= 0 then a % 360 else -((-a) % 360)
  }

  /** `((angle % 360) + 360) % 360`: the angle brought into [0, 360). */
  function NormalizeAngle(angle: int): (r: int)
    ensures 0 <= r < 360
    ensures r == angle % 360
  {
    JavaRemainder360(JavaRemainder360(angle) + 360)
  }

  /** `Math.round(angle / 90.0)`: the nearest number of quarter turns, halves rounded up. */
  function RoundQuarters(angle: int): (r: int)
    ensures 180 * r <= 2 * angle + 90 < 180 * (r + 1)
  {
    (2 * angle + 90) / 180
  }

  /**
   * The number of effective rotations: the normalised angle rounded to a multiple of 90,
   * divided by 90. It is 4, not 0, for angles within 45 degrees below a full turn.
   */
  function EffectiveRotations(angle: int): (k: int)
    ensures 0 <= k <= 4
    ensures k == 0 <==> angle % 360 < 45
    ensures k == 1 <==> 45 <= angle % 360 < 135
    ensures k == 2 <==> 135 <= angle % 360 < 225
    ensures k == 3 <==> 225 <= angle % 360 < 315
    ensures k == 4 <==> 315 <= angle % 360
  {
    var roundedAngle := RoundQuarters(NormalizeAngle(angle)) * 90;
    roundedAngle / 90
  }

  /** The block map after rotate(angle) about the origin `o`. */
  function Rotated<V>(m: map<SerializableLocation, V>, o: SerializableLocation, angle: int)
    : map<SerializableLocation, V>
  {
    Image(m, Turn(EffectiveRotations(angle)), o)
  }

  /**
   * Rotation keeps the height and turns the horizontal offset from the origin:
   * 90 degrees sends (dx, dz) to (-dz, dx), 180 to (-dx, -dz), 270 to (dz, -dx); the block
   * keeps its material, and the number of blocks and the set of materials are kept.
   */
  lemma RotatedEntries<V>(m: map<SerializableLocation, V>, o: SerializableLocation, angle: int)
    ensures |Rotated(m, o, angle)| == |m| && Rotated(m, o, angle).Values == m.Values
    ensures forall p :: p in m ==>
      var dx, dz := p.x - o.x, p.z - o.z;
      var k := EffectiveRotations(angle);
      var q := if k == 1 then p.(x := o.x - dz, z := o.z + dx)
               else if k == 2 then p.(x := o.x - dx, z := o.z - dz)
               else if k == 3 then p.(x := o.x + dz, z := o.z - dx)
               else p;
      q in Rotated(m, o, angle) && Rotated(m, o, angle)[q] == m[p]
  {
    ImageSize(m, Turn(EffectiveRotations(angle)), o);
    ImageValues(m, Turn(EffectiveRotations(angle)), o);
    forall p | p in m { ImageMoved(m, Turn(EffectiveRotations(angle)), o, p); }
  }

  /** Angles with the same remainder modulo a full turn give the same number of rotations. */
  lemma EffectiveRotationsModulo(a: int, b: int)
    requires a % 360 == b % 360
    ensures EffectiveRotations(a) == EffectiveRotations(b)
  {
    var ka, kb := EffectiveRotations(a), EffectiveRotations(b);
    assert 0 <= ka <= 4 && 0 <= kb <= 4;
  }

  /** Angles that differ by whole turns rotate alike; -90 is 270 and 360 is no rotation. */
  lemma RotatedModulo<V>(m: map<SerializableLocation, V>, o: SerializableLocation, angle: int)
    ensures Rotated(m, o, angle) == Rotated(m, o, angle % 360)
    ensures Rotated(m, o, -90) == Rotated(m, o, 270)
    ensures Rotated(m, o, 360) == m
  {
    EffectiveRotationsModulo(angle, angle % 360);
    EffectiveRotationsModulo(-90, 270);
    assert EffectiveRotations(360) == 0;
    ImageIdentity(m, Turn(0), o);
  }

  /** Angles from 315 up to a full turn reach the default branch: nothing moves. */
  lemma RotatedNearFullTurn<V>(m: map<SerializableLocation, V>, o: SerializableLocation, angle: int)
    requires 315 <= angle % 360
    ensures Rotated(m, o, angle) == m
  {
    ImageIdentity(m, Turn(EffectiveRotations(angle)), o);
  }

  /** Two quarter turns are a half turn, either way round. */
  lemma RotatedTwice<V>(m: map<SerializableLocation, V>, o: SerializableLocation)
    ensures Rotated(Rotated(m, o, 90), o, 90) == Rotated(m, o, 180)
    ensures Rotated(m, o, 180) == Rotated(m, o, -180)
  {
    assert EffectiveRotations(90) == 1 && EffectiveRotations(180) == 2;
    assert EffectiveRotations(-180) == 2;
    ImageCompose(m, Turn(1), Turn(1), Turn(2), o);
  }

  /** Four quarter turns bring every block back where it was. */
  lemma RotatedFourTimes<V>(m: map<SerializableLocation, V>, o: SerializableLocation)
    ensures Rotated(Rotated(Rotated(Rotated(m, o, 90), o, 90), o, 90), o, 90) == m
  {
    RotatedTwice(m, o);
    RotatedTwice(Rotated(m, o, 180), o);
    assert EffectiveRotations(180) == 2;
    ImageCompose(m, Turn(2), Turn(2), Turn(0), o);
    ImageIdentity(m, Turn(0), o);
  }

  // ---------------------------------------------------------------- flip

  /** The four direction names flip accepts. */
  datatype Direction = Up | Down | Left | Right

  /** The lower-case form of an ASCII letter; every other character is kept. */
  function LowerChar(c: char): char
  {
    if 'A' <= c <= 'Z' then (c as int - 'A' as int + 'a' as int) as char else c
  }

  /**
   * ASCII lower-casing: no upper-case letter is left, every other character is kept, and an
   * upper-case letter becomes the letter 32 code points above it.
   */
  function Lower(s: string): (r: string)
    ensures |r| == |s|
    ensures forall i :: 0 <= i < |r| ==> !('A' <= r[i] <= 'Z')
    ensures forall i :: 0 <= i < |s| && !('A' <= s[i] <= 'Z') ==> r[i] == s[i]
    ensures forall i :: 0 <= i < |s| && 'A' <= s[i] <= 'Z' ==> r[i] as int == s[i] as int + 32
  {
    seq(|s|, i requires 0 <= i < |s| => LowerChar(s[i]))
  }

  /** The switch on `direction.toLowerCase()`; any other name is an invalid direction. */
  function ParseDirection(direction: string): (r: Result<Direction>)
    ensures r.Fail? <==> Lower(direction) !in {"up", "down", "left", "right"}
    ensures r.Fail? ==> r.error == InvalidFlipDirection(direction)
    ensures r == Ok(Up) <==> Lower(direction) == "up"
    ensures r == Ok(Down) <==> Lower(direction) == "down"
    ensures r == Ok(Left) <==> Lower(direction) == "left"
    ensures r == Ok(Right) <==> Lower(direction) == "right"
  {
    match Lower(direction)
    case "up" => Ok(Up)
    case "down" => Ok(Down)
    case "left" => Ok(Left)
    case "right" => Ok(Right)
    case _ => Fail(InvalidFlipDirection(direction))
  }

  /** The direction is recognised whatever the case of its letters. */
  lemma ParseDirectionIgnoresCase(a: string, b: string)
    requires Lower(a) == Lower(b)
    ensures ParseDirection(a).Ok? <==> ParseDirection(b).Ok?
    ensures ParseDirection(a).Ok? ==> ParseDirection(a) == ParseDirection(b)
  {
  }

  /** The four names flip accepts, in lower case and in upper case. */
  lemma ParseDirectionNames()
    ensures ParseDirection("up") == Ok(Up) && ParseDirection("down") == Ok(Down)
    ensures ParseDirection("left") == Ok(Left) && ParseDirection("right") == Ok(Right)
    ensures ParseDirection("UP") == Ok(Up) && ParseDirection("DOWN") == Ok(Down)
    ensures ParseDirection("LEFT") == Ok(Left) && ParseDirection("RIGHT") == Ok(Right)
  {
    assert Lower("up") == "up" && Lower("down") == "down";
    assert Lower("left") == "left" && Lower("right") == "right";
    assert Lower("UP") == "up" && Lower("DOWN") == "down";
    assert Lower("LEFT") == "left" && Lower("RIGHT") == "right";
  }

  /** Up and down both negate the vertical offset; left and right both negate the x offset. */
  function Mirror(d: Direction): Transform
  {
    if d == Up || d == Down then MirrorY else MirrorX
  }

  /** The block map after flipping in direction `d` about the origin `o`. */
  function Flipped<V>(m: map<SerializableLocation, V>, o: SerializableLocation, d: Direction)
    : map<SerializableLocation, V>
  {
    Image(m, Mirror(d), o)
  }

  /**
   * Up and down negate only the vertical offset from the origin, left and right only the
   * x offset; every other field, the material, the number of blocks and the set of
   * materials are kept.
   */
  lemma FlippedEntries<V>(m: map<SerializableLocation, V>, o: SerializableLocation, d: Direction)
    ensures |Flipped(m, o, d)| == |m| && Flipped(m, o, d).Values == m.Values
    ensures forall p :: p in m ==>
      var q := if d == Up || d == Down then p.(y := o.y - (p.y - o.y))
               else p.(x := o.x - (p.x - o.x));
      q in Flipped(m, o, d) && Flipped(m, o, d)[q] == m[p]
  {
    ImageSize(m, Mirror(d), o);
    ImageValues(m, Mirror(d), o);
    forall p | p in m { ImageMoved(m, Mirror(d), o, p); }
  }

  /** Flipping twice in the same direction gives the map back. */
  lemma FlippedTwice<V>(m: map<SerializableLocation, V>, o: SerializableLocation, d: Direction)
    ensures Flipped(Flipped(m, o, d), o, d) == m
  {
    ImageCompose(m, Mirror(d), Mirror(d), Turn(0), o);
    ImageIdentity(m, Turn(0), o);
  }
}
