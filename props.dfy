// Props: board scenery placed with fine (1/256 tile) offsets, clamped fine
// elevation, a six-byte serialised suffix and the legacy prop-type rewrite.

module Props {
  import opened JavaValues

  /** Fine coordinates divide a tile into this many units. */
  const FINE_UNITS: int := 256

  /** The configuration of a prop type (the parts of PropConfig used here). */
  datatype PropConfig = PropConfig(propType: string, scenario: Option<string>)

  /** The six fine fields, in the order Prop serialises them. */
  datatype FineFields = FineFields(fx: Byte, fy: Byte, forient: Byte, felev: Byte, pitch: Byte, roll: Byte)

  /** The bytes `persistTo` writes after the piece's own fields. */
  function Encode(f: FineFields): (bytes: seq<Byte>)
    ensures |bytes| == 6
  {
    [f.fx, f.fy, f.forient, f.felev, f.pitch, f.roll]
  }

  /** The six fields `unpersistFrom` reads at `pos`, when they are present. */
  function Decode(bytes: seq<Byte>, pos: nat): (f: Option<FineFields>)
    ensures f.Some? <==> pos + 6 <= |bytes|
  {
    if pos + 6 <= |bytes| then
      Some(FineFields(bytes[pos], bytes[pos + 1], bytes[pos + 2], bytes[pos + 3], bytes[pos + 4], bytes[pos + 5]))
    else
      None
  }

  /** Reading back what was written restores all six fields, whatever precedes
      and follows them in the stream. */
  lemma DecodeEncode(prefix: seq<Byte>, f: FineFields, suffix: seq<Byte>)
    ensures Decode(prefix + Encode(f) + suffix, |prefix|) == Some(f)
  {
    var s := prefix + Encode(f) + suffix;
    assert s[|prefix|..|prefix| + 6] == Encode(f);
  }

  /** Decoding then re-encoding gives back the bytes read. */
  lemma EncodeDecode(bytes: seq<Byte>, pos: nat)
    requires pos + 6 <= |bytes|
    ensures Decode(bytes, pos).Some? && Encode(Decode(bytes, pos).value) == bytes[pos..pos + 6]
  {
  }

  /** The tile of a fine coordinate: Java's truncating `p / 256`. */
  function FineTile(p: int): (t: int)
    ensures p >= 0 ==> t == p / FINE_UNITS
    ensures Abs(FINE_UNITS * t) <= Abs(p) < Abs(FINE_UNITS * t) + FINE_UNITS
  {
    JavaDiv(p, FINE_UNITS)
  }

  /** The fine offset of a fine coordinate: `(byte)((p % 256) - 128)`. */
  function FineOffset(p: int): (o: Byte)
    ensures p >= 0 ==> o == p % FINE_UNITS - 128
  {
    ToByte(JavaRem(p, FINE_UNITS) - 128)
  }

  /** For non-negative fine coordinates the (tile, offset) split is lossless. */
  lemma FineSplit(p: int)
    requires p >= 0
    ensures FINE_UNITS * FineTile(p) + FineOffset(p) + 128 == p
    ensures FineTile(p) == p / FINE_UNITS
  {
    assert JavaDiv(p, FINE_UNITS) == p / FINE_UNITS;
    assert JavaRem(p, FINE_UNITS) == p % FINE_UNITS;
  }

  /** For a negative fine coordinate the truncating remainder wraps the byte:
      fine coordinate -1 lands on tile 0 with offset 127, which stands for 255. */
  lemma NegativeFineWraps()
    ensures FineTile(-1) == 0 && FineOffset(-1) == 127
    ensures FINE_UNITS * FineTile(-1) + FineOffset(-1) + 128 == 255
  {
    assert JavaDiv(-1, FINE_UNITS) == 0;
  }

  predicate StartsWith(s: string, prefix: string)
  {
    |prefix| <= |s| && s[..|prefix|] == prefix
  }

  /** The legacy rewrite of `getProp`: old building types move under
      `buildings/frontier_town/`. */
  function LegacyType(t: string): string
  {
    if StartsWith(t, "buildings/") && !StartsWith(t, "buildings/frontier")
       && !StartsWith(t, "buildings/indian")
    then t[..10] + "frontier_town/" + t[10..]
    else t
  }

  /** A rewritten type names the frontier town directory, and dropping that
      directory gives back the original; every other type is left alone. */
  lemma LegacyTypeRewrite(t: string)
    ensures var r := LegacyType(t);
      if StartsWith(t, "buildings/") && !StartsWith(t, "buildings/frontier") && !StartsWith(t, "buildings/indian")
      then StartsWith(r, "buildings/frontier_town/") && r[..10] + r[24..] == t
      else r == t
  {
    if StartsWith(t, "buildings/") && !StartsWith(t, "buildings/frontier") && !StartsWith(t, "buildings/indian") {
      var r := LegacyType(t);
      assert r[..24] == "buildings/frontier_town/";
      assert r[..10] == t[..10] && r[24..] == t[10..];
      assert t == t[..10] + t[10..];
    }
  }

  /** Rewriting is idempotent: a rewritten type is not rewritten again. */
  lemma {:induction false} LegacyTypeIdempotent(t: string)
    ensures LegacyType(LegacyType(t)) == LegacyType(t)
  {
    LegacyTypeRewrite(t);
    var r := LegacyType(t);
    if r != t {
      assert r[..18] == "buildings/frontier";
    }
  }

  class Prop {
    var x: int
    var y: int
    var fx: Byte
    var fy: Byte
    var forient: Byte
    var felev: Byte
    var pitch: Byte
    var roll: Byte
    var config: PropConfig

    /** A prop configured by `init(config)`, every fine field zero. */
    constructor (config: PropConfig)
      ensures this.config == config && x == 0 && y == 0
      ensures Fine() == FineFields(0, 0, 0, 0, 0, 0)
    {
      this.config := config;
      x, y := 0, 0;
      fx, fy, forient, felev, pitch, roll := 0, 0, 0, 0, 0, 0;
    }

    function Fine(): FineFields
      reads this
    {
      FineFields(fx, fy, forient, felev, pitch, roll)
    }

    /** `updatePosition`: moving to a new tile drops the fine x, y and elevation. */
    method UpdatePosition(nx: int, ny: int)
      modifies this
      ensures x == nx && y == ny && config == old(config)
      ensures Fine() == old(Fine()).(fx := 0, fy := 0, felev := 0)
    {
      x, y := nx, ny;
      fx, fy, felev := 0, 0, 0;
    }

    /** `positionFine`: the tile is the truncated quotient by 256 and the
        offset the remainder less 128, narrowed to a byte. */
    method PositionFine(px: int, py: int)
      modifies this
      ensures x == FineTile(px) && y == FineTile(py)
      ensures fx == FineOffset(px) && fy == FineOffset(py)
      ensures felev == 0 && forient == old(forient) && pitch == old(pitch) && roll == old(roll)
      ensures config == old(config)
      ensures px >= 0 ==> FINE_UNITS * x + fx + 128 == px
      ensures py >= 0 ==> FINE_UNITS * y + fy + 128 == py
    {
      // Piece.position moves the piece through updatePosition.
      UpdatePosition(JavaDiv(px, FINE_UNITS), JavaDiv(py, FINE_UNITS));
      fx := ToByte(JavaRem(px, FINE_UNITS) - 128);
      fy := ToByte(JavaRem(py, FINE_UNITS) - 128);
      if px >= 0 { FineSplit(px); }
      if py >= 0 { FineSplit(py); }
    }

    /** `elevate`: the Java int sum, clamped into a byte. */
    method Elevate(amount: Int32)
      modifies this`felev
      ensures felev == ClampByte(Wrap32(old(felev) + amount))
      ensures INT_MIN <= old(felev) + amount <= INT_MAX ==> felev == ClampByte(old(felev) + amount)
    {
      felev := ClampByte(Wrap32(felev + amount));
    }

    /** `rotate`: a quarter turn discards the fine orientation, pitch and roll. */
    method Rotate(direction: int) returns (rotated: bool)
      modifies this`forient, this`pitch, this`roll
      ensures rotated
      ensures Fine() == old(Fine()).(forient := 0, pitch := 0, roll := 0)
    {
      forient, pitch, roll := 0, 0, 0;
      rotated := true;
    }

    /** `persistTo`: the six fine fields follow what the piece itself wrote. */
    method PersistTo(out: seq<Byte>) returns (written: seq<Byte>)
      ensures written == out + Encode(Fine())
      ensures Decode(written, |out|) == Some(Fine())
    {
      written := out;
      written := written + [fx];
      written := written + [fy];
      written := written + [forient];
      written := written + [felev];
      written := written + [pitch];
      written := written + [roll];
      DecodeEncode(out, Fine(), []);
      assert out + Encode(Fine()) + [] == written;
    }

    /**
     * `unpersistFrom`: reads the six fields in the order they were written.
     * A stream that ends early raises after the fields already read have
     * been assigned.
     */
    method UnpersistFrom(input: seq<Byte>, pos: nat) returns (next: Option<nat>)
      requires pos <= |input|
      modifies this`fx, this`fy, this`forient, this`felev, this`pitch, this`roll
      ensures next.Some? <==> pos + 6 <= |input|
      ensures next.Some? ==> next.value == pos + 6 && Decode(input, pos) == Some(Fine())
      ensures next.None? ==> Encode(Fine()) == input[pos..] + Encode(old(Fine()))[|input| - pos..]
    {
      if pos == |input| { return None; }
      fx := input[pos];
      if pos + 1 == |input| { return None; }
      fy := input[pos + 1];
      if pos + 2 == |input| { return None; }
      forient := input[pos + 2];
      if pos + 3 == |input| { return None; }
      felev := input[pos + 3];
      if pos + 4 == |input| { return None; }
      pitch := input[pos + 4];
      if pos + 5 == |input| { return None; }
      roll := input[pos + 5];
      next := Some(pos + 6);
    }

    /** `isValidScenario`: a prop tied to a scenario appears only there and in
        the tutorial; an untied prop appears everywhere. */
    predicate IsValidScenario(scenarioId: string, tutorialId: string)
      reads this
    {
      config.scenario.None? || scenarioId == tutorialId || config.scenario == Some(scenarioId)
    }
  }

  /** A tied prop is valid in exactly two scenarios: its own and the tutorial. */
  lemma ValidScenarios(p: Prop, tutorialId: string, s: string)
    requires p.config.scenario.Some?
    ensures p.IsValidScenario(s, tutorialId) <==> s in {p.config.scenario.value, tutorialId}
  {
  }

  /**
   * `getProp`: looks the (rewritten) type up among the known configurations;
   * an unknown type yields no prop. The reflective subclass instantiation is
   * not part of this model.
   */
  method GetProp(configs: map<string, PropConfig>, t: string) returns (p: Prop?)
    ensures p == null <==> LegacyType(t) !in configs
    ensures p != null ==> fresh(p) && p.config == configs[LegacyType(t)] && p.Fine() == FineFields(0, 0, 0, 0, 0, 0)
  {
    var ty := LegacyType(t);
    if ty !in configs {
      return null;
    }
    p := new Prop(configs[ty]);
  }
}
