/** The six faces of a cube map (math/face.rs), their indices and their axis vectors. */
module Faces {
  import opened Wrappers

  datatype CubeFace = PosX | NegX | PosY | NegY | PosZ | NegZ

  /** A 3-vector (`Vec3`). */
  datatype Vec3 = Vec3(x: real, y: real, z: real)

  /** Coordinate `k` (0, 1, 2 for x, y, z). */
  function Coordinate(v: Vec3, k: nat): real
    requires k < 3
  {
    if k == 0 then v.x else if k == 1 then v.y else v.z
  }

  /** `from_index`: panics for an index of 6 or more. */
  function FromIndex(i: nat): (r: Result<CubeFace>)
    ensures r.Ok? <==> i < 6
    ensures r.Panic? ==> r.message == "Invalid cube map face index"
  {
    match i
    case 0 => Ok(PosX)
    case 1 => Ok(NegX)
    case 2 => Ok(PosY)
    case 3 => Ok(NegY)
    case 4 => Ok(PosZ)
    case 5 => Ok(NegZ)
    case _ => Panic("Invalid cube map face index")
  }

  /** `index`. */
  function Index(f: CubeFace): (i: nat)
    ensures i < 6
  {
    match f
    case PosX => 0
    case NegX => 1
    case PosY => 2
    case NegY => 3
    case PosZ => 4
    case NegZ => 5
  }

  /** Every index below 6 names a face whose index it is. */
  lemma FromIndexThenIndex(i: nat)
    requires i < 6
    ensures FromIndex(i).Ok? && Index(FromIndex(i).value) == i
  {
  }

  /** Every face is found again from its index. */
  lemma IndexThenFromIndex(f: CubeFace)
    ensures FromIndex(Index(f)) == Ok(f)
  {
  }

  /** `vector`. */
  function Vector(f: CubeFace): (v: Vec3)
    ensures var axis := Index(f) / 2;
      Coordinate(v, axis) == (if Index(f) % 2 == 0 then 1.0 else -1.0)
      && forall k :: 0 <= k < 3 && k != axis ==> Coordinate(v, k) == 0.0
  {
    match f
    case PosX => Vec3(1.0, 0.0, 0.0)
    case NegX => Vec3(-1.0, 0.0, 0.0)
    case PosY => Vec3(0.0, 1.0, 0.0)
    case NegY => Vec3(0.0, -1.0, 0.0)
    case PosZ => Vec3(0.0, 0.0, 1.0)
    case NegZ => Vec3(0.0, 0.0, -1.0)
  }

  /** Faces 2k and 2k+1 look along opposite directions of the same axis. */
  lemma PairedFacesOpposite(k: nat)
    requires k < 3
    ensures FromIndex(2 * k).Ok? && FromIndex(2 * k + 1).Ok?
    ensures var a := Vector(FromIndex(2 * k).value);
      var b := Vector(FromIndex(2 * k + 1).value);
      b == Vec3(-a.x, -a.y, -a.z)
  {
  }
}
