/*
 * The interchange type between the geometry producers (boundary features)
 * and the simulation controller: three parallel sequences plus two
 * bookkeeping counts.  A Dafny datatype is a value, so the defaulted copy
 * and move operations of the C++ struct are simply value copies here.
 */
module ElementPackets {

  datatype Option<T> = None | Some(value: T)

  /** Positions (interleaved x,y), segment index pairs, one value per element,
      and the two counts `nelem` and `ndim`. */
  datatype Packet = Packet(x: seq<real>, idx: seq<int>, val: seq<real>, nelem: nat, ndim: nat)

  /** One node of a packet's interleaved position sequence. */
  datatype Point = Point(x: real, y: real)

  /** Node `j` of an interleaved x,y sequence. */
  function PointAt(xs: seq<real>, j: nat): Point
    requires 2 * j + 1 < |xs|
  {
    Point(xs[2 * j], xs[2 * j + 1])
  }

  /** The geometric dimension that `ndim` encodes in two dimensions. */
  datatype Geometry = PointGeometry | SurfaceGeometry | VolumeGeometry

  /** 0 = points, 1 = surfaces, 2 = volumes. */
  function NdimCode(g: Geometry): (n: nat)
    ensures n < 3
  {
    match g
    case PointGeometry => 0
    case SurfaceGeometry => 1
    case VolumeGeometry => 2
  }

  /** The inverse reading of `ndim`; codes from 3 upwards mean nothing in 2D. */
  function DecodeNdim(n: nat): (r: Option<Geometry>)
    ensures r.Some? <==> n < 3
    ensures r.Some? ==> NdimCode(r.value) == n
  {
    if n == 0 then Some(PointGeometry)
    else if n == 1 then Some(SurfaceGeometry)
    else if n == 2 then Some(VolumeGeometry)
    else None
  }

  lemma DecodeEncode(g: Geometry)
    ensures DecodeNdim(NdimCode(g)) == Some(g)
  {
  }

  /** `k * c`, named so that quantifiers over `k` have a term to hang on. */
  function Scaled(k: int, c: int): int { k * c }

  ghost predicate IsMultipleOf(a: int, c: int) {
    exists k :: Scaled(k, c) == a
  }

  function Abs(n: int): nat { if n < 0 then -n else n }

  lemma MulNonNeg(a: nat, b: nat)
    ensures a * b >= 0
  {
  }

  lemma AbsMulAtLeast(m: int, c: int)
    requires m != 0 && c != 0
    ensures Abs(m * c) >= Abs(c)
  {
    MulNonNeg(Abs(m) - 1, Abs(c));
    assert (Abs(m) - 1) * Abs(c) == Abs(m) * Abs(c) - Abs(c);
    assert Abs(m * c) == Abs(m) * Abs(c);
  }

  lemma MultipleRemainder(k: int, c: int)
    requires c != 0
    ensures (k * c) % c == 0
  {
    var q, r := (k * c) / c, (k * c) % c;
    assert k * c == q * c + r;
    assert (k - q) * c == k * c - q * c;
    if k - q != 0 {
      AbsMulAtLeast(k - q, c);
    }
  }

  lemma RemainderZeroIffMultiple(a: int, c: int)
    requires c != 0
    ensures a % c == 0 <==> IsMultipleOf(a, c)
  {
    if a % c == 0 {
      assert Scaled(a / c, c) == a;
    } else {
      forall k ensures Scaled(k, c) != a {
        MultipleRemainder(k, c);
      }
    }
  }

  /** `verify(attribute, check)`: true exactly when `attribute` is a whole
      multiple of `check`.  The source divides by `check`, so it must be
      non-zero.  Truncating and Euclidean remainders agree on being zero. */
  function Verify(attribute: int, check: int): (r: bool)
    requires check != 0
    ensures r <==> IsMultipleOf(attribute, check)
  {
    RemainderZeroIffMultiple(attribute, check);
    attribute % check == 0
  }
}
