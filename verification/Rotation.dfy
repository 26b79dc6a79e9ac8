/** Quaternions and rotation matrices of the viewer, and the motion-capture frame change. */
module Rotation {
  import opened Options
  import opened Reals

  datatype Quat = Quat(w: real, x: real, y: real, z: real) {
    function Neg(): Quat {
      Quat(-w, -x, -y, -z)
    }

    function NormSq(): real {
      w * w + x * x + y * y + z * z
    }
  }

  datatype Vec3 = Vec3(x: real, y: real, z: real)

  /** A 3 x 3 matrix by rows. */
  datatype Mat3 = Mat3(
    m00: real, m01: real, m02: real,
    m10: real, m11: real, m12: real,
    m20: real, m21: real, m22: real)

  const TINY: real := 0.000000001  // 1.0e-9

  /** `sqrt` is a square root on the non-negative reals. */
  ghost predicate IsSqrt(sqrt: real -> real) {
    forall x :: 0.0 <= x ==> 0.0 <= sqrt(x) && sqrt(x) * sqrt(x) == x
  }

  /** normalize_quat; a division that the code would make by zero is not made here either. */
  function Normalize(sqrt: real -> real, q: Quat): Quat {
    var n := sqrt(q.NormSq());
    if n < TINY then Quat(1.0, 0.0, 0.0, 0.0) else Quat(q.w / n, q.x / n, q.y / n, q.z / n)
  }

  /** The matrix of a unit quaternion. */
  function UnitToRot(q: Quat): Mat3 {
    var Quat(w, x, y, z) := q;
    RotOf(x * x, y * y, z * z, x * y, x * z, y * z, w * x, w * y, w * z)
  }

  function RotOf(xx: real, yy: real, zz: real, xy: real, xz: real, yz: real, wx: real, wy: real, wz: real): Mat3 {
    Mat3(1.0 - 2.0 * (yy + zz), 2.0 * (xy - wz), 2.0 * (xz + wy),
         2.0 * (xy + wz), 1.0 - 2.0 * (xx + zz), 2.0 * (yz - wx),
         2.0 * (xz - wy), 2.0 * (yz + wx), 1.0 - 2.0 * (xx + yy))
  }

  /** quat_to_rot of the viewer. */
  function QuatToRot(sqrt: real -> real, q: Quat): Mat3 {
    UnitToRot(Normalize(sqrt, q))
  }

  /** A quotient, or None where the code would divide by zero. */
  function Over(a: real, b: real, c: real, s: real): Option<(real, real, real)> {
    if s == 0.0 then None else Some((a / s, b / s, c / s))
  }

  /** The four branches of rot_to_quat before the final normalisation; None if a divisor is zero. */
  function RotToQuatRaw(sqrt: real -> real, r: Mat3): Option<Quat> {
    var tr := r.m00 + r.m11 + r.m22;
    if tr > 0.0 then
      var s := sqrt(tr + 1.0) * 2.0;
      match Over(r.m21 - r.m12, r.m02 - r.m20, r.m10 - r.m01, s)
      case None => None
      case Some((a, b, c)) => Some(Quat(0.25 * s, a, b, c))
    else if r.m00 > r.m11 && r.m00 > r.m22 then
      var s := sqrt(Max(1.0 + r.m00 - r.m11 - r.m22, 0.0)) * 2.0;
      match Over(r.m21 - r.m12, r.m01 + r.m10, r.m02 + r.m20, s)
      case None => None
      case Some((a, b, c)) => Some(Quat(a, 0.25 * s, b, c))
    else if r.m11 > r.m22 then
      var s := sqrt(Max(1.0 + r.m11 - r.m00 - r.m22, 0.0)) * 2.0;
      match Over(r.m02 - r.m20, r.m01 + r.m10, r.m12 + r.m21, s)
      case None => None
      case Some((a, b, c)) => Some(Quat(a, b, 0.25 * s, c))
    else
      var s := sqrt(Max(1.0 + r.m22 - r.m00 - r.m11, 0.0)) * 2.0;
      match Over(r.m10 - r.m01, r.m02 + r.m20, r.m12 + r.m21, s)
      case None => None
      case Some((a, b, c)) => Some(Quat(a, b, c, 0.25 * s))
  }

  function RotToQuat(sqrt: real -> real, r: Mat3): Option<Quat> {
    match RotToQuatRaw(sqrt, r)
    case None => None
    case Some(q) => Some(Normalize(sqrt, q))
  }

  // ---------------------------------------------------------------- square roots

  lemma SquareStrict(s: real, a: real)
    requires 0.0 <= s < a
    ensures s * s < a * a
  {
    var d := a - s;
    assert a * d > 0.0;
    MulNonNeg(s, d);
    assert a * a - s * s == a * d + s * d;
  }

  lemma SquareInjective(s: real, a: real)
    requires 0.0 <= s && 0.0 <= a && s * s == a * a
    ensures s == a
  {
    if s < a { SquareStrict(s, a); }
    if a < s { SquareStrict(a, s); }
  }

  lemma SqrtOfSquare(sqrt: real -> real, x: real, sq: real)
    requires IsSqrt(sqrt) && sq == x * x
    ensures sqrt(sq) == Abs(x)
  {
    assert 0.0 <= sq;
    SquareInjective(sqrt(sq), Abs(x));
  }

  lemma NormalizeUnit(sqrt: real -> real, q: Quat)
    requires IsSqrt(sqrt) && q.NormSq() == 1.0
    ensures Normalize(sqrt, q) == q
  {
    SqrtOfSquare(sqrt, 1.0, 1.0);
  }

  lemma QuotientSquare(w: real, n: real, sq: real, aa: real)
    requires n != 0.0 && sq == n * n && aa == (w / n) * (w / n)
    ensures aa * sq == w * w
  {
    var a := w / n;
    assert a * n == w;
    assert a * n * (a * n) == a * a * (n * n);
  }

  lemma QuotientsSumToOne(a: real, b: real, c: real, d: real, w: real, x: real, y: real, z: real, n: real)
    requires n != 0.0 && a * n == w && b * n == x && c * n == y && d * n == z && w + x + y + z == n
    ensures a + b + c + d == 1.0
  {
  }

  lemma SquareNonZero(n: real, sq: real)
    requires n != 0.0 && sq == n * n
    ensures sq != 0.0
  {
    SquareStrict(0.0, Abs(n));
  }

  lemma ScaledNorm(q: Quat, n: real, sq: real)
    requires n != 0.0 && sq == n * n && sq == q.NormSq()
    ensures Quat(q.w / n, q.x / n, q.y / n, q.z / n).NormSq() == 1.0
  {
    var Quat(w, x, y, z) := q;
    var ww, xx, yy, zz := (w / n) * (w / n), (x / n) * (x / n), (y / n) * (y / n), (z / n) * (z / n);
    QuotientSquare(w, n, sq, ww);
    QuotientSquare(x, n, sq, xx);
    QuotientSquare(y, n, sq, yy);
    QuotientSquare(z, n, sq, zz);
    SquareNonZero(n, sq);
    QuotientsSumToOne(ww, xx, yy, zz, w * w, x * x, y * y, z * z, sq);
  }

  lemma NormalizeIsUnit(sqrt: real -> real, q: Quat)
    requires IsSqrt(sqrt)
    ensures Normalize(sqrt, q).NormSq() == 1.0
  {
    var n := sqrt(q.NormSq());
    assert 0.0 <= q.NormSq();
    if n >= TINY {
      ScaledNorm(q, n, q.NormSq());
    }
  }

  /**
   A quaternion at least 10^-9 long is divided by its length, so that it keeps its direction; a shorter one counts as
   no rotation.
   */
  lemma NormalizeKeepsDirection(sqrt: real -> real, q: Quat) returns (n: real)
    requires IsSqrt(sqrt)
    ensures var r := Normalize(sqrt, q);
            if q.NormSq() < 0.000000000000000001 then r == Quat(1.0, 0.0, 0.0, 0.0)
            else n > 0.0 && q == Quat(n * r.w, n * r.x, n * r.y, n * r.z)
  {
    assert 0.0 <= q.NormSq();
    n := sqrt(q.NormSq());
    ShortIff(n, q.NormSq());
    if n >= TINY {
      DivideBack(q.w, n);
      DivideBack(q.x, n);
      DivideBack(q.y, n);
      DivideBack(q.z, n);
    }
  }

  lemma ShortIff(n: real, sq: real)
    requires 0.0 <= n && n * n == sq
    ensures n < TINY <==> sq < 0.000000000000000001
  {
    if n < TINY { SquareStrict(n, TINY); }
    if TINY < n { SquareStrict(TINY, n); }
  }

  lemma DivideBack(a: real, n: real)
    requires n != 0.0
    ensures n * (a / n) == a
  {
  }

  // ---------------------------------------------------------------- rotation to quaternion

  /** The sign that makes component c of q non-negative. */
  ghost function Signed(c: real, q: Quat): Quat {
    if c >= 0.0 then q else q.Neg()
  }

  /** s is four times the magnitude of component c, as each branch of rot_to_quat computes it. */
  lemma BranchDivisor(sqrt: real -> real, c: real, arg: real)
    requires IsSqrt(sqrt) && arg == 4.0 * (c * c)
    ensures sqrt(arg) * 2.0 == 4.0 * Abs(c)
  {
    SqrtOfSquare(sqrt, 2.0 * c, arg);
  }

  lemma DivideByMagnitude(c: real, a: real, p: real)
    requires c != 0.0 && p == 4.0 * (c * a)
    ensures p / (4.0 * Abs(c)) == if c >= 0.0 then a else -a
  {
  }

  /** One branch: off-diagonal terms divided by s give the other components, with the sign of c. */
  lemma BranchQuotients(c: real, a1: real, a2: real, a3: real, p1: real, p2: real, p3: real)
    requires c != 0.0 && p1 == 4.0 * (c * a1) && p2 == 4.0 * (c * a2) && p3 == 4.0 * (c * a3)
    ensures Over(p1, p2, p3, 4.0 * Abs(c)) == Some(if c >= 0.0 then (a1, a2, a3) else (-a1, -a2, -a3))
  {
    DivideByMagnitude(c, a1, p1);
    DivideByMagnitude(c, a2, p2);
    DivideByMagnitude(c, a3, p3);
  }

  /** The diagonal of a rotation matrix in terms of the squares of the components. */
  ghost predicate DiagonalOf(r: Mat3, ww: real, xx: real, yy: real, zz: real) {
    && r.m00 + r.m11 + r.m22 + 1.0 == 4.0 * ww
    && 1.0 + r.m00 - r.m11 - r.m22 == 4.0 * xx
    && 1.0 + r.m11 - r.m00 - r.m22 == 4.0 * yy
    && 1.0 + r.m22 - r.m00 - r.m11 == 4.0 * zz
  }

  lemma DiagonalLinear(r: Mat3, ww: real, xx: real, yy: real, zz: real)
    requires ww + xx + yy + zz == 1.0
    requires r.m00 == 1.0 - 2.0 * (yy + zz) && r.m11 == 1.0 - 2.0 * (xx + zz) && r.m22 == 1.0 - 2.0 * (xx + yy)
    ensures DiagonalOf(r, ww, xx, yy, zz)
  {
  }

  lemma UnitDiagonal(q: Quat)
    ensures var r := UnitToRot(q);
            && r.m00 == 1.0 - 2.0 * (q.y * q.y + q.z * q.z)
            && r.m11 == 1.0 - 2.0 * (q.x * q.x + q.z * q.z)
            && r.m22 == 1.0 - 2.0 * (q.x * q.x + q.y * q.y)
  {
  }

  lemma RotDiagonal(q: Quat)
    requires q.NormSq() == 1.0
    ensures DiagonalOf(UnitToRot(q), q.w * q.w, q.x * q.x, q.y * q.y, q.z * q.z)
  {
    UnitDiagonal(q);
    hide UnitToRot, DiagonalOf;
    DiagonalLinear(UnitToRot(q), q.w * q.w, q.x * q.x, q.y * q.y, q.z * q.z);
  }

  /** The entries off the diagonal, in the sums and differences that rot_to_quat divides. */
  ghost predicate OffDiagonalOf(r: Mat3, q: Quat) {
    && r.m21 - r.m12 == 4.0 * (q.w * q.x) && r.m02 - r.m20 == 4.0 * (q.w * q.y) && r.m10 - r.m01 == 4.0 * (q.w * q.z)
    && r.m01 + r.m10 == 4.0 * (q.x * q.y) && r.m02 + r.m20 == 4.0 * (q.x * q.z) && r.m12 + r.m21 == 4.0 * (q.y * q.z)
  }

  lemma RotOffDiagonal(q: Quat)
    ensures OffDiagonalOf(UnitToRot(q), q)
  {
  }

  /** The pivot that the four branches choose. */
  ghost function Pivot(r: Mat3, q: Quat): real {
    if r.m00 + r.m11 + r.m22 > 0.0 then q.w
    else if r.m00 > r.m11 && r.m00 > r.m22 then q.x
    else if r.m11 > r.m22 then q.y
    else q.z
  }

  lemma PivotSquares(r: Mat3, ww: real, xx: real, yy: real, zz: real)
    requires DiagonalOf(r, ww, xx, yy, zz) && ww + xx + yy + zz == 1.0
    requires 0.0 <= ww && 0.0 <= xx && 0.0 <= yy && 0.0 <= zz
    ensures Pivot(r, Quat(ww, xx, yy, zz)) > 0.0
  {
  }

  /** The chosen pivot is never zero, so no branch divides by zero. */
  lemma PivotNonZero(q: Quat)
    requires q.NormSq() == 1.0
    ensures Pivot(UnitToRot(q), q) != 0.0
  {
    RotDiagonal(q);
    SquareNonNeg(q.w);
    SquareNonNeg(q.x);
    SquareNonNeg(q.y);
    SquareNonNeg(q.z);
    hide UnitToRot, DiagonalOf;
    PivotSquares(UnitToRot(q), q.w * q.w, q.x * q.x, q.y * q.y, q.z * q.z);
  }

  lemma SquareNonNeg(x: real)
    ensures 0.0 <= x * x && (x == 0.0 ==> x * x == 0.0)
  {
  }

  /** r has the entries of the matrix of q, which is all that the branches use. */
  ghost predicate EntriesOf(r: Mat3, q: Quat) {
    DiagonalOf(r, q.w * q.w, q.x * q.x, q.y * q.y, q.z * q.z) && OffDiagonalOf(r, q)
  }

  lemma RotEntries(q: Quat)
    requires q.NormSq() == 1.0
    ensures EntriesOf(UnitToRot(q), q)
  {
    hide UnitToRot;
    RotDiagonal(q);
    RotOffDiagonal(q);
  }

  lemma BranchW(sqrt: real -> real, r: Mat3, q: Quat)
    requires IsSqrt(sqrt) && EntriesOf(r, q) && q.w != 0.0
    requires r.m00 + r.m11 + r.m22 > 0.0
    ensures RotToQuatRaw(sqrt, r) == Some(Signed(q.w, q))
  {
    hide Over;
    BranchDivisor(sqrt, q.w, r.m00 + r.m11 + r.m22 + 1.0);
    BranchQuotients(q.w, q.x, q.y, q.z, r.m21 - r.m12, r.m02 - r.m20, r.m10 - r.m01);
  }

  lemma BranchX(sqrt: real -> real, r: Mat3, q: Quat)
    requires IsSqrt(sqrt) && EntriesOf(r, q) && q.x != 0.0
    requires r.m00 + r.m11 + r.m22 <= 0.0 && r.m00 > r.m11 && r.m00 > r.m22
    ensures RotToQuatRaw(sqrt, r) == Some(Signed(q.x, q))
  {
    assert 0.0 <= q.x * q.x;
    BranchDivisor(sqrt, q.x, 1.0 + r.m00 - r.m11 - r.m22);
    BranchQuotients(q.x, q.w, q.y, q.z, r.m21 - r.m12, r.m01 + r.m10, r.m02 + r.m20);
    hide Over;
  }

  lemma BranchY(sqrt: real -> real, r: Mat3, q: Quat)
    requires IsSqrt(sqrt) && EntriesOf(r, q) && q.y != 0.0
    requires r.m00 + r.m11 + r.m22 <= 0.0 && !(r.m00 > r.m11 && r.m00 > r.m22) && r.m11 > r.m22
    ensures RotToQuatRaw(sqrt, r) == Some(Signed(q.y, q))
  {
    assert 0.0 <= q.y * q.y;
    BranchDivisor(sqrt, q.y, 1.0 + r.m11 - r.m00 - r.m22);
    BranchQuotients(q.y, q.w, q.x, q.z, r.m02 - r.m20, r.m01 + r.m10, r.m12 + r.m21);
    hide Over;
  }

  lemma BranchZ(sqrt: real -> real, r: Mat3, q: Quat)
    requires IsSqrt(sqrt) && EntriesOf(r, q) && q.z != 0.0
    requires r.m00 + r.m11 + r.m22 <= 0.0 && !(r.m00 > r.m11 && r.m00 > r.m22) && !(r.m11 > r.m22)
    ensures RotToQuatRaw(sqrt, r) == Some(Signed(q.z, q))
  {
    assert 0.0 <= q.z * q.z;
    BranchDivisor(sqrt, q.z, 1.0 + r.m22 - r.m00 - r.m11);
    BranchQuotients(q.z, q.w, q.x, q.y, r.m10 - r.m01, r.m02 + r.m20, r.m12 + r.m21);
    hide Over;
  }

  /** On the matrix of a unit quaternion the four branches give the quaternion back, up to sign. */
  lemma RawRoundTrip(sqrt: real -> real, q: Quat)
    requires IsSqrt(sqrt) && q.NormSq() == 1.0
    ensures RotToQuatRaw(sqrt, UnitToRot(q)) == Some(Signed(Pivot(UnitToRot(q), q), q))
  {
    hide UnitToRot, RotToQuatRaw, Quat.NormSq, Signed, EntriesOf;
    var r := UnitToRot(q);
    PivotNonZero(q);
    RotEntries(q);
    if r.m00 + r.m11 + r.m22 > 0.0 {
      BranchW(sqrt, r, q);
    } else if r.m00 > r.m11 && r.m00 > r.m22 {
      BranchX(sqrt, r, q);
    } else if r.m11 > r.m22 {
      BranchY(sqrt, r, q);
    } else {
      BranchZ(sqrt, r, q);
    }
  }

  ghost predicate UpToSign(r: Option<Quat>, q: Quat) {
    r == Some(q) || r == Some(q.Neg())
  }

  lemma NegNormSq(q: Quat)
    ensures q.Neg().NormSq() == q.NormSq()
  {
  }

  lemma UnitRoundTrip(sqrt: real -> real, q: Quat)
    requires IsSqrt(sqrt) && q.NormSq() == 1.0
    ensures UpToSign(RotToQuat(sqrt, UnitToRot(q)), q)
  {
    hide UnitToRot, RotToQuatRaw, Pivot, Normalize, Quat.NormSq, Quat.Neg, IsSqrt;
    RawRoundTrip(sqrt, q);
    NegNormSq(q);
    NormalizeUnit(sqrt, q);
    NormalizeUnit(sqrt, q.Neg());
  }

  /** rot_to_quat undoes quat_to_rot up to sign, on every quaternion, without ever dividing by zero. */
  lemma RotationRoundTrip(sqrt: real -> real, q: Quat)
    requires IsSqrt(sqrt)
    ensures UpToSign(RotToQuat(sqrt, QuatToRot(sqrt, q)), Normalize(sqrt, q))
    ensures q.NormSq() == 1.0 ==> Normalize(sqrt, q) == q
  {
    NormalizeIsUnit(sqrt, q);
    UnitRoundTrip(sqrt, Normalize(sqrt, q));
    if q.NormSq() == 1.0 { NormalizeUnit(sqrt, q); }
  }

  // ---------------------------------------------------------------- motion capture frame to PX4 frame

  const R_DOWN := Mat3(1.0, 0.0, 0.0, 0.0, -1.0, 0.0, 0.0, 0.0, -1.0)

  function Apply(r: Mat3, v: Vec3): Vec3 {
    Vec3(r.m00 * v.x + r.m01 * v.y + r.m02 * v.z,
         r.m10 * v.x + r.m11 * v.y + r.m12 * v.z,
         r.m20 * v.x + r.m21 * v.y + r.m22 * v.z)
  }

  function Mul(a: Mat3, b: Mat3): Mat3 {
    Mat3(a.m00 * b.m00 + a.m01 * b.m10 + a.m02 * b.m20,
         a.m00 * b.m01 + a.m01 * b.m11 + a.m02 * b.m21,
         a.m00 * b.m02 + a.m01 * b.m12 + a.m02 * b.m22,
         a.m10 * b.m00 + a.m11 * b.m10 + a.m12 * b.m20,
         a.m10 * b.m01 + a.m11 * b.m11 + a.m12 * b.m21,
         a.m10 * b.m02 + a.m11 * b.m12 + a.m12 * b.m22,
         a.m20 * b.m00 + a.m21 * b.m10 + a.m22 * b.m20,
         a.m20 * b.m01 + a.m21 * b.m11 + a.m22 * b.m21,
         a.m20 * b.m02 + a.m21 * b.m12 + a.m22 * b.m22)
  }

  function Minus(a: Vec3, b: Vec3): Vec3 {
    Vec3(a.x - b.x, a.y - b.y, a.z - b.z)
  }

  function DistSq(a: Vec3, b: Vec3): real {
    var d := Minus(a, b);
    d.x * d.x + d.y * d.y + d.z * d.z
  }

  /** quatToRot of the motion-capture node, which tests the norm before it divides. */
  function QuatToRotOpti(sqrt: real -> real, q: Quat): Mat3 {
    var n := sqrt(q.NormSq());
    if n < TINY then Mat3(1.0, 0.0, 0.0, 0.0, 1.0, 0.0, 0.0, 0.0, 1.0)
    else UnitToRot(Quat(q.w / n, q.x / n, q.y / n, q.z / n))
  }

  /** The node and the viewer turn every quaternion into the same matrix. */
  lemma NodeAndViewerAgree(sqrt: real -> real, q: Quat)
    ensures QuatToRotOpti(sqrt, q) == QuatToRot(sqrt, q)
  {
  }

  /** What conjugation by R_DOWN comes to: rows and columns 1 and 2 change sign. */
  ghost function Conjugated(r: Mat3): Mat3 {
    Mat3(r.m00, -r.m01, -r.m02,
         -r.m10, r.m11, r.m12,
         -r.m20, r.m21, r.m22)
  }

  lemma ConjugationByDown(r: Mat3)
    ensures Mul(Mul(R_DOWN, r), R_DOWN) == Conjugated(r)
  {
  }

  function MocapPositionToPx4(pos: Vec3, origin: Vec3): Vec3 {
    Apply(R_DOWN, Minus(pos, origin))
  }

  function MocapAttitudeToPx4(sqrt: real -> real, att: Quat): Option<Quat> {
    RotToQuat(sqrt, Mul(Mul(R_DOWN, QuatToRot(sqrt, att)), R_DOWN))
  }

  /** The position map keeps all distances and takes the origin to zero. */
  lemma PositionIsometry(a: Vec3, b: Vec3, origin: Vec3)
    ensures DistSq(MocapPositionToPx4(a, origin), MocapPositionToPx4(b, origin)) == DistSq(a, b)
    ensures MocapPositionToPx4(origin, origin) == Vec3(0.0, 0.0, 0.0)
  {
  }

  /** Conjugation by R_DOWN turns the quaternion (w, x, y, z) into (w, x, -y, -z), up to sign. */
  lemma AttitudeMap(sqrt: real -> real, att: Quat)
    requires IsSqrt(sqrt)
    ensures var q := Normalize(sqrt, att);
            UpToSign(MocapAttitudeToPx4(sqrt, att), Quat(q.w, q.x, -q.y, -q.z))
  {
    var q := Normalize(sqrt, att);
    var q' := Quat(q.w, q.x, -q.y, -q.z);
    NormalizeIsUnit(sqrt, att);
    FlipYZ(q);
    ConjugationByDown(UnitToRot(q));
    hide UnitToRot, Mul, Conjugated, RotToQuat, Quat.NormSq;
    UnitRoundTrip(sqrt, q');
  }

  lemma FlipYZ(q: Quat)
    ensures var q' := Quat(q.w, q.x, -q.y, -q.z);
            q'.NormSq() == q.NormSq() && UnitToRot(q') == Conjugated(UnitToRot(q))
  {
    hide RotOf, Conjugated;
    FlippedMatrix(q.w, q.x, q.y, q.z, -q.y, -q.z);
  }

  lemma FlippedMatrix(w: real, x: real, y: real, z: real, y': real, z': real)
    requires y' == -y && z' == -z
    ensures Quat(w, x, y', z').NormSq() == Quat(w, x, y, z).NormSq()
    ensures UnitToRot(Quat(w, x, y', z')) == Conjugated(UnitToRot(Quat(w, x, y, z)))
  {
    FlippedProducts(w, x, y, z, y', z');
    FlippedRot(x * x, y * y, z * z, x * y, x * z, y * z, w * x, w * y, w * z,
               y' * y', z' * z', x * y', x * z', y' * z', w * y', w * z');
  }

  lemma FlippedRot(xx: real, yy: real, zz: real, xy: real, xz: real, yz: real, wx: real, wy: real, wz: real,
                   yy': real, zz': real, xy': real, xz': real, yz': real, wy': real, wz': real)
    requires yy' == yy && zz' == zz && xy' == -xy && xz' == -xz && yz' == yz && wy' == -wy && wz' == -wz
    ensures RotOf(xx, yy', zz', xy', xz', yz', wx, wy', wz') == Conjugated(RotOf(xx, yy, zz, xy, xz, yz, wx, wy, wz))
  {
  }

  lemma FlippedProducts(w: real, x: real, y: real, z: real, y': real, z': real)
    requires y' == -y && z' == -z
    ensures y' * y' == y * y && z' * z' == z * z && y' * z' == y * z
    ensures w * y' == -(w * y) && w * z' == -(w * z) && x * y' == -(x * y) && x * z' == -(x * z)
  {
  }

  // ---------------------------------------------------------------- one frame change for positions and attitudes

  function Plus(a: Vec3, b: Vec3): Vec3 {
    Vec3(a.x + b.x, a.y + b.y, a.z + b.z)
  }

  /** x stays, y and z change sign: what was up is now negative, as PX4 counts it. */
  lemma PositionCoordinates(pos: Vec3, origin: Vec3)
    ensures MocapPositionToPx4(pos, origin) == Vec3(pos.x - origin.x, -(pos.y - origin.y), -(pos.z - origin.z))
  {
  }

  lemma ConjugatedApply(r: Mat3, d: Vec3)
    ensures var out := Apply(r, d);
            Apply(Conjugated(r), Vec3(d.x, -d.y, -d.z)) == Vec3(out.x, -out.y, -out.z)
  {
  }

  /**
   Positions and attitudes change frame alike: turning a point about the origin and then changing frame is the same as
   changing frame and then turning by the changed attitude.
   */
  lemma OneFrameChange(r: Mat3, pos: Vec3, origin: Vec3)
    ensures Apply(Mul(Mul(R_DOWN, r), R_DOWN), MocapPositionToPx4(pos, origin))
         == MocapPositionToPx4(Plus(origin, Apply(r, Minus(pos, origin))), origin)
  {
    var out := Apply(r, Minus(pos, origin));
    ConjugationByDown(r);
    ConjugatedApply(r, Minus(pos, origin));
    PositionCoordinates(pos, origin);
    PositionCoordinates(Plus(origin, out), origin);
    hide Apply, Mul, Conjugated, MocapPositionToPx4;
  }

  /** The same of the quaternion that the node sends, for every quaternion that the cameras report. */
  lemma PoseChangesFrame(sqrt: real -> real, att: Quat, pos: Vec3, origin: Vec3) returns (q: Quat)
    requires IsSqrt(sqrt)
    ensures MocapAttitudeToPx4(sqrt, att) == Some(q)
    ensures Apply(UnitToRot(q), MocapPositionToPx4(pos, origin))
         == MocapPositionToPx4(Plus(origin, Apply(QuatToRot(sqrt, att), Minus(pos, origin))), origin)
  {
    var n := Normalize(sqrt, att);
    var flipped := Quat(n.w, n.x, -n.y, -n.z);
    AttitudeMap(sqrt, att);
    FlipYZ(n);
    NegSameRot(flipped, flipped.Neg());
    ConjugationByDown(UnitToRot(n));
    OneFrameChange(UnitToRot(n), pos, origin);
    hide Apply, Mul, Conjugated, MocapPositionToPx4, MocapAttitudeToPx4, UnitToRot, Normalize, Quat.Neg;
    q := MocapAttitudeToPx4(sqrt, att).value;
  }

  lemma NegSameRot(q: Quat, n: Quat)
    requires n == q.Neg()
    ensures UnitToRot(n) == UnitToRot(q)
  {
    hide UnitToRot;
    UnitDiagonal(q);
    UnitDiagonal(n);
    UnitOffDiagonal(q);
    UnitOffDiagonal(n);
    NegatedProducts(q.w, q.x, q.y, q.z, n.w, n.x, n.y, n.z);
  }

  lemma NegatedProducts(w: real, x: real, y: real, z: real, w': real, x': real, y': real, z': real)
    requires w' == -w && x' == -x && y' == -y && z' == -z
    ensures x' * x' == x * x && y' * y' == y * y && z' * z' == z * z
    ensures x' * y' == x * y && x' * z' == x * z && y' * z' == y * z
    ensures w' * x' == w * x && w' * y' == w * y && w' * z' == w * z
  {
  }

  // ---------------------------------------------------------------- what the matrix of a quaternion does

  /** The product of quaternions. */
  function QuatMul(a: Quat, b: Quat): Quat {
    Quat(a.w * b.w - a.x * b.x - a.y * b.y - a.z * b.z,
         a.w * b.x + a.x * b.w + a.y * b.z - a.z * b.y,
         a.w * b.y - a.x * b.z + a.y * b.w + a.z * b.x,
         a.w * b.z + a.x * b.y - a.y * b.x + a.z * b.w)
  }

  function Conjugate(q: Quat): Quat {
    Quat(q.w, -q.x, -q.y, -q.z)
  }

  /** The quaternion without real part that stands for a vector. */
  function Pure(v: Vec3): Quat {
    Quat(0.0, v.x, v.y, v.z)
  }

  /** The rotation of v by q, as quaternions define it. */
  function Rotated(q: Quat, v: Vec3): Quat {
    QuatMul(QuatMul(q, Pure(v)), Conjugate(q))
  }

  /** x is the product of the row (a0, a1, a2) with v. */
  ghost predicate IsRow(x: real, a0: real, a1: real, a2: real, v: Vec3) {
    x == a0 * v.x + a1 * v.y + a2 * v.z
  }

  /** The rotated vector, multiplied out. */
  lemma RotatedFirst(q: Quat, v: Vec3)
    ensures Rotated(q, v).w == 0.0
    ensures IsRow(Rotated(q, v).x, q.w * q.w + q.x * q.x - q.y * q.y - q.z * q.z, 2.0 * (q.x * q.y - q.w * q.z),
                  2.0 * (q.x * q.z + q.w * q.y), v)
  {
  }

  lemma RotatedSecond(q: Quat, v: Vec3)
    ensures IsRow(Rotated(q, v).y, 2.0 * (q.x * q.y + q.w * q.z), q.w * q.w - q.x * q.x + q.y * q.y - q.z * q.z,
                  2.0 * (q.y * q.z - q.w * q.x), v)
  {
  }

  lemma RotatedThird(q: Quat, v: Vec3)
    ensures IsRow(Rotated(q, v).z, 2.0 * (q.x * q.z - q.w * q.y), 2.0 * (q.y * q.z + q.w * q.x),
                  q.w * q.w - q.x * q.x - q.y * q.y + q.z * q.z, v)
  {
  }

  lemma ApplyRows(r: Mat3, v: Vec3, out: Quat)
    requires out.w == 0.0
    requires IsRow(out.x, r.m00, r.m01, r.m02, v) && IsRow(out.y, r.m10, r.m11, r.m12, v)
    requires IsRow(out.z, r.m20, r.m21, r.m22, v)
    ensures Pure(Apply(r, v)) == out
  {
  }

  lemma UnitSquares(q: Quat)
    requires q.NormSq() == 1.0
    ensures var r := UnitToRot(q);
            && r.m00 == q.w * q.w + q.x * q.x - q.y * q.y - q.z * q.z
            && r.m11 == q.w * q.w - q.x * q.x + q.y * q.y - q.z * q.z
            && r.m22 == q.w * q.w - q.x * q.x - q.y * q.y + q.z * q.z
  {
    hide UnitToRot;
    UnitDiagonal(q);
    OneMinusSquares(q.w * q.w, q.x * q.x, q.y * q.y, q.z * q.z);
  }

  lemma OneMinusSquares(ww: real, xx: real, yy: real, zz: real)
    requires ww + xx + yy + zz == 1.0
    ensures 1.0 - 2.0 * (yy + zz) == ww + xx - yy - zz
    ensures 1.0 - 2.0 * (xx + zz) == ww - xx + yy - zz
    ensures 1.0 - 2.0 * (xx + yy) == ww - xx - yy + zz
  {
  }

  /** The matrix of a unit quaternion turns a vector as the quaternion does: it is the vector part of q v q*. */
  lemma MatrixRotates(q: Quat, v: Vec3)
    requires q.NormSq() == 1.0
    ensures Pure(Apply(UnitToRot(q), v)) == Rotated(q, v)
  {
    hide Rotated, UnitToRot, Quat.NormSq, IsRow, Apply;
    RotatedFirst(q, v);
    RotatedSecond(q, v);
    RotatedThird(q, v);
    UnitSquares(q);
    UnitOffDiagonal(q);
    ApplyRows(UnitToRot(q), v, Rotated(q, v));
  }

  lemma UnitOffDiagonal(q: Quat)
    ensures var r := UnitToRot(q);
            && r.m01 == 2.0 * (q.x * q.y - q.w * q.z) && r.m02 == 2.0 * (q.x * q.z + q.w * q.y)
            && r.m10 == 2.0 * (q.x * q.y + q.w * q.z) && r.m12 == 2.0 * (q.y * q.z - q.w * q.x)
            && r.m20 == 2.0 * (q.x * q.z - q.w * q.y) && r.m21 == 2.0 * (q.y * q.z + q.w * q.x)
  {
  }
}
