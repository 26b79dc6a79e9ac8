/**
 Attitudes as angles (`rpyToQuat` and `quatToRpy` of `utils.hpp`): the quaternion that a setpoint carries, and the
 angles that are read off a reported one.
 */
module RollPitchYaw {
  import opened Params
  import opened Reals
  import opened Trigonometry
  import opened Rotation

  datatype Rpy = Rpy(roll: real, pitch: real, yaw: real)

  /** Cosines and sines of the half angles. */
  datatype Halves = Halves(cr: real, sr: real, cp: real, sp: real, cy: real, sy: real)

  function HalvesOf(sin: real -> real, cos: real -> real, a: Rpy): Halves {
    Halves(cos(0.5 * a.roll), sin(0.5 * a.roll), cos(0.5 * a.pitch), sin(0.5 * a.pitch),
           cos(0.5 * a.yaw), sin(0.5 * a.yaw))
  }

  /** The quaternion of rpyToQuat before it is normalised. */
  function FromHalves(h: Halves): Quat {
    Quat(h.cr * h.cp * h.cy + h.sr * h.sp * h.sy,
         h.sr * h.cp * h.cy - h.cr * h.sp * h.sy,
         h.cr * h.sp * h.cy + h.sr * h.cp * h.sy,
         h.cr * h.cp * h.sy - h.sr * h.sp * h.cy)
  }

  /** rpyToQuat; Eigen divides by the norm without a test. */
  function RpyToQuat(sqrt: real -> real, sin: real -> real, cos: real -> real, a: Rpy): Quat {
    Normalize(sqrt, FromHalves(HalvesOf(sin, cos, a)))
  }

  /** quatToRpy, with the library's inverse functions. */
  function QuatToRpy(atan2: (real, real) -> real, asin: real -> real, q: Quat): Rpy {
    var sinp := 2.0 * (q.w * q.y - q.z * q.x);
    Rpy(atan2(2.0 * (q.w * q.x + q.y * q.z), 1.0 - 2.0 * (q.x * q.x + q.y * q.y)),
        if Abs(sinp) >= 1.0 then if sinp < 0.0 then -PI / 2.0 else PI / 2.0 else asin(sinp),
        atan2(2.0 * (q.w * q.z + q.x * q.y), 1.0 - 2.0 * (q.y * q.y + q.z * q.z)))
  }

  // ---------------------------------------------------------------- identities in the half angles

  ghost predicate OnUnitCircles(h: Halves) {
    h.cr * h.cr + h.sr * h.sr == 1.0 && h.cp * h.cp + h.sp * h.sp == 1.0 && h.cy * h.cy + h.sy * h.sy == 1.0
  }

  lemma NormOfHalves(h: Halves)
    ensures FromHalves(h).NormSq()
         == (h.cr * h.cr + h.sr * h.sr) * (h.cp * h.cp + h.sp * h.sp) * (h.cy * h.cy + h.sy * h.sy)
  {
  }

  lemma HalvesAreUnit(h: Halves)
    requires OnUnitCircles(h)
    ensures FromHalves(h).NormSq() == 1.0
  {
    hide FromHalves, Quat.NormSq;
    NormOfHalves(h);
  }

  lemma RollSine(h: Halves)
    ensures var q := FromHalves(h);
            q.w * q.x + q.y * q.z == h.cr * h.sr * (h.cp * h.cp - h.sp * h.sp) * (h.cy * h.cy + h.sy * h.sy)
  {
  }

  lemma RollCosine(h: Halves)
    ensures var q := FromHalves(h);
            q.w * q.w - q.x * q.x - q.y * q.y + q.z * q.z ==
            (h.cr * h.cr - h.sr * h.sr) * (h.cp * h.cp - h.sp * h.sp) * (h.cy * h.cy + h.sy * h.sy)
  {
  }

  lemma PitchSine(h: Halves)
    ensures var q := FromHalves(h);
            q.w * q.y - q.z * q.x == h.cp * h.sp * (h.cr * h.cr + h.sr * h.sr) * (h.cy * h.cy + h.sy * h.sy)
  {
  }

  lemma YawSine(h: Halves)
    ensures var q := FromHalves(h);
            q.w * q.z + q.x * q.y == h.cy * h.sy * (h.cp * h.cp - h.sp * h.sp) * (h.cr * h.cr + h.sr * h.sr)
  {
  }

  lemma YawCosine(h: Halves)
    ensures var q := FromHalves(h);
            q.w * q.w + q.x * q.x - q.y * q.y - q.z * q.z ==
            (h.cy * h.cy - h.sy * h.sy) * (h.cp * h.cp - h.sp * h.sp) * (h.cr * h.cr + h.sr * h.sr)
  {
  }

  // ---------------------------------------------------------------- what the quaternion is

  /** The quaternion is the turn by the roll about x, then by the pitch about y, then by the yaw about z. */
  lemma RpyIsProduct(h: Halves)
    ensures FromHalves(h)
         == QuatMul(QuatMul(Quat(h.cy, 0.0, 0.0, h.sy), Quat(h.cp, 0.0, h.sp, 0.0)), Quat(h.cr, h.sr, 0.0, 0.0))
  {
    hide QuatMul;
    YawThenPitch(h.cy, h.sy, h.cp, h.sp);
    ThenRoll(Quat(h.cy * h.cp, -(h.sy * h.sp), h.cy * h.sp, h.sy * h.cp), h.cr, h.sr);
  }

  lemma YawThenPitch(cy: real, sy: real, cp: real, sp: real)
    ensures QuatMul(Quat(cy, 0.0, 0.0, sy), Quat(cp, 0.0, sp, 0.0)) == Quat(cy * cp, -(sy * sp), cy * sp, sy * cp)
  {
  }

  lemma ThenRoll(a: Quat, cr: real, sr: real)
    ensures QuatMul(a, Quat(cr, sr, 0.0, 0.0))
         == Quat(a.w * cr - a.x * sr, a.w * sr + a.x * cr, a.y * cr + a.z * sr, a.z * cr - a.y * sr)
  {
  }

  lemma HalvesOnCircles(sin: real -> real, cos: real -> real, a: Rpy)
    requires IsTrig(sin, cos)
    ensures OnUnitCircles(HalvesOf(sin, cos, a))
  {
    hide IsTrig;
    UnitLaw(sin, cos, 0.5 * a.roll);
    UnitLaw(sin, cos, 0.5 * a.pitch);
    UnitLaw(sin, cos, 0.5 * a.yaw);
  }

  /** It is a unit quaternion already, so normalising changes nothing. */
  lemma RpyIsUnit(sqrt: real -> real, sin: real -> real, cos: real -> real, a: Rpy)
    requires IsSqrt(sqrt) && IsTrig(sin, cos)
    ensures RpyToQuat(sqrt, sin, cos, a) == FromHalves(HalvesOf(sin, cos, a))
    ensures RpyToQuat(sqrt, sin, cos, a).NormSq() == 1.0
  {
    hide IsTrig, FromHalves, Normalize, IsSqrt, Quat.NormSq;
    HalvesOnCircles(sin, cos, a);
    HalvesAreUnit(HalvesOf(sin, cos, a));
    NormalizeUnit(sqrt, FromHalves(HalvesOf(sin, cos, a)));
  }

  lemma TimesOne(x: real, one: real, other: real)
    requires one == 1.0 && other == 1.0
    ensures x * one == x && x * one * other == x
  {
  }

  /** What quatToRpy looks at for the roll, for the pitch and for the yaw. */
  function RollY(q: Quat): real { 2.0 * (q.w * q.x + q.y * q.z) }
  function RollX(q: Quat): real { 1.0 - 2.0 * (q.x * q.x + q.y * q.y) }
  function PitchS(q: Quat): real { 2.0 * (q.w * q.y - q.z * q.x) }
  function YawY(q: Quat): real { 2.0 * (q.w * q.z + q.x * q.y) }
  function YawX(q: Quat): real { 1.0 - 2.0 * (q.y * q.y + q.z * q.z) }

  lemma RollSines(h: Halves, u: real, d: real, one: real)
    requires u == h.cr * h.sr && d == h.cp * h.cp - h.sp * h.sp && one == h.cy * h.cy + h.sy * h.sy
    ensures RollY(FromHalves(h)) == 2.0 * (u * d * one)
  {
    hide FromHalves;
    RollSine(h);
  }

  lemma RollCosines(h: Halves, e: real, d: real, one: real)
    requires OnUnitCircles(h)
    requires e == h.cr * h.cr - h.sr * h.sr && d == h.cp * h.cp - h.sp * h.sp && one == h.cy * h.cy + h.sy * h.sy
    ensures RollX(FromHalves(h)) == e * d * one
  {
    hide FromHalves;
    var q := FromHalves(h);
    HalvesAreUnit(h);
    OneMinusSquares(q.w * q.w, q.x * q.x, q.y * q.y, q.z * q.z);
    RollCosine(h);
  }

  lemma YawSines(h: Halves, u: real, d: real, one: real)
    requires u == h.cy * h.sy && d == h.cp * h.cp - h.sp * h.sp && one == h.cr * h.cr + h.sr * h.sr
    ensures YawY(FromHalves(h)) == 2.0 * (u * d * one)
  {
    hide FromHalves;
    YawSine(h);
  }

  lemma YawCosines(h: Halves, e: real, d: real, one: real)
    requires OnUnitCircles(h)
    requires e == h.cy * h.cy - h.sy * h.sy && d == h.cp * h.cp - h.sp * h.sp && one == h.cr * h.cr + h.sr * h.sr
    ensures YawX(FromHalves(h)) == e * d * one
  {
    hide FromHalves;
    var q := FromHalves(h);
    HalvesAreUnit(h);
    OneMinusSquares(q.w * q.w, q.x * q.x, q.y * q.y, q.z * q.z);
    YawCosine(h);
  }

  /** With the last factor one and the first doubled, a product of three is a product of sine and cosine. */
  lemma Doubled(t: real, u: real, d: real, one: real, s: real, y: real)
    requires one == 1.0 && t == 2.0 * (u * d * one) && s == 2.0 * u && y == d * s
    ensures t == y
  {
  }

  lemma RollShows(h: Halves, sr: real, cr: real, cp: real, y: real, x: real)
    requires OnUnitCircles(h)
    requires sr == 2.0 * (h.cr * h.sr) && cr == h.cr * h.cr - h.sr * h.sr && cp == h.cp * h.cp - h.sp * h.sp
    requires y == cp * sr && x == cp * cr
    ensures RollY(FromHalves(h)) == y && RollX(FromHalves(h)) == x
  {
    hide FromHalves, RollY, RollX;
    var one := h.cy * h.cy + h.sy * h.sy;
    RollSines(h, h.cr * h.sr, cp, one);
    Doubled(RollY(FromHalves(h)), h.cr * h.sr, cp, one, sr, y);
    RollCosines(h, cr, cp, one);
    TimesOne(cr * cp, one, 1.0);
  }

  lemma PitchShows(h: Halves, sp: real)
    requires OnUnitCircles(h) && sp == 2.0 * (h.cp * h.sp)
    ensures PitchS(FromHalves(h)) == sp
  {
    hide FromHalves;
    PitchSine(h);
    TimesOne(h.cp * h.sp, h.cr * h.cr + h.sr * h.sr, h.cy * h.cy + h.sy * h.sy);
  }

  lemma YawShows(h: Halves, sy: real, cy: real, cp: real, y: real, x: real)
    requires OnUnitCircles(h)
    requires sy == 2.0 * (h.cy * h.sy) && cy == h.cy * h.cy - h.sy * h.sy && cp == h.cp * h.cp - h.sp * h.sp
    requires y == cp * sy && x == cp * cy
    ensures YawY(FromHalves(h)) == y && YawX(FromHalves(h)) == x
  {
    hide FromHalves, YawY, YawX;
    var one := h.cr * h.cr + h.sr * h.sr;
    YawSines(h, h.cy * h.sy, cp, one);
    Doubled(YawY(FromHalves(h)), h.cy * h.sy, cp, one, sy, y);
    YawCosines(h, cy, cp, one);
    TimesOne(cy * cp, one, 1.0);
  }

  /** Sine and cosine of roll and yaw, each times the cosine of the pitch, and the sine of the pitch. */
  lemma AnglesShow(sin: real -> real, cos: real -> real, a: Rpy, rollY: real, rollX: real, yawY: real, yawX: real)
    requires IsTrig(sin, cos)
    requires rollY == cos(a.pitch) * sin(a.roll) && rollX == cos(a.pitch) * cos(a.roll)
    requires yawY == cos(a.pitch) * sin(a.yaw) && yawX == cos(a.pitch) * cos(a.yaw)
    ensures var q := FromHalves(HalvesOf(sin, cos, a));
            && RollY(q) == rollY && RollX(q) == rollX && PitchS(q) == sin(a.pitch)
            && YawY(q) == yawY && YawX(q) == yawX
  {
    hide IsTrig, FromHalves, OnUnitCircles, RollY, RollX, PitchS, YawY, YawX;
    var h := HalvesOf(sin, cos, a);
    HalvesOnCircles(sin, cos, a);
    DoubleAngle(sin, cos, a.roll);
    DoubleAngle(sin, cos, a.pitch);
    DoubleAngle(sin, cos, a.yaw);
    RollShows(h, sin(a.roll), cos(a.roll), cos(a.pitch), rollY, rollX);
    PitchShows(h, sin(a.pitch));
    YawShows(h, sin(a.yaw), cos(a.yaw), cos(a.pitch), yawY, yawX);
  }

  // ---------------------------------------------------------------- there and back

  /** atan2 finds an angle from any positive multiple of its sine and cosine. */
  ghost predicate FindsAngle(sin: real -> real, cos: real -> real, atan2: (real, real) -> real, k: real, a: real) {
    0.0 < k && -PI < a <= PI ==> atan2(k * sin(a), k * cos(a)) == a
  }

  ghost predicate IsInverse(sin: real -> real, cos: real -> real, atan2: (real, real) -> real, asin: real -> real) {
    && (forall k: real, a: real :: FindsAngle(sin, cos, atan2, k, a))
    && (forall a: real :: -PI / 2.0 <= a <= PI / 2.0 ==> asin(sin(a)) == a)
    && (forall a: real :: -PI / 2.0 < a < PI / 2.0 ==> 0.0 < cos(a))
    && sin(-PI / 2.0) == -1.0
  }

  lemma SineInside(s: real, c: real, cc: real)
    requires s * s + cc == 1.0 && cc == c * c && 0.0 < c
    ensures Abs(s) < 1.0
  {
    SquareStrict(0.0, c);
    if s >= 1.0 { SquareBound(1.0, s); }
    if s <= -1.0 { SquareBound(1.0, -s); }
  }

  /** What quatToRpy makes of what it finds. */
  lemma ReadOff(atan2: (real, real) -> real, asin: real -> real, q: Quat)
    ensures var sinp := PitchS(q);
            QuatToRpy(atan2, asin, q)
            == Rpy(atan2(RollY(q), RollX(q)),
                   if Abs(sinp) >= 1.0 then if sinp < 0.0 then -PI / 2.0 else PI / 2.0 else asin(sinp),
                   atan2(YawY(q), YawX(q)))
  {
  }

  lemma AngleFound(sin: real -> real, cos: real -> real, atan2: (real, real) -> real, asin: real -> real, k: real,
                   a: real, y: real, x: real)
    requires IsInverse(sin, cos, atan2, asin) && 0.0 < k && -PI < a <= PI && y == k * sin(a) && x == k * cos(a)
    ensures atan2(y, x) == a
  {
    assert FindsAngle(sin, cos, atan2, k, a);
  }

  lemma PitchFound(sin: real -> real, cos: real -> real, atan2: (real, real) -> real, asin: real -> real, a: real)
    requires IsTrig(sin, cos) && IsInverse(sin, cos, atan2, asin) && -PI / 2.0 <= a <= PI / 2.0
    ensures a == if Abs(sin(a)) >= 1.0 then if sin(a) < 0.0 then -PI / 2.0 else PI / 2.0 else asin(sin(a))
    ensures -PI / 2.0 < a < PI / 2.0 ==> 0.0 < cos(a)
  {
    hide IsTrig, FindsAngle;
    UnitLaw(sin, cos, a);
    Quarters(sin, cos);
    if -PI / 2.0 < a < PI / 2.0 {
      SineInside(sin(a), cos(a), cos(a) * cos(a));
    }
  }

  /**
   Angles survive the way through the quaternion: roll and yaw wherever the nose is not straight up or down, the pitch
   there too.
   */
  lemma RpyRoundTrip(sqrt: real -> real, sin: real -> real, cos: real -> real, atan2: (real, real) -> real,
                     asin: real -> real, a: Rpy)
    requires IsSqrt(sqrt) && IsTrig(sin, cos) && IsInverse(sin, cos, atan2, asin)
    requires -PI < a.roll <= PI && -PI / 2.0 <= a.pitch <= PI / 2.0 && -PI < a.yaw <= PI
    ensures var back := QuatToRpy(atan2, asin, RpyToQuat(sqrt, sin, cos, a));
            back.pitch == a.pitch && (-PI / 2.0 < a.pitch < PI / 2.0 ==> back == a)
  {
    hide IsTrig, IsSqrt, IsInverse, FromHalves, HalvesOf, RpyToQuat, QuatToRpy, RollY, RollX, PitchS, YawY, YawX;
    RpyIsUnit(sqrt, sin, cos, a);
    var q, c := RpyToQuat(sqrt, sin, cos, a), cos(a.pitch);
    var rollY, rollX, yawY, yawX := c * sin(a.roll), c * cos(a.roll), c * sin(a.yaw), c * cos(a.yaw);
    AnglesShow(sin, cos, a, rollY, rollX, yawY, yawX);
    ReadOff(atan2, asin, q);
    PitchFound(sin, cos, atan2, asin, a.pitch);
    if -PI / 2.0 < a.pitch < PI / 2.0 {
      AngleFound(sin, cos, atan2, asin, c, a.roll, rollY, rollX);
      AngleFound(sin, cos, atan2, asin, c, a.yaw, yawY, yawX);
    }
  }
}
