/** Layout of the dense QPs the low-level controllers assemble
    (src/lowlevel-control.cpp). The decision variable is
    x = (joint-acceleration correction or acceleration [nv],
         force correction [fs * nk], joint torques [nv - 6]);
    the equality rows are the inverse dynamics and the contact constraints,
    and l <= C x holds the linearised friction (or wrench) cone of each
    contact in contact. */
module QpLayout {
  import opened LinearAlgebra

  /** The box and inequality bound used for "unbounded". */
  const Unbounded: real := 100000.0

  /** n = 2 nv - 6 + fs nk */
  function VarCount(nv: nat, fd: nat): nat
    requires nv >= 6
  {
    2 * nv - 6 + fd
  }

  /** neq = nv + fs nk */
  function EqCount(nv: nat, fd: nat): nat
  {
    nv + fd
  }

  /** nin = 9 nk */
  function IneqCount(nk: nat): nat
  {
    9 * nk
  }

  /** The variable vector splits into three consecutive slices (acceleration,
      forces, torques) of the three sizes, which cover it. */
  lemma VariableSlices(x: Vector, nv: nat, fd: nat)
    requires nv >= 6 && |x| == VarCount(nv, fd)
    ensures |x[..nv]| == nv && |x[nv..nv + fd]| == fd && |x[nv + fd..]| == nv - 6
    ensures x[..nv] + x[nv..nv + fd] + x[nv + fd..] == x
  {
  }

  /** What the kinematics library returns for one frame: its 6 x nv Jacobian,
      the Jacobian's time variation, and the frame's linear and angular
      velocity. These are inputs to the model. */
  datatype FrameKinematics = FrameKinematics(jacobian: Matrix, jacobianDot: Matrix, linear: Vector, angular: Vector)

  predicate KinematicsFit(k: FrameKinematics, nv: nat)
  {
    IsMatrix(k.jacobian, 6, nv) && IsMatrix(k.jacobianDot, 6, nv) && |k.linear| == 3 && |k.angular| == 3
  }

  // ---------------------------------------------------------------------------
  // The cone block

  /** Cmin, 9 x fs, row by row as the comma initialiser fills it. */
  function CminMatrix(fs: nat, mu: real, footWidth: real, footLength: real): (m: Matrix)
    requires fs == 3 || fs == 6
    ensures IsMatrix(m, 9, fs)
  {
    if fs == 3 then
      [[-1.0, 0.0, mu], [1.0, 0.0, mu], [-1.0, 0.0, mu], [1.0, 0.0, mu],
       [0.0, 0.0, 1.0], [0.0, 0.0, 1.0], [0.0, 0.0, 1.0], [0.0, 0.0, 1.0], [0.0, 0.0, 1.0]]
    else
      [[-1.0, 0.0, mu, 0.0, 0.0, 0.0], [1.0, 0.0, mu, 0.0, 0.0, 0.0],
       [-1.0, 0.0, mu, 0.0, 0.0, 0.0], [1.0, 0.0, mu, 0.0, 0.0, 0.0],
       [0.0, 0.0, 1.0, 0.0, 0.0, 0.0],
       [0.0, 0.0, footWidth, -1.0, 0.0, 0.0], [0.0, 0.0, footWidth, 1.0, 0.0, 0.0],
       [0.0, 0.0, footLength, 0.0, -1.0, 0.0], [0.0, 0.0, footLength, 0.0, 1.0, 0.0]]
  }

  /** The nine lower bounds, from the five numbers read for one contact
      (fx, fy, fz, tx, ty). */
  function ConeBounds(fx: real, fy: real, fz: real, tx: real, ty: real,
                      mu: real, footWidth: real, footLength: real): (l: Vector)
    ensures |l| == 9
  {
    [fx - fz * mu, -fx - fz * mu, fy - fz * mu, -fy - fz * mu, -fz,
     tx - fz * footWidth, -tx - fz * footWidth, ty - fz * footLength, -ty - fz * footLength]
  }

  /** The nine lower bounds written for contact i, read from `forces` at
      i*fs + 0 .. i*fs + 4 whatever fs is. */
  function ConeLowerBounds(forces: Vector, i: nat, fs: nat, mu: real, footWidth: real, footLength: real): (l: Vector)
    requires i * fs + 4 < |forces|
    ensures |l| == 9
  {
    ConeBounds(forces[i * fs], forces[i * fs + 1], forces[i * fs + 2], forces[i * fs + 3], forces[i * fs + 4],
               mu, footWidth, footLength)
  }

  /** The nine rows l <= Cmin df of one contact hold for the force correction df. */
  predicate ConeRowsHold(cm: Matrix, l: Vector, df: Vector)
    requires IsMatrix(cm, 9, |df|) && |l| == 9
  {
    forall j :: 0 <= j < 9 ==> Dot(cm[j], df) >= l[j]
  }

  lemma Dot1(p: Vector, q: Vector)
    requires |p| == 1 && |q| == 1
    ensures Dot(p, q) == p[0] * q[0]
  {
    assert Dot(p[1..], q[1..]) == 0.0;
  }

  lemma Dot3(p: Vector, q: Vector)
    requires |p| == 3 && |q| == 3
    ensures Dot(p, q) == p[0] * q[0] + p[1] * q[1] + p[2] * q[2]
  {
    var p1, q1 := p[1..], q[1..];
    var p2, q2 := p1[1..], q1[1..];
    Dot1(p2, q2);
    assert Dot(p1, q1) == p1[0] * q1[0] + Dot(p2, q2);
  }

  lemma Dot6(p: Vector, q: Vector)
    requires |p| == 6 && |q| == 6
    ensures Dot(p, q) == p[0] * q[0] + p[1] * q[1] + p[2] * q[2] + p[3] * q[3] + p[4] * q[4] + p[5] * q[5]
  {
    var p1, q1 := p[1..], q[1..];
    var p2, q2 := p1[1..], q1[1..];
    var p3, q3 := p2[1..], q2[1..];
    Dot3(p3, q3);
    assert Dot(p2, q2) == p2[0] * q2[0] + Dot(p3, q3);
    assert Dot(p1, q1) == p1[0] * q1[0] + Dot(p2, q2);
  }

  /** The nine rows hold iff each of them does. */
  lemma ConeRowsUnrolled(cm: Matrix, l: Vector, df: Vector)
    requires IsMatrix(cm, 9, |df|) && |l| == 9
    ensures ConeRowsHold(cm, l, df) <==>
      && Dot(cm[0], df) >= l[0] && Dot(cm[1], df) >= l[1] && Dot(cm[2], df) >= l[2]
      && Dot(cm[3], df) >= l[3] && Dot(cm[4], df) >= l[4] && Dot(cm[5], df) >= l[5]
      && Dot(cm[6], df) >= l[6] && Dot(cm[7], df) >= l[7] && Dot(cm[8], df) >= l[8]
  {
    if Dot(cm[0], df) >= l[0] && Dot(cm[1], df) >= l[1] && Dot(cm[2], df) >= l[2]
      && Dot(cm[3], df) >= l[3] && Dot(cm[4], df) >= l[4] && Dot(cm[5], df) >= l[5]
      && Dot(cm[6], df) >= l[6] && Dot(cm[7], df) >= l[7] && Dot(cm[8], df) >= l[8]
    {
      forall j | 0 <= j < 9
        ensures Dot(cm[j], df) >= l[j]
      {
        assert j == 0 || j == 1 || j == 2 || j == 3 || j == 4 || j == 5 || j == 6 || j == 7 || j == 8;
      }
    }
  }

  lemma FrictionRow6(sgn: real, mu: real, df: Vector)
    requires |df| == 6
    ensures Dot([sgn, 0.0, mu, 0.0, 0.0, 0.0], df) == sgn * df[0] + mu * df[2]
  {
    Dot6([sgn, 0.0, mu, 0.0, 0.0, 0.0], df);
  }

  lemma CopRow6(k: nat, sgn: real, c: real, df: Vector)
    requires |df| == 6 && (k == 3 || k == 4)
    ensures Dot([0.0, 0.0, c, 0.0, 0.0, 0.0][k := sgn], df) == c * df[2] + sgn * df[k]
  {
    Dot6([0.0, 0.0, c, 0.0, 0.0, 0.0][k := sgn], df);
  }

  lemma FrictionRow3(sgn: real, mu: real, df: Vector)
    requires |df| == 3
    ensures Dot([sgn, 0.0, mu], df) == sgn * df[0] + mu * df[2]
  {
    Dot3([sgn, 0.0, mu], df);
  }

  /** What rows 0-4 of the 9 x 6 Cmin compute on a wrench correction. */
  lemma WrenchFrictionRowDots(mu: real, footWidth: real, footLength: real, df: Vector)
    requires |df| == 6
    ensures var cm := CminMatrix(6, mu, footWidth, footLength);
      && Dot(cm[0], df) == mu * df[2] - df[0] && Dot(cm[1], df) == mu * df[2] + df[0]
      && Dot(cm[2], df) == mu * df[2] - df[0] && Dot(cm[3], df) == mu * df[2] + df[0]
      && Dot(cm[4], df) == df[2]
  {
    var cm := CminMatrix(6, mu, footWidth, footLength);
    assert cm[0] == cm[2] == [-1.0, 0.0, mu, 0.0, 0.0, 0.0];
    assert cm[1] == cm[3] == [1.0, 0.0, mu, 0.0, 0.0, 0.0];
    assert cm[4] == [0.0, 0.0, 1.0, 0.0, 0.0, 0.0];
    FrictionRow6(-1.0, mu, df);
    FrictionRow6(1.0, mu, df);
    FrictionRow6(0.0, 1.0, df);
  }

  /** What rows 5-8 of the 9 x 6 Cmin compute on a wrench correction. */
  lemma WrenchCopRowDots(mu: real, footWidth: real, footLength: real, df: Vector)
    requires |df| == 6
    ensures var cm := CminMatrix(6, mu, footWidth, footLength);
      && Dot(cm[5], df) == footWidth * df[2] - df[3] && Dot(cm[6], df) == footWidth * df[2] + df[3]
      && Dot(cm[7], df) == footLength * df[2] - df[4] && Dot(cm[8], df) == footLength * df[2] + df[4]
  {
    var cm := CminMatrix(6, mu, footWidth, footLength);
    assert cm[5] == [0.0, 0.0, footWidth, 0.0, 0.0, 0.0][3 := -1.0];
    assert cm[6] == [0.0, 0.0, footWidth, 0.0, 0.0, 0.0][3 := 1.0];
    assert cm[7] == [0.0, 0.0, footLength, 0.0, 0.0, 0.0][4 := -1.0];
    assert cm[8] == [0.0, 0.0, footLength, 0.0, 0.0, 0.0][4 := 1.0];
    CopRow6(3, -1.0, footWidth, df);
    CopRow6(3, 1.0, footWidth, df);
    CopRow6(4, -1.0, footLength, df);
    CopRow6(4, 1.0, footLength, df);
  }

  /** What each row of the 9 x 3 Cmin computes on a force correction. */
  lemma ForceRowDots(mu: real, footWidth: real, footLength: real, df: Vector)
    requires |df| == 3
    ensures var cm := CminMatrix(3, mu, footWidth, footLength);
      && Dot(cm[0], df) == mu * df[2] - df[0] && Dot(cm[1], df) == mu * df[2] + df[0]
      && Dot(cm[2], df) == mu * df[2] - df[0] && Dot(cm[3], df) == mu * df[2] + df[0]
      && Dot(cm[4], df) == df[2] && Dot(cm[5], df) == df[2] && Dot(cm[6], df) == df[2]
      && Dot(cm[7], df) == df[2] && Dot(cm[8], df) == df[2]
  {
    var cm := CminMatrix(3, mu, footWidth, footLength);
    assert cm[0] == cm[2] == [-1.0, 0.0, mu];
    assert cm[1] == cm[3] == [1.0, 0.0, mu];
    assert cm[4] == cm[5] == cm[6] == cm[7] == cm[8] == [0.0, 0.0, 1.0];
    FrictionRow3(-1.0, mu, df);
    FrictionRow3(1.0, mu, df);
    FrictionRow3(0.0, 1.0, df);
  }

  /** A row bound "c >= l" reads as "lhs >= rhs" when both differences agree. */
  lemma BoundRead(c: real, l: real, lhs: real, rhs: real)
    requires c - l == lhs - rhs
    ensures (c >= l) == (lhs >= rhs)
  {
  }

  /** Rows 0-4 of one contact, on scalars: with (fx, fy, fz) the force read from
      the slot and (d0, ., d2) the correction, the rows bound Fx = fx + d0 and
      Fz = fz + d2; rows 2-3 bound d0 + fy. */
  lemma FrictionBoundsRead(c: Vector, l: Vector, mu: real, fx: real, fy: real, fz: real, d0: real, d2: real)
    requires |c| == 9 && |l| == 9
    requires c[0] == mu * d2 - d0 && c[1] == mu * d2 + d0
    requires c[2] == mu * d2 - d0 && c[3] == mu * d2 + d0 && c[4] == d2
    requires l[0] == fx - fz * mu && l[1] == -fx - fz * mu && l[2] == fy - fz * mu && l[3] == -fy - fz * mu
    requires l[4] == -fz
    ensures (c[0] >= l[0]) == (mu * (fz + d2) >= fx + d0)
    ensures (c[1] >= l[1]) == (fx + d0 >= -mu * (fz + d2))
    ensures (c[2] >= l[2]) == (mu * (fz + d2) >= d0 + fy)
    ensures (c[3] >= l[3]) == (d0 + fy >= -mu * (fz + d2))
    ensures (c[4] >= l[4]) == (fz + d2 >= 0.0)
  {
    BoundRead(c[0], l[0], mu * (fz + d2), fx + d0);
    BoundRead(c[1], l[1], fx + d0, -mu * (fz + d2));
    BoundRead(c[2], l[2], mu * (fz + d2), d0 + fy);
    BoundRead(c[3], l[3], d0 + fy, -mu * (fz + d2));
  }

  /** Rows 5-8 of a 6-D contact, on scalars: they bound Tx = tx + d3 by the foot
      width and Ty = ty + d4 by the foot length, both times Fz = fz + d2. */
  lemma CopBoundsRead(c: Vector, l: Vector, footWidth: real, footLength: real, fz: real, tx: real, ty: real,
                      d2: real, d3: real, d4: real)
    requires |c| == 9 && |l| == 9
    requires c[5] == footWidth * d2 - d3 && c[6] == footWidth * d2 + d3
    requires c[7] == footLength * d2 - d4 && c[8] == footLength * d2 + d4
    requires l[5] == tx - fz * footWidth && l[6] == -tx - fz * footWidth
    requires l[7] == ty - fz * footLength && l[8] == -ty - fz * footLength
    ensures (c[5] >= l[5]) == (footWidth * (fz + d2) >= tx + d3)
    ensures (c[6] >= l[6]) == (tx + d3 >= -footWidth * (fz + d2))
    ensures (c[7] >= l[7]) == (footLength * (fz + d2) >= ty + d4)
    ensures (c[8] >= l[8]) == (ty + d4 >= -footLength * (fz + d2))
  {
    BoundRead(c[5], l[5], footWidth * (fz + d2), tx + d3);
    BoundRead(c[6], l[6], tx + d3, -footWidth * (fz + d2));
    BoundRead(c[7], l[7], footLength * (fz + d2), ty + d4);
    BoundRead(c[8], l[8], ty + d4, -footLength * (fz + d2));
  }

  /** Given what the nine 6-D rows compute (c), each row "c_j >= l_j" reads
      as a bound on the corrected wrench (fx + d0, ., fz + d2, tx + d3, ty + d4). */
  lemma WrenchRowsRead(c: Vector, mu: real, footWidth: real, footLength: real,
                         fx: real, fy: real, fz: real, tx: real, ty: real, d0: real, d2: real, d3: real, d4: real)
    requires |c| == 9
    requires c[0] == mu * d2 - d0 && c[1] == mu * d2 + d0
    requires c[2] == mu * d2 - d0 && c[3] == mu * d2 + d0 && c[4] == d2
    requires c[5] == footWidth * d2 - d3 && c[6] == footWidth * d2 + d3
    requires c[7] == footLength * d2 - d4 && c[8] == footLength * d2 + d4
    ensures var l := ConeBounds(fx, fy, fz, tx, ty, mu, footWidth, footLength);
      && (c[0] >= l[0]) == (mu * (fz + d2) >= fx + d0)
      && (c[1] >= l[1]) == (fx + d0 >= -mu * (fz + d2))
      && (c[2] >= l[2]) == (mu * (fz + d2) >= d0 + fy)
      && (c[3] >= l[3]) == (d0 + fy >= -mu * (fz + d2))
      && (c[4] >= l[4]) == (fz + d2 >= 0.0)
      && (c[5] >= l[5]) == (footWidth * (fz + d2) >= tx + d3)
      && (c[6] >= l[6]) == (tx + d3 >= -footWidth * (fz + d2))
      && (c[7] >= l[7]) == (footLength * (fz + d2) >= ty + d4)
      && (c[8] >= l[8]) == (ty + d4 >= -footLength * (fz + d2))
  {
    var l := ConeBounds(fx, fy, fz, tx, ty, mu, footWidth, footLength);
    FrictionBoundsRead(c, l, mu, fx, fy, fz, d0, d2);
    CopBoundsRead(c, l, footWidth, footLength, fz, tx, ty, d2, d3, d4);
  }

  /** Given what the nine 6-D rows compute (c), each row "c_j >= l_j" reads
      as a bound on the corrected wrench f + df. */
  lemma WrenchBoundsRead(f: Vector, df: Vector, mu: real, footWidth: real, footLength: real, c: Vector)
    requires |f| == 6 && |df| == 6 && |c| == 9
    requires c[0] == mu * df[2] - df[0] && c[1] == mu * df[2] + df[0]
    requires c[2] == mu * df[2] - df[0] && c[3] == mu * df[2] + df[0] && c[4] == df[2]
    requires c[5] == footWidth * df[2] - df[3] && c[6] == footWidth * df[2] + df[3]
    requires c[7] == footLength * df[2] - df[4] && c[8] == footLength * df[2] + df[4]
    ensures var Fx, Fz, Tx, Ty := f[0] + df[0], f[2] + df[2], f[3] + df[3], f[4] + df[4];
      var l := ConeLowerBounds(f, 0, 6, mu, footWidth, footLength);
      && (c[0] >= l[0]) == (mu * Fz >= Fx)
      && (c[1] >= l[1]) == (Fx >= -mu * Fz)
      && (c[2] >= l[2]) == (mu * Fz >= df[0] + f[1])
      && (c[3] >= l[3]) == (df[0] + f[1] >= -mu * Fz)
      && (c[4] >= l[4]) == (Fz >= 0.0)
      && (c[5] >= l[5]) == (footWidth * Fz >= Tx)
      && (c[6] >= l[6]) == (Tx >= -footWidth * Fz)
      && (c[7] >= l[7]) == (footLength * Fz >= Ty)
      && (c[8] >= l[8]) == (Ty >= -footLength * Fz)
  {
    assert ConeLowerBounds(f, 0, 6, mu, footWidth, footLength) == ConeBounds(f[0], f[1], f[2], f[3], f[4], mu, footWidth, footLength);
    WrenchRowsRead(c, mu, footWidth, footLength, f[0], f[1], f[2], f[3], f[4], df[0], df[2], df[3], df[4]);
  }

  /** With 6-D contact wrenches, the nine rows say of the corrected wrench
      (Fx, Fy, Fz, Tx, Ty) = f + df: |Fx| <= mu Fz, Fz >= 0, |Tx| <= W Fz,
      |Ty| <= L Fz, and
      (rows 2-3, which repeat rows 0-1 of Cmin while their bounds use fy)
      |dfx + fy| <= mu Fz; nothing bounds Fy. */
  lemma WrenchConeRows(f: Vector, df: Vector, mu: real, footWidth: real, footLength: real)
    requires |f| == 6 && |df| == 6
    ensures var Fx, Fz, Tx, Ty := f[0] + df[0], f[2] + df[2], f[3] + df[3], f[4] + df[4];
      ConeRowsHold(CminMatrix(6, mu, footWidth, footLength), ConeLowerBounds(f, 0, 6, mu, footWidth, footLength), df)
      <==>
      && mu * Fz >= Fx && Fx >= -mu * Fz
      && mu * Fz >= df[0] + f[1] && df[0] + f[1] >= -mu * Fz
      && Fz >= 0.0
      && footWidth * Fz >= Tx && Tx >= -footWidth * Fz
      && footLength * Fz >= Ty && Ty >= -footLength * Fz
  {
    var cm := CminMatrix(6, mu, footWidth, footLength);
    ConeRowsUnrolled(cm, ConeLowerBounds(f, 0, 6, mu, footWidth, footLength), df);
    WrenchFrictionRowDots(mu, footWidth, footLength, df);
    WrenchCopRowDots(mu, footWidth, footLength, df);
    WrenchBoundsRead(f, df, mu, footWidth, footLength, seq(9, j requires 0 <= j < 9 => Dot(cm[j], df)));
  }

  /** Given what the nine 3-D rows compute (c), each row "c_j >= l_j" reads
      as a bound on the corrected force (fx + d0, ., fz + d2); rows 5-8 bound
      d2 alone by the two other numbers read, tx and ty. */
  lemma ForceRowsRead(c: Vector, mu: real, footWidth: real, footLength: real,
                        fx: real, fy: real, fz: real, tx: real, ty: real, d0: real, d2: real)
    requires |c| == 9
    requires c[0] == mu * d2 - d0 && c[1] == mu * d2 + d0
    requires c[2] == mu * d2 - d0 && c[3] == mu * d2 + d0
    requires c[4] == d2 && c[5] == d2 && c[6] == d2 && c[7] == d2 && c[8] == d2
    ensures var l := ConeBounds(fx, fy, fz, tx, ty, mu, footWidth, footLength);
      && (c[0] >= l[0]) == (mu * (fz + d2) >= fx + d0)
      && (c[1] >= l[1]) == (fx + d0 >= -mu * (fz + d2))
      && (c[2] >= l[2]) == (mu * (fz + d2) >= d0 + fy)
      && (c[3] >= l[3]) == (d0 + fy >= -mu * (fz + d2))
      && (c[4] >= l[4]) == (fz + d2 >= 0.0)
      && (c[5] >= l[5]) == (d2 >= tx - fz * footWidth)
      && (c[6] >= l[6]) == (d2 >= -tx - fz * footWidth)
      && (c[7] >= l[7]) == (d2 >= ty - fz * footLength)
      && (c[8] >= l[8]) == (d2 >= -ty - fz * footLength)
  {
    var l := ConeBounds(fx, fy, fz, tx, ty, mu, footWidth, footLength);
    FrictionBoundsRead(c, l, mu, fx, fy, fz, d0, d2);
  }

  /** Given what the nine 3-D rows compute (c), each row "c_j >= l_j" reads
      as a bound on the corrected force (Fx, ., Fz) of slot i, rows 5-8
      reading the next slot. */
  lemma ForceBoundsRead(forces: Vector, i: nat, df: Vector, mu: real, footWidth: real, footLength: real, c: Vector)
    requires i * 3 + 4 < |forces| && |df| == 3 && |c| == 9
    requires c[0] == mu * df[2] - df[0] && c[1] == mu * df[2] + df[0]
    requires c[2] == mu * df[2] - df[0] && c[3] == mu * df[2] + df[0]
    requires c[4] == df[2] && c[5] == df[2] && c[6] == df[2] && c[7] == df[2] && c[8] == df[2]
    ensures var fx, fy, fz := forces[i * 3], forces[i * 3 + 1], forces[i * 3 + 2];
      var Fx, Fz := fx + df[0], fz + df[2];
      var l := ConeLowerBounds(forces, i, 3, mu, footWidth, footLength);
      && (c[0] >= l[0]) == (mu * Fz >= Fx)
      && (c[1] >= l[1]) == (Fx >= -mu * Fz)
      && (c[2] >= l[2]) == (mu * Fz >= df[0] + fy)
      && (c[3] >= l[3]) == (df[0] + fy >= -mu * Fz)
      && (c[4] >= l[4]) == (Fz >= 0.0)
      && (c[5] >= l[5]) == (df[2] >= forces[i * 3 + 3] - fz * footWidth)
      && (c[6] >= l[6]) == (df[2] >= -forces[i * 3 + 3] - fz * footWidth)
      && (c[7] >= l[7]) == (df[2] >= forces[i * 3 + 4] - fz * footLength)
      && (c[8] >= l[8]) == (df[2] >= -forces[i * 3 + 4] - fz * footLength)
  {
    var fx, fy, fz, tx, ty := forces[i * 3], forces[i * 3 + 1], forces[i * 3 + 2], forces[i * 3 + 3], forces[i * 3 + 4];
    assert ConeLowerBounds(forces, i, 3, mu, footWidth, footLength) == ConeBounds(fx, fy, fz, tx, ty, mu, footWidth, footLength);
    ForceRowsRead(c, mu, footWidth, footLength, fx, fy, fz, tx, ty, df[0], df[2]);
  }

  /** With 3-D contact forces, rows 0-4 say the same of the corrected force
      (Fx, Fy, Fz) of slot i, but rows 5-8 bound dfz by the x and y force of
      the NEXT contact's slot, forces[3i+3] and forces[3i+4]. */
  lemma FrictionConeRows(forces: Vector, i: nat, df: Vector, mu: real, footWidth: real, footLength: real)
    requires i * 3 + 4 < |forces| && |df| == 3
    ensures var fx, fy, fz := forces[i * 3], forces[i * 3 + 1], forces[i * 3 + 2];
      var Fx, Fz := fx + df[0], fz + df[2];
      ConeRowsHold(CminMatrix(3, mu, footWidth, footLength), ConeLowerBounds(forces, i, 3, mu, footWidth, footLength), df)
      <==>
      && mu * Fz >= Fx && Fx >= -mu * Fz
      && mu * Fz >= df[0] + fy && df[0] + fy >= -mu * Fz
      && Fz >= 0.0
      && df[2] >= forces[i * 3 + 3] - fz * footWidth && df[2] >= -forces[i * 3 + 3] - fz * footWidth
      && df[2] >= forces[i * 3 + 4] - fz * footLength && df[2] >= -forces[i * 3 + 4] - fz * footLength
  {
    var cm := CminMatrix(3, mu, footWidth, footLength);
    ConeRowsUnrolled(cm, ConeLowerBounds(forces, i, 3, mu, footWidth, footLength), df);
    ForceRowDots(mu, footWidth, footLength, df);
    ForceBoundsRead(forces, i, df, mu, footWidth, footLength, seq(9, j requires 0 <= j < 9 => Dot(cm[j], df)));
  }

  /** Rows 2-3 of Cmin repeat rows 0-1: a wrench with a large y force
      (f = (0,0,1,0,0,0) corrected by df = (0,5,0,0,0,0), mu = 1/2) passes all
      nine rows although |Fy| = 5 > mu Fz. */
  lemma LateralForceUnbounded()
    ensures var f := [0.0, 0.0, 1.0, 0.0, 0.0, 0.0];
      var df := [0.0, 5.0, 0.0, 0.0, 0.0, 0.0];
      var F := Add(f, df);
      && ConeRowsHold(CminMatrix(6, 0.5, 0.1, 0.2), ConeLowerBounds(f, 0, 6, 0.5, 0.1, 0.2), df)
      && F[1] > 0.5 * F[2]
  {
    var f := [0.0, 0.0, 1.0, 0.0, 0.0, 0.0];
    var df := [0.0, 5.0, 0.0, 0.0, 0.0, 0.0];
    WrenchConeRows(f, df, 0.5, 0.1, 0.2);
  }

  // ---------------------------------------------------------------------------
  // Inequality rows of one contact

  /** The 9 rows of C for a contact whose force slot starts at column `off`:
      Cmin in columns off .. off + w, zero everywhere else. */
  function ConeBlockRows(n: nat, off: nat, cm: Matrix, w: nat): (rows: Matrix)
    requires IsMatrix(cm, 9, w) && off + w <= n
    ensures IsMatrix(rows, 9, n)
    ensures forall j, c :: 0 <= j < 9 && 0 <= c < n ==>
      rows[j][c] == if off <= c < off + w then cm[j][c - off] else 0.0
  {
    seq(9, j requires 0 <= j < 9 => Splice(Zeros(n), off, cm[j]))
  }

  /** A row that is zero outside columns off .. off + |t| only sees that slice of x. */
  lemma SplicedRowDot(n: nat, off: nat, t: Vector, x: Vector)
    requires off + |t| <= n && |x| == n
    ensures Dot(Splice(Zeros(n), off, t), x) == Dot(t, x[off .. off + |t|])
  {
    var row := Splice(Zeros(n), off, t);
    var e := off + |t|;
    assert row == Zeros(off) + t + Zeros(n - e) by {
      assert row == Zeros(n)[..off] + t + Zeros(n)[e..];
      assert Zeros(n)[..off] == Zeros(off);
      assert Zeros(n)[e..] == Zeros(n - e);
    }
    assert x == x[..off] + x[off .. e] + x[e..];
    DotConcat(Zeros(off) + t, Zeros(n - e), x[..off] + x[off .. e], x[e..]);
    DotConcat(Zeros(off), t, x[..off], x[off .. e]);
    DotZerosLeft(off, x[..off]);
    DotZerosLeft(n - e, x[e..]);
  }

  /** The rows l <= C x of a contact in contact constrain exactly the force
      correction of that contact with the cone rows. */
  lemma ConeBlockMeaning(n: nat, off: nat, cm: Matrix, w: nat, l: Vector, x: Vector)
    requires IsMatrix(cm, 9, w) && off + w <= n && |x| == n && |l| == 9
    ensures (forall j :: 0 <= j < 9 ==> Dot(ConeBlockRows(n, off, cm, w)[j], x) >= l[j])
      <==> ConeRowsHold(cm, l, x[off .. off + w])
  {
    forall j | 0 <= j < 9
      ensures Dot(ConeBlockRows(n, off, cm, w)[j], x) == Dot(cm[j], x[off .. off + w])
    {
      SplicedRowDot(n, off, cm[j], x);
    }
  }

  /** The rows of a contact not in contact (zero rows, zero bounds) constrain nothing. */
  lemma ZeroRowsVacuous(n: nat, x: Vector)
    requires |x| == n
    ensures forall j :: 0 <= j < 9 ==> Dot(ZeroMatrix(9, n)[j], x) >= Zeros(9)[j]
  {
    forall j | 0 <= j < 9
      ensures Dot(ZeroMatrix(9, n)[j], x) == 0.0
    {
      DotZerosLeft(n, x);
    }
  }

  /** Every contact in contact has the five entries i*fs .. i*fs+4 that its
      bounds read inside `forces`: always so for fs = 6; for fs = 3 the reads
      of entries 3 and 4 leave the vector at the last contact. */
  predicate ConeBoundsInRange(forces: Vector, active: seq<bool>, fs: nat)
  {
    forall i :: 0 <= i < |active| && active[i] ==> i * fs + 4 < |forces|
  }

  /** The 9-row slices of C once contacts 0 .. upto-1 have been visited: the
      cone block of each visited contact in contact, zero rows otherwise. */
  function CBlocks(n: nat, nv: nat, fs: nat, cm: Matrix, active: seq<bool>, upto: nat): (bs: seq<Matrix>)
    requires IsMatrix(cm, 9, fs) && nv + |active| * fs <= n
    ensures |bs| == |active|
  {
    seq(|active|, i requires 0 <= i < |active| =>
      if i < upto && active[i] then (Slot(i, |active|, fs); ConeBlockRows(n, nv + i * fs, cm, fs))
      else ZeroMatrix(9, n))
  }

  /** The 9-entry slices of l once contacts 0 .. upto-1 have been visited. */
  function LBlocks(forces: Vector, fs: nat, mu: real, footWidth: real, footLength: real,
                   active: seq<bool>, upto: nat): (bs: seq<Vector>)
    requires ConeBoundsInRange(forces, active, fs)
    ensures |bs| == |active|
  {
    seq(|active|, i requires 0 <= i < |active| =>
      if i < upto && active[i] then ConeLowerBounds(forces, i, fs, mu, footWidth, footLength) else Zeros(9))
  }

  /** `C.block(9i, nv + i fs, 9, fs) = Cmin` on the still zero rows of a
      contact i in contact gives that contact its cone block. */
  lemma ConeBlockWrite(c: Matrix, n: nat, nv: nat, fs: nat, cm: Matrix, active: seq<bool>, i: nat)
    requires IsMatrix(cm, 9, fs) && nv + |active| * fs <= n && i < |active| && active[i]
    requires IsMatrix(c, 9 * |active|, n) && SlotsAre(c, 9, CBlocks(n, nv, fs, cm, active, i))
    ensures 9 * i + 9 <= |c| && nv + i * fs + fs <= n
    ensures IsMatrix(WriteBlock(c, 9 * i, nv + i * fs, cm, fs), 9 * |active|, n)
    ensures SlotsAre(WriteBlock(c, 9 * i, nv + i * fs, cm, fs), 9, CBlocks(n, nv, fs, cm, active, i + 1))
  {
    Slot(i, |active|, fs);
    Slot(i, |active|, 9);
    var off := nv + i * fs;
    var block := ConeBlockRows(n, off, cm, fs);
    assert Segment(c, i, 9) == ZeroMatrix(9, n);
    forall r | 9 * i <= r < 9 * i + 9
      ensures c[r] == Zeros(n)
    {
      assert c[r] == Segment(c, i, 9)[r - 9 * i];
    }
    ConeOnZeroRows(c, n, 9 * i, off, cm, fs);
    SlotsWrite(c, 9, CBlocks(n, nv, fs, cm, active, i), i, block);
    assert CBlocks(n, nv, fs, cm, active, i + 1) == CBlocks(n, nv, fs, cm, active, i)[i := block];
  }

  /** Writing Cmin into 9 zero rows of C makes them that contact's cone rows. */
  lemma ConeOnZeroRows(c: Matrix, n: nat, r0: nat, off: nat, cm: Matrix, fs: nat)
    requires IsMatrix(cm, 9, fs) && off + fs <= n && IsMatrix(c, |c|, n) && r0 + 9 <= |c|
    requires forall r :: r0 <= r < r0 + 9 ==> c[r] == Zeros(n)
    ensures WriteBlock(c, r0, off, cm, fs) == Splice(c, r0, ConeBlockRows(n, off, cm, fs))
  {
    var w, s := WriteBlock(c, r0, off, cm, fs), Splice(c, r0, ConeBlockRows(n, off, cm, fs));
    forall r | 0 <= r < |c|
      ensures w[r] == s[r]
    {
    }
  }

  /** A contact not in contact leaves its slice of C zero. */
  lemma CBlocksSkip(n: nat, nv: nat, fs: nat, cm: Matrix, active: seq<bool>, i: nat)
    requires IsMatrix(cm, 9, fs) && nv + |active| * fs <= n && i < |active| && !active[i]
    ensures CBlocks(n, nv, fs, cm, active, i + 1) == CBlocks(n, nv, fs, cm, active, i)
  {
  }

  /** `l.segment(9i, 9) = bounds` for a contact i in contact. */
  lemma LBlocksWrite(l: Vector, forces: Vector, fs: nat, mu: real, footWidth: real, footLength: real,
                     active: seq<bool>, i: nat)
    requires ConeBoundsInRange(forces, active, fs) && i < |active| && active[i]
    requires SlotsAre(l, 9, LBlocks(forces, fs, mu, footWidth, footLength, active, i))
    ensures 9 * i + 9 <= |l|
    ensures SlotsAre(Splice(l, 9 * i, ConeLowerBounds(forces, i, fs, mu, footWidth, footLength)), 9,
                     LBlocks(forces, fs, mu, footWidth, footLength, active, i + 1))
  {
    var bound := ConeLowerBounds(forces, i, fs, mu, footWidth, footLength);
    SlotsWrite(l, 9, LBlocks(forces, fs, mu, footWidth, footLength, active, i), i, bound);
    assert LBlocks(forces, fs, mu, footWidth, footLength, active, i + 1)
        == LBlocks(forces, fs, mu, footWidth, footLength, active, i)[i := bound];
  }

  lemma LBlocksSkip(forces: Vector, fs: nat, mu: real, footWidth: real, footLength: real,
                    active: seq<bool>, i: nat)
    requires ConeBoundsInRange(forces, active, fs) && i < |active| && !active[i]
    ensures LBlocks(forces, fs, mu, footWidth, footLength, active, i + 1)
         == LBlocks(forces, fs, mu, footWidth, footLength, active, i)
  {
  }

  /** Every one of nk contacts marked: the initialisers place a block for each. */
  function AllContacts(nk: nat): (active: seq<bool>)
    ensures |active| == nk && forall i :: 0 <= i < nk ==> active[i]
  {
    seq(nk, i => true)
  }

  /** The loop `for i < nk: C.block(9i, nv + i fs, 9, fs) = Cmin` of both
      initialisers, for the contacts marked in `active`, on a zero C. */
  method PlaceConeBlocks(n: nat, nv: nat, fs: nat, cm: Matrix, active: seq<bool>) returns (c: Matrix)
    requires IsMatrix(cm, 9, fs) && nv + |active| * fs <= n
    ensures IsMatrix(c, 9 * |active|, n)
    ensures SlotsAre(c, 9, CBlocks(n, nv, fs, cm, active, |active|))
  {
    var nk := |active|;
    c := ZeroMatrix(9 * nk, n);
    ZeroMatrixSlots(nk, 9, n);
    assert CBlocks(n, nv, fs, cm, active, 0) == seq(nk, j => ZeroMatrix(9, n));
    var i := 0;
    while i < nk
      invariant i <= nk
      invariant IsMatrix(c, 9 * nk, n)
      invariant SlotsAre(c, 9, CBlocks(n, nv, fs, cm, active, i))
    {
      if active[i] {
        ConeBlockWrite(c, n, nv, fs, cm, active, i);
        c := WriteBlock(c, 9 * i, nv + i * fs, cm, fs);
      } else {
        CBlocksSkip(n, nv, fs, cm, active, i);
      }
      i := i + 1;
    }
  }

  /** At contact offset `off`, the force correction of the contact lies inside
      x and satisfies the nine cone rows. */
  predicate ConeHoldsAt(cm: Matrix, fs: nat, bound: Vector, x: Vector, off: nat)
    requires IsMatrix(cm, 9, fs) && |bound| == 9
  {
    off + fs <= |x| && ConeRowsHold(cm, bound, x[off .. off + fs])
  }

  /** The nine rows of one contact: the cone when it is in contact, nothing otherwise. */
  lemma ContactRowsMeaning(c: Matrix, l: Vector, n: nat, off: nat, fs: nat, cm: Matrix,
                           act: bool, bound: Vector, x: Vector, i: nat)
    requires IsMatrix(cm, 9, fs) && off + fs <= n && |x| == n && |bound| == 9
    requires 9 * i + 9 <= |c| && 9 * i + 9 <= |l|
    requires Segment(c, i, 9) == if act then ConeBlockRows(n, off, cm, fs) else ZeroMatrix(9, n)
    requires Segment(l, i, 9) == if act then bound else Zeros(9)
    ensures (forall j :: 0 <= j < 9 ==> Dot(Segment(c, i, 9)[j], x) >= Segment(l, i, 9)[j])
        <==> (act ==> ConeHoldsAt(cm, fs, bound, x, off))
  {
    if act {
      ConeBlockMeaning(n, off, cm, fs, bound, x);
    } else {
      ZeroRowsVacuous(n, x);
    }
  }

  /** Rows i*9 .. i*9+8 of l <= C x hold. */
  predicate SliceRowsHold(c: Matrix, l: Vector, x: Vector, i: nat)
    requires 9 * i + 9 <= |c| && 9 * i + 9 <= |l| && forall r :: 0 <= r < |c| ==> |c[r]| == |x|
  {
    forall j :: 0 <= j < 9 ==> Dot(Segment(c, i, 9)[j], x) >= Segment(l, i, 9)[j]
  }

  /** Entry j of slice i is entry 9i + j. */
  lemma SliceEntry<T>(u: seq<T>, i: nat, j: nat)
    requires 9 * i + 9 <= |u| && j < 9
    ensures Segment(u, i, 9)[j] == u[9 * i + j]
  {
  }

  /** l <= C x, read nine rows at a time. */
  lemma RowsBySlices(c: Matrix, l: Vector, x: Vector, nk: nat)
    requires |c| == 9 * nk && |l| == 9 * nk && forall r :: 0 <= r < |c| ==> |c[r]| == |x|
    ensures forall i :: 0 <= i < nk ==> 9 * i + 9 <= |c|
    ensures (forall r :: 0 <= r < |c| ==> Dot(c[r], x) >= l[r])
        <==> (forall i :: 0 <= i < nk ==> SliceRowsHold(c, l, x, i))
  {
    if forall r :: 0 <= r < |c| ==> Dot(c[r], x) >= l[r] {
      forall i | 0 <= i < nk
        ensures SliceRowsHold(c, l, x, i)
      {
        forall j | 0 <= j < 9
          ensures Dot(Segment(c, i, 9)[j], x) >= Segment(l, i, 9)[j]
        {
          SliceEntry(c, i, j);
          SliceEntry(l, i, j);
        }
      }
    } else {
      var r :| 0 <= r < |c| && Dot(c[r], x) < l[r];
      SliceViolated(c, l, x, nk, r);
    }
  }

  /** A violated row r violates the slice r / 9 it lies in. */
  lemma SliceViolated(c: Matrix, l: Vector, x: Vector, nk: nat, r: nat)
    requires |c| == 9 * nk && |l| == 9 * nk && forall r :: 0 <= r < |c| ==> |c[r]| == |x|
    requires r < |c| && Dot(c[r], x) < l[r]
    ensures r / 9 < nk && !SliceRowsHold(c, l, x, r / 9)
  {
    var i, j := r / 9, r % 9;
    assert 9 * i + j == r;
    SliceEntry(c, i, j);
    SliceEntry(l, i, j);
  }

  /** The force correction of contact i (at columns nv + i fs ..) lies in its
      linearised cone, with the bounds read from `forces`. */
  predicate ContactInCone(cm: Matrix, fs: nat, forces: Vector, mu: real, footWidth: real, footLength: real,
                          nv: nat, x: Vector, i: nat)
    requires IsMatrix(cm, 9, fs) && i * fs + 4 < |forces|
  {
    ConeHoldsAt(cm, fs, ConeLowerBounds(forces, i, fs, mu, footWidth, footLength), x, nv + i * fs)
  }

  /** Contact i's nine rows after the contact loop. */
  lemma ContactSliceMeaning(c: Matrix, l: Vector, n: nat, nv: nat, fs: nat, cm: Matrix,
                            forces: Vector, mu: real, footWidth: real, footLength: real,
                            active: seq<bool>, x: Vector, i: nat)
    requires IsMatrix(cm, 9, fs) && nv + |active| * fs <= n && ConeBoundsInRange(forces, active, fs) && |x| == n
    requires SlotsAre(c, 9, CBlocks(n, nv, fs, cm, active, |active|))
    requires SlotsAre(l, 9, LBlocks(forces, fs, mu, footWidth, footLength, active, |active|))
    requires IsMatrix(c, 9 * |active|, n) && i < |active|
    ensures 9 * i + 9 <= |c|
    ensures SliceRowsHold(c, l, x, i)
        <==> (active[i] ==> ContactInCone(cm, fs, forces, mu, footWidth, footLength, nv, x, i))
  {
    var nk := |active|;
    Slot(i, nk, 9);
    Slot(i, nk, fs);
    assert Segment(c, i, 9) == CBlocks(n, nv, fs, cm, active, nk)[i];
    assert Segment(l, i, 9) == LBlocks(forces, fs, mu, footWidth, footLength, active, nk)[i];
    var bound := if active[i] then ConeLowerBounds(forces, i, fs, mu, footWidth, footLength) else Zeros(9);
    ContactRowsMeaning(c, l, n, nv + i * fs, fs, cm, active[i], bound, x, i);
  }

  /** After the contact loop, l <= C x says exactly: every contact in contact
      has its force correction inside its linearised cone; contacts not in
      contact are unconstrained. */
  lemma ContactInequalityMeaning(c: Matrix, l: Vector, n: nat, nv: nat, fs: nat, cm: Matrix,
                                 forces: Vector, mu: real, footWidth: real, footLength: real,
                                 active: seq<bool>, x: Vector)
    requires IsMatrix(cm, 9, fs) && nv + |active| * fs <= n && ConeBoundsInRange(forces, active, fs) && |x| == n
    requires SlotsAre(c, 9, CBlocks(n, nv, fs, cm, active, |active|))
    requires SlotsAre(l, 9, LBlocks(forces, fs, mu, footWidth, footLength, active, |active|))
    requires IsMatrix(c, 9 * |active|, n)
    ensures (forall r :: 0 <= r < |c| ==> Dot(c[r], x) >= l[r])
        <==> (forall i :: 0 <= i < |active| && active[i] ==>
               ContactInCone(cm, fs, forces, mu, footWidth, footLength, nv, x, i))
  {
    RowsBySlices(c, l, x, |active|);
    forall i | 0 <= i < |active|
      ensures SliceRowsHold(c, l, x, i)
          <==> (active[i] ==> ContactInCone(cm, fs, forces, mu, footWidth, footLength, nv, x, i))
    {
      ContactSliceMeaning(c, l, n, nv, fs, cm, forces, mu, footWidth, footLength, active, x, i);
    }
  }

  // ---------------------------------------------------------------------------
  // Equality rows

  /** S: nv x (nv - 6), identity on its bottom nv - 6 rows (torques drive only
      the actuated joints). */
  function SelectionMatrix(nv: nat): (s: Matrix)
    requires nv >= 6
    ensures IsMatrix(s, nv, nv - 6)
    ensures forall r, c :: 0 <= r < nv && 0 <= c < nv - 6 ==> s[r][c] == if r == c + 6 then 1.0 else 0.0
  {
    seq(nv, r requires 0 <= r < nv => seq(nv - 6, c requires 0 <= c < nv - 6 => if r == c + 6 then 1.0 else 0.0))
  }

  /** S tau is tau below six zeros: no torque on the floating base. */
  lemma SelectionActuates(nv: nat, tau: Vector)
    requires nv >= 6 && |tau| == nv - 6
    ensures MatVec(SelectionMatrix(nv), tau) == Zeros(6) + tau
  {
    var s := SelectionMatrix(nv);
    forall r | 0 <= r < nv
      ensures Dot(s[r], tau) == (Zeros(6) + tau)[r]
    {
      SingleEntryRowDot(s[r], tau, r - 6, 1.0);
    }
  }

  /** The equality matrix [M, -Jc^T, -S; Jc, 0, 0]: `nv` dynamics rows and
      one row per constrained contact direction. */
  function EqualityMatrix(nv: nat, fd: nat, m: Matrix, jc: Matrix, s: Matrix): (a: Matrix)
    requires nv >= 6 && IsMatrix(m, nv, nv) && IsMatrix(jc, fd, nv) && IsMatrix(s, nv, nv - 6)
    ensures IsMatrix(a, EqCount(nv, fd), VarCount(nv, fd))
  {
    seq(nv + fd, r requires 0 <= r < nv + fd =>
      if r < nv then m[r] + Neg(Column(jc, r)) + Neg(s[r]) else jc[r - nv] + Zeros(fd + nv - 6))
  }

  /** The rows from nv down are zero from column nv on: A's lower-right
      block, zeroed at initialisation and never written afterwards. */
  predicate LowerRightZero(a: Matrix, nv: nat)
  {
    forall r, c :: nv <= r < |a| && nv <= c < |a[r]| ==> a[r][c] == 0.0
  }

  /** The four block writes of the inverse-dynamics solver on A:
      top-left M, the force columns -Jc^T, top-right -S, bottom-left Jc. */
  function WriteEqualityBlocks(a: Matrix, nv: nat, fd: nat, m: Matrix, jc: Matrix, s: Matrix): (w: Matrix)
    requires nv >= 6 && IsMatrix(a, EqCount(nv, fd), VarCount(nv, fd))
    requires IsMatrix(m, nv, nv) && IsMatrix(jc, fd, nv) && IsMatrix(s, nv, nv - 6)
    ensures IsMatrix(w, EqCount(nv, fd), VarCount(nv, fd))
  {
    var a1 := WriteBlock(a, 0, 0, m, nv);
    var a2 := WriteBlock(a1, 0, nv, NegMatrix(Transpose(jc, nv)), fd);
    var a3 := WriteBlock(a2, 0, nv + fd, NegMatrix(s), nv - 6);
    WriteBlock(a3, nv, 0, jc, nv)
  }

  /** Three consecutive segment writes that cover a row replace it. */
  lemma SplicesCover(row: Vector, p1: Vector, p2: Vector, p3: Vector)
    requires |row| == |p1| + |p2| + |p3|
    ensures Splice(Splice(Splice(row, 0, p1), |p1|, p2), |p1| + |p2|, p3) == p1 + p2 + p3
  {
    var w := Splice(Splice(Splice(row, 0, p1), |p1|, p2), |p1| + |p2|, p3);
    forall k | 0 <= k < |row|
      ensures w[k] == (p1 + p2 + p3)[k]
    {
    }
  }

  /** `v.head(|p|) = p; v.tail(|q|) = q` on a vector of |p| + |q| entries. */
  lemma SpliceHeadTail(v: Vector, p: Vector, q: Vector)
    requires |v| == |p| + |q|
    ensures Splice(Splice(v, 0, p), |p|, q) == p + q
  {
  }

  /** A head write over a row that is zero after the head. */
  lemma SpliceOverZeroTail(row: Vector, p: Vector)
    requires |p| <= |row| && forall c :: |p| <= c < |row| ==> row[c] == 0.0
    ensures Splice(row, 0, p) == p + Zeros(|row| - |p|)
  {
  }

  /** On an A whose lower-right block is zero the four writes leave exactly
      the equality matrix, whose lower-right block is zero again. */
  lemma EqualityBlocksWritten(a: Matrix, nv: nat, fd: nat, m: Matrix, jc: Matrix, s: Matrix)
    requires nv >= 6 && IsMatrix(a, EqCount(nv, fd), VarCount(nv, fd)) && LowerRightZero(a, nv)
    requires IsMatrix(m, nv, nv) && IsMatrix(jc, fd, nv) && IsMatrix(s, nv, nv - 6)
    ensures WriteEqualityBlocks(a, nv, fd, m, jc, s) == EqualityMatrix(nv, fd, m, jc, s)
    ensures LowerRightZero(EqualityMatrix(nv, fd, m, jc, s), nv)
  {
    var w, e := WriteEqualityBlocks(a, nv, fd, m, jc, s), EqualityMatrix(nv, fd, m, jc, s);
    var t := NegMatrix(Transpose(jc, nv));
    forall r | 0 <= r < nv + fd
      ensures w[r] == e[r]
    {
      if r < nv {
        assert t[r] == Neg(Column(jc, r));
        SplicesCover(a[r], m[r], t[r], NegMatrix(s)[r]);
      } else {
        SpliceOverZeroTail(a[r], jc[r - nv]);
      }
    }
  }

  /** What each equality row computes on x = (da, df, tau). */
  lemma EqualityRowDot(nv: nat, fd: nat, m: Matrix, jc: Matrix, s: Matrix, x: Vector, r: nat)
    requires nv >= 6 && IsMatrix(m, nv, nv) && IsMatrix(jc, fd, nv) && IsMatrix(s, nv, nv - 6)
    requires |x| == VarCount(nv, fd) && r < nv + fd
    ensures var a := EqualityMatrix(nv, fd, m, jc, s);
      var da, df, tau := x[..nv], x[nv..nv + fd], x[nv + fd..];
      Dot(a[r], x) == if r < nv then Dot(m[r], da) - Dot(Column(jc, r), df) - Dot(s[r], tau)
                      else Dot(jc[r - nv], da)
  {
    var a := EqualityMatrix(nv, fd, m, jc, s);
    var da, df, tau := x[..nv], x[nv..nv + fd], x[nv + fd..];
    VariableSlices(x, nv, fd);
    if r < nv {
      var p1, p2, p3 := m[r], Neg(Column(jc, r)), Neg(s[r]);
      assert a[r] == p1 + p2 + p3;
      DotConcat(p1 + p2, p3, da + df, tau);
      DotConcat(p1, p2, da, df);
      DotNegLeft(Column(jc, r), df);
      DotNegLeft(s[r], tau);
      assert Dot(a[r], x) == Dot(p1 + p2 + p3, da + df + tau);
    } else {
      var p1, p2 := jc[r - nv], Zeros(fd + nv - 6);
      assert a[r] == p1 + p2;
      assert x == da + (df + tau);
      DotConcat(p1, p2, da, df + tau);
      DotZerosLeft(fd + nv - 6, df + tau);
      assert Dot(a[r], x) == Dot(p1 + p2, da + (df + tau));
    }
  }

  /** The right-hand side the inverse-dynamics solver writes:
      head -nle - M a + Jc^T f, tail -gamma - Jc a. */
  function IdEqualityRhs(nv: nat, fd: nat, m: Matrix, jc: Matrix, nle: Vector, a: Vector, f: Vector, gamma: Vector): (b: Vector)
    requires IsMatrix(m, nv, nv) && IsMatrix(jc, fd, nv) && |nle| == nv && |a| == nv && |f| == fd && |gamma| == fd
    ensures |b| == nv + fd
  {
    Add(Sub(Neg(nle), MatVec(m, a)), TransposeTimes(jc, nv, f)) + Sub(Neg(gamma), MatVec(jc, a))
  }

  /** One row of IdEqualityMeaning. */
  lemma IdEqualityRowMeaning(nv: nat, fd: nat, m: Matrix, jc: Matrix, s: Matrix,
                             nle: Vector, a: Vector, f: Vector, gamma: Vector, x: Vector, r: nat)
    requires nv >= 6 && IsMatrix(m, nv, nv) && IsMatrix(jc, fd, nv) && IsMatrix(s, nv, nv - 6)
    requires |nle| == nv && |a| == nv && |f| == fd && |gamma| == fd && |x| == VarCount(nv, fd)
    requires r < nv + fd
    ensures var da, df, tau := x[..nv], x[nv..nv + fd], x[nv + fd..];
      var lhs, b := MatVec(EqualityMatrix(nv, fd, m, jc, s), x), IdEqualityRhs(nv, fd, m, jc, nle, a, f, gamma);
      && (r < nv ==> (lhs[r] == b[r] <==>
           Add(MatVec(m, Add(a, da)), nle)[r] == Add(MatVec(s, tau), TransposeTimes(jc, nv, Add(f, df)))[r]))
      && (r >= nv ==> (lhs[r] == b[r] <==> Add(MatVec(jc, Add(a, da)), gamma)[r - nv] == 0.0))
  {
    var da, df, tau := x[..nv], x[nv..nv + fd], x[nv + fd..];
    var lhs, b := MatVec(EqualityMatrix(nv, fd, m, jc, s), x), IdEqualityRhs(nv, fd, m, jc, nle, a, f, gamma);
    EqualityRowDot(nv, fd, m, jc, s, x, r);
    var head := Add(Sub(Neg(nle), MatVec(m, a)), TransposeTimes(jc, nv, f));
    var tail := Sub(Neg(gamma), MatVec(jc, a));
    assert b == head + tail;
    if r < nv {
      DotAddRight(m[r], a, da);
      DotAddRight(Column(jc, r), f, df);
      assert b[r] == -nle[r] - Dot(m[r], a) + Dot(Column(jc, r), f);
    } else {
      DotAddRight(jc[r - nv], a, da);
      assert b[r] == -gamma[r - nv] - Dot(jc[r - nv], a);
    }
  }

  /** With a zero reference acceleration the right-hand side is
      (-nle + Jc^T f, -gamma). */
  lemma RhsAtZeroAcceleration(nv: nat, fd: nat, m: Matrix, jc: Matrix, nle: Vector, f: Vector, gamma: Vector)
    requires IsMatrix(m, nv, nv) && IsMatrix(jc, fd, nv) && |nle| == nv && |f| == fd && |gamma| == fd
    ensures IdEqualityRhs(nv, fd, m, jc, nle, Zeros(nv), f, gamma) == Add(Neg(nle), TransposeTimes(jc, nv, f)) + Neg(gamma)
  {
    MatVecZeros(m, nv);
    MatVecZeros(jc, nv);
    AddZeros(Neg(nle));
    AddZeros(Neg(gamma));
  }

  /** A x = b says, for the corrected acceleration a + da and forces f + df:
      M (a + da) + nle = S tau + Jc^T (f + df) (inverse dynamics), and
      Jc (a + da) + gamma = 0 (contact points do not accelerate). */
  lemma IdEqualityMeaning(nv: nat, fd: nat, m: Matrix, jc: Matrix, s: Matrix,
                          nle: Vector, a: Vector, f: Vector, gamma: Vector, x: Vector)
    requires nv >= 6 && IsMatrix(m, nv, nv) && IsMatrix(jc, fd, nv) && IsMatrix(s, nv, nv - 6)
    requires |nle| == nv && |a| == nv && |f| == fd && |gamma| == fd && |x| == VarCount(nv, fd)
    ensures var da, df, tau := x[..nv], x[nv..nv + fd], x[nv + fd..];
      MatVec(EqualityMatrix(nv, fd, m, jc, s), x) == IdEqualityRhs(nv, fd, m, jc, nle, a, f, gamma)
      <==>
      && Add(MatVec(m, Add(a, da)), nle) == Add(MatVec(s, tau), TransposeTimes(jc, nv, Add(f, df)))
      && Add(MatVec(jc, Add(a, da)), gamma) == Zeros(fd)
  {
    var da, df, tau := x[..nv], x[nv..nv + fd], x[nv + fd..];
    var lhs := MatVec(EqualityMatrix(nv, fd, m, jc, s), x);
    var b := IdEqualityRhs(nv, fd, m, jc, nle, a, f, gamma);
    var dyn1 := Add(MatVec(m, Add(a, da)), nle);
    var dyn2 := Add(MatVec(s, tau), TransposeTimes(jc, nv, Add(f, df)));
    var con := Add(MatVec(jc, Add(a, da)), gamma);
    forall r | 0 <= r < nv + fd
      ensures r < nv ==> (lhs[r] == b[r] <==> dyn1[r] == dyn2[r])
      ensures r >= nv ==> (lhs[r] == b[r] <==> con[r - nv] == 0.0)
    {
      IdEqualityRowMeaning(nv, fd, m, jc, s, nle, a, f, gamma, x, r);
    }
    if lhs == b {
      forall r | 0 <= r < nv
        ensures dyn1[r] == dyn2[r]
      {
        assert lhs[r] == b[r];
      }
      forall k | 0 <= k < fd
        ensures con[k] == 0.0
      {
        assert lhs[nv + k] == b[nv + k];
      }
    }
    if dyn1 == dyn2 && con == Zeros(fd) {
      forall r | 0 <= r < nv + fd
        ensures lhs[r] == b[r]
      {
        if r >= nv {
          assert con[r - nv] == 0.0;
        }
      }
    }
  }

  // ---------------------------------------------------------------------------
  // Cost and bounds

  /** The inverse-dynamics Hessian: w_acc on the nv acceleration entries,
      w_force on the fd force entries, zero on the torques. */
  function IdHessian(nv: nat, fd: nat, wAcc: real, wForce: real): (h: Matrix)
    requires nv >= 6
    ensures IsMatrix(h, VarCount(nv, fd), VarCount(nv, fd))
    ensures forall r, c :: 0 <= r < VarCount(nv, fd) && 0 <= c < VarCount(nv, fd) ==>
      h[r][c] == if r != c then 0.0 else if r < nv then wAcc else if r < nv + fd then wForce else 0.0
  {
    Diagonal(Repeat(wAcc, nv) + Repeat(wForce, fd) + Zeros(nv - 6))
  }

  /** The Hessian's diagonal scales the acceleration slice by w_acc, the force
      slice by w_force and clears the torque slice. */
  lemma IdHessianTimes(wAcc: real, wForce: real, da: Vector, df: Vector, tau: Vector)
    requires |da| >= 6 && |tau| == |da| - 6
    ensures MatVec(IdHessian(|da|, |df|, wAcc, wForce), da + df + tau)
         == Scale(wAcc, da) + Scale(wForce, df) + Zeros(|tau|)
  {
    var nv, fd := |da|, |df|;
    var x := da + df + tau;
    var d := Repeat(wAcc, nv) + Repeat(wForce, fd) + Zeros(nv - 6);
    var sa, sf := Scale(wAcc, da), Scale(wForce, df);
    var hx := sa + sf + Zeros(nv - 6);
    var hd := Hadamard(d, x);
    forall k | 0 <= k < |x|
      ensures hd[k] == hx[k]
    {
      if k < nv {
        assert d[k] == wAcc && x[k] == da[k];
        assert hx[k] == sa[k] == wAcc * x[k];
      } else if k < nv + fd {
        assert d[k] == Repeat(wForce, fd)[k - nv] == wForce && x[k] == df[k - nv];
        assert hx[k] == sf[k - nv] == wForce * x[k];
      } else {
        assert d[k] == 0.0;
        assert hx[k] == Zeros(nv - 6)[k - nv - fd] == 0.0;
      }
    }
    DiagonalTimes(d, x);
  }

  /** With g = 0 the inverse-dynamics cost x^T H x, for x = (da, df, tau), is the
      weighted squared size of the acceleration and force corrections; the
      torques are free. */
  lemma IdCost(wAcc: real, wForce: real, da: Vector, df: Vector, tau: Vector)
    requires |da| >= 6 && |tau| == |da| - 6
    ensures Dot(da + df + tau, MatVec(IdHessian(|da|, |df|, wAcc, wForce), da + df + tau))
         == wAcc * Dot(da, da) + wForce * Dot(df, df)
  {
    IdHessianTimes(wAcc, wForce, da, df, tau);
    DotConcat(da + df, tau, Scale(wAcc, da) + Scale(wForce, df), Zeros(|tau|));
    DotConcat(da, df, Scale(wAcc, da), Scale(wForce, df));
    DotCommutes(tau, Zeros(|tau|));
    DotZerosLeft(|tau|, tau);
    DotScaleRight(da, wAcc);
    DotScaleRight(df, wForce);
  }

  /** Lower box bound: -100000 on accelerations and forces, -effortLimit on torques. */
  function BoxLower(nv: nat, fd: nat, effortLimit: Vector): (lb: Vector)
    requires nv >= 6 && |effortLimit| == nv
    ensures |lb| == VarCount(nv, fd)
  {
    Repeat(-Unbounded, nv + fd) + Neg(effortLimit[6..])
  }

  /** Upper box bound: 100000 on accelerations and forces, effortLimit on torques. */
  function BoxUpper(nv: nat, fd: nat, effortLimit: Vector): (ub: Vector)
    requires nv >= 6 && |effortLimit| == nv
    ensures |ub| == VarCount(nv, fd)
  {
    Repeat(Unbounded, nv + fd) + effortLimit[6..]
  }

  /** The box is non-empty in every coordinate iff every actuated joint's
      effort limit is non-negative. */
  lemma BoxOrdered(nv: nat, fd: nat, effortLimit: Vector)
    requires nv >= 6 && |effortLimit| == nv
    ensures (forall j :: 0 <= j < VarCount(nv, fd) ==> BoxLower(nv, fd, effortLimit)[j] <= BoxUpper(nv, fd, effortLimit)[j])
      <==> (forall k :: 6 <= k < nv ==> effortLimit[k] >= 0.0)
  {
    var lb, ub := BoxLower(nv, fd, effortLimit), BoxUpper(nv, fd, effortLimit);
    if forall j :: 0 <= j < VarCount(nv, fd) ==> lb[j] <= ub[j] {
      forall k | 6 <= k < nv
        ensures effortLimit[k] >= 0.0
      {
        assert lb[nv + fd + k - 6] <= ub[nv + fd + k - 6];
      }
    }
  }

  /** The equality with a zero reference acceleration, as the
      inverse-kinematics/inverse-dynamics solver assembles it:
      A x = (-nle + Jc^T f, -gamma) holds exactly when
      M qdd + nle = S tau + Jc^T (f + df) and Jc qdd + gamma = 0. */
  lemma ZeroAccelerationMeaning(nv: nat, fd: nat, m: Matrix, jc: Matrix, nle: Vector, f: Vector, gamma: Vector,
                                x: Vector)
    requires nv >= 6 && IsMatrix(m, nv, nv) && IsMatrix(jc, fd, nv)
    requires |nle| == nv && |f| == fd && |gamma| == fd && |x| == VarCount(nv, fd)
    ensures var qdd, df, tau := x[..nv], x[nv..nv + fd], x[nv + fd..];
      MatVec(EqualityMatrix(nv, fd, m, jc, SelectionMatrix(nv)), x) == Add(Neg(nle), TransposeTimes(jc, nv, f)) + Neg(gamma)
      <==>
      && Add(MatVec(m, qdd), nle) == Add(Zeros(6) + tau, TransposeTimes(jc, nv, Add(f, df)))
      && Add(MatVec(jc, qdd), gamma) == Zeros(fd)
  {
    var qdd, tau := x[..nv], x[nv + fd..];
    RhsAtZeroAcceleration(nv, fd, m, jc, nle, f, gamma);
    IdEqualityMeaning(nv, fd, m, jc, SelectionMatrix(nv), nle, Zeros(nv), f, gamma, x);
    AddZeros(qdd);
    SelectionActuates(nv, tau);
  }

  // ---------------------------------------------------------------------------
  // Buffer shapes both low-level solvers keep

  /** A is neq x n with a zero lower-right block, b has neq rows, S is fixed. */
  predicate EqualityBuffers(nv: nat, fd: nat, a: Matrix, b: Vector, s: Matrix)
  {
    && nv >= 6
    && IsMatrix(a, EqCount(nv, fd), VarCount(nv, fd)) && LowerRightZero(a, nv)
    && |b| == EqCount(nv, fd) && s == SelectionMatrix(nv)
  }

  /** l and C have nin rows and u = 100000 throughout. */
  predicate InequalityBuffers(nv: nat, fd: nat, nk: nat, l: Vector, c: Matrix, u: Vector)
  {
    && nv >= 6
    && |l| == IneqCount(nk) && IsMatrix(c, IneqCount(nk), VarCount(nv, fd))
    && u == Repeat(Unbounded, IneqCount(nk))
  }

  /** The result buffers are sized fs nk, nv and nv - 6. */
  predicate ResultBuffers(nv: nat, fd: nat, solvedForces: Vector, solvedAcc: Vector, solvedTorque: Vector)
  {
    nv >= 6 && |solvedForces| == fd && |solvedAcc| == nv && |solvedTorque| == nv - 6
  }
}
