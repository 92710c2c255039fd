/** The inverse-dynamics controller IDSolver (src/lowlevel-control.cpp:13-167).
    Its QP variable x = (da, df, tau) corrects the reference acceleration a and
    contact forces f and chooses the joint torques; A x = b is the inverse
    dynamics together with the rigid contacts, l <= C x the linearised contact
    cones, and the cost weighs the two corrections. */
module IdSolver {
  import opened LinearAlgebra
  import opened QpLayout

  /** IDSettings; the contact frame ids only fix the number of contacts. */
  datatype IdSettings = IdSettings(contactIds: seq<nat>, forceSize: nat, mu: real, footWidth: real,
                                   footLength: real, kd: real, wAcc: real, wForce: real, verbose: bool)

  /** The force sizes the Cmin initialiser accepts. */
  predicate SettingsFit(st: IdSettings)
  {
    st.forceSize == 3 || st.forceSize == 6
  }

  /** The rows of Jc for one contact: the top fs rows of its frame Jacobian. */
  function ContactJacobian(k: FrameKinematics, nv: nat, fs: nat): (j: Matrix)
    requires KinematicsFit(k, nv) && fs <= 6
    ensures IsMatrix(j, fs, nv)
  {
    k.jacobian[..fs]
  }

  /** The Baumgarte term baum_gains_ * v_lin + baum_gains_ * v_ang with baum_gains_ = kd I. */
  function Baumgarte(k: FrameKinematics, kd: real): (d: Vector)
    requires |k.linear| == 3 && |k.angular| == 3
    ensures |d| == 3
  {
    Add(Scale(kd, k.linear), Scale(kd, k.angular))
  }

  /** The entries of gamma for one contact: Jdot.topRows(fs) v, with the
      Baumgarte term added to the first three. */
  function ContactGamma(k: FrameKinematics, nv: nat, fs: nat, v: Vector, kd: real): (g: Vector)
    requires KinematicsFit(k, nv) && 3 <= fs <= 6 && |v| == nv
    ensures |g| == fs
  {
    var drift := MatVec(k.jacobianDot[..fs], v);
    Add(drift[..3], Baumgarte(k, kd)) + drift[3..]
  }

  predicate AllFit(kins: seq<FrameKinematics>, nv: nat)
  {
    forall i :: 0 <= i < |kins| ==> KinematicsFit(kins[i], nv)
  }

  /** The fs-row slices of Jc once contacts 0 .. upto-1 have been visited. */
  function JcBlocks(kins: seq<FrameKinematics>, active: seq<bool>, nv: nat, fs: nat, upto: nat): (bs: seq<Matrix>)
    requires |kins| == |active| && AllFit(kins, nv) && fs <= 6
    ensures |bs| == |active|
  {
    seq(|active|, i requires 0 <= i < |active| =>
      if i < upto && active[i] then ContactJacobian(kins[i], nv, fs) else ZeroMatrix(fs, nv))
  }

  /** The fs-entry slices of gamma once contacts 0 .. upto-1 have been visited. */
  function GammaBlocks(kins: seq<FrameKinematics>, active: seq<bool>, nv: nat, fs: nat, v: Vector, kd: real,
                       upto: nat): (bs: seq<Vector>)
    requires |kins| == |active| && AllFit(kins, nv) && 3 <= fs <= 6 && |v| == nv
    ensures |bs| == |active|
  {
    seq(|active|, i requires 0 <= i < |active| =>
      if i < upto && active[i] then ContactGamma(kins[i], nv, fs, v, kd) else Zeros(fs))
  }

  /** `Jc.middleRows(i fs, fs) = J.topRows(fs)` for a contact i in contact. */
  lemma JcBlocksWrite(jc: Matrix, kins: seq<FrameKinematics>, active: seq<bool>, nv: nat, fs: nat, i: nat)
    requires |kins| == |active| && AllFit(kins, nv) && fs <= 6 && i < |active| && active[i]
    requires IsMatrix(jc, |active| * fs, nv) && SlotsAre(jc, fs, JcBlocks(kins, active, nv, fs, i))
    ensures i * fs + fs <= |jc|
    ensures IsMatrix(Splice(jc, i * fs, ContactJacobian(kins[i], nv, fs)), |active| * fs, nv)
    ensures SlotsAre(Splice(jc, i * fs, ContactJacobian(kins[i], nv, fs)), fs, JcBlocks(kins, active, nv, fs, i + 1))
  {
    var rows := ContactJacobian(kins[i], nv, fs);
    SlotsWrite(jc, fs, JcBlocks(kins, active, nv, fs, i), i, rows);
    assert JcBlocks(kins, active, nv, fs, i + 1) == JcBlocks(kins, active, nv, fs, i)[i := rows];
  }

  lemma JcBlocksSkip(kins: seq<FrameKinematics>, active: seq<bool>, nv: nat, fs: nat, i: nat)
    requires |kins| == |active| && AllFit(kins, nv) && fs <= 6 && i < |active| && !active[i]
    ensures JcBlocks(kins, active, nv, fs, i + 1) == JcBlocks(kins, active, nv, fs, i)
  {
  }

  /** `gamma.segment(i fs, fs) = Jdot.topRows(fs) v; gamma.segment(i fs, 3) += bg`
      for a contact i in contact. */
  lemma GammaBlocksWrite(gamma: Vector, kins: seq<FrameKinematics>, active: seq<bool>, nv: nat, fs: nat,
                         v: Vector, kd: real, i: nat)
    requires |kins| == |active| && AllFit(kins, nv) && 3 <= fs <= 6 && |v| == nv && i < |active| && active[i]
    requires SlotsAre(gamma, fs, GammaBlocks(kins, active, nv, fs, v, kd, i))
    ensures var g1 := Splice(gamma, i * fs, MatVec(kins[i].jacobianDot[..fs], v));
      && i * fs + fs <= |gamma| && i * fs + 3 <= |g1|
      && SlotsAre(Splice(g1, i * fs, Add(g1[i * fs .. i * fs + 3], Baumgarte(kins[i], kd))), fs,
                  GammaBlocks(kins, active, nv, fs, v, kd, i + 1))
  {
    var k := kins[i];
    var drift, bg := MatVec(k.jacobianDot[..fs], v), Baumgarte(k, kd);
    var block := ContactGamma(k, nv, fs, v, kd);
    SlotsWrite(gamma, fs, GammaBlocks(kins, active, nv, fs, v, kd, i), i, block);
    GammaWrite(gamma, i, fs, drift, bg);
    assert GammaBlocks(kins, active, nv, fs, v, kd, i + 1) == GammaBlocks(kins, active, nv, fs, v, kd, i)[i := block];
  }

  lemma GammaBlocksSkip(kins: seq<FrameKinematics>, active: seq<bool>, nv: nat, fs: nat, v: Vector, kd: real, i: nat)
    requires |kins| == |active| && AllFit(kins, nv) && 3 <= fs <= 6 && |v| == nv && i < |active| && !active[i]
    ensures GammaBlocks(kins, active, nv, fs, v, kd, i + 1) == GammaBlocks(kins, active, nv, fs, v, kd, i)
  {
  }

  /** `gamma.segment(i fs, fs) = drift; gamma.segment(i fs, 3) += bg` writes
      slice i as drift with bg added to its head. */
  lemma GammaWrite(gamma: Vector, i: nat, fs: nat, drift: Vector, bg: Vector)
    requires 3 <= fs && |drift| == fs && |bg| == 3 && i * fs + fs <= |gamma|
    ensures var g1 := Splice(gamma, i * fs, drift);
      && i * fs + 3 <= |g1|
      && Splice(g1, i * fs, Add(g1[i * fs .. i * fs + 3], bg)) == Splice(gamma, i * fs, Add(drift[..3], bg) + drift[3..])
  {
    var off := i * fs;
    var g1 := Splice(gamma, off, drift);
    assert g1[off .. off + 3] == drift[..3];
  }

  /** The writes of the contact loop for a contact i in contact: its Jacobian
      rows, its drift terms, its nine cone bounds and its Cmin block. */
  method WriteContact(n: nat, nv: nat, fs: nat, mu: real, footWidth: real, footLength: real, kd: real,
                      cm: Matrix, kins: seq<FrameKinematics>, active: seq<bool>, v: Vector, forces: Vector,
                      i: nat, jc0: Matrix, gamma0: Vector, l0: Vector, c0: Matrix)
    returns (jc: Matrix, gamma: Vector, l: Vector, c: Matrix)
    requires 3 <= fs <= 6 && IsMatrix(cm, 9, fs) && nv + |active| * fs <= n
    requires |kins| == |active| && AllFit(kins, nv) && |v| == nv && ConeBoundsInRange(forces, active, fs)
    requires i < |active| && active[i]
    requires IsMatrix(jc0, |active| * fs, nv) && SlotsAre(jc0, fs, JcBlocks(kins, active, nv, fs, i))
    requires SlotsAre(gamma0, fs, GammaBlocks(kins, active, nv, fs, v, kd, i))
    requires SlotsAre(l0, 9, LBlocks(forces, fs, mu, footWidth, footLength, active, i))
    requires IsMatrix(c0, 9 * |active|, n) && SlotsAre(c0, 9, CBlocks(n, nv, fs, cm, active, i))
    ensures IsMatrix(jc, |active| * fs, nv) && SlotsAre(jc, fs, JcBlocks(kins, active, nv, fs, i + 1))
    ensures SlotsAre(gamma, fs, GammaBlocks(kins, active, nv, fs, v, kd, i + 1))
    ensures SlotsAre(l, 9, LBlocks(forces, fs, mu, footWidth, footLength, active, i + 1))
    ensures IsMatrix(c, 9 * |active|, n) && SlotsAre(c, 9, CBlocks(n, nv, fs, cm, active, i + 1))
  {
    var k := kins[i];
    JcBlocksWrite(jc0, kins, active, nv, fs, i);
    jc := Splice(jc0, i * fs, ContactJacobian(k, nv, fs));

    GammaBlocksWrite(gamma0, kins, active, nv, fs, v, kd, i);
    gamma := Splice(gamma0, i * fs, MatVec(k.jacobianDot[..fs], v));
    gamma := Splice(gamma, i * fs, Add(gamma[i * fs .. i * fs + 3], Baumgarte(k, kd)));

    LBlocksWrite(l0, forces, fs, mu, footWidth, footLength, active, i);
    l := Splice(l0, 9 * i, ConeLowerBounds(forces, i, fs, mu, footWidth, footLength));

    ConeBlockWrite(c0, n, nv, fs, cm, active, i);
    c := WriteBlock(c0, 9 * i, nv + i * fs, cm, fs);
  }

  /** The zeroed buffers are the slices before any contact is visited. */
  lemma NothingVisited(n: nat, nv: nat, fs: nat, mu: real, footWidth: real, footLength: real, kd: real,
                       cm: Matrix, kins: seq<FrameKinematics>, active: seq<bool>, v: Vector, forces: Vector)
    requires 3 <= fs <= 6 && IsMatrix(cm, 9, fs) && nv + |active| * fs <= n
    requires |kins| == |active| && AllFit(kins, nv) && |v| == nv && ConeBoundsInRange(forces, active, fs)
    ensures var nk := |active|;
      && IsMatrix(ZeroMatrix(nk * fs, nv), nk * fs, nv) && SlotsAre(ZeroMatrix(nk * fs, nv), fs, JcBlocks(kins, active, nv, fs, 0))
      && SlotsAre(Zeros(nk * fs), fs, GammaBlocks(kins, active, nv, fs, v, kd, 0))
      && SlotsAre(Zeros(9 * nk), 9, LBlocks(forces, fs, mu, footWidth, footLength, active, 0))
      && IsMatrix(ZeroMatrix(9 * nk, n), 9 * nk, n) && SlotsAre(ZeroMatrix(9 * nk, n), 9, CBlocks(n, nv, fs, cm, active, 0))
  {
    var nk := |active|;
    ZeroMatrixSlots(nk, fs, nv);
    ZerosSlots(nk, fs);
    ZerosSlots(nk, 9);
    ZeroMatrixSlots(nk, 9, n);
    assert JcBlocks(kins, active, nv, fs, 0) == seq(nk, j => ZeroMatrix(fs, nv));
    assert GammaBlocks(kins, active, nv, fs, v, kd, 0) == seq(nk, j => Zeros(fs));
    assert LBlocks(forces, fs, mu, footWidth, footLength, active, 0) == seq(nk, j => Zeros(9));
    assert CBlocks(n, nv, fs, cm, active, 0) == seq(nk, j => ZeroMatrix(9, n));
  }

  /** The contact loop of computeMatrice on the zeroed Jc, gamma, l and C. */
  method AssembleContacts(n: nat, nv: nat, fs: nat, mu: real, footWidth: real, footLength: real, kd: real,
                          cm: Matrix, kins: seq<FrameKinematics>, active: seq<bool>, v: Vector, forces: Vector)
    returns (jc: Matrix, gamma: Vector, l: Vector, c: Matrix)
    requires 3 <= fs <= 6 && IsMatrix(cm, 9, fs) && nv + |active| * fs <= n
    requires |kins| == |active| && AllFit(kins, nv) && |v| == nv && ConeBoundsInRange(forces, active, fs)
    ensures IsMatrix(jc, |active| * fs, nv) && SlotsAre(jc, fs, JcBlocks(kins, active, nv, fs, |active|))
    ensures SlotsAre(gamma, fs, GammaBlocks(kins, active, nv, fs, v, kd, |active|))
    ensures SlotsAre(l, 9, LBlocks(forces, fs, mu, footWidth, footLength, active, |active|))
    ensures IsMatrix(c, 9 * |active|, n) && SlotsAre(c, 9, CBlocks(n, nv, fs, cm, active, |active|))
  {
    var nk := |active|;
    jc, gamma, l, c := ZeroMatrix(nk * fs, nv), Zeros(nk * fs), Zeros(9 * nk), ZeroMatrix(9 * nk, n);
    NothingVisited(n, nv, fs, mu, footWidth, footLength, kd, cm, kins, active, v, forces);
    var i := 0;
    while i < nk
      invariant i <= nk
      invariant IsMatrix(jc, nk * fs, nv) && SlotsAre(jc, fs, JcBlocks(kins, active, nv, fs, i))
      invariant SlotsAre(gamma, fs, GammaBlocks(kins, active, nv, fs, v, kd, i))
      invariant SlotsAre(l, 9, LBlocks(forces, fs, mu, footWidth, footLength, active, i))
      invariant IsMatrix(c, 9 * nk, n) && SlotsAre(c, 9, CBlocks(n, nv, fs, cm, active, i))
    {
      if active[i] {
        jc, gamma, l, c := WriteContact(n, nv, fs, mu, footWidth, footLength, kd, cm, kins, active, v, forces,
                                        i, jc, gamma, l, c);
      } else {
        JcBlocksSkip(kins, active, nv, fs, i);
        GammaBlocksSkip(kins, active, nv, fs, v, kd, i);
        LBlocksSkip(forces, fs, mu, footWidth, footLength, active, i);
        CBlocksSkip(n, nv, fs, cm, active, i);
      }
      i := i + 1;
    }
  }

  /** The contact loop's results depend only on its inputs and not on what an
      earlier cycle left in Jc, gamma, l and C, which computeMatrice zeroes
      first; A and b are then functions of Jc and gamma. */
  lemma ContactRowsDeterministic(n: nat, nv: nat, fs: nat, mu: real, footWidth: real, footLength: real, kd: real,
                                 cm: Matrix, kins: seq<FrameKinematics>, active: seq<bool>, v: Vector, forces: Vector,
                                 jc1: Matrix, gamma1: Vector, l1: Vector, c1: Matrix,
                                 jc2: Matrix, gamma2: Vector, l2: Vector, c2: Matrix)
    requires 3 <= fs <= 6 && IsMatrix(cm, 9, fs) && nv + |active| * fs <= n
    requires |kins| == |active| && AllFit(kins, nv) && |v| == nv && ConeBoundsInRange(forces, active, fs)
    requires SlotsAre(jc1, fs, JcBlocks(kins, active, nv, fs, |active|))
    requires SlotsAre(jc2, fs, JcBlocks(kins, active, nv, fs, |active|))
    requires SlotsAre(gamma1, fs, GammaBlocks(kins, active, nv, fs, v, kd, |active|))
    requires SlotsAre(gamma2, fs, GammaBlocks(kins, active, nv, fs, v, kd, |active|))
    requires SlotsAre(l1, 9, LBlocks(forces, fs, mu, footWidth, footLength, active, |active|))
    requires SlotsAre(l2, 9, LBlocks(forces, fs, mu, footWidth, footLength, active, |active|))
    requires SlotsAre(c1, 9, CBlocks(n, nv, fs, cm, active, |active|))
    requires SlotsAre(c2, 9, CBlocks(n, nv, fs, cm, active, |active|))
    ensures jc1 == jc2 && gamma1 == gamma2 && l1 == l2 && c1 == c2
  {
    var nk := |active|;
    SlotsConcat(jc1, fs, JcBlocks(kins, active, nv, fs, nk));
    SlotsConcat(jc2, fs, JcBlocks(kins, active, nv, fs, nk));
    SlotsConcat(gamma1, fs, GammaBlocks(kins, active, nv, fs, v, kd, nk));
    SlotsConcat(gamma2, fs, GammaBlocks(kins, active, nv, fs, v, kd, nk));
    SlotsConcat(l1, 9, LBlocks(forces, fs, mu, footWidth, footLength, active, nk));
    SlotsConcat(l2, 9, LBlocks(forces, fs, mu, footWidth, footLength, active, nk));
    SlotsConcat(c1, 9, CBlocks(n, nv, fs, cm, active, nk));
    SlotsConcat(c2, 9, CBlocks(n, nv, fs, cm, active, nk));
  }

  /** Contact i's rigid-contact rows hold for the joint acceleration q: the
      contact frame's acceleration J q + gamma vanishes on its fs components. */
  predicate ContactHeld(k: FrameKinematics, nv: nat, fs: nat, v: Vector, kd: real, q: Vector)
    requires KinematicsFit(k, nv) && 3 <= fs <= 6 && |v| == nv && |q| == nv
  {
    Add(MatVec(ContactJacobian(k, nv, fs), q), ContactGamma(k, nv, fs, v, kd)) == Zeros(fs)
  }

  /** After the contact loop, Jc q + gamma = 0 says exactly that every
      contact in contact holds still; a contact not in contact imposes
      nothing. */
  lemma RigidContactMeaning(jc: Matrix, gamma: Vector, kins: seq<FrameKinematics>, active: seq<bool>,
                            nv: nat, fs: nat, v: Vector, kd: real, q: Vector)
    requires |kins| == |active| && AllFit(kins, nv) && 3 <= fs <= 6 && |v| == nv && |q| == nv
    requires IsMatrix(jc, |active| * fs, nv) && |gamma| == |active| * fs
    requires SlotsAre(jc, fs, JcBlocks(kins, active, nv, fs, |active|))
    requires SlotsAre(gamma, fs, GammaBlocks(kins, active, nv, fs, v, kd, |active|))
    ensures Add(MatVec(jc, q), gamma) == Zeros(|active| * fs)
        <==> forall i :: 0 <= i < |active| && active[i] ==> ContactHeld(kins[i], nv, fs, v, kd, q)
  {
    var nk := |active|;
    var e := Add(MatVec(jc, q), gamma);
    ZeroBySlices(e, nk, fs);
    forall i | 0 <= i < nk
      ensures Segment(e, i, fs) == Zeros(fs) <==> (active[i] ==> ContactHeld(kins[i], nv, fs, v, kd, q))
    {
      ContactRowsHeld(jc, gamma, kins, active, nv, fs, v, kd, q, i);
    }
  }

  /** Rows i fs .. i fs + fs of Jc q + gamma. */
  lemma ContactRowsHeld(jc: Matrix, gamma: Vector, kins: seq<FrameKinematics>, active: seq<bool>,
                        nv: nat, fs: nat, v: Vector, kd: real, q: Vector, i: nat)
    requires |kins| == |active| && AllFit(kins, nv) && 3 <= fs <= 6 && |v| == nv && |q| == nv
    requires IsMatrix(jc, |active| * fs, nv) && |gamma| == |active| * fs
    requires SlotsAre(jc, fs, JcBlocks(kins, active, nv, fs, |active|))
    requires SlotsAre(gamma, fs, GammaBlocks(kins, active, nv, fs, v, kd, |active|))
    requires i < |active|
    ensures Segment(Add(MatVec(jc, q), gamma), i, fs) == Zeros(fs)
        <==> (active[i] ==> ContactHeld(kins[i], nv, fs, v, kd, q))
  {
    Slot(i, |active|, fs);
    AddSegment(MatVec(jc, q), gamma, i, fs);
    MatVecSegment(jc, q, i, fs);
    assert Segment(jc, i, fs) == JcBlocks(kins, active, nv, fs, |active|)[i];
    assert Segment(gamma, i, fs) == GammaBlocks(kins, active, nv, fs, v, kd, |active|)[i];
    if !active[i] {
      var z := MatVec(ZeroMatrix(fs, nv), q);
      forall r | 0 <= r < fs
        ensures z[r] == 0.0
      {
        DotZerosLeft(nv, q);
      }
      assert Add(z, Zeros(fs)) == Zeros(fs);
    }
  }

  /** The sizes initialize fixes: nv >= 6 (a floating base), fs = 3 or 6, one
      contact per contact frame id and fs * nk force entries. */
  predicate SizesFit(st: IdSettings, nv: nat, nk: nat, fd: nat)
  {
    nv >= 6 && SettingsFit(st) && nk == |st.contactIds| && fd == st.forceSize * nk
  }

  /** Jc is fs nk x nv and gamma has fs nk entries. */
  predicate ContactBuffers(nv: nat, fd: nat, jc: Matrix, gamma: Vector)
  {
    IsMatrix(jc, fd, nv) && |gamma| == fd
  }

  /** g = 0 and H is the fixed diagonal. */
  predicate CostBuffers(st: IdSettings, nv: nat, fd: nat, g: Vector, h: Matrix)
  {
    nv >= 6 && g == Zeros(VarCount(nv, fd)) && h == IdHessian(nv, fd, st.wAcc, st.wForce)
  }

  /** What the assembled QP asks of its solution x = (da, df, tau), with
      corrected acceleration a + da and forces f + df: A x = b is the floating-base
      dynamics M (a + da) + nle = (0, tau) + Jc^T (f + df) together with every
      contact in contact holding still, and l <= C x is the linearised cone of
      every contact in contact on its force correction. */
  lemma IdQpMeaning(st: IdSettings, nv: nat, nk: nat, fd: nat, kins: seq<FrameKinematics>, active: seq<bool>,
                    v: Vector, acc: Vector, forces: Vector, m: Matrix, nle: Vector,
                    s: Matrix, cmin: Matrix, jc: Matrix, gamma: Vector, l: Vector, c: Matrix, x: Vector)
    requires SizesFit(st, nv, nk, fd) && |active| == nk && |kins| == nk && AllFit(kins, nv)
    requires |v| == nv && |acc| == nv && |forces| == fd && IsMatrix(m, nv, nv) && |nle| == nv
    requires ConeBoundsInRange(forces, active, st.forceSize)
    requires s == SelectionMatrix(nv) && cmin == CminMatrix(st.forceSize, st.mu, st.footWidth, st.footLength)
    requires IsMatrix(jc, fd, nv) && |gamma| == fd && IsMatrix(c, IneqCount(nk), VarCount(nv, fd))
    requires SlotsAre(jc, st.forceSize, JcBlocks(kins, active, nv, st.forceSize, nk))
    requires SlotsAre(gamma, st.forceSize, GammaBlocks(kins, active, nv, st.forceSize, v, st.kd, nk))
    requires SlotsAre(l, 9, LBlocks(forces, st.forceSize, st.mu, st.footWidth, st.footLength, active, nk))
    requires SlotsAre(c, 9, CBlocks(VarCount(nv, fd), nv, st.forceSize, cmin, active, nk))
    requires |x| == VarCount(nv, fd)
    ensures var da, df, tau := x[..nv], x[nv..nv + fd], x[nv + fd..];
      (MatVec(EqualityMatrix(nv, fd, m, jc, s), x) == IdEqualityRhs(nv, fd, m, jc, nle, acc, forces, gamma)
       <==>
       && Add(MatVec(m, Add(acc, da)), nle) == Add(Zeros(6) + tau, TransposeTimes(jc, nv, Add(forces, df)))
       && forall i :: 0 <= i < nk && active[i] ==> ContactHeld(kins[i], nv, st.forceSize, v, st.kd, Add(acc, da)))
    ensures (forall r :: 0 <= r < |c| ==> Dot(c[r], x) >= l[r])
        <==> forall i :: 0 <= i < nk && active[i] ==>
               ContactInCone(cmin, st.forceSize, forces, st.mu, st.footWidth, st.footLength, nv, x, i)
  {
    var fs := st.forceSize;
    var da, df, tau := x[..nv], x[nv..nv + fd], x[nv + fd..];
    IdEqualityMeaning(nv, fd, m, jc, s, nle, acc, forces, gamma, x);
    SelectionActuates(nv, tau);
    RigidContactMeaning(jc, gamma, kins, active, nv, fs, v, st.kd, Add(acc, da));
    ContactInequalityMeaning(c, l, VarCount(nv, fd), nv, fs, cmin, forces, st.mu, st.footWidth, st.footLength,
                             active, x);
  }

  class IDSolver {
    var settings: IdSettings
    var nv: nat
    var nk: nat
    /** force_dim_ = fs nk */
    var forceDim: nat
    var a: Matrix
    var b: Vector
    var l: Vector
    var c: Matrix
    /** The selection matrix S_. */
    var s: Matrix
    var cmin: Matrix
    var jc: Matrix
    var gamma: Vector
    var u: Vector
    var g: Vector
    var h: Matrix
    var solvedForces: Vector
    var solvedAcc: Vector
    var solvedTorque: Vector

    /** The buffer sizes fixed at initialisation, and the buffers no cycle
        rewrites. */
    ghost predicate Valid()
      reads this
    {
      && SizesFit(settings, nv, nk, forceDim)
      && EqualityBuffers(nv, forceDim, a, b, s)
      && InequalityBuffers(nv, forceDim, nk, l, c, u)
      && cmin == CminMatrix(settings.forceSize, settings.mu, settings.footWidth, settings.footLength)
      && ContactBuffers(nv, forceDim, jc, gamma)
      && CostBuffers(settings, nv, forceDim, g, h)
      && ResultBuffers(nv, forceDim, solvedForces, solvedAcc, solvedTorque)
    }

    /** IDSolver(settings, model), which runs initialize: sizes n = 2 nv - 6 + fs nk,
        neq = nv + fs nk, nin = 9 nk; zero A, b, l, Jc, gamma, g; S; Cmin and
        its block for every contact in C; u = 100000; H diagonal (w_acc on the
        accelerations, w_force on the forces). */
    constructor (st: IdSettings, modelNv: nat)
      requires modelNv >= 6 && SettingsFit(st)
      ensures Valid() && settings == st && nv == modelNv
      ensures a == ZeroMatrix(EqCount(nv, forceDim), VarCount(nv, forceDim)) && b == Zeros(EqCount(nv, forceDim))
      ensures l == Zeros(IneqCount(nk))
      ensures SlotsAre(c, 9, CBlocks(VarCount(nv, forceDim), nv, st.forceSize, cmin, AllContacts(nk), nk))
      ensures jc == ZeroMatrix(forceDim, nv) && gamma == Zeros(forceDim)
    {
      var k := |st.contactIds|;
      var fd := st.forceSize * k;
      var n, neq, nin := VarCount(modelNv, fd), EqCount(modelNv, fd), IneqCount(k);
      var a0 := ZeroMatrix(neq, n);
      assert LowerRightZero(a0, modelNv);
      var cm := CminMatrix(st.forceSize, st.mu, st.footWidth, st.footLength);
      var c0 := PlaceConeBlocks(n, modelNv, st.forceSize, cm, AllContacts(k));
      assert EqualityBuffers(modelNv, fd, a0, Zeros(neq), SelectionMatrix(modelNv));
      assert InequalityBuffers(modelNv, fd, k, Zeros(nin), c0, Repeat(Unbounded, nin));
      assert CostBuffers(st, modelNv, fd, Zeros(n), IdHessian(modelNv, fd, st.wAcc, st.wForce));
      settings, nv, nk, forceDim := st, modelNv, k, fd;
      a, b, l, c, s, cmin := a0, Zeros(neq), Zeros(nin), c0, SelectionMatrix(modelNv), cm;
      jc, gamma := ZeroMatrix(fd, modelNv), Zeros(fd);
      u, g, h := Repeat(Unbounded, nin), Zeros(n), IdHessian(modelNv, fd, st.wAcc, st.wForce);
      solvedForces, solvedAcc, solvedTorque := Zeros(fd), Zeros(modelNv), Zeros(modelNv - 6);
    }

    /** computeMatrice: the contact loop on zeroed Jc, gamma, l, C, then
        A = [M, -Jc^T, -S; Jc, 0, 0] and b = (-nle - M a + Jc^T f, -gamma - Jc a). */
    method ComputeMatrice(kins: seq<FrameKinematics>, active: seq<bool>, v: Vector, acc: Vector,
                          forces: Vector, m: Matrix, nle: Vector)
      requires Valid()
      requires |active| == nk && |kins| == nk && AllFit(kins, nv)
      requires |v| == nv && |acc| == nv && |forces| == forceDim && IsMatrix(m, nv, nv) && |nle| == nv
      requires ConeBoundsInRange(forces, active, settings.forceSize)
      modifies this`jc, this`gamma, this`l, this`c, this`a, this`b
      ensures Valid()
      ensures SlotsAre(jc, settings.forceSize, JcBlocks(kins, active, nv, settings.forceSize, nk))
      ensures SlotsAre(gamma, settings.forceSize, GammaBlocks(kins, active, nv, settings.forceSize, v, settings.kd, nk))
      ensures SlotsAre(l, 9, LBlocks(forces, settings.forceSize, settings.mu, settings.footWidth, settings.footLength, active, nk))
      ensures SlotsAre(c, 9, CBlocks(VarCount(nv, forceDim), nv, settings.forceSize, cmin, active, nk))
      ensures a == EqualityMatrix(nv, forceDim, m, jc, s)
      ensures b == IdEqualityRhs(nv, forceDim, m, jc, nle, acc, forces, gamma)
    {
      AssembleContactRows(kins, active, v, forces);
      AssembleEquality(m, nle, acc, forces);
    }

    /** The contact loop of computeMatrice on zeroed Jc, gamma, l and C. */
    method AssembleContactRows(kins: seq<FrameKinematics>, active: seq<bool>, v: Vector, forces: Vector)
      requires SizesFit(settings, nv, nk, forceDim) && ContactBuffers(nv, forceDim, jc, gamma)
      requires InequalityBuffers(nv, forceDim, nk, l, c, u)
      requires cmin == CminMatrix(settings.forceSize, settings.mu, settings.footWidth, settings.footLength)
      requires |active| == nk && |kins| == nk && AllFit(kins, nv) && |v| == nv && |forces| == forceDim
      requires ConeBoundsInRange(forces, active, settings.forceSize)
      modifies this`jc, this`gamma, this`l, this`c
      ensures ContactBuffers(nv, forceDim, jc, gamma) && InequalityBuffers(nv, forceDim, nk, l, c, u)
      ensures SlotsAre(jc, settings.forceSize, JcBlocks(kins, active, nv, settings.forceSize, nk))
      ensures SlotsAre(gamma, settings.forceSize, GammaBlocks(kins, active, nv, settings.forceSize, v, settings.kd, nk))
      ensures SlotsAre(l, 9, LBlocks(forces, settings.forceSize, settings.mu, settings.footWidth, settings.footLength, active, nk))
      ensures SlotsAre(c, 9, CBlocks(VarCount(nv, forceDim), nv, settings.forceSize, cmin, active, nk))
    {
      jc, gamma, l, c := AssembleContacts(VarCount(nv, forceDim), nv, settings.forceSize, settings.mu,
                                         settings.footWidth, settings.footLength, settings.kd,
                                         cmin, kins, active, v, forces);
    }

    /** A = [M, -Jc^T, -S; Jc, 0, 0] and b = (-nle - M a + Jc^T f, -gamma - Jc a)
        from the current Jc and gamma. */
    method AssembleEquality(m: Matrix, nle: Vector, acc: Vector, forces: Vector)
      requires SizesFit(settings, nv, nk, forceDim) && EqualityBuffers(nv, forceDim, a, b, s)
      requires ContactBuffers(nv, forceDim, jc, gamma)
      requires |acc| == nv && |forces| == forceDim && IsMatrix(m, nv, nv) && |nle| == nv
      modifies this`a, this`b
      ensures EqualityBuffers(nv, forceDim, a, b, s)
      ensures a == EqualityMatrix(nv, forceDim, m, jc, s)
      ensures b == IdEqualityRhs(nv, forceDim, m, jc, nle, acc, forces, gamma)
    {
      EqualityBlocksWritten(a, nv, forceDim, m, jc, s);
      var head := Add(Sub(Neg(nle), MatVec(m, acc)), TransposeTimes(jc, nv, forces));
      var tail := Sub(Neg(gamma), MatVec(jc, acc));
      SpliceHeadTail(b, head, tail);
      a, b := WriteEqualityBlocks(a, nv, forceDim, m, jc, s), Splice(Splice(b, 0, head), nv, tail);
    }

    /** solve_qp: assemble, then, for the QP solution x, the corrected
        acceleration a + x[0..nv), the corrected forces f + x[nv..nv+fd) and
        the torques x[nv+fd..n). */
    method SolveQp(kins: seq<FrameKinematics>, active: seq<bool>, v: Vector, acc: Vector,
                   forces: Vector, m: Matrix, nle: Vector, x: Vector)
      requires Valid()
      requires |active| == nk && |kins| == nk && AllFit(kins, nv)
      requires |v| == nv && |acc| == nv && |forces| == forceDim && IsMatrix(m, nv, nv) && |nle| == nv
      requires ConeBoundsInRange(forces, active, settings.forceSize)
      requires |x| == VarCount(nv, forceDim)
      modifies this`jc, this`gamma, this`l, this`c, this`a, this`b, this`solvedAcc, this`solvedForces, this`solvedTorque
      ensures Valid()
      ensures SlotsAre(jc, settings.forceSize, JcBlocks(kins, active, nv, settings.forceSize, nk))
      ensures SlotsAre(gamma, settings.forceSize, GammaBlocks(kins, active, nv, settings.forceSize, v, settings.kd, nk))
      ensures SlotsAre(l, 9, LBlocks(forces, settings.forceSize, settings.mu, settings.footWidth, settings.footLength, active, nk))
      ensures SlotsAre(c, 9, CBlocks(VarCount(nv, forceDim), nv, settings.forceSize, cmin, active, nk))
      ensures a == EqualityMatrix(nv, forceDim, m, jc, s)
      ensures b == IdEqualityRhs(nv, forceDim, m, jc, nle, acc, forces, gamma)
      ensures solvedAcc == Add(acc, x[..nv])
      ensures solvedForces == Add(forces, x[nv .. nv + forceDim])
      ensures solvedTorque == x[nv + forceDim ..]
    {
      ComputeMatrice(kins, active, v, acc, forces, m, nle);
      StoreSolution(acc, forces, x);
    }

    /** The three result buffers read off the QP solution x. */
    method StoreSolution(acc: Vector, forces: Vector, x: Vector)
      requires SizesFit(settings, nv, nk, forceDim) && |acc| == nv && |forces| == forceDim && |x| == VarCount(nv, forceDim)
      modifies this`solvedAcc, this`solvedForces, this`solvedTorque
      ensures ResultBuffers(nv, forceDim, solvedForces, solvedAcc, solvedTorque)
      ensures solvedAcc == Add(acc, x[..nv])
      ensures solvedForces == Add(forces, x[nv .. nv + forceDim])
      ensures solvedTorque == x[nv + forceDim ..]
    {
      solvedAcc, solvedForces, solvedTorque := Add(acc, x[..nv]), Add(forces, x[nv .. nv + forceDim]), x[nv + forceDim ..];
    }
  }
}
