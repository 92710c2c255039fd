/** The QP the inverse-kinematics / inverse-dynamics controller IKIDSolver
    (src/lowlevel-control.cpp:168-418) assembles. Its QP variable x = (qdd, df, tau) is
    the joint acceleration, a force correction and the joint torques; the cost
    tracks a posture, the centroidal momentum, the contact feet and some fixed
    frames, A x = b is the inverse dynamics with the rigid contacts, l <= C x
    the linearised contact cones and a box bounds the torques. */
module IkidProblem {
  import opened LinearAlgebra
  import opened QpLayout

  /** IKIDSettings. The frame ids only fix the number of contacts and of fixed
      frames; Kp_gains and Kd_gains hold the posture (nv), foot (6) and
      frame (3) gains. */
  datatype IkidSettings = IkidSettings(
    contactIds: seq<nat>, fixedFrameIds: seq<nat>, forceSize: nat,
    mu: real, footWidth: real, footLength: real,
    wQref: real, wCentroidal: real, wFootpose: real, wBaserot: real, wForce: real,
    kpGains: seq<Vector>, kdGains: seq<Vector>, dt: real, x0: Vector, verbose: bool)

  /** The force sizes the Cmin initialiser accepts. */
  predicate SettingsFit(st: IkidSettings)
  {
    st.forceSize == 3 || st.forceSize == 6
  }

  /** The gain vectors have the sizes of the tasks they weigh. */
  predicate GainsFit(st: IkidSettings, nv: nat)
  {
    && |st.kpGains| == 3 && |st.kdGains| == 3
    && |st.kpGains[0]| == nv && |st.kdGains[0]| == nv
    && |st.kpGains[1]| == 6 && |st.kdGains[1]| == 6
    && |st.kpGains[2]| == 3 && |st.kdGains[2]| == 3
  }

  /** What computeMatrice reads of Pinocchio's data: the centroidal momentum
      matrix Ag and its time variation dAg, the nonlinear effects nle, and the
      6 x nv Jacobian and Jacobian time variation of every contact frame and
      of every fixed frame. */
  datatype RobotData = RobotData(ag: Matrix, dAg: Matrix, nle: Vector,
                                 footJacobians: seq<Matrix>, footJacobianDots: seq<Matrix>,
                                 frameJacobians: seq<Matrix>, frameJacobianDots: seq<Matrix>)

  /** Every matrix of the data has nv columns and the sizes Pinocchio gives it. */
  predicate DataFit(d: RobotData, nv: nat)
  {
    && IsMatrix(d.ag, 6, nv) && IsMatrix(d.dAg, 6, nv) && |d.nle| == nv
    && |d.footJacobianDots| == |d.footJacobians| && |d.frameJacobianDots| == |d.frameJacobians|
    && (forall i :: 0 <= i < |d.footJacobians| ==> IsMatrix(d.footJacobians[i], 6, nv))
    && (forall i :: 0 <= i < |d.footJacobians| ==> IsMatrix(d.footJacobianDots[i], 6, nv))
    && (forall j :: 0 <= j < |d.frameJacobians| ==> IsMatrix(d.frameJacobians[j], 6, nv))
    && (forall j :: 0 <= j < |d.frameJacobians| ==> IsMatrix(d.frameJacobianDots[j], 6, nv))
  }

  /** The buffers computeDifferences writes: q_diff_, dq_diff_, foot_diffs_,
      dfoot_diffs_, frame_diffs_ and dframe_diffs_. */
  datatype Differences = Differences(q: Vector, dq: Vector, feet: seq<Vector>, dfeet: seq<Vector>,
                                     frames: seq<Vector>, dframes: seq<Vector>)

  /** nv posture entries, a 6-vector per contact and a 3-vector per fixed frame. */
  predicate DifferencesFit(df: Differences, nv: nat, nk: nat, nf: nat)
  {
    && |df.q| == nv && |df.dq| == nv
    && |df.feet| == nk && |df.dfeet| == nk
    && (forall i :: 0 <= i < nk ==> |df.feet[i]| == 6)
    && (forall i :: 0 <= i < nk ==> |df.dfeet[i]| == 6)
    && |df.frames| == nf && |df.dframes| == nf
    && (forall j :: 0 <= j < nf ==> |df.frames[j]| == 3)
    && (forall j :: 0 <= j < nf ==> |df.dframes[j]| == 3)
  }

  /** The differences initialize leaves: all zero. */
  function ZeroDifferences(nv: nat, nk: nat, nf: nat): (df: Differences)
    ensures DifferencesFit(df, nv, nk, nf)
  {
    Differences(Zeros(nv), Zeros(nv), seq(nk, i => Zeros(6)), seq(nk, i => Zeros(6)),
                seq(nf, j => Zeros(3)), seq(nf, j => Zeros(3)))
  }

  /** Everything one computeMatrice cycle reads besides the buffers. */
  predicate CycleFit(st: IkidSettings, nv: nat, d: RobotData, df: Differences, v: Vector, dH: Vector)
  {
    && GainsFit(st, nv)
    && DataFit(d, nv) && |d.footJacobians| == |st.contactIds| && |d.frameJacobians| == |st.fixedFrameIds|
    && DifferencesFit(df, nv, |st.contactIds|, |st.fixedFrameIds|)
    && |v| == nv && |dH| == 6
  }

  // ---------------------------------------------------------------------------
  // The cost: top-left block of H and head of g

  /** w_qref I + w_centroidal Ag^T Ag. */
  function CentroidalTop(st: IkidSettings, nv: nat, d: RobotData): (t: Matrix)
    requires IsMatrix(d.ag, 6, nv)
    ensures IsMatrix(t, nv, nv)
  {
    AddMatrix(ScaledIdentity(st.wQref, nv), ScaleMatrix(st.wCentroidal, Gram(d.ag, nv)), nv, nv)
  }

  /** The top block after the first k contacts added w_footpose J^T J. */
  function TopAfterFeet(st: IkidSettings, nv: nat, d: RobotData, k: nat): (t: Matrix)
    requires DataFit(d, nv) && k <= |d.footJacobians|
    ensures IsMatrix(t, nv, nv)
  {
    if k == 0 then CentroidalTop(st, nv, d)
    else AddMatrix(TopAfterFeet(st, nv, d, k - 1), FootTopTerm(st, nv, d, k - 1), nv, nv)
  }

  /** Contact i's term w_footpose J^T J. */
  function FootTopTerm(st: IkidSettings, nv: nat, d: RobotData, i: nat): (t: Matrix)
    requires DataFit(d, nv) && i < |d.footJacobians|
    ensures IsMatrix(t, nv, nv)
  {
    ScaleMatrix(st.wFootpose, Gram(d.footJacobians[i], nv))
  }

  /** Jframe_ = J.bottomRows(3): the angular rows of a frame Jacobian. */
  function AngularRows(j: Matrix): (r: Matrix)
    requires |j| == 6
    ensures |r| == 3 && forall k :: 0 <= k < 3 ==> r[k] == j[k + 3]
  {
    j[3..]
  }

  /** The top block after also the first k fixed frames added w_baserot Jframe^T Jframe. */
  function TopAfterFrames(st: IkidSettings, nv: nat, d: RobotData, k: nat): (t: Matrix)
    requires DataFit(d, nv) && k <= |d.frameJacobians|
    ensures IsMatrix(t, nv, nv)
  {
    if k == 0 then TopAfterFeet(st, nv, d, |d.footJacobians|)
    else AddMatrix(TopAfterFrames(st, nv, d, k - 1), FrameTopTerm(st, nv, d, k - 1), nv, nv)
  }

  /** Fixed frame j's term w_baserot Jframe^T Jframe. */
  function FrameTopTerm(st: IkidSettings, nv: nat, d: RobotData, j: nat): (t: Matrix)
    requires DataFit(d, nv) && j < |d.frameJacobians|
    ensures IsMatrix(t, nv, nv)
  {
    ScaleMatrix(st.wBaserot, Gram(AngularRows(d.frameJacobians[j]), nv))
  }

  /** w_qref (-Kp0 .* q_diff - Kd0 .* dq_diff) - w_centroidal Ag^T (dH - dAg v). */
  function CentroidalGradient(st: IkidSettings, nv: nat, d: RobotData, df: Differences, v: Vector, dH: Vector): (g: Vector)
    requires CycleFit(st, nv, d, df, v, dH)
    ensures |g| == nv
  {
    var posture := Scale(st.wQref, Sub(Neg(Hadamard(st.kpGains[0], df.q)), Hadamard(st.kdGains[0], df.dq)));
    Sub(posture, Scale(st.wCentroidal, TransposeTimes(d.ag, nv, Sub(dH, MatVec(d.dAg, v)))))
  }

  /** Contact i's task error dJ v - Kp1 .* foot_diff - Kd1 .* dfoot_diff. */
  function FootTask(st: IkidSettings, nv: nat, d: RobotData, df: Differences, v: Vector, dH: Vector, i: nat): (e: Vector)
    requires CycleFit(st, nv, d, df, v, dH) && i < |st.contactIds|
    ensures |e| == 6
  {
    Sub(Sub(MatVec(d.footJacobianDots[i], v), Hadamard(st.kpGains[1], df.feet[i])), Hadamard(st.kdGains[1], df.dfeet[i]))
  }

  /** The gradient head after the first k contacts added w_footpose J^T e. */
  function GradientAfterFeet(st: IkidSettings, nv: nat, d: RobotData, df: Differences, v: Vector, dH: Vector,
                             k: nat): (g: Vector)
    requires CycleFit(st, nv, d, df, v, dH) && k <= |st.contactIds|
    ensures |g| == nv
  {
    if k == 0 then CentroidalGradient(st, nv, d, df, v, dH)
    else Add(GradientAfterFeet(st, nv, d, df, v, dH, k - 1), FootGradientTerm(st, nv, d, df, v, dH, k - 1))
  }

  /** Contact i's term w_footpose J^T e. */
  function FootGradientTerm(st: IkidSettings, nv: nat, d: RobotData, df: Differences, v: Vector, dH: Vector,
                            i: nat): (g: Vector)
    requires CycleFit(st, nv, d, df, v, dH) && i < |st.contactIds|
    ensures |g| == nv
  {
    Scale(st.wFootpose, TransposeTimes(d.footJacobians[i], nv, FootTask(st, nv, d, df, v, dH, i)))
  }

  /** Fixed frame j's task error dJframe.bottomRows(3) v - Kp2 .* frame_diff - Kd2 .* dframe_diff. */
  function FrameTask(st: IkidSettings, nv: nat, d: RobotData, df: Differences, v: Vector, dH: Vector, j: nat): (e: Vector)
    requires CycleFit(st, nv, d, df, v, dH) && j < |st.fixedFrameIds|
    ensures |e| == 3
  {
    Sub(Sub(MatVec(AngularRows(d.frameJacobianDots[j]), v), Hadamard(st.kpGains[2], df.frames[j])),
        Hadamard(st.kdGains[2], df.dframes[j]))
  }

  /** The gradient head after also the first k fixed frames added w_baserot Jframe^T e. */
  function GradientAfterFrames(st: IkidSettings, nv: nat, d: RobotData, df: Differences, v: Vector, dH: Vector,
                               k: nat): (g: Vector)
    requires CycleFit(st, nv, d, df, v, dH) && k <= |st.fixedFrameIds|
    ensures |g| == nv
  {
    if k == 0 then GradientAfterFeet(st, nv, d, df, v, dH, |st.contactIds|)
    else Add(GradientAfterFrames(st, nv, d, df, v, dH, k - 1), FrameGradientTerm(st, nv, d, df, v, dH, k - 1))
  }

  /** Fixed frame j's term w_baserot Jframe^T e. */
  function FrameGradientTerm(st: IkidSettings, nv: nat, d: RobotData, df: Differences, v: Vector, dH: Vector,
                             j: nat): (g: Vector)
    requires CycleFit(st, nv, d, df, v, dH) && j < |st.fixedFrameIds|
    ensures |g| == nv
  {
    Scale(st.wBaserot, TransposeTimes(AngularRows(d.frameJacobians[j]), nv, FrameTask(st, nv, d, df, v, dH, j)))
  }

  /** The top block is symmetric once the first k contacts are in. */
  lemma {:induction false} TopAfterFeetSymmetric(st: IkidSettings, nv: nat, d: RobotData, k: nat)
    requires DataFit(d, nv) && k <= |d.footJacobians|
    ensures Symmetric(TopAfterFeet(st, nv, d, k), nv)
  {
    if k == 0 {
      ScaledIdentitySymmetric(st.wQref, nv);
      GramSymmetric(d.ag, nv);
      ScaleSymmetric(st.wCentroidal, Gram(d.ag, nv), nv);
      AddSymmetric(ScaledIdentity(st.wQref, nv), ScaleMatrix(st.wCentroidal, Gram(d.ag, nv)), nv);
    } else {
      TopAfterFeetSymmetric(st, nv, d, k - 1);
      var gram := Gram(d.footJacobians[k - 1], nv);
      GramSymmetric(d.footJacobians[k - 1], nv);
      ScaleSymmetric(st.wFootpose, gram, nv);
      AddSymmetric(TopAfterFeet(st, nv, d, k - 1), ScaleMatrix(st.wFootpose, gram), nv);
    }
  }

  /** ... and once the first k fixed frames are in. */
  lemma {:induction false} TopAfterFramesSymmetric(st: IkidSettings, nv: nat, d: RobotData, k: nat)
    requires DataFit(d, nv) && k <= |d.frameJacobians|
    ensures Symmetric(TopAfterFrames(st, nv, d, k), nv)
  {
    if k == 0 {
      TopAfterFeetSymmetric(st, nv, d, |d.footJacobians|);
    } else {
      TopAfterFramesSymmetric(st, nv, d, k - 1);
      var jf := AngularRows(d.frameJacobians[k - 1]);
      GramSymmetric(jf, nv);
      ScaleSymmetric(st.wBaserot, Gram(jf, nv), nv);
      AddSymmetric(TopAfterFrames(st, nv, d, k - 1), ScaleMatrix(st.wBaserot, Gram(jf, nv)), nv);
    }
  }

  // ---------------------------------------------------------------------------
  // Fixed parts of H and g

  /** H with the top-left nv x nv block `top`, w_force on the diagonal of the
      force block, zero elsewhere. */
  function IkidHessian(nv: nat, fd: nat, wForce: real, top: Matrix): (h: Matrix)
    requires nv >= 6 && IsMatrix(top, nv, nv)
    ensures IsMatrix(h, VarCount(nv, fd), VarCount(nv, fd))
  {
    var n := VarCount(nv, fd);
    seq(n, r requires 0 <= r < n =>
      seq(n, c requires 0 <= c < n =>
        if r < nv && c < nv then top[r][c] else if r == c && r < nv + fd then wForce else 0.0))
  }

  /** Outside its top-left block H is what initialize left. */
  predicate HessianRest(h: Matrix, nv: nat, fd: nat, wForce: real)
    requires nv >= 6 && IsMatrix(h, VarCount(nv, fd), VarCount(nv, fd))
  {
    forall r, c :: 0 <= r < VarCount(nv, fd) && 0 <= c < VarCount(nv, fd) && !(r < nv && c < nv) ==>
      h[r][c] == if r == c && r < nv + fd then wForce else 0.0
  }

  /** `H.topLeftCorner(nv, nv) = top` on such an H gives IkidHessian(top). */
  lemma HessianTopWritten(h: Matrix, nv: nat, fd: nat, wForce: real, top: Matrix)
    requires nv >= 6 && IsMatrix(h, VarCount(nv, fd), VarCount(nv, fd)) && HessianRest(h, nv, fd, wForce)
    requires IsMatrix(top, nv, nv)
    ensures WriteBlock(h, 0, 0, top, nv) == IkidHessian(nv, fd, wForce, top)
    ensures HessianRest(IkidHessian(nv, fd, wForce, top), nv, fd, wForce)
  {
    var w, e := WriteBlock(h, 0, 0, top, nv), IkidHessian(nv, fd, wForce, top);
    forall r | 0 <= r < |e|
      ensures w[r] == e[r]
    {
      forall c | 0 <= c < |e|
        ensures w[r][c] == e[r][c]
      {
      }
    }
  }

  /** H is symmetric when its top-left block is. */
  lemma IkidHessianSymmetric(nv: nat, fd: nat, wForce: real, top: Matrix)
    requires nv >= 6 && IsMatrix(top, nv, nv) && Symmetric(top, nv)
    ensures Symmetric(IkidHessian(nv, fd, wForce, top), VarCount(nv, fd))
  {
  }

  /** g below its head is zero. */
  predicate GradientRest(g: Vector, nv: nat, fd: nat)
    requires nv >= 6
  {
    |g| == VarCount(nv, fd) && forall c :: nv <= c < |g| ==> g[c] == 0.0
  }

  // ---------------------------------------------------------------------------
  // The contact loop

  /** The 6-row slices of the contact rows of A once contacts 0 .. upto-1 have
      been visited: the contact's Jacobian when in contact, zero otherwise. */
  function JBlocks(d: RobotData, active: seq<bool>, nv: nat, upto: nat): (bs: seq<Matrix>)
    requires DataFit(d, nv) && |d.footJacobians| == |active|
    ensures |bs| == |active| && forall i :: 0 <= i < |active| ==> IsMatrix(bs[i], 6, nv)
  {
    seq(|active|, i requires 0 <= i < |active| => FootRows(d, active, nv, upto, i))
  }

  /** Contact i's slot of JBlocks. */
  function FootRows(d: RobotData, active: seq<bool>, nv: nat, upto: nat, i: nat): (rows: Matrix)
    requires DataFit(d, nv) && |d.footJacobians| == |active| && i < |active|
    ensures IsMatrix(rows, 6, nv)
  {
    if i < upto && active[i] then d.footJacobians[i] else ZeroMatrix(6, nv)
  }

  /** The 6-entry slices of b's tail: -dJ v for a visited contact in contact. */
  function TailBlocks(d: RobotData, active: seq<bool>, nv: nat, v: Vector, upto: nat): (bs: seq<Vector>)
    requires DataFit(d, nv) && |d.footJacobians| == |active| && |v| == nv
    ensures |bs| == |active| && forall i :: 0 <= i < |active| ==> |bs[i]| == 6
  {
    seq(|active|, i requires 0 <= i < |active| => TailRows(d, active, nv, v, upto, i))
  }

  /** Contact i's slot of TailBlocks. */
  function TailRows(d: RobotData, active: seq<bool>, nv: nat, v: Vector, upto: nat, i: nat): (t: Vector)
    requires DataFit(d, nv) && |d.footJacobians| == |active| && |v| == nv && i < |active|
    ensures |t| == 6
  {
    if i < upto && active[i] then Neg(MatVec(d.footJacobianDots[i], v)) else Zeros(6)
  }

  /** Contact i's force slot, forces.segment(6 i, 6). */
  function ForceSlot(forces: Vector, i: nat): (f: Vector)
    requires 6 * i + 6 <= |forces|
    ensures |f| == 6
  {
    forces[6 * i .. 6 * i + 6]
  }

  /** b's head after the first k contacts: -nle plus J^T f of each contact in contact. */
  function BHeadAfter(d: RobotData, active: seq<bool>, nv: nat, forces: Vector, k: nat): (b: Vector)
    requires DataFit(d, nv) && |d.footJacobians| == |active| && |forces| == 6 * |active| && k <= |active|
    ensures |b| == nv
  {
    if k == 0 then Neg(d.nle)
    else if active[k - 1] then
      Add(BHeadAfter(d, active, nv, forces, k - 1), TransposeTimes(d.footJacobians[k - 1], nv, ForceSlot(forces, k - 1)))
    else BHeadAfter(d, active, nv, forces, k - 1)
  }

  /** Writing contact i's Jacobian rows (in contact) or zero rows (not). */
  lemma JBlocksWrite(jst: Matrix, d: RobotData, active: seq<bool>, nv: nat, i: nat)
    requires DataFit(d, nv) && |d.footJacobians| == |active| && i < |active|
    requires IsMatrix(jst, 6 * |active|, nv) && SlotsAre(jst, 6, JBlocks(d, active, nv, i))
    ensures 6 * i + 6 <= |jst|
    ensures var rows := if active[i] then d.footJacobians[i] else ZeroMatrix(6, nv);
      && IsMatrix(Splice(jst, 6 * i, rows), 6 * |active|, nv)
      && SlotsAre(Splice(jst, 6 * i, rows), 6, JBlocks(d, active, nv, i + 1))
  {
    var rows := if active[i] then d.footJacobians[i] else ZeroMatrix(6, nv);
    SlotsWrite(jst, 6, JBlocks(d, active, nv, i), i, rows);
    SpliceRowsShape(jst, 6 * i, rows, 6 * |active|, nv);
    JBlocksNext(d, active, nv, i);
  }

  /** Visiting contact i fills its slot of JBlocks. */
  lemma JBlocksNext(d: RobotData, active: seq<bool>, nv: nat, i: nat)
    requires DataFit(d, nv) && |d.footJacobians| == |active| && i < |active|
    ensures JBlocks(d, active, nv, i + 1)
      == JBlocks(d, active, nv, i)[i := if active[i] then d.footJacobians[i] else ZeroMatrix(6, nv)]
  {
  }

  /** `b.segment(nv + 6 i, 6) = -dJ v` for a contact i in contact. */
  lemma TailBlocksWrite(tail: Vector, d: RobotData, active: seq<bool>, nv: nat, v: Vector, i: nat)
    requires DataFit(d, nv) && |d.footJacobians| == |active| && |v| == nv && i < |active| && active[i]
    requires SlotsAre(tail, 6, TailBlocks(d, active, nv, v, i))
    ensures 6 * i + 6 <= |tail|
    ensures SlotsAre(Splice(tail, 6 * i, Neg(MatVec(d.footJacobianDots[i], v))), 6, TailBlocks(d, active, nv, v, i + 1))
  {
    var block := Neg(MatVec(d.footJacobianDots[i], v));
    SlotsWrite(tail, 6, TailBlocks(d, active, nv, v, i), i, block);
    assert TailBlocks(d, active, nv, v, i + 1) == TailBlocks(d, active, nv, v, i)[i := block];
  }

  lemma TailBlocksSkip(d: RobotData, active: seq<bool>, nv: nat, v: Vector, i: nat)
    requires DataFit(d, nv) && |d.footJacobians| == |active| && |v| == nv && i < |active| && !active[i]
    ensures TailBlocks(d, active, nv, v, i + 1) == TailBlocks(d, active, nv, v, i)
  {
  }

  /** With 6-entry force slots every cone bound index stays inside its slot. */
  lemma WideSlotsInRange(forces: Vector, active: seq<bool>, fs: nat)
    requires (fs == 6 || |active| == 0) && |forces| == 6 * |active|
    ensures ConeBoundsInRange(forces, active, fs)
  {
  }

  /** The contacts' rows of the equality, as the 6 nk x nv stack the loop
      writes into A: J for a contact in contact, zero rows otherwise. */
  function StackedJacobian(d: RobotData, active: seq<bool>, nv: nat): (j: Matrix)
    requires DataFit(d, nv) && |d.footJacobians| == |active|
    ensures IsMatrix(j, 6 * |active|, nv)
  {
    ConcatRows(JBlocks(d, active, nv, |active|), 6, nv);
    Concat(JBlocks(d, active, nv, |active|))
  }

  /** Slice i of the stack is contact i's block. */
  lemma StackedSlots(d: RobotData, active: seq<bool>, nv: nat)
    requires DataFit(d, nv) && |d.footJacobians| == |active|
    ensures SlotsAre(StackedJacobian(d, active, nv), 6, JBlocks(d, active, nv, |active|))
  {
    ConcatSlots(6, JBlocks(d, active, nv, |active|));
  }

  /** The velocity product dJ v of each contact in contact, stacked; b's
      tail is its negation. */
  function DriftBlocks(d: RobotData, active: seq<bool>, nv: nat, v: Vector): (bs: seq<Vector>)
    requires DataFit(d, nv) && |d.footJacobians| == |active| && |v| == nv
    ensures |bs| == |active| && forall i :: 0 <= i < |active| ==> |bs[i]| == 6
  {
    seq(|active|, i requires 0 <= i < |active| =>
      if active[i] then MatVec(d.footJacobianDots[i], v) else Zeros(6))
  }

  function Drift(d: RobotData, active: seq<bool>, nv: nat, v: Vector): (gamma: Vector)
    requires DataFit(d, nv) && |d.footJacobians| == |active| && |v| == nv
    ensures |gamma| == 6 * |active|
  {
    ConcatSlots(6, DriftBlocks(d, active, nv, v));
    Concat(DriftBlocks(d, active, nv, v))
  }

  lemma DriftSlots(d: RobotData, active: seq<bool>, nv: nat, v: Vector)
    requires DataFit(d, nv) && |d.footJacobians| == |active| && |v| == nv
    ensures SlotsAre(Drift(d, active, nv, v), 6, DriftBlocks(d, active, nv, v))
  {
    ConcatSlots(6, DriftBlocks(d, active, nv, v));
  }

  /** The tail the loop writes is -gamma. */
  lemma TailIsNegDrift(tail: Vector, d: RobotData, active: seq<bool>, nv: nat, v: Vector)
    requires DataFit(d, nv) && |d.footJacobians| == |active| && |v| == nv
    requires SlotsAre(tail, 6, TailBlocks(d, active, nv, v, |active|))
    ensures tail == Neg(Drift(d, active, nv, v))
  {
    var gamma, bs := Drift(d, active, nv, v), TailBlocks(d, active, nv, v, |active|);
    DriftSlots(d, active, nv, v);
    forall i | 0 <= i < |active|
      ensures Segment(Neg(gamma), i, 6) == bs[i]
    {
      Slot(i, |active|, 6);
      NegSegment(gamma, i, 6);
      assert Segment(gamma, i, 6) == DriftBlocks(d, active, nv, v)[i];
      if !active[i] {
        assert Neg(Zeros(6)) == Zeros(6);
      }
    }
    SlotsConcat(tail, 6, bs);
    SlotsConcat(Neg(gamma), 6, bs);
  }

  /** b's head is -nle + Jc^T f for the stacked contact rows: the loop's
      per-contact sums J_i^T f_i add up to one product with the stack. */
  lemma BHeadStacked(d: RobotData, active: seq<bool>, nv: nat, forces: Vector)
    requires DataFit(d, nv) && |d.footJacobians| == |active| && |forces| == 6 * |active|
    ensures BHeadAfter(d, active, nv, forces, |active|)
         == Add(Neg(d.nle), TransposeTimes(StackedJacobian(d, active, nv), nv, forces))
  {
    var nk := |active|;
    BHeadPrefix(d, active, nv, forces, nk);
    assert JBlocks(d, active, nv, nk)[..nk] == JBlocks(d, active, nv, nk);
    assert forces[..6 * nk] == forces;
  }

  lemma {:induction false} BHeadPrefix(d: RobotData, active: seq<bool>, nv: nat, forces: Vector, k: nat)
    requires DataFit(d, nv) && |d.footJacobians| == |active| && |forces| == 6 * |active| && k <= |active|
    ensures var p := Concat(JBlocks(d, active, nv, |active|)[..k]);
      && IsMatrix(p, 6 * k, nv)
      && BHeadAfter(d, active, nv, forces, k) == Add(Neg(d.nle), TransposeTimes(p, nv, forces[..6 * k]))
  {
    var bs := JBlocks(d, active, nv, |active|);
    if k == 0 {
      TransposeTimesZero(0, nv, []);
      AddZeros(Neg(d.nle));
    } else {
      BHeadPrefix(d, active, nv, forces, k - 1);
      var p, blk := Concat(bs[..k - 1]), bs[k - 1];
      assert bs[..k][..k - 1] == bs[..k - 1];
      assert Concat(bs[..k]) == p + blk;
      var f1, f2 := forces[..6 * (k - 1)], ForceSlot(forces, k - 1);
      assert forces[..6 * k] == f1 + f2;
      TransposeTimesConcat(p, blk, nv, f1, f2);
      var before := TransposeTimes(p, nv, f1);
      AddAssociates(Neg(d.nle), before, TransposeTimes(blk, nv, f2));
      if !active[k - 1] {
        TransposeTimesZero(6, nv, f2);
        AddZeros(before);
        AddZeros(Add(Neg(d.nle), before));
      }
    }
  }

  // ---------------------------------------------------------------------------
  // The loops of computeMatrice

  /** What the contact loop reads besides the cycle's data. */
  predicate FootLoopFits(st: IkidSettings, nv: nat, n: nat, cm: Matrix, active: seq<bool>, forces: Vector)
  {
    && |active| == |st.contactIds| && 3 <= st.forceSize <= 6 && (st.forceSize == 6 || |active| == 0)
    && IsMatrix(cm, 9, st.forceSize) && nv + |active| * st.forceSize <= n && |forces| == 6 * |active|
  }

  /** The writes of a contact in contact: its rows of A, its J^T f in b's
      head, -dJ v in b's tail, its cone bounds in l and Cmin in C. */
  method WriteFoot(st: IkidSettings, nv: nat, n: nat, cm: Matrix, d: RobotData, active: seq<bool>,
                   v: Vector, forces: Vector, i: nat,
                   jst0: Matrix, bHead0: Vector, tail0: Vector, l0: Vector, c0: Matrix)
    returns (jst: Matrix, bHead: Vector, tail: Vector, l: Vector, c: Matrix)
    requires FootLoopFits(st, nv, n, cm, active, forces) && DataFit(d, nv) && |d.footJacobians| == |active| && |v| == nv
    requires i < |active| && active[i]
    requires IsMatrix(jst0, 6 * |active|, nv) && SlotsAre(jst0, 6, JBlocks(d, active, nv, i))
    requires bHead0 == BHeadAfter(d, active, nv, forces, i)
    requires SlotsAre(tail0, 6, TailBlocks(d, active, nv, v, i))
    requires ConeBoundsInRange(forces, active, st.forceSize)
    requires SlotsAre(l0, 9, LBlocks(forces, st.forceSize, st.mu, st.footWidth, st.footLength, active, i))
    requires IsMatrix(c0, 9 * |active|, n) && SlotsAre(c0, 9, CBlocks(n, nv, st.forceSize, cm, active, i))
    ensures IsMatrix(jst, 6 * |active|, nv) && SlotsAre(jst, 6, JBlocks(d, active, nv, i + 1))
    ensures bHead == BHeadAfter(d, active, nv, forces, i + 1)
    ensures SlotsAre(tail, 6, TailBlocks(d, active, nv, v, i + 1))
    ensures SlotsAre(l, 9, LBlocks(forces, st.forceSize, st.mu, st.footWidth, st.footLength, active, i + 1))
    ensures IsMatrix(c, 9 * |active|, n) && SlotsAre(c, 9, CBlocks(n, nv, st.forceSize, cm, active, i + 1))
  {
    var fs := st.forceSize;
    JBlocksWrite(jst0, d, active, nv, i);
    jst := Splice(jst0, 6 * i, d.footJacobians[i]);
    bHead := Add(bHead0, TransposeTimes(d.footJacobians[i], nv, ForceSlot(forces, i)));
    TailBlocksWrite(tail0, d, active, nv, v, i);
    tail := Splice(tail0, 6 * i, Neg(MatVec(d.footJacobianDots[i], v)));
    LBlocksWrite(l0, forces, fs, st.mu, st.footWidth, st.footLength, active, i);
    l := Splice(l0, 9 * i, ConeLowerBounds(forces, i, fs, st.mu, st.footWidth, st.footLength));
    ConeBlockWrite(c0, n, nv, fs, cm, active, i);
    c := WriteBlock(c0, 9 * i, nv + i * fs, cm, fs);
  }

  /** A contact not in contact: zero rows in A, and nothing else changes. */
  method SkipFoot(st: IkidSettings, nv: nat, n: nat, cm: Matrix, d: RobotData, active: seq<bool>,
                  v: Vector, forces: Vector, i: nat, jst0: Matrix)
    returns (jst: Matrix)
    requires FootLoopFits(st, nv, n, cm, active, forces) && DataFit(d, nv) && |d.footJacobians| == |active| && |v| == nv
    requires i < |active| && !active[i] && ConeBoundsInRange(forces, active, st.forceSize)
    requires IsMatrix(jst0, 6 * |active|, nv) && SlotsAre(jst0, 6, JBlocks(d, active, nv, i))
    ensures IsMatrix(jst, 6 * |active|, nv) && SlotsAre(jst, 6, JBlocks(d, active, nv, i + 1))
    ensures BHeadAfter(d, active, nv, forces, i + 1) == BHeadAfter(d, active, nv, forces, i)
    ensures TailBlocks(d, active, nv, v, i + 1) == TailBlocks(d, active, nv, v, i)
    ensures LBlocks(forces, st.forceSize, st.mu, st.footWidth, st.footLength, active, i + 1)
         == LBlocks(forces, st.forceSize, st.mu, st.footWidth, st.footLength, active, i)
    ensures CBlocks(n, nv, st.forceSize, cm, active, i + 1) == CBlocks(n, nv, st.forceSize, cm, active, i)
  {
    JBlocksWrite(jst0, d, active, nv, i);
    jst := Splice(jst0, 6 * i, ZeroMatrix(6, nv));
    TailBlocksSkip(d, active, nv, v, i);
    LBlocksSkip(forces, st.forceSize, st.mu, st.footWidth, st.footLength, active, i);
    CBlocksSkip(n, nv, st.forceSize, cm, active, i);
  }

  /** Every contact's foot task enters H's top block and g's head. */
  method FootCost(st: IkidSettings, nv: nat, d: RobotData, df: Differences, v: Vector, dH: Vector, i: nat,
                  top0: Matrix, grad0: Vector)
    returns (top: Matrix, grad: Vector)
    requires CycleFit(st, nv, d, df, v, dH) && i < |st.contactIds|
    requires top0 == TopAfterFeet(st, nv, d, i) && grad0 == GradientAfterFeet(st, nv, d, df, v, dH, i)
    ensures top == TopAfterFeet(st, nv, d, i + 1) && grad == GradientAfterFeet(st, nv, d, df, v, dH, i + 1)
  {
    top := AddMatrix(top0, FootTopTerm(st, nv, d, i), nv, nv);
    grad := Add(grad0, FootGradientTerm(st, nv, d, df, v, dH, i));
  }

  /** The contact rows once contacts 0 .. i-1 have been visited. */
  predicate FeetVisited(st: IkidSettings, nv: nat, n: nat, cm: Matrix, d: RobotData, active: seq<bool>,
                        v: Vector, forces: Vector, i: nat,
                        jst: Matrix, bHead: Vector, tail: Vector, l: Vector, c: Matrix)
    requires FootLoopFits(st, nv, n, cm, active, forces) && DataFit(d, nv) && |d.footJacobians| == |active| && |v| == nv
    requires i <= |active| && ConeBoundsInRange(forces, active, st.forceSize)
  {
    && IsMatrix(jst, 6 * |active|, nv) && SlotsAre(jst, 6, JBlocks(d, active, nv, i))
    && bHead == BHeadAfter(d, active, nv, forces, i)
    && SlotsAre(tail, 6, TailBlocks(d, active, nv, v, i))
    && SlotsAre(l, 9, LBlocks(forces, st.forceSize, st.mu, st.footWidth, st.footLength, active, i))
    && IsMatrix(c, 9 * |active|, n) && SlotsAre(c, 9, CBlocks(n, nv, st.forceSize, cm, active, i))
  }

  /** Contact i's writes to the constraint buffers. */
  method VisitFoot(st: IkidSettings, nv: nat, n: nat, cm: Matrix, d: RobotData, active: seq<bool>,
                   v: Vector, forces: Vector, i: nat,
                   jst0: Matrix, bHead0: Vector, tail0: Vector, l0: Vector, c0: Matrix)
    returns (jst: Matrix, bHead: Vector, tail: Vector, l: Vector, c: Matrix)
    requires FootLoopFits(st, nv, n, cm, active, forces) && DataFit(d, nv) && |d.footJacobians| == |active| && |v| == nv
    requires i < |active| && ConeBoundsInRange(forces, active, st.forceSize)
    requires FeetVisited(st, nv, n, cm, d, active, v, forces, i, jst0, bHead0, tail0, l0, c0)
    ensures FeetVisited(st, nv, n, cm, d, active, v, forces, i + 1, jst, bHead, tail, l, c)
  {
    if active[i] {
      jst, bHead, tail, l, c := WriteFoot(st, nv, n, cm, d, active, v, forces, i, jst0, bHead0, tail0, l0, c0);
    } else {
      jst := SkipFoot(st, nv, n, cm, d, active, v, forces, i, jst0);
      bHead, tail, l, c := bHead0, tail0, l0, c0;
    }
  }

  /** The buffers before the first contact. */
  lemma NoFootVisited(st: IkidSettings, nv: nat, n: nat, cm: Matrix, d: RobotData, active: seq<bool>,
                      v: Vector, forces: Vector)
    requires FootLoopFits(st, nv, n, cm, active, forces) && DataFit(d, nv) && |d.footJacobians| == |active| && |v| == nv
    ensures ConeBoundsInRange(forces, active, st.forceSize)
    ensures var nk := |active|;
      FeetVisited(st, nv, n, cm, d, active, v, forces, 0,
                  ZeroMatrix(6 * nk, nv), Neg(d.nle), Zeros(6 * nk), Zeros(9 * nk), ZeroMatrix(9 * nk, n))
  {
    var nk := |active|;
    WideSlotsInRange(forces, active, st.forceSize);
    ZeroMatrixSlots(nk, 6, nv);
    ZerosSlots(nk, 6);
    ZerosSlots(nk, 9);
    ZeroMatrixSlots(nk, 9, n);
    assert JBlocks(d, active, nv, 0) == seq(nk, j => ZeroMatrix(6, nv));
    assert TailBlocks(d, active, nv, v, 0) == seq(nk, j => Zeros(6));
    assert LBlocks(forces, st.forceSize, st.mu, st.footWidth, st.footLength, active, 0) == seq(nk, j => Zeros(9));
    assert CBlocks(n, nv, st.forceSize, cm, active, 0) == seq(nk, j => ZeroMatrix(9, n));
  }

  /** Everything the contact loop keeps after contacts 0 .. i-1. */
  predicate FootState(st: IkidSettings, nv: nat, n: nat, cm: Matrix, d: RobotData, df: Differences,
                      active: seq<bool>, v: Vector, dH: Vector, forces: Vector, i: nat,
                      top: Matrix, grad: Vector, jst: Matrix, bHead: Vector, tail: Vector, l: Vector, c: Matrix)
    requires FootLoopFits(st, nv, n, cm, active, forces) && CycleFit(st, nv, d, df, v, dH)
    requires i <= |active| && ConeBoundsInRange(forces, active, st.forceSize)
  {
    && top == TopAfterFeet(st, nv, d, i) && grad == GradientAfterFeet(st, nv, d, df, v, dH, i)
    && FeetVisited(st, nv, n, cm, d, active, v, forces, i, jst, bHead, tail, l, c)
  }

  /** One pass of the contact loop. */
  method FootStep(st: IkidSettings, nv: nat, n: nat, cm: Matrix, d: RobotData, df: Differences,
                  active: seq<bool>, v: Vector, dH: Vector, forces: Vector, i: nat,
                  top0: Matrix, grad0: Vector, jst0: Matrix, bHead0: Vector, tail0: Vector, l0: Vector, c0: Matrix)
    returns (top: Matrix, grad: Vector, jst: Matrix, bHead: Vector, tail: Vector, l: Vector, c: Matrix)
    requires FootLoopFits(st, nv, n, cm, active, forces) && CycleFit(st, nv, d, df, v, dH)
    requires i < |active| && ConeBoundsInRange(forces, active, st.forceSize)
    requires FootState(st, nv, n, cm, d, df, active, v, dH, forces, i, top0, grad0, jst0, bHead0, tail0, l0, c0)
    ensures FootState(st, nv, n, cm, d, df, active, v, dH, forces, i + 1, top, grad, jst, bHead, tail, l, c)
  {
    top, grad := FootCost(st, nv, d, df, v, dH, i, top0, grad0);
    jst, bHead, tail, l, c := VisitFoot(st, nv, n, cm, d, active, v, forces, i, jst0, bHead0, tail0, l0, c0);
  }

  /** The contact loop of computeMatrice: the foot tasks of every contact
      enter H's top block and g's head; a contact in contact also gets its
      rows of A and b and its cone in l and C. */
  method FootLoop(st: IkidSettings, nv: nat, n: nat, cm: Matrix, d: RobotData, df: Differences,
                  active: seq<bool>, v: Vector, dH: Vector, forces: Vector)
    returns (top: Matrix, grad: Vector, jst: Matrix, bHead: Vector, tail: Vector, l: Vector, c: Matrix)
    requires FootLoopFits(st, nv, n, cm, active, forces) && CycleFit(st, nv, d, df, v, dH)
    ensures ConeBoundsInRange(forces, active, st.forceSize)
    ensures FootState(st, nv, n, cm, d, df, active, v, dH, forces, |active|, top, grad, jst, bHead, tail, l, c)
  {
    var nk := |active|;
    NoFootVisited(st, nv, n, cm, d, active, v, forces);
    top, grad := CentroidalTop(st, nv, d), CentroidalGradient(st, nv, d, df, v, dH);
    jst, bHead, tail, l, c := ZeroMatrix(6 * nk, nv), Neg(d.nle), Zeros(6 * nk), Zeros(9 * nk), ZeroMatrix(9 * nk, n);
    var i := 0;
    while i < nk
      invariant i <= nk
      invariant FootState(st, nv, n, cm, d, df, active, v, dH, forces, i, top, grad, jst, bHead, tail, l, c)
    {
      top, grad, jst, bHead, tail, l, c := FootStep(st, nv, n, cm, d, df, active, v, dH, forces, i,
                                                    top, grad, jst, bHead, tail, l, c);
      i := i + 1;
    }
  }

  /** What the contact loop leaves, in the terms of the whole cycle. */
  lemma FootLoopDone(st: IkidSettings, nv: nat, n: nat, cm: Matrix, d: RobotData, df: Differences,
                     active: seq<bool>, v: Vector, dH: Vector, forces: Vector,
                     top: Matrix, grad: Vector, jst: Matrix, bHead: Vector, tail: Vector, l: Vector, c: Matrix)
    requires FootLoopFits(st, nv, n, cm, active, forces) && CycleFit(st, nv, d, df, v, dH)
    requires ConeBoundsInRange(forces, active, st.forceSize)
    requires FootState(st, nv, n, cm, d, df, active, v, dH, forces, |active|, top, grad, jst, bHead, tail, l, c)
    ensures jst == StackedJacobian(d, active, nv)
    ensures tail == Neg(Drift(d, active, nv, v))
  {
    SlotsConcat(jst, 6, JBlocks(d, active, nv, |active|));
    TailIsNegDrift(tail, d, active, nv, v);
  }

  /** The cost terms after the contacts and fixed frames 0 .. i-1. */
  predicate FramesState(st: IkidSettings, nv: nat, d: RobotData, df: Differences, v: Vector, dH: Vector, i: nat,
                        top: Matrix, grad: Vector)
    requires CycleFit(st, nv, d, df, v, dH) && i <= |st.fixedFrameIds|
  {
    top == TopAfterFrames(st, nv, d, i) && grad == GradientAfterFrames(st, nv, d, df, v, dH, i)
  }

  /** Fixed frame i's orientation task enters H's top block and g's head. */
  method FrameStep(st: IkidSettings, nv: nat, d: RobotData, df: Differences, v: Vector, dH: Vector, i: nat,
                   top0: Matrix, grad0: Vector)
    returns (top: Matrix, grad: Vector)
    requires CycleFit(st, nv, d, df, v, dH) && i < |st.fixedFrameIds|
    requires FramesState(st, nv, d, df, v, dH, i, top0, grad0)
    ensures FramesState(st, nv, d, df, v, dH, i + 1, top, grad)
  {
    top := AddMatrix(top0, FrameTopTerm(st, nv, d, i), nv, nv);
    grad := Add(grad0, FrameGradientTerm(st, nv, d, df, v, dH, i));
  }

  /** The fixed-frame loop: each frame's orientation task enters H's top
      block and g's head. */
  method FrameLoop(st: IkidSettings, nv: nat, d: RobotData, df: Differences, v: Vector, dH: Vector,
                   top0: Matrix, grad0: Vector)
    returns (top: Matrix, grad: Vector)
    requires CycleFit(st, nv, d, df, v, dH)
    requires top0 == TopAfterFeet(st, nv, d, |st.contactIds|)
    requires grad0 == GradientAfterFeet(st, nv, d, df, v, dH, |st.contactIds|)
    ensures top == TopAfterFrames(st, nv, d, |st.fixedFrameIds|)
    ensures grad == GradientAfterFrames(st, nv, d, df, v, dH, |st.fixedFrameIds|)
  {
    top, grad := top0, grad0;
    var i := 0;
    while i < |st.fixedFrameIds|
      invariant i <= |st.fixedFrameIds|
      invariant FramesState(st, nv, d, df, v, dH, i, top, grad)
    {
      top, grad := FrameStep(st, nv, d, df, v, dH, i, top, grad);
      i := i + 1;
    }
  }

  // ---------------------------------------------------------------------------
  // What the assembled equality means

  /** Contact i holds still for the joint acceleration q: J q + dJ v = 0,
      the frame's spatial acceleration vanishes. */
  predicate FootHeld(d: RobotData, nv: nat, v: Vector, q: Vector, i: nat)
    requires DataFit(d, nv) && i < |d.footJacobians| && |v| == nv && |q| == nv
  {
    Add(MatVec(d.footJacobians[i], q), MatVec(d.footJacobianDots[i], v)) == Zeros(6)
  }

  /** Every contact in contact holds still. */
  predicate FeetHeld(d: RobotData, active: seq<bool>, nv: nat, v: Vector, q: Vector)
    requires DataFit(d, nv) && |d.footJacobians| == |active| && |v| == nv && |q| == nv
  {
    forall i :: 0 <= i < |active| && active[i] ==> FootHeld(d, nv, v, q, i)
  }

  /** Rows 6 i .. 6 i + 6 of Jc q + gamma. */
  lemma FootRowsHeld(d: RobotData, active: seq<bool>, nv: nat, v: Vector, q: Vector, i: nat)
    requires DataFit(d, nv) && |d.footJacobians| == |active| && |v| == nv && |q| == nv && i < |active|
    ensures var jc, gamma := StackedJacobian(d, active, nv), Drift(d, active, nv, v);
      Segment(Add(MatVec(jc, q), gamma), i, 6) == Zeros(6) <==> (active[i] ==> FootHeld(d, nv, v, q, i))
  {
    var jc, gamma := StackedJacobian(d, active, nv), Drift(d, active, nv, v);
    StackedSlots(d, active, nv);
    DriftSlots(d, active, nv, v);
    Slot(i, |active|, 6);
    AddSegment(MatVec(jc, q), gamma, i, 6);
    MatVecSegment(jc, q, i, 6);
    assert Segment(jc, i, 6) == JBlocks(d, active, nv, |active|)[i];
    assert Segment(gamma, i, 6) == DriftBlocks(d, active, nv, v)[i];
    if !active[i] {
      MatVecZeros(ZeroMatrix(6, nv), nv);
      var z := MatVec(ZeroMatrix(6, nv), q);
      forall r | 0 <= r < 6
        ensures z[r] == 0.0
      {
        DotZerosLeft(nv, q);
      }
      assert Add(z, Zeros(6)) == Zeros(6);
    }
  }

  /** Jc q + gamma = 0 says exactly that every contact in contact holds still. */
  lemma RigidFeetMeaning(d: RobotData, active: seq<bool>, nv: nat, v: Vector, q: Vector)
    requires DataFit(d, nv) && |d.footJacobians| == |active| && |v| == nv && |q| == nv
    ensures Add(MatVec(StackedJacobian(d, active, nv), q), Drift(d, active, nv, v)) == Zeros(6 * |active|)
        <==> FeetHeld(d, active, nv, v, q)
  {
    var e := Add(MatVec(StackedJacobian(d, active, nv), q), Drift(d, active, nv, v));
    ZeroBySlices(e, |active|, 6);
    forall i | 0 <= i < |active|
      ensures Segment(e, i, 6) == Zeros(6) <==> (active[i] ==> FootHeld(d, nv, v, q, i))
    {
      FootRowsHeld(d, active, nv, v, q, i);
    }
  }

  /** The b computeMatrice builds is the inverse-dynamics right-hand side
      with a zero reference acceleration and gamma = dJ v. */
  lemma IkidRhsIsIdRhs(d: RobotData, active: seq<bool>, nv: nat, m: Matrix, v: Vector, forces: Vector)
    requires DataFit(d, nv) && |d.footJacobians| == |active| && |v| == nv && IsMatrix(m, nv, nv)
    requires |forces| == 6 * |active|
    ensures var jc, gamma := StackedJacobian(d, active, nv), Drift(d, active, nv, v);
      Add(Neg(d.nle), TransposeTimes(jc, nv, forces)) + Neg(gamma)
      == IdEqualityRhs(nv, 6 * |active|, m, jc, d.nle, Zeros(nv), forces, gamma)
  {
    RhsAtZeroAcceleration(nv, 6 * |active|, m, StackedJacobian(d, active, nv), d.nle, forces, Drift(d, active, nv, v));
  }

  /** A x = b for A = [M, -Jc^T, -S; Jc, 0, 0] and b = (-nle + Jc^T f, -gamma). */
  predicate EqualityRowsHold(nv: nat, fd: nat, m: Matrix, jc: Matrix, nle: Vector, f: Vector, gamma: Vector, x: Vector)
    requires nv >= 6 && IsMatrix(m, nv, nv) && IsMatrix(jc, fd, nv)
    requires |nle| == nv && |f| == fd && |gamma| == fd && |x| == VarCount(nv, fd)
  {
    MatVec(EqualityMatrix(nv, fd, m, jc, SelectionMatrix(nv)), x) == Add(Neg(nle), TransposeTimes(jc, nv, f)) + Neg(gamma)
  }

  /** M qdd + nle = S tau + Jc^T (f + df) for x = (qdd, df, tau). */
  predicate ContactDynamics(nv: nat, fd: nat, m: Matrix, jc: Matrix, nle: Vector, f: Vector, x: Vector)
    requires nv >= 6 && IsMatrix(m, nv, nv) && IsMatrix(jc, fd, nv)
    requires |nle| == nv && |f| == fd && |x| == VarCount(nv, fd)
  {
    var qdd, df, tau := x[..nv], x[nv..nv + fd], x[nv + fd..];
    Add(MatVec(m, qdd), nle) == Add(Zeros(6) + tau, TransposeTimes(jc, nv, Add(f, df)))
  }

  /** A x = b for the assembled A and b says: the joint acceleration qdd
      and torques tau satisfy M qdd + nle = S tau + Jc^T (f + df), and every
      contact in contact holds still. */
  lemma IkidEqualityMeaning(d: RobotData, active: seq<bool>, nv: nat, m: Matrix, v: Vector, forces: Vector,
                            x: Vector)
    requires nv >= 6 && DataFit(d, nv) && |d.footJacobians| == |active| && |v| == nv && IsMatrix(m, nv, nv)
    requires |forces| == 6 * |active| && |x| == VarCount(nv, 6 * |active|)
    ensures var fd, jc := 6 * |active|, StackedJacobian(d, active, nv);
      EqualityRowsHold(nv, fd, m, jc, d.nle, forces, Drift(d, active, nv, v), x)
      <==> ContactDynamics(nv, fd, m, jc, d.nle, forces, x) && FeetHeld(d, active, nv, v, x[..nv])
  {
    var fd, jc, gamma := 6 * |active|, StackedJacobian(d, active, nv), Drift(d, active, nv, v);
    var qdd := x[..nv];
    RigidFeetMeaning(d, active, nv, v, qdd);
    EqualityWithHeldFeet(nv, fd, m, jc, d.nle, forces, gamma, x, FeetHeld(d, active, nv, v, qdd));
  }

  /** ZeroAccelerationMeaning with the contact rows replaced by an equivalent statement. */
  lemma EqualityWithHeldFeet(nv: nat, fd: nat, m: Matrix, jc: Matrix, nle: Vector, f: Vector, gamma: Vector,
                             x: Vector, held: bool)
    requires nv >= 6 && IsMatrix(m, nv, nv) && IsMatrix(jc, fd, nv)
    requires |nle| == nv && |f| == fd && |gamma| == fd && |x| == VarCount(nv, fd)
    requires held <==> Add(MatVec(jc, x[..nv]), gamma) == Zeros(fd)
    ensures EqualityRowsHold(nv, fd, m, jc, nle, f, gamma, x) <==> ContactDynamics(nv, fd, m, jc, nle, f, x) && held
  {
    ZeroAccelerationMeaning(nv, fd, m, jc, nle, f, gamma, x);
  }

  /** The Hessian computeMatrice leaves is symmetric. */
  lemma IkidCostSymmetric(st: IkidSettings, nv: nat, fd: nat, d: RobotData)
    requires nv >= 6 && DataFit(d, nv)
    ensures Symmetric(IkidHessian(nv, fd, st.wForce, TopAfterFrames(st, nv, d, |d.frameJacobians|)), VarCount(nv, fd))
  {
    TopAfterFramesSymmetric(st, nv, d, |d.frameJacobians|);
    IkidHessianSymmetric(nv, fd, st.wForce, TopAfterFrames(st, nv, d, |d.frameJacobians|));
  }

  /** The buffers computeMatrice leaves depend only on its inputs, not on
      what an earlier cycle left in them: every buffer it accumulates into is
      reset first. */
  lemma AssemblyDeterministic(st: IkidSettings, nv: nat, fd: nat, d: RobotData, df: Differences, active: seq<bool>,
                              v: Vector, dH: Vector, forces: Vector, m: Matrix, s: Matrix, cm: Matrix,
                              h1: Matrix, g1: Vector, a1: Matrix, b1: Vector, l1: Vector, c1: Matrix,
                              h2: Matrix, g2: Vector, a2: Matrix, b2: Vector, l2: Vector, c2: Matrix)
    requires CostAssembled(st, nv, fd, d, df, v, dH, h1, g1) && CostAssembled(st, nv, fd, d, df, v, dH, h2, g2)
    requires ConstraintsAssembled(st, nv, fd, d, active, v, forces, m, s, cm, a1, b1, l1, c1)
    requires ConstraintsAssembled(st, nv, fd, d, active, v, forces, m, s, cm, a2, b2, l2, c2)
    ensures h1 == h2 && g1 == g2 && a1 == a2 && b1 == b2 && l1 == l2 && c1 == c2
  {
    WideSlotsInRange(forces, active, st.forceSize);
    ConeRowsFit(nv, active, st.forceSize);
    var lb := LBlocks(forces, st.forceSize, st.mu, st.footWidth, st.footLength, active, |active|);
    var cb := CBlocks(VarCount(nv, fd), nv, st.forceSize, cm, active, |active|);
    SlotsConcat(l1, 9, lb);
    SlotsConcat(l2, 9, lb);
    SlotsConcat(c1, 9, cb);
    SlotsConcat(c2, 9, cb);
  }

  // ---------------------------------------------------------------------------
  // The solver object

  /** The sizes initialize fixes: fs in {3, 6}, nk contacts, force_dim_ = fs nk. */
  predicate SizesFit(st: IkidSettings, nv: nat, nk: nat, fd: nat)
  {
    nv >= 6 && SettingsFit(st) && nk == |st.contactIds| && fd == st.forceSize * nk
  }

  /** g is zero past its head; H is what initialize left outside its top-left block. */
  predicate CostBuffers(st: IkidSettings, nv: nat, fd: nat, g: Vector, h: Matrix)
  {
    && nv >= 6 && GradientRest(g, nv, fd)
    && IsMatrix(h, VarCount(nv, fd), VarCount(nv, fd)) && HessianRest(h, nv, fd, st.wForce)
  }

  /** H and g as computeMatrice leaves them: the posture, centroidal, foot
      and fixed-frame tasks in H's top block and g's head. */
  predicate CostAssembled(st: IkidSettings, nv: nat, fd: nat, d: RobotData, df: Differences, v: Vector, dH: Vector,
                          h: Matrix, g: Vector)
  {
    && nv >= 6 && CycleFit(st, nv, d, df, v, dH)
    && h == IkidHessian(nv, fd, st.wForce, TopAfterFrames(st, nv, d, |st.fixedFrameIds|))
    && g == GradientAfterFrames(st, nv, d, df, v, dH, |st.fixedFrameIds|) + Zeros(VarCount(nv, fd) - nv)
  }

  /** A, b, l and C as computeMatrice leaves them: the inverse dynamics with
      the stacked rows of the contacts in contact, and their cones. */
  predicate ConstraintsAssembled(st: IkidSettings, nv: nat, fd: nat, d: RobotData, active: seq<bool>, v: Vector,
                                 forces: Vector, m: Matrix, s: Matrix, cm: Matrix,
                                 a: Matrix, b: Vector, l: Vector, c: Matrix)
  {
    && ConstraintsFit(st, nv, fd, d, active, v, forces, m, s, cm)
    && (WideSlotsInRange(forces, active, st.forceSize);
        ConeRowsFit(nv, active, st.forceSize);
    && a == EqualityMatrix(nv, fd, m, StackedJacobian(d, active, nv), s)
    && b == Add(Neg(d.nle), TransposeTimes(StackedJacobian(d, active, nv), nv, forces)) + Neg(Drift(d, active, nv, v))
    && SlotsAre(l, 9, LBlocks(forces, st.forceSize, st.mu, st.footWidth, st.footLength, active, |active|))
    && SlotsAre(c, 9, CBlocks(VarCount(nv, fd), nv, st.forceSize, cm, active, |active|)))
  }

  /** What the constraint rows of one cycle are built from: the data, the
      contact flags, the forces, M, S and Cmin of their sizes. */
  predicate ConstraintsFit(st: IkidSettings, nv: nat, fd: nat, d: RobotData, active: seq<bool>, v: Vector,
                           forces: Vector, m: Matrix, s: Matrix, cm: Matrix)
  {
    && nv >= 6 && DataFit(d, nv) && |d.footJacobians| == |active| && |v| == nv
    && fd == 6 * |active| && |forces| == fd && IsMatrix(m, nv, nv) && s == SelectionMatrix(nv)
    && IsMatrix(cm, 9, st.forceSize) && (st.forceSize == 6 || |active| == 0)
  }

  /** Every contact's force columns lie inside the variable vector. */
  lemma ConeRowsFit(nv: nat, active: seq<bool>, fs: nat)
    requires nv >= 6 && (fs == 6 || |active| == 0)
    ensures nv + |active| * fs <= VarCount(nv, 6 * |active|)
  {
  }

  /** The whole of computeMatrice on the buffers it rewrites: the contact
      loop, the fixed-frame loop, then H's top block, g's head, A's blocks
      and b, l, C. */
  method AssembleCycle(st: IkidSettings, nv: nat, fd: nat, d: RobotData, df: Differences, active: seq<bool>,
                       v: Vector, dH: Vector, forces: Vector, m: Matrix, s: Matrix, cm: Matrix,
                       h0: Matrix, g0: Vector, a0: Matrix)
    returns (h: Matrix, g: Vector, a: Matrix, b: Vector, l: Vector, c: Matrix)
    requires SizesFit(st, nv, |active|, fd) && (st.forceSize == 6 || |active| == 0)
    requires CycleFit(st, nv, d, df, v, dH)
    requires |forces| == fd && IsMatrix(m, nv, nv) && s == SelectionMatrix(nv)
    requires cm == CminMatrix(st.forceSize, st.mu, st.footWidth, st.footLength)
    requires CostBuffers(st, nv, fd, g0, h0)
    requires IsMatrix(a0, EqCount(nv, fd), VarCount(nv, fd)) && LowerRightZero(a0, nv)
    ensures CostBuffers(st, nv, fd, g, h) && CostAssembled(st, nv, fd, d, df, v, dH, h, g)
    ensures EqualityBuffers(nv, fd, a, b, s)
    ensures |l| == IneqCount(|active|) && IsMatrix(c, IneqCount(|active|), VarCount(nv, fd))
    ensures ConstraintsAssembled(st, nv, fd, d, active, v, forces, m, s, cm, a, b, l, c)
  {
    var n := VarCount(nv, fd);
    var top, grad, jst, bHead, tail, l1, c1 := FootLoop(st, nv, n, cm, d, df, active, v, dH, forces);
    FootLoopDone(st, nv, n, cm, d, df, active, v, dH, forces, top, grad, jst, bHead, tail, l1, c1);
    top, grad := FrameLoop(st, nv, d, df, v, dH, top, grad);
    h, g := WriteCost(st, nv, fd, d, df, v, dH, h0, g0, top, grad);
    a, b := WriteEquality(nv, fd, d, active, v, forces, m, s, a0, jst, bHead, tail);
    l, c := l1, c1;
  }

  /** `H.topLeftCorner(nv, nv) = top` and `g.head(nv) = grad` for the
      accumulated task terms. */
  method WriteCost(st: IkidSettings, nv: nat, fd: nat, d: RobotData, df: Differences, v: Vector, dH: Vector,
                   h0: Matrix, g0: Vector, top: Matrix, grad: Vector)
    returns (h: Matrix, g: Vector)
    requires CostBuffers(st, nv, fd, g0, h0) && CycleFit(st, nv, d, df, v, dH)
    requires top == TopAfterFrames(st, nv, d, |st.fixedFrameIds|)
    requires grad == GradientAfterFrames(st, nv, d, df, v, dH, |st.fixedFrameIds|)
    ensures CostBuffers(st, nv, fd, g, h) && CostAssembled(st, nv, fd, d, df, v, dH, h, g)
  {
    HessianTopWritten(h0, nv, fd, st.wForce, top);
    h := WriteBlock(h0, 0, 0, top, nv);
    g := Splice(g0, 0, grad);
    assert g == grad + Zeros(VarCount(nv, fd) - nv);
  }

  /** A = [M, -Jc^T, -S; Jc, 0, 0] for the stacked contact rows, and b the
      loop's head and tail. */
  method WriteEquality(nv: nat, fd: nat, d: RobotData, active: seq<bool>, v: Vector, forces: Vector,
                       m: Matrix, s: Matrix, a0: Matrix, jst: Matrix, bHead: Vector, tail: Vector)
    returns (a: Matrix, b: Vector)
    requires nv >= 6 && DataFit(d, nv) && |d.footJacobians| == |active| && |v| == nv
    requires fd == 6 * |active| && |forces| == fd && IsMatrix(m, nv, nv) && s == SelectionMatrix(nv)
    requires IsMatrix(a0, EqCount(nv, fd), VarCount(nv, fd)) && LowerRightZero(a0, nv)
    requires jst == StackedJacobian(d, active, nv) && tail == Neg(Drift(d, active, nv, v))
    requires bHead == BHeadAfter(d, active, nv, forces, |active|)
    ensures EqualityBuffers(nv, fd, a, b, s)
    ensures a == EqualityMatrix(nv, fd, m, StackedJacobian(d, active, nv), s)
    ensures b == Add(Neg(d.nle), TransposeTimes(StackedJacobian(d, active, nv), nv, forces)) + Neg(Drift(d, active, nv, v))
  {
    BHeadStacked(d, active, nv, forces);
    EqualityBlocksWritten(a0, nv, fd, m, jst, s);
    a, b := WriteEqualityBlocks(a0, nv, fd, m, jst, s), bHead + tail;
  }

  /** The invariant of an IKIDSolver's fields: the sizes initialize fixes,
      S, Cmin, the box and u as it set them, and every buffer of its size. */
  predicate SolverState(st: IkidSettings, nv: nat, nk: nat, fd: nat, effortLimit: Vector, df: Differences,
                        s: Matrix, cm: Matrix, lBox: Vector, uBox: Vector, u: Vector,
                        a: Matrix, b: Vector, l: Vector, c: Matrix, g: Vector, h: Matrix,
                        solvedForces: Vector, solvedAcc: Vector, solvedTorque: Vector)
  {
    && SizesFit(st, nv, nk, fd) && |effortLimit| == nv
    && DifferencesFit(df, nv, nk, |st.fixedFrameIds|)
    && cm == CminMatrix(st.forceSize, st.mu, st.footWidth, st.footLength)
    && lBox == BoxLower(nv, fd, effortLimit) && uBox == BoxUpper(nv, fd, effortLimit)
    && EqualityBuffers(nv, fd, a, b, s)
    && InequalityBuffers(nv, fd, nk, l, c, u)
    && CostBuffers(st, nv, fd, g, h)
    && ResultBuffers(nv, fd, solvedForces, solvedAcc, solvedTorque)
  }

  /** New cost buffers of the right shape keep the invariant. */
  lemma CostSwapped(st: IkidSettings, nv: nat, nk: nat, fd: nat, effortLimit: Vector, df: Differences,
                    s: Matrix, cm: Matrix, lBox: Vector, uBox: Vector, u: Vector,
                    a: Matrix, b: Vector, l: Vector, c: Matrix, g: Vector, h: Matrix,
                    solvedForces: Vector, solvedAcc: Vector, solvedTorque: Vector, g1: Vector, h1: Matrix)
    requires SolverState(st, nv, nk, fd, effortLimit, df, s, cm, lBox, uBox, u, a, b, l, c, g, h,
                         solvedForces, solvedAcc, solvedTorque)
    requires CostBuffers(st, nv, fd, g1, h1)
    ensures SolverState(st, nv, nk, fd, effortLimit, df, s, cm, lBox, uBox, u, a, b, l, c, g1, h1,
                        solvedForces, solvedAcc, solvedTorque)
  {
  }

  /** New constraint buffers of the right shape keep the invariant. */
  lemma ConstraintsSwapped(st: IkidSettings, nv: nat, nk: nat, fd: nat, effortLimit: Vector, df: Differences,
                           s: Matrix, cm: Matrix, lBox: Vector, uBox: Vector, u: Vector,
                           a: Matrix, b: Vector, l: Vector, c: Matrix, g: Vector, h: Matrix,
                           solvedForces: Vector, solvedAcc: Vector, solvedTorque: Vector,
                           a1: Matrix, b1: Vector, l1: Vector, c1: Matrix)
    requires SolverState(st, nv, nk, fd, effortLimit, df, s, cm, lBox, uBox, u, a, b, l, c, g, h,
                         solvedForces, solvedAcc, solvedTorque)
    requires EqualityBuffers(nv, fd, a1, b1, s)
    requires |l1| == IneqCount(nk) && IsMatrix(c1, IneqCount(nk), VarCount(nv, fd))
    ensures SolverState(st, nv, nk, fd, effortLimit, df, s, cm, lBox, uBox, u, a1, b1, l1, c1, g, h,
                        solvedForces, solvedAcc, solvedTorque)
  {
  }


  /** New result buffers of the right sizes keep the invariant. */
  lemma ResultsSwapped(st: IkidSettings, nv: nat, nk: nat, fd: nat, effortLimit: Vector, df: Differences,
                       s: Matrix, cm: Matrix, lBox: Vector, uBox: Vector, u: Vector,
                       a: Matrix, b: Vector, l: Vector, c: Matrix, g: Vector, h: Matrix,
                       solvedForces: Vector, solvedAcc: Vector, solvedTorque: Vector,
                       forces1: Vector, acc1: Vector, torque1: Vector)
    requires SolverState(st, nv, nk, fd, effortLimit, df, s, cm, lBox, uBox, u, a, b, l, c, g, h,
                         solvedForces, solvedAcc, solvedTorque)
    requires ResultBuffers(nv, fd, forces1, acc1, torque1)
    ensures SolverState(st, nv, nk, fd, effortLimit, df, s, cm, lBox, uBox, u, a, b, l, c, g, h,
                        forces1, acc1, torque1)
  {
  }

  /** New differences of the right sizes keep the invariant. */
  lemma DifferencesSwapped(st: IkidSettings, nv: nat, nk: nat, fd: nat, effortLimit: Vector, df: Differences,
                           s: Matrix, cm: Matrix, lBox: Vector, uBox: Vector, u: Vector,
                           a: Matrix, b: Vector, l: Vector, c: Matrix, g: Vector, h: Matrix,
                           solvedForces: Vector, solvedAcc: Vector, solvedTorque: Vector, df1: Differences)
    requires SolverState(st, nv, nk, fd, effortLimit, df, s, cm, lBox, uBox, u, a, b, l, c, g, h,
                         solvedForces, solvedAcc, solvedTorque)
    requires DifferencesFit(df1, nv, nk, |st.fixedFrameIds|)
    ensures SolverState(st, nv, nk, fd, effortLimit, df1, s, cm, lBox, uBox, u, a, b, l, c, g, h,
                        solvedForces, solvedAcc, solvedTorque)
  {
  }
}
