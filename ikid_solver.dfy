/** The IKIDSolver object of src/lowlevel-control.cpp:168-418: the buffers
    initialize sizes, and computeDifferences, computeMatrice and solve_qp
    rewriting them. The QP it assembles is modelled in IkidProblem. */
module IkidSolver {
  import opened LinearAlgebra
  import opened QpLayout
  import opened IkidProblem

  class IKIDSolver {
    var settings: IkidSettings
    var nv: nat
    var nk: nat
    /** force_dim_ = fs nk */
    var forceDim: nat
    /** The model's effortLimit. */
    var effortLimit: Vector
    var diffs: Differences
    var a: Matrix
    var b: Vector
    var l: Vector
    var c: Matrix
    /** The selection matrix S_. */
    var s: Matrix
    var cmin: Matrix
    var lBox: Vector
    var uBox: Vector
    var u: Vector
    var g: Vector
    var h: Matrix
    var solvedForces: Vector
    var solvedAcc: Vector
    var solvedTorque: Vector

    /** The buffer sizes fixed at initialisation, and the buffers no cycle
        rewrites. */
    ghost predicate Valid()
      reads this
    {
      SolverState(settings, nv, nk, forceDim, effortLimit, diffs, s, cmin, lBox, uBox, u,
                  a, b, l, c, g, h, solvedForces, solvedAcc, solvedTorque)
    }

    /** IKIDSolver(settings, model), which runs initialize: zero differences;
        n = 2 nv - 6 + fs nk, neq = nv + fs nk, nin = 9 nk; zero A, b, l, g;
        S; the box -100000 .. 100000 on qdd and the forces and
        -effortLimit .. effortLimit on the torques; Cmin and its block for
        every contact in C; u = 100000; H zero but for w_force on the
        diagonal of the force block. */
    constructor (st: IkidSettings, modelNv: nat, modelEffortLimit: Vector)
      requires modelNv >= 6 && SettingsFit(st) && |modelEffortLimit| == modelNv
      ensures Valid() && settings == st && nv == modelNv && effortLimit == modelEffortLimit
      ensures diffs == ZeroDifferences(nv, nk, |st.fixedFrameIds|)
      ensures a == ZeroMatrix(EqCount(nv, forceDim), VarCount(nv, forceDim)) && b == Zeros(EqCount(nv, forceDim))
      ensures l == Zeros(IneqCount(nk))
      ensures SlotsAre(c, 9, CBlocks(VarCount(nv, forceDim), nv, st.forceSize, cmin, AllContacts(nk), nk))
      ensures g == Zeros(VarCount(nv, forceDim))
      ensures h == IkidHessian(nv, forceDim, st.wForce, ZeroMatrix(nv, nv))
    {
      var k := |st.contactIds|;
      var fd := st.forceSize * k;
      var n, neq, nin := VarCount(modelNv, fd), EqCount(modelNv, fd), IneqCount(k);
      var a0 := ZeroMatrix(neq, n);
      assert LowerRightZero(a0, modelNv);
      var cm := CminMatrix(st.forceSize, st.mu, st.footWidth, st.footLength);
      var c0 := PlaceConeBlocks(n, modelNv, st.forceSize, cm, AllContacts(k));
      var h0 := IkidHessian(modelNv, fd, st.wForce, ZeroMatrix(modelNv, modelNv));
      assert EqualityBuffers(modelNv, fd, a0, Zeros(neq), SelectionMatrix(modelNv));
      assert InequalityBuffers(modelNv, fd, k, Zeros(nin), c0, Repeat(Unbounded, nin));
      assert CostBuffers(st, modelNv, fd, Zeros(n), h0);
      settings, nv, nk, forceDim, effortLimit := st, modelNv, k, fd, modelEffortLimit;
      diffs := ZeroDifferences(modelNv, k, |st.fixedFrameIds|);
      a, b, l, c, s, cmin := a0, Zeros(neq), Zeros(nin), c0, SelectionMatrix(modelNv), cm;
      lBox, uBox := BoxLower(modelNv, fd, modelEffortLimit), BoxUpper(modelNv, fd, modelEffortLimit);
      u, g, h := Repeat(Unbounded, nin), Zeros(n), h0;
      solvedForces, solvedAcc, solvedTorque := Zeros(fd), Zeros(modelNv), Zeros(modelNv - 6);
    }

    /** computeDifferences: dq_diff = x0's velocity part minus the measured
        one. The configuration difference and the foot and frame errors come
        from Pinocchio's difference, log3 and frame velocities and are given. */
    method ComputeDifferences(qDiff: Vector, xMeasured: Vector, feet: seq<Vector>, dfeet: seq<Vector>,
                              frames: seq<Vector>, dframes: seq<Vector>)
      requires Valid() && |settings.x0| >= nv && |xMeasured| >= nv
      requires DifferencesFit(Differences(qDiff, Zeros(nv), feet, dfeet, frames, dframes), nv, nk, |settings.fixedFrameIds|)
      modifies this`diffs
      ensures Valid()
      ensures diffs.dq == Sub(settings.x0[|settings.x0| - nv..], xMeasured[|xMeasured| - nv..])
      ensures diffs == Differences(qDiff, diffs.dq, feet, dfeet, frames, dframes)
    {
      var dq := Sub(settings.x0[|settings.x0| - nv..], xMeasured[|xMeasured| - nv..]);
      var df1 := Differences(qDiff, dq, feet, dfeet, frames, dframes);
      DifferencesSwapped(settings, nv, nk, forceDim, effortLimit, diffs, s, cmin, lBox, uBox, u,
                         a, b, l, c, g, h, solvedForces, solvedAcc, solvedTorque, df1);
      diffs := df1;
    }

    /** computeMatrice: the posture and centroidal tasks, then every contact's
        foot task and, in contact, its rows of A and b and its cone in l and C,
        then every fixed frame's orientation task. Needs 6-entry force slots
        (or no contact), since each contact writes 6 rows of A. */
    method ComputeMatrice(d: RobotData, active: seq<bool>, v: Vector, forces: Vector, dH: Vector, m: Matrix)
      requires Valid() && (settings.forceSize == 6 || nk == 0)
      requires CycleFit(settings, nv, d, diffs, v, dH) && |active| == nk
      requires |forces| == forceDim && IsMatrix(m, nv, nv)
      modifies this`h, this`g, this`a, this`b, this`l, this`c
      ensures Valid()
      ensures CostAssembled(settings, nv, forceDim, d, diffs, v, dH, h, g)
      ensures ConstraintsAssembled(settings, nv, forceDim, d, active, v, forces, m, s, cmin, a, b, l, c)
    {
      assert forceDim == 6 * nk && IsMatrix(cmin, 9, settings.forceSize);
      var h1, g1, a1, b1, l1, c1 := AssembleCycle(settings, nv, forceDim, d, diffs, active, v, dH, forces, m, s, cmin, h, g, a);
      StoreCost(h1, g1);
      StoreConstraints(a1, b1, l1, c1);
    }

    /** `H.topLeftCorner(nv, nv) = ...` and `g.head(nv) = ...`: the new cost buffers. */
    method StoreCost(h1: Matrix, g1: Vector)
      requires Valid() && CostBuffers(settings, nv, forceDim, g1, h1)
      modifies this`h, this`g
      ensures Valid() && h == h1 && g == g1
      ensures (settings, nv, nk, forceDim, diffs, s, cmin, a, b, l, c) == old((settings, nv, nk, forceDim, diffs, s, cmin, a, b, l, c))
    {
      CostSwapped(settings, nv, nk, forceDim, effortLimit, diffs, s, cmin, lBox, uBox, u,
                  a, b, l, c, g, h, solvedForces, solvedAcc, solvedTorque, g1, h1);
      h, g := h1, g1;
    }

    /** The block writes to A and the writes to b, l and C: the new constraint buffers. */
    method StoreConstraints(a1: Matrix, b1: Vector, l1: Vector, c1: Matrix)
      requires Valid() && EqualityBuffers(nv, forceDim, a1, b1, s)
      requires |l1| == IneqCount(nk) && IsMatrix(c1, IneqCount(nk), VarCount(nv, forceDim))
      modifies this`a, this`b, this`l, this`c
      ensures Valid() && a == a1 && b == b1 && l == l1 && c == c1
      ensures (settings, nv, nk, forceDim, diffs, s, cmin, h, g) == old((settings, nv, nk, forceDim, diffs, s, cmin, h, g))
    {
      ConstraintsSwapped(settings, nv, nk, forceDim, effortLimit, diffs, s, cmin, lBox, uBox, u,
                         a, b, l, c, g, h, solvedForces, solvedAcc, solvedTorque, a1, b1, l1, c1);
      a, b, l, c := a1, b1, l1, c1;
    }

    /** solve_qp: assemble, then, for the QP solution x, the acceleration
        x[0..nv), the corrected forces f + x[nv..nv+fd) and the torques
        x[nv+fd..n). */
    method SolveQp(d: RobotData, active: seq<bool>, v: Vector, forces: Vector, dH: Vector, m: Matrix, x: Vector)
      requires Valid() && (settings.forceSize == 6 || nk == 0)
      requires CycleFit(settings, nv, d, diffs, v, dH) && |active| == nk
      requires |forces| == forceDim && IsMatrix(m, nv, nv) && |x| == VarCount(nv, forceDim)
      modifies this`h, this`g, this`a, this`b, this`l, this`c, this`solvedAcc, this`solvedForces, this`solvedTorque
      ensures Valid()
      ensures CostAssembled(settings, nv, forceDim, d, diffs, v, dH, h, g)
      ensures ConstraintsAssembled(settings, nv, forceDim, d, active, v, forces, m, s, cmin, a, b, l, c)
      ensures solvedAcc == x[..nv]
      ensures solvedForces == Add(forces, x[nv .. nv + forceDim])
      ensures solvedTorque == x[nv + forceDim ..]
    {
      ComputeMatrice(d, active, v, forces, dH, m);
      StoreSolution(forces, x);
    }

    /** The three result buffers read off the QP solution x. */
    method StoreSolution(forces: Vector, x: Vector)
      requires Valid() && |forces| == forceDim && |x| == VarCount(nv, forceDim)
      modifies this`solvedAcc, this`solvedForces, this`solvedTorque
      ensures Valid()
      ensures (settings, nv, nk, forceDim, diffs, s, cmin, h, g, a, b, l, c) == old((settings, nv, nk, forceDim, diffs, s, cmin, h, g, a, b, l, c))
      ensures solvedAcc == x[..nv]
      ensures solvedForces == Add(forces, x[nv .. nv + forceDim])
      ensures solvedTorque == x[nv + forceDim ..]
    {
      var acc1, forces1, torque1 := x[..nv], Add(forces, x[nv .. nv + forceDim]), x[nv + forceDim ..];
      ResultsSwapped(settings, nv, nk, forceDim, effortLimit, diffs, s, cmin, lBox, uBox, u,
                     a, b, l, c, g, h, solvedForces, solvedAcc, solvedTorque, forces1, acc1, torque1);
      solvedAcc, solvedForces, solvedTorque := acc1, forces1, torque1;
    }
  }
}
