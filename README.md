# simple-mpc: centroidal problem bookkeeping and low-level QP assembly

This project models two parts of the simple-mpc controller and proves
properties of the models.

**The centroidal optimal-control problem** (`CentroidalProblem`, in
`centroidal_dynamics.dfy`). The problem keeps one shared reference-control
vector `control_ref_`, which holds one `force_size` segment per foot in the
robot handler's foot order. It also keeps a sequence of stages. Each stage
holds:
- a reference control;
- three copies of a contact map from foot name to (contact flag,
  translation): one for the dynamics, one for the linear-acceleration
  residual, one for the angular-acceleration residual;
- the names of its five cost terms, in order;
- one friction-cone or wrench-cone constraint per foot in contact.

The model covers:
- `initialize`, and the packing of per-foot force maps into the shared
  control;
- `createStage`'s structure;
- the pose and force setters and getters;
- `getContactSupport`;
- the two terminal-constraint operations.

A `std::map` is a key-ascending association list, so iterating over it
visits the keys in order, as in C++.

**The two low-level QP controllers** (`IDSolver` in `id_solver.dfy`;
`IKIDSolver` in `ikid_problem.dfy` and `ikid_solver.dfy`). Shared layout is in
`qp_layout.dfy`. Each solver owns dense buffers `H, g, A, b, C, l, u` (plus
the box bounds for IKID). `initialize` sizes them and `computeMatrice`
rewrites them with block writes, once per control cycle. `solve_qp` then
reads three slices off the solution `x`: acceleration, force correction and
torques.

The solvers are classes whose fields are these buffers. Matrices are
`seq<seq<real>>` (file `linear_algebra.dfy`) and Eigen block writes are
splices. The loops over contacts and fixed frames are `while` loops with
invariants. For each buffer the model proves:
- its size and where each block is placed;
- the value each entry gets;
- what the assembled QP means. `A x = b` holds iff the floating-base
  dynamics hold and every contact in contact stays still. `l <= C x` holds
  iff each contact in contact has its force correction inside its
  linearised cone.

Three quirks of the source are kept as written:
- `Cmin` rows 2-3 repeat rows 0-1, so the lateral y force is never bounded.
  `QpLayout.LateralForceUnbounded` exhibits this.
- The cone bounds 5-8 always read `forces[i*fs+3]` and `forces[i*fs+4]`,
  whatever `fs` is.
- `createStage` pairs the key-ordered contact flags with the handler's foot
  order by position. `CentroidalDynamics.ZipFollowsKeyOrder` exhibits this.

## Model

| member | source | states |
|---|---|---|
| CentroidalDynamics.IndexOf | src/centroidal-dynamics.cpp:199-202 | the position of a foot name is its first occurrence among the feet, or the number of feet when it is absent, as `std::find` gives |
| CentroidalDynamics.SetContactPose | src/centroidal-dynamics.cpp:158 | after the write, the named foot has translation p; other feet's translations and all names and contact flags are unchanged |
| CentroidalDynamics.StageContactMap | src/centroidal-dynamics.cpp:37-47 | the contact map lists the handler's feet in handler order; foot i gets the i-th flag and i-th translation of the maps in key order |
| CentroidalDynamics.CountActive | src/centroidal-dynamics.cpp:229-235 | counts the feet among the first k whose flag is set; the count is at most k |
| CentroidalDynamics.CountActiveNone | src/centroidal-dynamics.cpp:229-235 | the count is zero exactly when no foot among the first k is in contact |
| CentroidalDynamics.CountActiveAll | src/centroidal-dynamics.cpp:229-235 | the count is k exactly when every foot among the first k is in contact |
| CentroidalDynamics.ConeFor | src/centroidal-dynamics.cpp:84-94 | the constraint for contact i uses index i and mu; it is a wrench cone exactly when force_size is 6, otherwise a friction cone |
| CentroidalDynamics.Cones | src/centroidal-dynamics.cpp:81-97 | the constraints are exactly the cones of the feet whose flag, looked up by name, is set; each has its foot's index and they appear in foot order |
| CentroidalDynamics.ConesCount | src/centroidal-dynamics.cpp:81-97 | a stage has as many cone constraints as feet flagged in contact |
| CentroidalDynamics.FirstMissingKey | src/centroidal-dynamics.cpp:83 | the first foot that `at` does not find, with every earlier foot present; or the number of feet when all are present |
| CentroidalDynamics.KeyOrderedFeetAgree | src/centroidal-dynamics.cpp:37-97 | when the handler lists the feet in key order, stage creation succeeds, each foot's flag in the contact map is its own, and the contact support equals the number of cone constraints |
| CentroidalDynamics.ZipFollowsKeyOrder | src/centroidal-dynamics.cpp:37-47 | with feet listed as right, left and only left in contact, the contact map marks right as in contact and left as not, while the one cone is on left (index 1) |
| CentroidalDynamics.FirstForceFailure | src/centroidal-dynamics.cpp:103-107 | the first foot whose force is missing or not force_size long, with every earlier foot's force valid |
| CentroidalDynamics.PackForces | src/centroidal-dynamics.cpp:103-110 | writing the feet's forces keeps the control vector's length |
| CentroidalDynamics.ConcatForces | src/centroidal-dynamics.cpp:103-110 | the first k feet's forces laid end to end fill k * force_size entries |
| CentroidalDynamics.PackedSegments | src/centroidal-dynamics.cpp:103-110 | after k feet are written, segment i of the control, for i < k, is foot i's force |
| CentroidalDynamics.PackedLayout | src/centroidal-dynamics.cpp:103-110 | after k feet, the control is their forces laid end to end followed by the untouched rest of the old control |
| CentroidalDynamics.PackedIsConcat | src/centroidal-dynamics.cpp:101-111 | once every foot's force is written, the disjoint segments cover the control, which is exactly the forces laid end to end |
| CentroidalDynamics.PackControl | src/centroidal-dynamics.cpp:101-111 | the loop writes the segments of the feet before the first invalid force; it fails with that foot's error exactly when some force is missing or of the wrong size |
| CentroidalDynamics.ApplyPoseEntries | src/centroidal-dynamics.cpp:127-130 | storing poses changes no foot names and no contact flags |
| CentroidalDynamics.ApplyFootPoses | src/centroidal-dynamics.cpp:133-146 | storing poses changes no foot names and no contact flags |
| CentroidalDynamics.ApplyPoseEntriesAt | src/centroidal-dynamics.cpp:127-130 | after the first k map entries, a foot whose key is among them has that entry's translation; every other foot keeps its pose |
| CentroidalDynamics.ApplyFootPosesAt | src/centroidal-dynamics.cpp:133-146 | after the first k feet, a foot among them has its looked-up translation; every other foot keeps its pose |
| CentroidalDynamics.PosesRoundTrip | src/centroidal-dynamics.cpp:127-130 | after the whole loop, each foot given a pose reads back that pose's translation |
| CentroidalDynamics.FootPosesRoundTrip | src/centroidal-dynamics.cpp:133-146 | when every foot has a pose, each foot reads back its translation from the residual maps |
| CentroidalDynamics.PoseLoopsAgree | src/centroidal-dynamics.cpp:127-146 | the key-order loop and the foot-order loop give every foot the same translation |
| CentroidalDynamics.StoreEntryPoses | src/centroidal-dynamics.cpp:127-130 | the loop over the poses leaves the dynamics map that the whole pose list specifies |
| CentroidalDynamics.StoreFootPoses | src/centroidal-dynamics.cpp:133-146 | the loop stops at the first foot with no pose, and both residual maps hold the poses of the feet before it |
| CentroidalDynamics.CollectCones | src/centroidal-dynamics.cpp:81-97 | the constraint loop fails on the first foot with no phase entry; otherwise it returns the cones of the flagged feet |
| CentroidalDynamics.FootForce | src/centroidal-dynamics.cpp:211-217 | foot e's segment is the force_size entries of the control starting at e's position times force_size |
| CentroidalDynamics.WithFootForce | src/centroidal-dynamics.cpp:199-204 | overwriting one foot's segment keeps the control's length |
| CentroidalDynamics.FootForceAfterWrite | src/centroidal-dynamics.cpp:196-218 | after writing foot e's segment, e reads back f and every other foot reads back its old segment |
| CentroidalDynamics.PackedFootForce | src/centroidal-dynamics.cpp:189-218 | after all feet are packed, every foot reads back the force it was given |
| CentroidalDynamics.CentroidalProblem.constructor | src/centroidal-dynamics.cpp:11-25 | nx = 9, nu = feet * force_size, the shared control is u0, and there are no stages yet |
| CentroidalDynamics.CentroidalProblem.Initialize | src/centroidal-dynamics.cpp:17-25 | sets settings, nx = 9 and nu; fails exactly when u0 is not nu long, leaving the control unchanged; otherwise the control becomes u0. A successful call restores the class invariant when no stage is stored, or when nu is unchanged |
| CentroidalDynamics.CentroidalProblem.ComputeControlFromForces | src/centroidal-dynamics.cpp:101-111 | the shared control gets the segments of the feet before the first invalid force; it fails exactly when some foot's force is missing or of the wrong size |
| CentroidalDynamics.CentroidalProblem.CreateStage | src/centroidal-dynamics.cpp:27-99 | a force error is raised before anything else. Otherwise the stage has the shared control, the zipped contact maps, the five cost names in order and one cone per flagged foot |
| CentroidalDynamics.CentroidalProblem.SetReferencePoses | src/centroidal-dynamics.cpp:113-147 | an out-of-range stage or a wrong pose count fails and changes nothing. Otherwise the dynamics map takes the poses in key order and the residual maps in foot order, stopping at a missing foot. On success every foot reads back its translation |
| CentroidalDynamics.CentroidalProblem.SetReferencePose | src/centroidal-dynamics.cpp:149-171 | fails, changing nothing, exactly when the stage is out of range; otherwise all three maps of that stage store p's translation. The foot reads back (identity, translation) and other feet are unchanged |
| CentroidalDynamics.CentroidalProblem.GetReferencePose | src/centroidal-dynamics.cpp:173-187 | fails exactly when the stage is out of range; otherwise the rotation is the identity and the translation is the one stored for e in the stage's dynamics contact map |
| CentroidalDynamics.CentroidalProblem.SetReferenceForces | src/centroidal-dynamics.cpp:189-194 | packs the forces into the shared control. On success, stage t's control becomes the shared control and every foot reads back its force; on failure no stage changes |
| CentroidalDynamics.CentroidalProblem.SetReferenceForce | src/centroidal-dynamics.cpp:196-206 | only foot e's segment of the shared control changes, and stage t's whole control becomes the shared control. Foot e reads back f; every other foot reads its slice of the old shared control, not stage t's old slice |
| CentroidalDynamics.CentroidalProblem.GetReferenceForce | src/centroidal-dynamics.cpp:208-218 | returns the force_size entries of stage t's control starting at e's position times force_size |
| CentroidalDynamics.CentroidalProblem.GetContactSupport | src/centroidal-dynamics.cpp:224-236 | the count of feet flagged in contact in the stage's dynamics map, at most the number of feet |
| CentroidalDynamics.CentroidalProblem.CreateTerminalConstraint | src/centroidal-dynamics.cpp:253-262 | fails exactly when the problem has not been created; there is never a terminal constraint afterwards |
| CentroidalDynamics.CentroidalProblem.UpdateTerminalConstraint | src/centroidal-dynamics.cpp:264-272 | never updates anything, because no terminal constraint is ever added |
| QpLayout.VariableSlices | src/lowlevel-control.cpp:164-166 | x of size n = 2 nv - 6 + fs nk splits into consecutive slices of sizes nv, fs nk and nv - 6, which cover x |
| QpLayout.CminMatrix | src/lowlevel-control.cpp:45-54 | Cmin is 9 x fs |
| QpLayout.ConeBounds | src/lowlevel-control.cpp:121-138 | nine lower bounds |
| QpLayout.ConeLowerBounds | src/lowlevel-control.cpp:121-138 | contact i's nine bounds, read from forces at i fs + 0 .. i fs + 4 |
| QpLayout.ConeRowsUnrolled | src/lowlevel-control.cpp:140-141 | the nine cone rows hold iff each of the nine row inequalities holds |
| QpLayout.WrenchFrictionRowDots | src/lowlevel-control.cpp:50-51 | for fs = 6, Cmin rows 0-3 apply mu fz -/+ fx (rows 2-3 repeat rows 0-1) and row 4 applies fz |
| QpLayout.WrenchCopRowDots | src/lowlevel-control.cpp:51-53 | for fs = 6, Cmin rows 5-8 apply Wfoot fz -/+ tx and Lfoot fz -/+ ty |
| QpLayout.ForceRowDots | src/lowlevel-control.cpp:46-48 | for fs = 3, rows 0-3 apply mu fz -/+ fx and rows 4-8 apply fz |
| QpLayout.WrenchConeRows | src/lowlevel-control.cpp:47-53 | for fs = 6, l <= Cmin df holds iff, for F = f + df: the x friction pair holds, df_x + f_y lies within mu Fz, Fz >= 0, and the centre-of-pressure bounds on tx and ty hold |
| QpLayout.FrictionConeRows | src/lowlevel-control.cpp:46-48 | for fs = 3: x friction, the mixed y row, Fz >= 0, and four rows bounding df_z below by the entries read past the 3-entry slot |
| QpLayout.LateralForceUnbounded | src/lowlevel-control.cpp:47-53 | a concrete corrected wrench with Fy = 5 > mu Fz passes all nine rows |
| QpLayout.ConeBlockRows | src/lowlevel-control.cpp:140-141 | a contact's nine rows of C are Cmin in that contact's force columns and zero everywhere else |
| QpLayout.ConeBlockMeaning | src/lowlevel-control.cpp:140-141 | those rows hold against l iff the cone rows hold for that contact's force slice of x |
| QpLayout.ZeroRowsVacuous | src/lowlevel-control.cpp:100-103 | the zero rows and bounds of a contact not in contact hold for every x |
| QpLayout.CBlocks | src/lowlevel-control.cpp:103-143 | C has one 9-row slice per contact |
| QpLayout.LBlocks | src/lowlevel-control.cpp:102-138 | l has one 9-entry slice per contact |
| QpLayout.ConeBlockWrite | src/lowlevel-control.cpp:140-141 | the block write into a contact's still-zero rows gives that contact its cone block and leaves the other slices alone |
| QpLayout.LBlocksWrite | src/lowlevel-control.cpp:121-138 | writing contact i's nine bounds sets that slice only |
| QpLayout.AllContacts | src/lowlevel-control.cpp:56-59 | every one of the nk contacts is marked |
| QpLayout.PlaceConeBlocks | src/lowlevel-control.cpp:56-59 | the initialise loop on a zero C places Cmin at rows 9i and columns nv + i fs for every marked contact; all other rows are zero |
| QpLayout.ContactRowsMeaning | src/lowlevel-control.cpp:140-142 | a contact's nine rows hold iff, when it is in contact, its force slice lies in the cone |
| QpLayout.RowsBySlices | src/lowlevel-control.cpp:104-143 | l <= C x holds iff it holds on every 9-row slice |
| QpLayout.ContactSliceMeaning | src/lowlevel-control.cpp:104-143 | after the loop, slice i holds iff contact i, when in contact, is inside its cone |
| QpLayout.ContactInequalityMeaning | src/lowlevel-control.cpp:104-143 | after the loop, l <= C x holds iff every contact in contact has its force correction in its cone; contacts not in contact are free |
| QpLayout.SelectionMatrix | src/lowlevel-control.cpp:41-43 | S is nv x (nv - 6) with entry (r, c) equal to 1 when r = c + 6 and 0 otherwise |
| QpLayout.SelectionActuates | src/lowlevel-control.cpp:41-43 | S tau is six zeros followed by tau, so no torque acts on the floating base |
| QpLayout.EqualityMatrix | src/lowlevel-control.cpp:145-148 | A is neq x n |
| QpLayout.WriteEqualityBlocks | src/lowlevel-control.cpp:145-148 | the four block writes keep A at neq x n |
| QpLayout.EqualityBlocksWritten | src/lowlevel-control.cpp:145-148 | on an A with a zero lower-right block, the four block writes give [M, -Jc^T, -S; Jc, 0, 0] whatever A held before |
| QpLayout.IdEqualityRhs | src/lowlevel-control.cpp:150-151 | b has neq entries |
| QpLayout.IdEqualityRowMeaning | src/lowlevel-control.cpp:145-151 | row r of A x = b is row r of the dynamics for r < nv, and of Jc (a + da) + gamma = 0 otherwise |
| QpLayout.RhsAtZeroAcceleration | src/lowlevel-control.cpp:339-368 | with a zero reference acceleration, the ID right-hand side is (-nle + Jc^T f, -gamma) |
| QpLayout.IdEqualityMeaning | src/lowlevel-control.cpp:145-151 | A x = b iff M (a + da) + nle = S tau + Jc^T (f + df) and Jc (a + da) + gamma = 0 |
| QpLayout.IdHessian | src/lowlevel-control.cpp:68-73 | H is n x n and diagonal: w_acc on the first nv entries, w_force on the next fd, zero on the torques |
| QpLayout.IdHessianTimes | src/lowlevel-control.cpp:68-73 | H x scales the acceleration slice by w_acc and the force slice by w_force, and clears the torque slice |
| QpLayout.IdCost | src/lowlevel-control.cpp:68-73 | x^T H x = w_acc da.da + w_force df.df, so the torques are not penalised |
| QpLayout.BoxLower | src/lowlevel-control.cpp:232-235 | the lower box has n entries |
| QpLayout.BoxUpper | src/lowlevel-control.cpp:236-239 | the upper box has n entries |
| QpLayout.BoxOrdered | src/lowlevel-control.cpp:232-239 | l_box <= u_box in every coordinate iff every actuated joint's effort limit is non-negative |
| QpLayout.ZeroAccelerationMeaning | src/lowlevel-control.cpp:336-368 | with b = (-nle + Jc^T f, -gamma), A x = b iff M qdd + nle = S tau + Jc^T (f + df) and Jc qdd + gamma = 0 |
| IdSolver.ContactJacobian | src/lowlevel-control.cpp:112-115 | Jc's rows for a contact are fs x nv |
| IdSolver.Baumgarte | src/lowlevel-control.cpp:118-119 | the Baumgarte term has three entries |
| IdSolver.ContactGamma | src/lowlevel-control.cpp:116-119 | a contact's gamma slice has fs entries |
| IdSolver.JcBlocks | src/lowlevel-control.cpp:100-115 | Jc has one fs-row slice per contact |
| IdSolver.GammaBlocks | src/lowlevel-control.cpp:101-119 | gamma has one fs-entry slice per contact |
| IdSolver.JcBlocksWrite | src/lowlevel-control.cpp:112-115 | writing a contact's rows of Jc sets its slice to the top fs rows of its Jacobian and no other slice |
| IdSolver.GammaBlocksWrite | src/lowlevel-control.cpp:116-119 | the assignment and then the `+=` on the first three entries set the contact's gamma slice and no other |
| IdSolver.GammaWrite | src/lowlevel-control.cpp:116-119 | assigning the drift and then adding the Baumgarte term to its head gives one splice of the combined slice |
| IdSolver.WriteContact | src/lowlevel-control.cpp:106-142 | for a contact in contact: its Jc rows, gamma entries, nine l bounds and Cmin block, each in its own slice |
| IdSolver.NothingVisited | src/lowlevel-control.cpp:100-103 | the zeroed Jc, gamma, l and C are the slices before any contact is visited |
| IdSolver.AssembleContacts | src/lowlevel-control.cpp:100-143 | the contact loop on zeroed buffers. Each contact in contact gets its Jacobian rows, drift, cone bounds and Cmin block; contacts not in contact stay zero |
| IdSolver.ContactRowsDeterministic | src/lowlevel-control.cpp:100-143 | computeMatrice resets before writing, so Jc, gamma, l and C depend only on the inputs |
| IdSolver.RigidContactMeaning | src/lowlevel-control.cpp:104-119 | Jc q + gamma = 0 iff every contact in contact holds still, and contacts not in contact impose nothing |
| IdSolver.ContactRowsHeld | src/lowlevel-control.cpp:104-119 | contact i's rows of Jc q + gamma vanish iff, when in contact, it holds still |
| IdSolver.IdQpMeaning | src/lowlevel-control.cpp:93-152 | the assembled QP: A x = b iff the corrected dynamics hold and every contact in contact holds still; l <= C x iff every contact in contact is inside its cone |
| IdSolver.IDSolver.constructor | src/lowlevel-control.cpp:15-91 | sizes n, neq, nin. A, b, l, Jc and gamma are zero; C holds Cmin for every contact; S, u = 100000, g = 0 and the diagonal H are set |
| IdSolver.IDSolver.ComputeMatrice | src/lowlevel-control.cpp:93-152 | keeps every buffer's size. Jc, gamma, l and C hold the contact-loop slices; A = [M, -Jc^T, -S; Jc, 0, 0] and b = (-nle - M a + Jc^T f, -gamma - Jc a) |
| IdSolver.IDSolver.AssembleContactRows | src/lowlevel-control.cpp:100-143 | Jc, gamma, l and C hold the contact-loop slices |
| IdSolver.IDSolver.AssembleEquality | src/lowlevel-control.cpp:145-151 | A and b as the block writes and the two segment assignments leave them |
| IdSolver.IDSolver.SolveQp | src/lowlevel-control.cpp:154-167 | assembles as computeMatrice does. Acceleration = a + x[0..nv), forces = f + x[nv..nv+fd), torques = x[nv+fd..n) |
| IdSolver.IDSolver.StoreSolution | src/lowlevel-control.cpp:164-166 | the three result buffers are the shifted slices of x |
| IkidProblem.ZeroDifferences | src/lowlevel-control.cpp:181-211 | the differences initialize leaves have the sizes nv, 6 per contact and 3 per fixed frame |
| IkidProblem.CentroidalTop | src/lowlevel-control.cpp:324-328 | w_qref I + w_centroidal Ag^T Ag is nv x nv |
| IkidProblem.TopAfterFeetSymmetric | src/lowlevel-control.cpp:324-352 | H's top block stays symmetric after each foot task |
| IkidProblem.TopAfterFramesSymmetric | src/lowlevel-control.cpp:388-402 | it stays symmetric after each fixed-frame task |
| IkidProblem.HessianTopWritten | src/lowlevel-control.cpp:263-265 | writing the top block of an H that initialize set up gives exactly IkidHessian(top): w_force on the force diagonal, zero elsewhere |
| IkidProblem.IkidHessianSymmetric | src/lowlevel-control.cpp:263-265 | H is symmetric when its top block is |
| IkidProblem.IkidCostSymmetric | src/lowlevel-control.cpp:324-402 | the H that computeMatrice leaves is symmetric |
| IkidProblem.JBlocksWrite | src/lowlevel-control.cpp:363-365 | writing contact i's six rows (its Jacobian, or zeros when not in contact) sets that slice only |
| IkidProblem.TailBlocksWrite | src/lowlevel-control.cpp:368 | writing contact i's b entries, -dJ v, sets that slice only |
| IkidProblem.TailBlocksSkip | src/lowlevel-control.cpp:382-385 | a contact not in contact leaves b's contact slice at zero |
| IkidProblem.StackedJacobian | src/lowlevel-control.cpp:363-365 | the contact rows of A form a 6 nk x nv matrix |
| IkidProblem.StackedSlots | src/lowlevel-control.cpp:363-385 | slice i of the stacked contact rows is foot i's Jacobian when in contact and zero otherwise |
| IkidProblem.TailIsNegDrift | src/lowlevel-control.cpp:340-368 | b's tail after the loop is -gamma, where gamma is the drift dJ v of each contact in contact |
| IkidProblem.BHeadPrefix | src/lowlevel-control.cpp:339-367 | after k contacts, b's head is -nle + Jc^T f over the first k contacts' rows |
| IkidProblem.BHeadStacked | src/lowlevel-control.cpp:339-367 | after the loop, b's head is -nle + Jc^T f for the stacked Jacobian |
| IkidProblem.WriteFoot | src/lowlevel-control.cpp:362-381 | for a contact in contact: its A rows, its Jc^T f term in b's head, its -dJ v in b's tail, and its l and C slices |
| IkidProblem.SkipFoot | src/lowlevel-control.cpp:382-385 | for a contact not in contact: its A rows are zeroed and b, l and C are unchanged |
| IkidProblem.FootCost | src/lowlevel-control.cpp:345-359 | adds the foot's w_footpose J^T J to H's top block and its task term to g's head |
| IkidProblem.VisitFoot | src/lowlevel-control.cpp:362-385 | one contact's constraint writes keep the loop's invariant |
| IkidProblem.FootStep | src/lowlevel-control.cpp:344-386 | one iteration of the contact loop advances both its cost and its constraint invariants |
| IkidProblem.FootLoop | src/lowlevel-control.cpp:344-386 | the contact loop gives the cost terms of all feet and the constraint slices of all contacts |
| IkidProblem.FootLoopDone | src/lowlevel-control.cpp:344-386 | after the loop the A rows are the stacked Jacobian and b's tail is -gamma |
| IkidProblem.FrameStep | src/lowlevel-control.cpp:388-402 | one fixed frame adds its w_baserot term to H's top block and g's head |
| IkidProblem.FrameLoop | src/lowlevel-control.cpp:388-402 | the frame loop gives H's final top block and g's final head |
| IkidProblem.FootRowsHeld | src/lowlevel-control.cpp:363-368 | contact i's rows of Jc q + gamma vanish iff, when in contact, its frame acceleration J q + dJ v is zero |
| IkidProblem.RigidFeetMeaning | src/lowlevel-control.cpp:363-368 | Jc q + gamma = 0 iff every contact in contact holds still |
| IkidProblem.IkidRhsIsIdRhs | src/lowlevel-control.cpp:339-368 | IKID's b is the ID right-hand side with zero reference acceleration |
| IkidProblem.IkidEqualityMeaning | src/lowlevel-control.cpp:336-368 | A x = b iff M qdd + nle = S tau + Jc^T (f + df) and every contact in contact holds still under qdd |
| IkidProblem.AssemblyDeterministic | src/lowlevel-control.cpp:324-385 | computeMatrice resets before accumulating, so equal inputs give equal H, g, A, b, l and C whatever the buffers held before |
| IkidProblem.AssembleCycle | src/lowlevel-control.cpp:317-403 | the whole cycle keeps every buffer's shape and leaves the assembled cost and constraints |
| IkidProblem.WriteCost | src/lowlevel-control.cpp:324-334 | H's top-block and g's head writes give the assembled cost and keep the rest of H and g |
| IkidProblem.WriteEquality | src/lowlevel-control.cpp:336-368 | A = [M, -Jc^T, -S; Jc, 0, 0] and b = (-nle + Jc^T f, -gamma) for the stacked contact rows |
| IkidProblem.CostSwapped | src/lowlevel-control.cpp:324-334 | new cost buffers of the right shape keep the solver's invariant |
| IkidProblem.ConstraintsSwapped | src/lowlevel-control.cpp:336-385 | new constraint buffers of the right shape keep the solver's invariant |
| IkidProblem.ResultsSwapped | src/lowlevel-control.cpp:415-417 | new result buffers of the right sizes keep the solver's invariant |
| IkidProblem.DifferencesSwapped | src/lowlevel-control.cpp:289-314 | new differences of the right sizes keep the solver's invariant |
| IkidSolver.IKIDSolver.constructor | src/lowlevel-control.cpp:171-283 | zero differences; sizes n, neq, nin; A, b, l and g zero; C holds Cmin for every contact. The box is ∓100000 except ∓effortLimit on the torques; u = 100000; H is zero except w_force on the force diagonal |
| IkidSolver.IKIDSolver.ComputeDifferences | src/lowlevel-control.cpp:285-315 | dq_diff = x0's velocity part minus the measured one; the other differences are the given kinematic errors |
| IkidSolver.IKIDSolver.ComputeMatrice | src/lowlevel-control.cpp:317-403 | keeps the invariant and leaves H, g, A, b, l and C exactly as the assembled cost and constraints say |
| IkidSolver.IKIDSolver.StoreCost | src/lowlevel-control.cpp:324-334 | replaces H and g and changes no other buffer |
| IkidSolver.IKIDSolver.StoreConstraints | src/lowlevel-control.cpp:336-385 | replaces A, b, l and C and changes no other buffer |
| IkidSolver.IKIDSolver.SolveQp | src/lowlevel-control.cpp:405-418 | assembles as computeMatrice does. Acceleration = x[0..nv) unshifted, forces = f + x[nv..nv+fd), torques = x[nv+fd..n) |
| IkidSolver.IKIDSolver.StoreSolution | src/lowlevel-control.cpp:415-417 | the three result buffers are the slices of x, and no other buffer changes |

## Left out

- The QP solver: proxqp's `init`, `update` and `solve`, and its settings. The solution `x` is an input of `SolveQp`.
- Pinocchio: frame Jacobians, their time variations, frame velocities, `Ag`, `dAg`, `nle`, `difference` and `log3`. Their results are inputs (`FrameKinematics`, `RobotData`, and the `qDiff` and foot and frame error arguments of `ComputeDifferences`). The pinocchio model is reduced to `nv` and `effortLimit`.
- Floating point: matrix products are over exact reals, and rounding is not modelled.
- Aligator internals: the residual, cost-stack, dynamics and integrator classes. A stage keeps only its reference control, its three contact maps, its cost names and its cone constraints. `ContactMap` is modelled as zipped names, flags and translations; aligator's `setContactPose` is not visible, so the model assumes that a name the map does not hold leaves the map unchanged; `SetReferencePose`'s outcome for an unknown name rests on that assumption.
- `createTerminalCost` and `getProblemState`: they build aligator objects or read the handler's state, and carry no bookkeeping.
- base-problem.cpp is not part of this model. It holds `setReferenceControl`, `getReferenceControl` and `createProblem`. `InstallStages` stands in for `createProblem` storing the stages. The unused `land_constraint` argument of `createStage` is not modelled.
- The MPC horizon, the recede logic and the Python bindings are not part of the core.
- The scratch copies `Jfoots_`, `dJfoots_`, `Jframe_`, `dJframe_`, `Jdot_` and `Jvel_` are not fields: each loop iteration takes its kinematics as input. The `initialize` methods are modelled as the constructors, which is the only way the source calls them.
- IkidProblem.AssembleCycle: the contact rows of A are gathered in a stack and written after the loop. b's head and H's top block are accumulated in locals before the block writes. The buffers end up the same as with the source's in-place writes.
- CentroidalDynamics.CentroidalProblem.SetReferenceForces: requires the stage index to be in range, since `setReferenceControl`'s check is not visible. SetReferenceForce, GetReferenceForce and GetContactSupport require it as well.
- CentroidalDynamics.CentroidalProblem.SetReferenceForce: requires `e` to be a foot name, because the source computes an end-iterator offset for any other name. It also requires the force to have force_size entries, which the Eigen segment assignment needs.
- CentroidalDynamics.CentroidalProblem.GetReferenceForce: requires `e` to be a foot name. For any other name the source's `std::find` gives the number of feet as the position, and the segment it reads lies past the end of the control, which Eigen does not define.
- CentroidalDynamics.CentroidalProblem.GetReferencePose: requires `e` to be a foot name. The source passes any name to aligator's `getContactPose`, whose behaviour for a name the map does not hold is not visible.
- CentroidalDynamics.CentroidalProblem.CreateStage: the source's tests at tests/problem.cpp:224-225 (force size 6, a foot in contact) and tests/problem.cpp:319-320 (force size 3, three feet in contact) expect `numConstraints()` to be 0 after `createStage`. The code at src/centroidal-dynamics.cpp:81-97 calls `addConstraint` once per foot in contact, so the model gives 1 and 3 cone constraints for those inputs. The model follows the code. Aligator's `StageModel::numConstraints` is not visible, so which side is right cannot be settled from the text.
- CentroidalDynamics.CentroidalProblem.constructor: requires u0 to have nu entries; the throwing case is modelled by `Initialize`.
- CentroidalDynamics.CentroidalProblem.CreateStage: requires the phase and pose maps to have one entry per foot. The source zips them by position with the foot names and does not check their sizes.
- IdSolver.IDSolver.ComputeMatrice: requires every contact in contact to have entries i fs .. i fs + 4 in `forces` (`ConeBoundsInRange`). For fs = 3 the last contact's bound reads in lines 131-138 fall outside the vector; that read is not modelled.
- IkidSolver.IKIDSolver.ComputeMatrice: requires fs = 6 or no contacts, because each contact writes six rows of A into an fs-row slot. The same holds for SolveQp.
- IkidSolver.IKIDSolver.ComputeDifferences: the configuration difference and the foot and frame errors are given rather than computed, because they come from Pinocchio.
- The solve-time upper bound `u` is not modelled beyond its value 100000, which no cycle changes.
