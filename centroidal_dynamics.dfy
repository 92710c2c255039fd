/** The reference bookkeeping of the centroidal optimal-control problem
    (src/centroidal-dynamics.cpp): the shared reference-control vector that
    packs one force segment per foot, the per-stage contact maps, and the
    structure (named costs, cone constraints) of each stage. */
module CentroidalDynamics {
  import opened Wrappers
  import opened LinearAlgebra

  // ---------------------------------------------------------------------------
  // Values

  datatype Vec3 = Vec3(x: real, y: real, z: real)

  type Rotation = seq<seq<real>>

  const IdentityRotation: Rotation := [[1.0, 0.0, 0.0], [0.0, 1.0, 0.0], [0.0, 0.0, 1.0]]

  /** An SE(3) placement; only its translation is stored in a contact map. */
  datatype Pose = Pose(rotation: Rotation, translation: Vec3)

  /** Strict lexicographic order on strings, the key order of std::map<std::string, _>. */
  predicate LexLess(a: string, b: string)
  {
    if |a| == 0 then |b| > 0
    else if |b| == 0 then false
    else a[0] < b[0] || (a[0] == b[0] && LexLess(a[1..], b[1..]))
  }

  lemma {:induction false} LexLessIrreflexive(a: string)
    ensures !LexLess(a, a)
  {
    if |a| > 0 {
      LexLessIrreflexive(a[1..]);
    }
  }

  /** A std::map<std::string, V> as the key/value pairs it iterates over, in order. */
  type OrderedMap<V> = seq<(string, V)>

  /** What every std::map satisfies: its keys strictly ascend. */
  predicate KeysAscending<V>(m: OrderedMap<V>)
  {
    forall i, j :: 0 <= i < j < |m| ==> LexLess(m[i].0, m[j].0)
  }

  function Keys<V>(m: OrderedMap<V>): (ks: seq<string>)
    ensures |ks| == |m| && forall i :: 0 <= i < |m| ==> ks[i] == m[i].0
  {
    seq(|m|, i requires 0 <= i < |m| => m[i].0)
  }

  /** The values in iteration (key) order, as `for (auto const &x : m) v.push_back(x.second)`. */
  function Values<V>(m: OrderedMap<V>): (vs: seq<V>)
    ensures |vs| == |m| && forall i :: 0 <= i < |m| ==> vs[i] == m[i].1
  {
    seq(|m|, i requires 0 <= i < |m| => m[i].1)
  }

  predicate Distinct(s: seq<string>)
  {
    forall i, j :: 0 <= i < j < |s| ==> s[i] != s[j]
  }

  /** Position of the first occurrence of `x` in `s`, or |s| (std::find). */
  function IndexOf(s: seq<string>, x: string): (i: nat)
    ensures i <= |s|
    ensures i < |s| ==> s[i] == x
    ensures forall k :: 0 <= k < i ==> s[k] != x
  {
    if |s| == 0 then 0
    else if s[0] == x then 0
    else 1 + IndexOf(s[1..], x)
  }

  lemma IndexOfDistinct(s: seq<string>, i: nat)
    requires Distinct(s) && i < |s|
    ensures IndexOf(s, s[i]) == i
  {
  }

  lemma AscendingKeysDistinct<V>(m: OrderedMap<V>)
    requires KeysAscending(m)
    ensures Distinct(Keys(m))
  {
    forall i, j | 0 <= i < j < |m| ensures m[i].0 != m[j].0 {
      if m[i].0 == m[j].0 {
        LexLessIrreflexive(m[i].0);
      }
    }
  }

  /** Whether `key` is one of the map's keys (std::map::count). */
  predicate HasKey<V>(m: OrderedMap<V>, key: string)
  {
    IndexOf(Keys(m), key) < |m|
  }

  /** std::map::at and std::map::find: the value stored under `key`, if any. */
  function Lookup<V>(m: OrderedMap<V>, key: string): (r: Option<V>)
  {
    var i := IndexOf(Keys(m), key);
    if i < |m| then Some(m[i].1) else None
  }

  lemma LookupEntry<V>(m: OrderedMap<V>, i: nat)
    requires KeysAscending(m) && i < |m|
    ensures Lookup(m, m[i].0) == Some(m[i].1)
  {
    AscendingKeysDistinct(m);
    IndexOfDistinct(Keys(m), i);
  }

  // ---------------------------------------------------------------------------
  // Contact maps

  /** aligator's ContactMap: foot names zipped, position by position, with
      contact flags and contact translations. */
  datatype ContactMap = ContactMap(names: seq<string>, states: seq<bool>, poses: seq<Vec3>)

  predicate WellFormed(cm: ContactMap)
  {
    |cm.states| == |cm.names| && |cm.poses| == |cm.names|
  }

  function ContactState(cm: ContactMap, name: string): bool
    requires WellFormed(cm) && name in cm.names
  {
    cm.states[IndexOf(cm.names, name)]
  }

  function ContactPose(cm: ContactMap, name: string): Vec3
    requires WellFormed(cm) && name in cm.names
  {
    cm.poses[IndexOf(cm.names, name)]
  }

  /** Store `p` at the first position named `name`; an unknown name changes nothing. */
  function SetContactPose(cm: ContactMap, name: string, p: Vec3): (r: ContactMap)
    requires WellFormed(cm)
    ensures WellFormed(r) && r.names == cm.names && r.states == cm.states
    ensures name in cm.names ==> ContactPose(r, name) == p
    ensures forall other :: other in cm.names && other != name ==> ContactPose(r, other) == ContactPose(cm, other)
  {
    var i := IndexOf(cm.names, name);
    if i < |cm.names| then cm.(poses := cm.poses[i := p]) else cm
  }

  /** The contact map `createStage` builds: the foot names in the robot
      handler's order, zipped with the flags and translations of the two
      std::maps in KEY order (src/centroidal-dynamics.cpp:37-47). */
  function StageContactMap(feet: seq<string>, phase: OrderedMap<bool>, poses: OrderedMap<Pose>): (cm: ContactMap)
    requires |phase| == |feet| && |poses| == |feet|
    ensures WellFormed(cm) && cm.names == feet
    ensures forall i :: 0 <= i < |feet| ==> cm.states[i] == phase[i].1 && cm.poses[i] == poses[i].1.translation
  {
    ContactMap(feet, Values(phase), seq(|poses|, i requires 0 <= i < |poses| => poses[i].1.translation))
  }

  /** Number of feet, in `names` order, whose flag in `cm` is set (prefix of length k). */
  function CountActive(names: seq<string>, cm: ContactMap, k: nat): (n: nat)
    requires WellFormed(cm) && k <= |names|
    requires forall i :: 0 <= i < |names| ==> names[i] in cm.names
    ensures n <= k
  {
    if k == 0 then 0
    else CountActive(names, cm, k - 1) + (if ContactState(cm, names[k - 1]) then 1 else 0)
  }

  /** The count is zero exactly when none of the first k feet is in contact. */
  lemma {:induction false} CountActiveNone(names: seq<string>, cm: ContactMap, k: nat)
    requires WellFormed(cm) && k <= |names|
    requires forall i :: 0 <= i < |names| ==> names[i] in cm.names
    ensures CountActive(names, cm, k) == 0 <==> forall i :: 0 <= i < k ==> !ContactState(cm, names[i])
  {
    if k > 0 {
      CountActiveNone(names, cm, k - 1);
    }
  }

  /** The count is k exactly when all of the first k feet are in contact. */
  lemma {:induction false} CountActiveAll(names: seq<string>, cm: ContactMap, k: nat)
    requires WellFormed(cm) && k <= |names|
    requires forall i :: 0 <= i < |names| ==> names[i] in cm.names
    ensures CountActive(names, cm, k) == k <==> forall i :: 0 <= i < k ==> ContactState(cm, names[i])
  {
    if k > 0 {
      CountActiveAll(names, cm, k - 1);
    }
  }

  // ---------------------------------------------------------------------------
  // Stages

  datatype Cone =
    | WrenchCone(contact: nat, mu: real, footLength: real, footWidth: real)
    | FrictionCone(contact: nat, mu: real, epsilon: real)

  /** One stage of the problem: the reference control of its control cost, the
      contact maps held by the dynamics and by the two acceleration residuals,
      its cost names in order, and its cone constraints. */
  datatype Stage = Stage(
    controlRef: Vector,
    dynamicsContacts: ContactMap,
    linearAccContacts: ContactMap,
    angularAccContacts: ContactMap,
    costNames: seq<string>,
    constraints: seq<Cone>)

  const CostNames: seq<string> :=
    ["control_cost", "linear_mom_cost", "angular_mom_cost", "linear_acc_cost", "angular_acc_cost"]

  /** Regularisation of the friction-cone residual (src/centroidal-dynamics.cpp:92). */
  const FrictionConeEpsilon: real := 0.0001

  datatype Settings = Settings(u0: Vector, forceSize: nat, mu: real, footLength: real, footWidth: real)

  datatype Error =
    | ControlSizeMismatch
    | MissingKey(key: string)
    | ForceSizeMismatch(foot: string)
    | StageIndexOutOfRange
    | PoseCountMismatch
    | ProblemNotCreated

  /** The cone constraint for contact number i. */
  function ConeFor(i: nat, s: Settings): (c: Cone)
    ensures c.contact == i && c.mu == s.mu
    ensures c.WrenchCone? <==> s.forceSize == 6
  {
    if s.forceSize == 6 then WrenchCone(i, s.mu, s.footLength, s.footWidth)
    else FrictionCone(i, s.mu, FrictionConeEpsilon)
  }

  /** Whether each of the first k foot names has a flag in `phase`. */
  predicate FlagsCover(feet: seq<string>, phase: OrderedMap<bool>, k: nat)
  {
    k <= |feet| && forall i :: 0 <= i < k ==> HasKey(phase, feet[i])
  }

  function Flag(phase: OrderedMap<bool>, name: string): bool
    requires HasKey(phase, name)
  {
    Lookup(phase, name).value
  }

  /** Constraints added for the first k feet: one cone per foot whose flag,
      looked up by NAME, is set, in foot order (src/centroidal-dynamics.cpp:81-97). */
  function Cones(feet: seq<string>, phase: OrderedMap<bool>, s: Settings, k: nat): (cs: seq<Cone>)
    requires FlagsCover(feet, phase, k)
    ensures |cs| <= k
    ensures forall c :: c in cs ==> c.contact < k && Flag(phase, feet[c.contact]) && c == ConeFor(c.contact, s)
    ensures forall i :: 0 <= i < k && Flag(phase, feet[i]) ==> ConeFor(i, s) in cs
    ensures forall a, b :: 0 <= a < b < |cs| ==> cs[a].contact < cs[b].contact
  {
    if k == 0 then []
    else
      var prev := Cones(feet, phase, s, k - 1);
      if Flag(phase, feet[k - 1]) then prev + [ConeFor(k - 1, s)] else prev
  }

  /** Number of the first k feet whose flag is set. */
  function CountFlags(feet: seq<string>, phase: OrderedMap<bool>, k: nat): nat
    requires FlagsCover(feet, phase, k)
  {
    if k == 0 then 0 else CountFlags(feet, phase, k - 1) + (if Flag(phase, feet[k - 1]) then 1 else 0)
  }

  lemma {:induction false} ConesCount(feet: seq<string>, phase: OrderedMap<bool>, s: Settings, k: nat)
    requires FlagsCover(feet, phase, k)
    ensures |Cones(feet, phase, s, k)| == CountFlags(feet, phase, k)
  {
    if k > 0 {
      ConesCount(feet, phase, s, k - 1);
    }
  }

  /** First foot (index) with no flag in `phase`, or |feet|. */
  function FirstMissingKey<V>(feet: seq<string>, m: OrderedMap<V>, from: nat): (k: nat)
    requires from <= |feet|
    ensures from <= k <= |feet|
    ensures forall i :: from <= i < k ==> HasKey(m, feet[i])
    ensures k < |feet| ==> !HasKey(m, feet[k])
    decreases |feet| - from
  {
    if from == |feet| then from
    else if HasKey(m, feet[from]) then FirstMissingKey(feet, m, from + 1)
    else from
  }

  /** The stage `createStage` returns for reference control `u`, or the
      std::out_of_range thrown by `contact_phase.at(name)`. */
  function BuildStage(feet: seq<string>, s: Settings, u: Vector, phase: OrderedMap<bool>, poses: OrderedMap<Pose>): Result<Stage, Error>
    requires |phase| == |feet| && |poses| == |feet|
  {
    var m := FirstMissingKey(feet, phase, 0);
    if m < |feet| then Failure(MissingKey(feet[m]))
    else
      var cm := StageContactMap(feet, phase, poses);
      Success(Stage(u, cm, cm, cm, CostNames, Cones(feet, phase, s, |feet|)))
  }

  /** When the handler lists the feet in the same order as the std::map keys,
      the contact map gives each foot its own flag, and the stage's contact
      support equals its number of cone constraints. */
  lemma KeyOrderedFeetAgree(feet: seq<string>, s: Settings, u: Vector, phase: OrderedMap<bool>, poses: OrderedMap<Pose>)
    requires KeysAscending(phase) && Keys(phase) == feet && |poses| == |feet|
    ensures BuildStage(feet, s, u, phase, poses).Success?
    ensures var st := BuildStage(feet, s, u, phase, poses).value;
      && (forall i :: 0 <= i < |feet| ==> ContactState(st.dynamicsContacts, feet[i]) == Flag(phase, feet[i]))
      && CountActive(feet, st.dynamicsContacts, |feet|) == |st.constraints|
  {
    AscendingKeysDistinct(phase);
    var cm := StageContactMap(feet, phase, poses);
    forall i | 0 <= i < |feet|
      ensures ContactState(cm, feet[i]) == Flag(phase, feet[i])
    {
      IndexOfDistinct(feet, i);
      LookupEntry(phase, i);
    }
    CountsAgree(feet, phase, cm, |feet|);
    ConesCount(feet, phase, s, |feet|);
  }

  lemma {:induction false} CountsAgree(feet: seq<string>, phase: OrderedMap<bool>, cm: ContactMap, k: nat)
    requires FlagsCover(feet, phase, k) && WellFormed(cm) && cm.names == feet
    requires forall i :: 0 <= i < k ==> ContactState(cm, feet[i]) == Flag(phase, feet[i])
    ensures CountActive(feet, cm, k) == CountFlags(feet, phase, k)
  {
    if k > 0 {
      CountsAgree(feet, phase, cm, k - 1);
    }
  }

  /** The zip by position at src/centroidal-dynamics.cpp:46-47, kept as written:
      with the handler listing "right" before "left", the key-ordered flags give
      "right" the flag of "left", while the constraint loop, which looks flags
      up by name, puts the only cone on "left" (contact 1). */
  lemma ZipFollowsKeyOrder(s: Settings, u: Vector, p: Pose)
    requires s.forceSize == 3
    ensures var feet := ["right", "left"];
      var phase := [("left", true), ("right", false)];
      var st := BuildStage(feet, s, u, phase, [("left", p), ("right", p)]);
      && KeysAscending(phase)
      && st.Success?
      && ContactState(st.value.dynamicsContacts, "right")
      && !ContactState(st.value.dynamicsContacts, "left")
      && st.value.constraints == [FrictionCone(1, s.mu, FrictionConeEpsilon)]
  {
    var feet := ["right", "left"];
    var phase := [("left", true), ("right", false)];
    assert LexLess("left", "right");
    assert Keys(phase) == ["left", "right"];
    assert FlagsCover(feet, phase, 2);
    assert Flag(phase, "left") && !Flag(phase, "right");
    assert Cones(feet, phase, s, 1) == [];
  }

  // ---------------------------------------------------------------------------
  // Packing per-foot forces into the reference control

  /** The force of a foot is usable when it is present and has force_size entries. */
  predicate ForceOk(refs: OrderedMap<Vector>, name: string, fs: nat)
  {
    Lookup(refs, name).Some? && |Lookup(refs, name).value| == fs
  }

  /** First foot, from `from` on, whose force is missing or of the wrong size, or |feet|. */
  function FirstForceFailure(feet: seq<string>, refs: OrderedMap<Vector>, fs: nat, from: nat): (k: nat)
    requires from <= |feet|
    ensures from <= k <= |feet|
    ensures forall i :: from <= i < k ==> ForceOk(refs, feet[i], fs)
    ensures k < |feet| ==> !ForceOk(refs, feet[k], fs)
    decreases |feet| - from
  {
    if from == |feet| then from
    else if ForceOk(refs, feet[from], fs) then FirstForceFailure(feet, refs, fs, from + 1)
    else from
  }

  /** The exception thrown for foot k: std::out_of_range from `.at`, or the size check. */
  function ForceFailure(feet: seq<string>, refs: OrderedMap<Vector>, k: nat): Error
    requires k < |feet|
  {
    if Lookup(refs, feet[k]).None? then MissingKey(feet[k]) else ForceSizeMismatch(feet[k])
  }

  /** The control vector after the loop of computeControlFromForces has written
      the first k feet's slices into `u`, in order. */
  function PackForces(u: Vector, feet: seq<string>, refs: OrderedMap<Vector>, fs: nat, k: nat): (r: Vector)
    requires |u| == |feet| * fs && k <= |feet|
    requires forall i :: 0 <= i < k ==> ForceOk(refs, feet[i], fs)
    ensures |r| == |u|
  {
    if k == 0 then u
    else
      assert ForceOk(refs, feet[k - 1], fs);
      Slot(k - 1, |feet|, fs);
      Splice(PackForces(u, feet, refs, fs, k - 1), (k - 1) * fs, Lookup(refs, feet[k - 1]).value)
  }

  /** The feet's forces laid end to end. */
  function ConcatForces(feet: seq<string>, refs: OrderedMap<Vector>, fs: nat, k: nat): (r: Vector)
    requires k <= |feet|
    requires forall i :: 0 <= i < k ==> ForceOk(refs, feet[i], fs)
    ensures |r| == k * fs
  {
    if k == 0 then []
    else
      assert ForceOk(refs, feet[k - 1], fs);
      SlotNext(k, fs);
      ConcatForces(feet, refs, fs, k - 1) + Lookup(refs, feet[k - 1]).value
  }

  /** After k feet, slice i (i < k) holds foot i's force. */
  lemma {:induction false} PackedSegments(u: Vector, feet: seq<string>, refs: OrderedMap<Vector>, fs: nat, k: nat, i: nat)
    requires |u| == |feet| * fs && k <= |feet| && i < k
    requires forall j :: 0 <= j < k ==> ForceOk(refs, feet[j], fs)
    ensures i * fs + fs <= |u|
    ensures Segment(PackForces(u, feet, refs, fs, k), i, fs) == Lookup(refs, feet[i]).value
  {
    Slot(i, |feet|, fs);
    Slot(k - 1, |feet|, fs);
    var prev := PackForces(u, feet, refs, fs, k - 1);
    SpliceSegment(prev, k - 1, fs, Lookup(refs, feet[k - 1]).value, i);
    if i < k - 1 {
      PackedSegments(u, feet, refs, fs, k - 1, i);
    }
  }

  /** After k feet, the vector is the k forces end to end followed by the
      untouched rest of `u`: the slices are disjoint and, at k = #feet, cover
      all nu entries, so the result no longer depends on `u`. */
  lemma {:induction false} PackedLayout(u: Vector, feet: seq<string>, refs: OrderedMap<Vector>, fs: nat, k: nat)
    requires |u| == |feet| * fs && k <= |feet|
    requires forall j :: 0 <= j < k ==> ForceOk(refs, feet[j], fs)
    ensures k * fs <= |u|
    ensures PackForces(u, feet, refs, fs, k) == ConcatForces(feet, refs, fs, k) + u[k * fs..]
  {
    if k > 0 {
      Slot(k - 1, |feet|, fs);
      SlotNext(k, fs);
      PackedLayout(u, feet, refs, fs, k - 1);
      var f := Lookup(refs, feet[k - 1]).value;
      var c := ConcatForces(feet, refs, fs, k - 1);
      var off, end := (k - 1) * fs, k * fs;
      assert off + fs == end <= |u|;
      assert ForceOk(refs, feet[k - 1], fs);
      assert |f| == fs && |c| == off;
      var rest := u[off..];
      SpliceAfterPrefix(c, rest, f);
      assert rest[fs..] == u[end..];
    }
  }

  lemma PackedIsConcat(u: Vector, feet: seq<string>, refs: OrderedMap<Vector>, fs: nat)
    requires |u| == |feet| * fs
    requires forall j :: 0 <= j < |feet| ==> ForceOk(refs, feet[j], fs)
    ensures PackForces(u, feet, refs, fs, |feet|) == ConcatForces(feet, refs, fs, |feet|)
  {
    PackedLayout(u, feet, refs, fs, |feet|);
    assert u[|feet| * fs..] == [];
  }

  /** The loop of computeControlFromForces: writes foot i's force into slice i
      of `u`, foot by foot; the first missing or wrongly sized force throws,
      leaving the slices of the feet before it written. */
  method PackControl(u: Vector, feet: seq<string>, refs: OrderedMap<Vector>, fs: nat)
    returns (r: Vector, res: Outcome<Error>)
    requires |u| == |feet| * fs
    ensures var k := FirstForceFailure(feet, refs, fs, 0);
      && r == PackForces(u, feet, refs, fs, k)
      && (res.Pass? <==> k == |feet|)
      && (res.Fail? ==> res.error == ForceFailure(feet, refs, k))
  {
    r := u;
    var i := 0;
    while i < |feet|
      invariant 0 <= i <= |feet|
      invariant FirstForceFailure(feet, refs, fs, 0) == FirstForceFailure(feet, refs, fs, i)
      invariant forall j :: 0 <= j < i ==> ForceOk(refs, feet[j], fs)
      invariant r == PackForces(u, feet, refs, fs, i)
    {
      var f := Lookup(refs, feet[i]);
      if f.None? {
        return r, Fail(MissingKey(feet[i]));
      }
      if |f.value| != fs {
        return r, Fail(ForceSizeMismatch(feet[i]));
      }
      Slot(i, |feet|, fs);
      r := Splice(r, i * fs, f.value);
      i := i + 1;
    }
    res := Pass;
  }

  // ---------------------------------------------------------------------------
  // Applying reference poses

  /** The dynamics contact map after the loop over `pose_refs` (in key order)
      has stored its first k translations. */
  function ApplyPoseEntries(cm: ContactMap, refs: OrderedMap<Pose>, k: nat): (r: ContactMap)
    requires WellFormed(cm) && k <= |refs|
    ensures WellFormed(r) && r.names == cm.names && r.states == cm.states
  {
    if k == 0 then cm
    else SetContactPose(ApplyPoseEntries(cm, refs, k - 1), refs[k - 1].0, refs[k - 1].1.translation)
  }

  /** A residual's contact map after the loop over the feet has stored
      `pose_refs.at(foot)` for the first k feet. */
  function ApplyFootPoses(cm: ContactMap, feet: seq<string>, refs: OrderedMap<Pose>, k: nat): (r: ContactMap)
    requires WellFormed(cm) && k <= |feet|
    requires forall i :: 0 <= i < k ==> HasKey(refs, feet[i])
    ensures WellFormed(r) && r.names == cm.names && r.states == cm.states
  {
    if k == 0 then cm
    else
      assert HasKey(refs, feet[k - 1]);
      SetContactPose(ApplyFootPoses(cm, feet, refs, k - 1), feet[k - 1], Lookup(refs, feet[k - 1]).value.translation)
  }

  /** After k entries of a std::map of poses, a name whose key is among the
      first k carries that key's translation; every other name keeps its pose. */
  lemma {:induction false} ApplyPoseEntriesAt(cm: ContactMap, refs: OrderedMap<Pose>, k: nat, e: string)
    requires WellFormed(cm) && KeysAscending(refs) && k <= |refs| && e in cm.names
    ensures var at := IndexOf(Keys(refs), e);
      ContactPose(ApplyPoseEntries(cm, refs, k), e)
        == if at < k then refs[at].1.translation else ContactPose(cm, e)
  {
    if k > 0 {
      ApplyPoseEntriesAt(cm, refs, k - 1, e);
      if refs[k - 1].0 == e {
        AscendingKeysDistinct(refs);
        IndexOfDistinct(Keys(refs), k - 1);
      }
    }
  }

  /** The same for the loop over the feet: a name whose first occurrence among
      the feet is one of the first k carries its looked-up translation. */
  lemma {:induction false} ApplyFootPosesAt(cm: ContactMap, feet: seq<string>, refs: OrderedMap<Pose>, k: nat, e: string)
    requires WellFormed(cm) && k <= |feet| && e in cm.names
    requires forall i :: 0 <= i < k ==> HasKey(refs, feet[i])
    ensures var at := IndexOf(feet, e);
      at < k ==> HasKey(refs, feet[at])
    ensures var at := IndexOf(feet, e);
      ContactPose(ApplyFootPoses(cm, feet, refs, k), e)
        == if at < k then Lookup(refs, e).value.translation else ContactPose(cm, e)
  {
    if k > 0 {
      ApplyFootPosesAt(cm, feet, refs, k - 1, e);
    }
  }

  /** Round trip of setReferencePoses: once every foot has a pose, each foot
      reads back the translation it was given. */
  lemma PosesRoundTrip(cm: ContactMap, refs: OrderedMap<Pose>, e: string)
    requires WellFormed(cm) && KeysAscending(refs) && e in cm.names && HasKey(refs, e)
    ensures ContactPose(ApplyPoseEntries(cm, refs, |refs|), e) == Lookup(refs, e).value.translation
  {
    ApplyPoseEntriesAt(cm, refs, |refs|, e);
  }

  /** The same round trip for the loop over the feet in the two residual maps. */
  lemma FootPosesRoundTrip(cm: ContactMap, feet: seq<string>, refs: OrderedMap<Pose>, e: string)
    requires WellFormed(cm) && e in cm.names && e in feet
    requires forall i :: 0 <= i < |feet| ==> HasKey(refs, feet[i])
    ensures HasKey(refs, e)
    ensures ContactPose(ApplyFootPoses(cm, feet, refs, |feet|), e) == Lookup(refs, e).value.translation
  {
    ApplyFootPosesAt(cm, feet, refs, |feet|, e);
  }

  /** After a successful setReferencePoses the three copies of a stage's contact
      map give every foot the same translation, although one was filled in key
      order and the other two in foot order. */
  lemma PoseLoopsAgree(cm: ContactMap, feet: seq<string>, refs: OrderedMap<Pose>, e: string)
    requires WellFormed(cm) && cm.names == feet && KeysAscending(refs)
    requires forall i :: 0 <= i < |feet| ==> HasKey(refs, feet[i])
    requires e in feet
    ensures ContactPose(ApplyPoseEntries(cm, refs, |refs|), e) == ContactPose(ApplyFootPoses(cm, feet, refs, |feet|), e)
  {
    FootPosesRoundTrip(cm, feet, refs, e);
    PosesRoundTrip(cm, refs, e);
  }

  /** The loop over `pose_refs` of setReferencePoses, on the dynamics contact map. */
  method StoreEntryPoses(cm: ContactMap, refs: OrderedMap<Pose>) returns (r: ContactMap)
    requires WellFormed(cm)
    ensures r == ApplyPoseEntries(cm, refs, |refs|)
  {
    r := cm;
    var j := 0;
    while j < |refs|
      invariant 0 <= j <= |refs|
      invariant r == ApplyPoseEntries(cm, refs, j)
    {
      r := SetContactPose(r, refs[j].0, refs[j].1.translation);
      j := j + 1;
    }
  }

  /** The loop over the feet of setReferencePoses, on the two residual maps;
      `missing` is the foot at which `pose_refs.at` throws, or #feet. */
  method StoreFootPoses(lin: ContactMap, ang: ContactMap, feet: seq<string>, refs: OrderedMap<Pose>)
    returns (lin': ContactMap, ang': ContactMap, missing: nat)
    requires WellFormed(lin) && WellFormed(ang)
    ensures missing == FirstMissingKey(feet, refs, 0)
    ensures lin' == ApplyFootPoses(lin, feet, refs, missing)
    ensures ang' == ApplyFootPoses(ang, feet, refs, missing)
  {
    lin', ang' := lin, ang;
    var i := 0;
    while i < |feet|
      invariant 0 <= i <= |feet|
      invariant FirstMissingKey(feet, refs, 0) == FirstMissingKey(feet, refs, i)
      invariant forall k :: 0 <= k < i ==> HasKey(refs, feet[k])
      invariant lin' == ApplyFootPoses(lin, feet, refs, i)
      invariant ang' == ApplyFootPoses(ang, feet, refs, i)
    {
      var p := Lookup(refs, feet[i]);
      if p.None? {
        return lin', ang', i;
      }
      lin' := SetContactPose(lin', feet[i], p.value.translation);
      ang' := SetContactPose(ang', feet[i], p.value.translation);
      i := i + 1;
    }
    missing := i;
  }

  /** The constraint loop of createStage: one cone per foot whose flag is set,
      or the std::out_of_range of `contact_phase.at` for the first foot without one. */
  method CollectCones(feet: seq<string>, phase: OrderedMap<bool>, s: Settings) returns (r: Result<seq<Cone>, Error>)
    ensures var m := FirstMissingKey(feet, phase, 0);
      && (m < |feet| ==> r == Failure(MissingKey(feet[m])))
      && (m == |feet| ==> r == Success(Cones(feet, phase, s, |feet|)))
  {
    var cones: seq<Cone> := [];
    var i := 0;
    while i < |feet|
      invariant 0 <= i <= |feet|
      invariant FirstMissingKey(feet, phase, 0) == FirstMissingKey(feet, phase, i)
      invariant FlagsCover(feet, phase, i)
      invariant cones == Cones(feet, phase, s, i)
    {
      var flag := Lookup(phase, feet[i]);
      if flag.None? {
        return Failure(MissingKey(feet[i]));
      }
      if flag.value {
        cones := cones + [ConeFor(i, s)];
      }
      i := i + 1;
    }
    r := Success(cones);
  }

  /** Foot e's slice of a control vector with one slice per foot. */
  function FootForce(u: Vector, feet: seq<string>, fs: nat, e: string): (r: Vector)
    requires |u| == |feet| * fs && e in feet
    ensures |r| == fs
    ensures IndexOf(feet, e) * fs + fs <= |u| && r == u[IndexOf(feet, e) * fs .. IndexOf(feet, e) * fs + fs]
  {
    Slot(IndexOf(feet, e), |feet|, fs);
    Segment(u, IndexOf(feet, e), fs)
  }

  /** `u` with foot e's slice replaced by f. */
  function WithFootForce(u: Vector, feet: seq<string>, fs: nat, e: string, f: Vector): (r: Vector)
    requires |u| == |feet| * fs && e in feet && |f| == fs
    ensures |r| == |u|
  {
    Slot(IndexOf(feet, e), |feet|, fs);
    Splice(u, IndexOf(feet, e) * fs, f)
  }

  /** Writing foot e's slice: e reads back f, every other foot reads its old slice. */
  lemma FootForceAfterWrite(u: Vector, feet: seq<string>, fs: nat, e: string, f: Vector, other: string)
    requires |u| == |feet| * fs && e in feet && |f| == fs && other in feet
    ensures FootForce(WithFootForce(u, feet, fs, e, f), feet, fs, other)
      == if other == e then f else FootForce(u, feet, fs, other)
  {
    Slot(IndexOf(feet, e), |feet|, fs);
    Slot(IndexOf(feet, other), |feet|, fs);
    SpliceSegment(u, IndexOf(feet, e), fs, f, IndexOf(feet, other));
  }

  /** After the whole loop of computeControlFromForces each foot reads back its force. */
  lemma PackedFootForce(u: Vector, feet: seq<string>, refs: OrderedMap<Vector>, fs: nat, e: string)
    requires |u| == |feet| * fs && e in feet
    requires forall j :: 0 <= j < |feet| ==> ForceOk(refs, feet[j], fs)
    ensures Lookup(refs, e).Some?
    ensures FootForce(PackForces(u, feet, refs, fs, |feet|), feet, fs, e) == Lookup(refs, e).value
  {
    PackedSegments(u, feet, refs, fs, |feet|, IndexOf(feet, e));
  }

  /** A stage built for these feet: a control of size nu and three contact maps over the feet. */
  ghost predicate StageFits(s: Stage, feet: seq<string>, nu: nat)
  {
    && |s.controlRef| == nu
    && WellFormed(s.dynamicsContacts) && s.dynamicsContacts.names == feet
    && WellFormed(s.linearAccContacts) && s.linearAccContacts.names == feet
    && WellFormed(s.angularAccContacts) && s.angularAccContacts.names == feet
  }

  // ---------------------------------------------------------------------------
  // The problem object

  class CentroidalProblem {
    /** handler_.getFeetNames() */
    const feet: seq<string>
    var settings: Settings
    var nx: nat
    var nu: nat
    /** The shared reference control control_ref_, one force slice per foot. */
    var controlRef: Vector
    /** problem_->stages_ */
    var stages: seq<Stage>
    var problemInitialized: bool
    var terminalConstraint: bool

    ghost predicate Valid()
      reads this
    {
      && nx == 9
      && nu == |feet| * settings.forceSize
      && |controlRef| == nu
      && (forall t :: 0 <= t < |stages| ==> StageFits(stages[t], feet, nu))
      && !terminalConstraint
    }

    /** CentroidalProblem(settings, handler), for settings whose u0 has the
        right size; the other case throws from initialize (see Initialize). */
    constructor (feet: seq<string>, s: Settings)
      requires |s.u0| == |feet| * s.forceSize
      ensures Valid()
      ensures this.feet == feet && settings == s && controlRef == s.u0 && nu == |feet| * s.forceSize
      ensures stages == [] && !problemInitialized
    {
      this.feet := feet;
      settings := s;
      nx := 9;
      nu := |feet| * s.forceSize;
      controlRef := s.u0;
      stages := [];
      problemInitialized := false;
      terminalConstraint := false;
    }

    /** initialize: nx = 9, nu = #feet * force_size; throws when |u0| != nu,
        after settings, nx and nu have been stored. A successful call restores
        Valid() when no stage is stored yet, or when nu keeps its value; a
        re-initialization that changes force_size leaves stored stages whose
        controls no longer have nu entries. */
    method Initialize(s: Settings) returns (res: Outcome<Error>)
      modifies this
      ensures settings == s && nx == 9 && nu == |feet| * s.forceSize
      ensures res.Pass? <==> |s.u0| == |feet| * s.forceSize
      ensures res.Fail? ==> res.error == ControlSizeMismatch
      ensures controlRef == if res.Pass? then s.u0 else old(controlRef)
      ensures stages == old(stages) && problemInitialized == old(problemInitialized)
      ensures terminalConstraint == old(terminalConstraint)
      ensures old(Valid()) && res.Pass? && old(nu) == nu ==> Valid()
      ensures res.Pass? && old(stages) == [] && !old(terminalConstraint) ==> Valid()
    {
      settings := s;
      nx := 9;
      nu := |feet| * s.forceSize;
      if nu != |s.u0| {
        return Fail(ControlSizeMismatch);
      }
      controlRef := s.u0;
      res := Pass;
    }

    /** computeControlFromForces on the shared control (see PackControl). */
    method ComputeControlFromForces(refs: OrderedMap<Vector>) returns (res: Outcome<Error>)
      requires Valid()
      modifies this`controlRef
      ensures Valid()
      ensures var k := FirstForceFailure(feet, refs, settings.forceSize, 0);
        && controlRef == PackForces(old(controlRef), feet, refs, settings.forceSize, k)
        && (res.Pass? <==> k == |feet|)
        && (res.Fail? ==> res.error == ForceFailure(feet, refs, k))
    {
      controlRef, res := PackControl(controlRef, feet, refs, settings.forceSize);
    }

    /** createStage: packs the forces into the shared control, zips the contact
        maps, lists the five costs and adds one cone per foot in contact. */
    method CreateStage(phase: OrderedMap<bool>, poses: OrderedMap<Pose>, forces: OrderedMap<Vector>)
      returns (r: Result<Stage, Error>)
      requires Valid()
      requires KeysAscending(phase) && KeysAscending(poses) && KeysAscending(forces)
      requires |phase| == |feet| && |poses| == |feet|
      modifies this`controlRef
      ensures Valid()
      ensures var k := FirstForceFailure(feet, forces, settings.forceSize, 0);
        && controlRef == PackForces(old(controlRef), feet, forces, settings.forceSize, k)
        && (k < |feet| ==> r == Failure(ForceFailure(feet, forces, k)))
        && (k == |feet| ==> r == BuildStage(feet, settings, controlRef, phase, poses))
      ensures r.Success? ==> StageFits(r.value, feet, nu)
    {
      var packed := ComputeControlFromForces(forces);
      if packed.Fail? {
        return Failure(packed.error);
      }
      var cm := StageContactMap(feet, phase, poses);
      var cones := CollectCones(feet, phase, settings);
      if cones.Failure? {
        return Failure(cones.error);
      }
      r := Success(Stage(controlRef, cm, cm, cm, CostNames, cones.value));
    }

    /** Stores the stages built by createProblem (base-problem.cpp, whose loop
        is not part of this model) and marks the problem as created. */
    method InstallStages(ss: seq<Stage>)
      requires Valid()
      requires forall t :: 0 <= t < |ss| ==> StageFits(ss[t], feet, nu)
      modifies this`stages, this`problemInitialized
      ensures Valid() && stages == ss && problemInitialized
    {
      stages := ss;
      problemInitialized := true;
    }

    /** setReferencePoses: throws (changing nothing) when t is out of range or
        the number of poses differs from the number of feet; otherwise stores the
        poses in the dynamics contact map, entry by entry, then in the two
        residual maps foot by foot, where `pose_refs.at` throws on the first foot
        without a pose after the earlier feet have been written. */
    method SetReferencePoses(t: nat, refs: OrderedMap<Pose>) returns (res: Outcome<Error>)
      requires Valid() && KeysAscending(refs)
      modifies this`stages
      ensures Valid() && |stages| == |old(stages)|
      ensures t >= |old(stages)| ==> res == Fail(StageIndexOutOfRange) && stages == old(stages)
      ensures t < |old(stages)| && |refs| != |feet| ==> res == Fail(PoseCountMismatch) && stages == old(stages)
      ensures t < |old(stages)| && |refs| == |feet| ==>
        var m := FirstMissingKey(feet, refs, 0);
        var s := old(stages)[t];
        && (res.Pass? <==> m == |feet|)
        && (res.Fail? ==> res.error == MissingKey(feet[m]))
        && stages == old(stages)[t := s.(
             dynamicsContacts := ApplyPoseEntries(s.dynamicsContacts, refs, |refs|),
             linearAccContacts := ApplyFootPoses(s.linearAccContacts, feet, refs, m),
             angularAccContacts := ApplyFootPoses(s.angularAccContacts, feet, refs, m))]
      ensures res.Pass? ==> forall e :: e in feet ==>
        GetReferencePose(t, e) == Success(Pose(IdentityRotation, Lookup(refs, e).value.translation))
    {
      if t >= |stages| {
        return Fail(StageIndexOutOfRange);
      }
      if |refs| != |feet| {
        return Fail(PoseCountMismatch);
      }
      var s := stages[t];
      var dyn := StoreEntryPoses(s.dynamicsContacts, refs);
      var lin, ang, missing := StoreFootPoses(s.linearAccContacts, s.angularAccContacts, feet, refs);
      var ns := s.(dynamicsContacts := dyn, linearAccContacts := lin, angularAccContacts := ang);
      assert StageFits(ns, feet, nu);
      if missing < |feet| {
        stages := stages[t := ns];
        return Fail(MissingKey(feet[missing]));
      }
      forall e | e in feet
        ensures HasKey(refs, e) && ContactPose(dyn, e) == Lookup(refs, e).value.translation
      {
        FootPosesRoundTrip(s.linearAccContacts, feet, refs, e);
        PosesRoundTrip(s.dynamicsContacts, refs, e);
      }
      stages := stages[t := ns];
      res := Pass;
    }

    /** setReferencePose: throws (changing nothing) when t is out of range;
        otherwise stores p's translation for `e` in all three contact maps. */
    method SetReferencePose(t: nat, e: string, p: Pose) returns (res: Outcome<Error>)
      requires Valid()
      modifies this`stages
      ensures Valid() && |stages| == |old(stages)|
      ensures res.Pass? <==> t < |old(stages)|
      ensures res.Fail? ==> res.error == StageIndexOutOfRange && stages == old(stages)
      ensures res.Pass? ==> var s := old(stages)[t];
        stages == old(stages)[t := s.(
          dynamicsContacts := SetContactPose(s.dynamicsContacts, e, p.translation),
          linearAccContacts := SetContactPose(s.linearAccContacts, e, p.translation),
          angularAccContacts := SetContactPose(s.angularAccContacts, e, p.translation))]
      ensures res.Pass? && e in feet ==> GetReferencePose(t, e) == Success(Pose(IdentityRotation, p.translation))
      ensures res.Pass? ==> forall other :: other in feet && other != e ==>
        GetReferencePose(t, other) == old(GetReferencePose(t, other))
    {
      if t >= |stages| {
        return Fail(StageIndexOutOfRange);
      }
      var s := stages[t];
      stages := stages[t := s.(
        dynamicsContacts := SetContactPose(s.dynamicsContacts, e, p.translation),
        linearAccContacts := SetContactPose(s.linearAccContacts, e, p.translation),
        angularAccContacts := SetContactPose(s.angularAccContacts, e, p.translation))];
      res := Pass;
    }

    /** getReferencePose: the identity rotation with the translation stored for
        `e` in stage t's dynamics contact map. */
    function GetReferencePose(t: nat, e: string): (r: Result<Pose, Error>)
      requires Valid() && e in feet
      reads this
      ensures r.Failure? <==> t >= |stages|
      ensures r.Success? ==>
        r.value.rotation == IdentityRotation && r.value.translation == ContactPose(stages[t].dynamicsContacts, e)
    {
      if t >= |stages| then Failure(StageIndexOutOfRange)
      else Success(Pose(IdentityRotation, ContactPose(stages[t].dynamicsContacts, e)))
    }

    /** setReferenceForces: packs all feet's forces into the shared control
        and, when that does not throw, makes it stage t's reference control. */
    method SetReferenceForces(t: nat, refs: OrderedMap<Vector>) returns (res: Outcome<Error>)
      requires Valid() && t < |stages|
      modifies this`controlRef, this`stages
      ensures Valid() && |stages| == |old(stages)|
      ensures var k := FirstForceFailure(feet, refs, settings.forceSize, 0);
        && controlRef == PackForces(old(controlRef), feet, refs, settings.forceSize, k)
        && (res.Pass? <==> k == |feet|)
        && (res.Fail? ==> res.error == ForceFailure(feet, refs, k) && stages == old(stages))
      ensures res.Pass? ==> stages == old(stages)[t := old(stages)[t].(controlRef := controlRef)]
      ensures res.Pass? ==> forall e :: e in feet ==>
        Lookup(refs, e).Some? && GetReferenceForce(t, e) == Lookup(refs, e).value
    {
      var u0, fs := controlRef, settings.forceSize;
      res := ComputeControlFromForces(refs);
      if res.Pass? {
        var u := controlRef;
        forall e | e in feet
          ensures Lookup(refs, e).Some? && FootForce(u, feet, fs, e) == Lookup(refs, e).value
        {
          PackedFootForce(u0, feet, refs, fs, e);
        }
        assert StageFits(stages[t].(controlRef := u), feet, nu);
        stages := stages[t := stages[t].(controlRef := u)];
      }
    }

    /** setReferenceForce: overwrites foot e's slice of the SHARED control and
        makes that whole vector stage t's reference control, so the other feet
        of stage t take their slices from the shared control. */
    method SetReferenceForce(t: nat, e: string, f: Vector)
      requires Valid() && t < |stages| && e in feet && |f| == settings.forceSize
      modifies this`controlRef, this`stages
      ensures Valid() && |stages| == |old(stages)|
      ensures controlRef == WithFootForce(old(controlRef), feet, settings.forceSize, e, f)
      ensures stages == old(stages)[t := old(stages)[t].(controlRef := controlRef)]
      ensures GetReferenceForce(t, e) == f
      ensures forall other :: other in feet && other != e ==>
        GetReferenceForce(t, other) == FootForce(old(controlRef), feet, settings.forceSize, other)
    {
      var fs := settings.forceSize;
      var u := WithFootForce(controlRef, feet, fs, e, f);
      forall other | other in feet
        ensures FootForce(u, feet, fs, other) == if other == e then f else FootForce(controlRef, feet, fs, other)
      {
        FootForceAfterWrite(controlRef, feet, fs, e, f, other);
      }
      assert StageFits(stages[t].(controlRef := u), feet, nu);
      controlRef := u;
      stages := stages[t := stages[t].(controlRef := u)];
    }

    /** getReferenceForce: foot e's slice of stage t's reference control. */
    function GetReferenceForce(t: nat, e: string): (r: Vector)
      requires Valid() && t < |stages| && e in feet
      reads this
      ensures |r| == settings.forceSize
      ensures var lo := IndexOf(feet, e) * settings.forceSize;
        lo + settings.forceSize <= |stages[t].controlRef| && r == stages[t].controlRef[lo .. lo + settings.forceSize]
    {
      FootForce(stages[t].controlRef, feet, settings.forceSize, e)
    }

    /** getContactSupport: the number of feet whose flag in stage t's dynamics
        contact map is set. */
    method GetContactSupport(t: nat) returns (n: nat)
      requires Valid() && t < |stages|
      ensures n == CountActive(feet, stages[t].dynamicsContacts, |feet|)
      ensures n <= |feet|
    {
      var cm := stages[t].dynamicsContacts;
      n := 0;
      var i := 0;
      while i < |feet|
        invariant 0 <= i <= |feet|
        invariant n == CountActive(feet, cm, i)
      {
        if ContactState(cm, feet[i]) {
          n := n + 1;
        }
        i := i + 1;
      }
    }

    /** createTerminalConstraint: throws before the problem exists; the add call
        is disabled, so it only records that there is no terminal constraint. */
    method CreateTerminalConstraint() returns (res: Outcome<Error>)
      requires Valid()
      modifies this`terminalConstraint
      ensures Valid()
      ensures res.Pass? <==> problemInitialized
      ensures res.Fail? ==> res.error == ProblemNotCreated
      ensures !terminalConstraint
    {
      if !problemInitialized {
        return Fail(ProblemNotCreated);
      }
      terminalConstraint := false;
      res := Pass;
    }

    /** updateTerminalConstraint: there never is a terminal constraint
        (Valid keeps the flag false), so this has no effect. */
    method UpdateTerminalConstraint(comRef: Vec3) returns (updated: bool)
      requires Valid()
      ensures !updated
    {
      updated := terminalConstraint;
    }
  }
}
