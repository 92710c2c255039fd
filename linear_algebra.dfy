/** Dense vectors and matrices over exact reals, with the block operations the
    Eigen code uses (segments, row/column blocks, transposes, products).
    Rows are sequences, so a matrix is a sequence of rows. */
module LinearAlgebra {

  type Vector = seq<real>
  type Matrix = seq<seq<real>>

  /** `m` has `rows` rows, each of length `cols`. */
  predicate IsMatrix(m: Matrix, rows: nat, cols: nat) {
    |m| == rows && forall r :: 0 <= r < rows ==> |m[r]| == cols
  }

  function Repeat(x: real, n: nat): (v: Vector)
    ensures |v| == n && forall k :: 0 <= k < n ==> v[k] == x
  {
    seq(n, _ => x)
  }

  function Zeros(n: nat): (v: Vector)
    ensures |v| == n && forall k :: 0 <= k < n ==> v[k] == 0.0
  {
    Repeat(0.0, n)
  }

  function ZeroMatrix(rows: nat, cols: nat): (m: Matrix)
    ensures IsMatrix(m, rows, cols)
    ensures forall r :: 0 <= r < rows ==> m[r] == Zeros(cols)
  {
    seq(rows, _ => Zeros(cols))
  }

  /** A square matrix with `d` on its diagonal and zero elsewhere. */
  function Diagonal(d: Vector): (m: Matrix)
    ensures IsMatrix(m, |d|, |d|)
    ensures forall r, c :: 0 <= r < |d| && 0 <= c < |d| ==> m[r][c] == if r == c then d[r] else 0.0
  {
    seq(|d|, r requires 0 <= r < |d| => seq(|d|, c requires 0 <= c < |d| => if r == c then d[r] else 0.0))
  }

  function Add(p: Vector, q: Vector): (s: Vector)
    requires |p| == |q|
    ensures |s| == |p| && forall k :: 0 <= k < |p| ==> s[k] == p[k] + q[k]
  {
    seq(|p|, k requires 0 <= k < |p| => p[k] + q[k])
  }

  function Sub(p: Vector, q: Vector): (s: Vector)
    requires |p| == |q|
    ensures |s| == |p| && forall k :: 0 <= k < |p| ==> s[k] == p[k] - q[k]
  {
    seq(|p|, k requires 0 <= k < |p| => p[k] - q[k])
  }

  function Scale(c: real, p: Vector): (s: Vector)
    ensures |s| == |p| && forall k :: 0 <= k < |p| ==> s[k] == c * p[k]
  {
    seq(|p|, k requires 0 <= k < |p| => c * p[k])
  }

  function Neg(p: Vector): (s: Vector)
    ensures |s| == |p| && forall k :: 0 <= k < |p| ==> s[k] == -p[k]
  {
    seq(|p|, k requires 0 <= k < |p| => -p[k])
  }

  /** Eigen's cwiseProduct. */
  function Hadamard(p: Vector, q: Vector): (s: Vector)
    requires |p| == |q|
    ensures |s| == |p| && forall k :: 0 <= k < |p| ==> s[k] == p[k] * q[k]
  {
    seq(|p|, k requires 0 <= k < |p| => p[k] * q[k])
  }

  function Dot(p: Vector, q: Vector): real
    requires |p| == |q|
  {
    if |p| == 0 then 0.0 else p[0] * q[0] + Dot(p[1..], q[1..])
  }

  /** Column `c` of a matrix whose rows all have more than `c` entries. */
  function Column(m: Matrix, c: nat): (col: Vector)
    requires forall r :: 0 <= r < |m| ==> c < |m[r]|
    ensures |col| == |m| && forall r :: 0 <= r < |m| ==> col[r] == m[r][c]
  {
    seq(|m|, r requires 0 <= r < |m| => m[r][c])
  }

  function Transpose(m: Matrix, cols: nat): (t: Matrix)
    requires IsMatrix(m, |m|, cols)
    ensures IsMatrix(t, cols, |m|)
    ensures forall c :: 0 <= c < cols ==> t[c] == Column(m, c)
  {
    seq(cols, c requires 0 <= c < cols => Column(m, c))
  }

  function NegMatrix(m: Matrix): (n: Matrix)
    ensures |n| == |m| && forall r :: 0 <= r < |m| ==> n[r] == Neg(m[r])
  {
    seq(|m|, r requires 0 <= r < |m| => Neg(m[r]))
  }

  /** Matrix times vector: entry r is the dot product of row r with `x`. */
  function MatVec(m: Matrix, x: Vector): (y: Vector)
    requires IsMatrix(m, |m|, |x|)
    ensures |y| == |m| && forall r :: 0 <= r < |m| ==> y[r] == Dot(m[r], x)
  {
    seq(|m|, r requires 0 <= r < |m| => Dot(m[r], x))
  }

  /** m^T * x for an |x| x cols matrix m. */
  function TransposeTimes(m: Matrix, cols: nat, x: Vector): (y: Vector)
    requires IsMatrix(m, |x|, cols)
    ensures |y| == cols && forall c :: 0 <= c < cols ==> y[c] == Dot(Column(m, c), x)
  {
    MatVec(Transpose(m, cols), x)
  }

  /** m^T * m for a matrix with `cols` columns. */
  function Gram(m: Matrix, cols: nat): (g: Matrix)
    requires IsMatrix(m, |m|, cols)
    ensures IsMatrix(g, cols, cols)
    ensures forall r, c :: 0 <= r < cols && 0 <= c < cols ==> g[r][c] == Dot(Column(m, r), Column(m, c))
  {
    seq(cols, r requires 0 <= r < cols =>
      seq(cols, c requires 0 <= c < cols => Dot(Column(m, r), Column(m, c))))
  }

  function AddMatrix(p: Matrix, q: Matrix, rows: nat, cols: nat): (s: Matrix)
    requires IsMatrix(p, rows, cols) && IsMatrix(q, rows, cols)
    ensures IsMatrix(s, rows, cols)
    ensures forall r :: 0 <= r < rows ==> s[r] == Add(p[r], q[r])
  {
    seq(rows, r requires 0 <= r < rows => Add(p[r], q[r]))
  }

  function ScaleMatrix(c: real, m: Matrix): (s: Matrix)
    ensures |s| == |m| && forall r :: 0 <= r < |m| ==> s[r] == Scale(c, m[r])
  {
    seq(|m|, r requires 0 <= r < |m| => Scale(c, m[r]))
  }

  /** `c` times the n x n identity. */
  function ScaledIdentity(c: real, n: nat): (m: Matrix)
    ensures IsMatrix(m, n, n)
  {
    Diagonal(Repeat(c, n))
  }

  predicate Symmetric(m: Matrix, n: nat)
    requires IsMatrix(m, n, n)
  {
    forall r, c :: 0 <= r < n && 0 <= c < n ==> m[r][c] == m[c][r]
  }

  /** Overwrite the entries of `s` from `off` on with `t` (Eigen's
      `s.segment(off, |t|) = t`). */
  function Splice<T>(s: seq<T>, off: nat, t: seq<T>): (r: seq<T>)
    requires off + |t| <= |s|
    ensures |r| == |s|
    ensures forall k :: 0 <= k < |s| ==> r[k] == if off <= k < off + |t| then t[k - off] else s[k]
  {
    s[..off] + t + s[off + |t|..]
  }

  /** Splicing right after a prefix replaces the front of what follows it. */
  lemma SpliceAfterPrefix<T>(c: seq<T>, rest: seq<T>, t: seq<T>)
    requires |t| <= |rest|
    ensures Splice(c + rest, |c|, t) == c + t + rest[|t|..]
  {
    assert (c + rest)[..|c|] == c;
    assert (c + rest)[|c| + |t|..] == rest[|t|..];
  }

  /** Slice i, of width w, of a sequence cut into consecutive slices
      (Eigen's `segment(i * w, w)` and `middleRows(i * w, w)`). */
  function Segment<T>(u: seq<T>, i: nat, w: nat): (r: seq<T>)
    ensures i * w + w <= |u| ==> r == u[i * w .. i * w + w] && |r| == w
  {
    if i * w + w <= |u| then u[i * w .. i * w + w] else []
  }

  /** Slice i of n slices of width w ends within n * w. */
  lemma Slot(i: nat, n: nat, w: nat)
    requires i < n
    ensures i * w + w <= n * w
  {
    assert (i + 1) * w <= n * w;
  }

  lemma SlotNext(k: nat, w: nat)
    requires k > 0
    ensures (k - 1) * w + w == k * w
  {
  }

  /** Writing slice i sets that slice and leaves every other slice alone. */
  lemma SpliceSegment<T>(u: seq<T>, i: nat, w: nat, f: seq<T>, j: nat)
    requires |f| == w && i * w + w <= |u| && j * w + w <= |u|
    ensures Segment(Splice(u, i * w, f), j, w) == if j == i then f else Segment(u, j, w)
  {
    var s, lo := Splice(u, i * w, f), j * w;
    if j < i {
      Slot(j, i, w);
    } else if j > i {
      Slot(i, j, w);
    }
    var now, before := s[lo .. lo + w], u[lo .. lo + w];
    assert Segment(s, j, w) == now && Segment(u, j, w) == before;
    if j == i {
      forall k | 0 <= k < w
        ensures now[k] == f[k]
      {
        assert now[k] == s[lo + k];
      }
    } else {
      forall k | 0 <= k < w
        ensures now[k] == before[k]
      {
        assert now[k] == s[lo + k];
      }
    }
  }

  /** `u` is cut into |blocks| consecutive slices of width w, slice j being blocks[j]. */
  predicate SlotsAre<T(==)>(u: seq<T>, w: nat, blocks: seq<seq<T>>)
  {
    |u| == |blocks| * w && forall j :: 0 <= j < |blocks| ==> Segment(u, j, w) == blocks[j]
  }

  /** Writing slice i with a block of width w replaces that one block. */
  lemma SlotsWrite<T>(u: seq<T>, w: nat, blocks: seq<seq<T>>, i: nat, f: seq<T>)
    requires SlotsAre(u, w, blocks) && i < |blocks| && |f| == w
    ensures i * w + w <= |u|
    ensures SlotsAre(Splice(u, i * w, f), w, blocks[i := f])
  {
    Slot(i, |blocks|, w);
    forall j | 0 <= j < |blocks|
      ensures Segment(Splice(u, i * w, f), j, w) == blocks[i := f][j]
    {
      Slot(j, |blocks|, w);
      SpliceSegment(u, i, w, f, j);
    }
  }

  /** The zero vector of n * w entries is n zero slices. */
  lemma ZerosSlots(n: nat, w: nat)
    ensures SlotsAre(Zeros(n * w), w, seq(n, j => Zeros(w)))
  {
    var u := Zeros(n * w);
    forall j | 0 <= j < n
      ensures Segment(u, j, w) == Zeros(w)
    {
      Slot(j, n, w);
      var lo := j * w;
      var s := u[lo .. lo + w];
      forall k | 0 <= k < w
        ensures s[k] == 0.0
      {
        assert s[k] == u[lo + k];
      }
      assert s == Zeros(w);
    }
  }

  /** The zero matrix of n * w rows is n zero row slices. */
  lemma ZeroMatrixSlots(n: nat, w: nat, cols: nat)
    ensures SlotsAre(ZeroMatrix(n * w, cols), w, seq(n, j => ZeroMatrix(w, cols)))
  {
    var m := ZeroMatrix(n * w, cols);
    forall j | 0 <= j < n
      ensures Segment(m, j, w) == ZeroMatrix(w, cols)
    {
      Slot(j, n, w);
      var lo := j * w;
      var s := m[lo .. lo + w];
      forall k | 0 <= k < w
        ensures s[k] == Zeros(cols)
      {
        assert s[k] == m[lo + k];
      }
      assert s == ZeroMatrix(w, cols);
    }
  }

  /** The blocks laid end to end (Eigen's vertical stacking). */
  function Concat<T>(blocks: seq<seq<T>>): (u: seq<T>)
  {
    if |blocks| == 0 then [] else Concat(blocks[..|blocks| - 1]) + blocks[|blocks| - 1]
  }

  /** A sequence cut into slices is the slices laid end to end. */
  lemma {:induction false} SlotsConcat<T>(u: seq<T>, w: nat, blocks: seq<seq<T>>)
    requires SlotsAre(u, w, blocks)
    ensures u == Concat(blocks)
  {
    var k := |blocks|;
    if k > 0 {
      SlotNext(k, w);
      var cut := (k - 1) * w;
      var p, init := u[..cut], blocks[..k - 1];
      forall j | 0 <= j < k - 1
        ensures Segment(p, j, w) == init[j]
      {
        Slot(j, k - 1, w);
        assert Segment(u, j, w) == blocks[j];
      }
      SlotsConcat(p, w, init);
      assert u[cut..] == Segment(u, k - 1, w) == blocks[k - 1];
      assert u == p + u[cut..];
    }
  }

  /** Laying out blocks of width w gives them back as its slices. */
  lemma {:induction false} ConcatSlots<T>(w: nat, blocks: seq<seq<T>>)
    requires forall j :: 0 <= j < |blocks| ==> |blocks[j]| == w
    ensures SlotsAre(Concat(blocks), w, blocks)
  {
    var k := |blocks|;
    if k > 0 {
      var init := blocks[..k - 1];
      ConcatSlots(w, init);
      SlotNext(k, w);
      var u := Concat(blocks);
      assert u == Concat(init) + blocks[k - 1];
      forall j | 0 <= j < k
        ensures Segment(u, j, w) == blocks[j]
      {
        Slot(j, k, w);
        if j < k - 1 {
          Slot(j, k - 1, w);
          assert Segment(Concat(init), j, w) == init[j];
        }
      }
    }
  }

  /** Slicing commutes with negation. */
  lemma NegSegment(p: Vector, i: nat, w: nat)
    requires i * w + w <= |p|
    ensures Segment(Neg(p), i, w) == Neg(Segment(p, i, w))
  {
  }

  /** A matrix times the zero vector is zero. */
  lemma MatVecZeros(m: Matrix, n: nat)
    requires IsMatrix(m, |m|, n)
    ensures MatVec(m, Zeros(n)) == Zeros(|m|)
  {
    forall r | 0 <= r < |m|
      ensures Dot(m[r], Zeros(n)) == 0.0
    {
      DotCommutes(m[r], Zeros(n));
      DotZerosLeft(n, m[r]);
    }
  }

  /** (P; Q)^T (f1; f2) = P^T f1 + Q^T f2 for stacked matrices. */
  lemma TransposeTimesConcat(p: Matrix, q: Matrix, cols: nat, f1: Vector, f2: Vector)
    requires IsMatrix(p, |f1|, cols) && IsMatrix(q, |f2|, cols)
    ensures IsMatrix(p + q, |f1 + f2|, cols)
    ensures TransposeTimes(p + q, cols, f1 + f2) == Add(TransposeTimes(p, cols, f1), TransposeTimes(q, cols, f2))
  {
    assert IsMatrix(p + q, |f1 + f2|, cols) by {
      forall r | 0 <= r < |p + q|
        ensures |(p + q)[r]| == cols
      {
        if r >= |p| {
          assert (p + q)[r] == q[r - |p|];
        }
      }
    }
    forall c | 0 <= c < cols
      ensures Dot(Column(p + q, c), f1 + f2) == Dot(Column(p, c), f1) + Dot(Column(q, c), f2)
    {
      assert Column(p + q, c) == Column(p, c) + Column(q, c);
      DotConcat(Column(p, c), Column(q, c), f1, f2);
    }
  }

  /** The zero vector is neutral for the entrywise sum and difference. */
  lemma AddZeros(p: Vector)
    ensures Add(Zeros(|p|), p) == p && Add(p, Zeros(|p|)) == p && Sub(p, Zeros(|p|)) == p
  {
  }

  lemma AddAssociates(p: Vector, q: Vector, t: Vector)
    requires |p| == |q| == |t|
    ensures Add(Add(p, q), t) == Add(p, Add(q, t))
  {
  }

  /** The zero matrix, and the empty one, map everything to zero. */
  lemma TransposeTimesZero(rows: nat, cols: nat, f: Vector)
    requires |f| == rows
    ensures TransposeTimes(ZeroMatrix(rows, cols), cols, f) == Zeros(cols)
    ensures TransposeTimes([], cols, []) == Zeros(cols)
  {
    forall c | 0 <= c < cols
      ensures Dot(Column(ZeroMatrix(rows, cols), c), f) == 0.0
    {
      assert Column(ZeroMatrix(rows, cols), c) == Zeros(rows);
      DotZerosLeft(rows, f);
    }
  }

  /** Blocks of w rows and `cols` columns stack to a |blocks| w x cols matrix. */
  lemma {:induction false} ConcatRows(blocks: seq<Matrix>, w: nat, cols: nat)
    requires forall j :: 0 <= j < |blocks| ==> IsMatrix(blocks[j], w, cols)
    ensures IsMatrix(Concat(blocks), |blocks| * w, cols)
  {
    var k := |blocks|;
    if k > 0 {
      var init := blocks[..k - 1];
      ConcatRows(init, w, cols);
      SlotNext(k, w);
      var u := Concat(blocks);
      assert u == Concat(init) + blocks[k - 1];
      forall r | 0 <= r < |u|
        ensures |u[r]| == cols
      {
        if r >= |Concat(init)| {
          assert u[r] == blocks[k - 1][r - |Concat(init)|];
        }
      }
    }
  }

  /** Slicing commutes with the entrywise sum. */
  lemma AddSegment(p: Vector, q: Vector, i: nat, w: nat)
    requires |p| == |q| && i * w + w <= |p|
    ensures Segment(Add(p, q), i, w) == Add(Segment(p, i, w), Segment(q, i, w))
  {
  }

  /** Rows i w .. i w + w of m x are that row slice of m times x. */
  lemma MatVecSegment(m: Matrix, x: Vector, i: nat, w: nat)
    requires IsMatrix(m, |m|, |x|) && i * w + w <= |m|
    ensures Segment(MatVec(m, x), i, w) == MatVec(Segment(m, i, w), x)
  {
  }

  /** A vector of n slices of width w is zero exactly when every slice is. */
  lemma ZeroBySlices(e: Vector, n: nat, w: nat)
    requires |e| == n * w
    ensures e == Zeros(n * w) <==> forall i :: 0 <= i < n ==> Segment(e, i, w) == Zeros(w)
  {
    if e == Zeros(n * w) {
      ZerosSlots(n, w);
      forall i | 0 <= i < n
        ensures Segment(e, i, w) == Zeros(w)
      {
        assert Segment(e, i, w) == seq(n, j => Zeros(w))[i];
      }
    }
    if forall i :: 0 <= i < n ==> Segment(e, i, w) == Zeros(w) {
      ZeroSlicesZero(e, n, w);
    }
  }

  lemma ZeroSlicesZero(e: Vector, n: nat, w: nat)
    requires |e| == n * w && forall i :: 0 <= i < n ==> Segment(e, i, w) == Zeros(w)
    ensures e == Zeros(n * w)
  {
    forall r | 0 <= r < |e|
      ensures e[r] == 0.0
    {
      var i, k := SliceOfEntry(e, n, w, r);
      assert Segment(e, i, w) == Zeros(w);
    }
  }

  /** Entry r lies at position k of slice i. */
  lemma SliceOfEntry(e: Vector, n: nat, w: nat, r: nat) returns (i: nat, k: nat)
    requires |e| == n * w && r < |e|
    ensures i < n && k < w && i * w + w <= |e| && Segment(e, i, w)[k] == e[r]
  {
    EntrySlot(n, w, r);
    i, k := r / w, r % w;
  }

  /** Arithmetic of SliceOfEntry: position r of n slices of width w. */
  lemma EntrySlot(n: nat, w: nat, r: nat)
    requires r < n * w
    ensures w > 0 && r / w < n && (r / w) * w + w <= n * w
    ensures (r / w) * w + r % w == r && r % w < w
  {
    PositiveFactor(w, n);
    var i, j := r / w, r % w;
    assert r == i * w + j && j < w;
    assert (n - i) * w == n * w - i * w;
    PositiveFactor(n - i, w);
    Slot(i, n, w);
  }

  lemma PositiveFactor(a: int, w: nat)
    requires a * w > 0
    ensures a > 0
  {
  }

  /** Replacing rows of a matrix by rows of the same width keeps its shape. */
  lemma SpliceRowsShape(m: Matrix, off: nat, rows: Matrix, height: nat, cols: nat)
    requires IsMatrix(m, height, cols) && IsMatrix(rows, |rows|, cols) && off + |rows| <= height
    ensures IsMatrix(Splice(m, off, rows), height, cols)
  {
    var s := Splice(m, off, rows);
    forall r | 0 <= r < height
      ensures |s[r]| == cols
    {
      if off <= r < off + |rows| {
        assert s[r] == rows[r - off];
      } else {
        assert s[r] == m[r];
      }
    }
  }

  /** Eigen's `m.block(r0, c0, |b|, cols) = b`: rows r0 .. r0+|b| get `b`'s rows
      spliced in from column c0 on; every other entry keeps its value. */
  function WriteBlock(m: Matrix, r0: nat, c0: nat, b: Matrix, cols: nat): (w: Matrix)
    requires IsMatrix(b, |b|, cols)
    requires r0 + |b| <= |m|
    requires forall r :: r0 <= r < r0 + |b| ==> c0 + cols <= |m[r]|
    ensures |w| == |m|
    ensures forall r :: 0 <= r < |m| ==> |w[r]| == |m[r]|
    ensures forall r :: 0 <= r < |m| && !(r0 <= r < r0 + |b|) ==> w[r] == m[r]
    ensures forall r :: r0 <= r < r0 + |b| ==> w[r] == Splice(m[r], c0, b[r - r0])
  {
    seq(|m|, r requires 0 <= r < |m| => BlockRow(m, r0, c0, b, cols, r))
  }

  /** Row r of WriteBlock(m, r0, c0, b, cols). */
  function BlockRow(m: Matrix, r0: nat, c0: nat, b: Matrix, cols: nat, r: nat): (row: Vector)
    requires IsMatrix(b, |b|, cols) && r < |m|
    requires r0 <= r < r0 + |b| ==> c0 + cols <= |m[r]|
    ensures |row| == |m[r]|
  {
    if r0 <= r < r0 + |b| then Splice(m[r], c0, b[r - r0]) else m[r]
  }

  // ---------------------------------------------------------------------------
  // Algebra of Dot, used to read the meaning of assembled constraint rows.

  lemma {:induction false} DotConcat(p1: Vector, p2: Vector, q1: Vector, q2: Vector)
    requires |p1| == |q1| && |p2| == |q2|
    ensures Dot(p1 + p2, q1 + q2) == Dot(p1, q1) + Dot(p2, q2)
  {
    if |p1| > 0 {
      assert (p1 + p2)[1..] == p1[1..] + p2;
      assert (q1 + q2)[1..] == q1[1..] + q2;
      DotConcat(p1[1..], p2, q1[1..], q2);
    } else {
      assert p1 + p2 == p2;
      assert q1 + q2 == q2;
    }
  }

  lemma {:induction false} DotAddRight(p: Vector, q1: Vector, q2: Vector)
    requires |p| == |q1| == |q2|
    ensures Dot(p, Add(q1, q2)) == Dot(p, q1) + Dot(p, q2)
  {
    if |p| > 0 {
      assert Add(q1, q2)[1..] == Add(q1[1..], q2[1..]);
      DotAddRight(p[1..], q1[1..], q2[1..]);
    }
  }

  lemma {:induction false} DotNegLeft(p: Vector, q: Vector)
    requires |p| == |q|
    ensures Dot(Neg(p), q) == -Dot(p, q)
  {
    if |p| > 0 {
      assert Neg(p)[1..] == Neg(p[1..]);
      DotNegLeft(p[1..], q[1..]);
    }
  }

  lemma {:induction false} DotZerosLeft(n: nat, q: Vector)
    requires |q| == n
    ensures Dot(Zeros(n), q) == 0.0
  {
    if n > 0 {
      assert Zeros(n)[1..] == Zeros(n - 1);
      DotZerosLeft(n - 1, q[1..]);
    }
  }

  lemma {:induction false} DotCommutes(p: Vector, q: Vector)
    requires |p| == |q|
    ensures Dot(p, q) == Dot(q, p)
  {
    if |p| > 0 {
      DotCommutes(p[1..], q[1..]);
    }
  }

  /** A row whose only non-zero entry is `v` at column k (if k is a column)
      picks v * x[k]. */
  lemma {:induction false} SingleEntryRowDot(row: Vector, x: Vector, k: int, v: real)
    requires |row| == |x|
    requires forall c :: 0 <= c < |row| ==> row[c] == if c == k then v else 0.0
    ensures Dot(row, x) == if 0 <= k < |x| then v * x[k] else 0.0
  {
    if |row| > 0 {
      SingleEntryRowDot(row[1..], x[1..], k - 1, v);
    }
  }

  /** A diagonal matrix scales each entry: Diagonal(d) x is d .* x. */
  lemma DiagonalTimes(d: Vector, x: Vector)
    requires |d| == |x|
    ensures MatVec(Diagonal(d), x) == Hadamard(d, x)
  {
    var m := Diagonal(d);
    forall r | 0 <= r < |d|
      ensures Dot(m[r], x) == d[r] * x[r]
    {
      SingleEntryRowDot(m[r], x, r, d[r]);
    }
  }

  lemma ScaleTail(c: real, p: Vector)
    requires |p| > 0
    ensures Scale(c, p)[1..] == Scale(c, p[1..])
  {
    var s := Scale(c, p);
    forall k | 0 <= k < |p| - 1
      ensures s[1..][k] == Scale(c, p[1..])[k]
    {
      assert s[1..][k] == s[k + 1];
    }
  }

  lemma {:induction false} DotScaleRight(p: Vector, c: real)
    ensures Dot(p, Scale(c, p)) == c * Dot(p, p)
  {
    if |p| > 0 {
      ScaleTail(c, p);
      DotScaleRight(p[1..], c);
      ScaleStep(p[0], c, Scale(c, p)[0], Dot(p[1..], p[1..]), Dot(p[1..], Scale(c, p)[1..]), Dot(p, p));
    }
  }

  lemma ScaleStep(a: real, c: real, h: real, rest: real, tail: real, d: real)
    requires h == c * a && tail == c * rest && d == a * a + rest
    ensures a * h + tail == c * d
  {
  }

  /** A Gram matrix m^T m is symmetric. */
  lemma GramSymmetric(m: Matrix, cols: nat)
    requires IsMatrix(m, |m|, cols)
    ensures Symmetric(Gram(m, cols), cols)
  {
    var g := Gram(m, cols);
    forall r, c | 0 <= r < cols && 0 <= c < cols
      ensures g[r][c] == g[c][r]
    {
      DotCommutes(Column(m, r), Column(m, c));
    }
  }

  lemma AddSymmetric(p: Matrix, q: Matrix, n: nat)
    requires IsMatrix(p, n, n) && IsMatrix(q, n, n)
    requires Symmetric(p, n) && Symmetric(q, n)
    ensures Symmetric(AddMatrix(p, q, n, n), n)
  {
  }

  lemma ScaleSymmetric(c: real, m: Matrix, n: nat)
    requires IsMatrix(m, n, n) && Symmetric(m, n)
    ensures IsMatrix(ScaleMatrix(c, m), n, n) && Symmetric(ScaleMatrix(c, m), n)
  {
  }

  lemma ScaledIdentitySymmetric(c: real, n: nat)
    ensures Symmetric(ScaledIdentity(c, n), n)
  {
  }
}
