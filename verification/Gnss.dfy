/** The 4x4 linear solver of the WLS position fix, over exact reals. */
module Gnss {

  /** Pivots below this magnitude count as zero. */
  const EPSILON: real := 0.000000000001

  function Abs(x: real): real {
    if x < 0.0 then -x else x
  }

  type Row = r: seq<real> | |r| == 5 witness [0.0, 0.0, 0.0, 0.0, 0.0]
  type Vec4 = v: seq<real> | |v| == 4 witness [0.0, 0.0, 0.0, 0.0]

  const ZERO_ROW: Row := [0.0, 0.0, 0.0, 0.0, 0.0]

  /** An augmented system: four equations, the right-hand side in column 4 */
  type System = s: seq<Row> | |s| == 4
    witness [ZERO_ROW, ZERO_ROW, ZERO_ROW, ZERO_ROW]

  function Residual(r: Row, y: Vec4): real {
    r[0] * y[0] + r[1] * y[1] + r[2] * y[2] + r[3] * y[3] - r[4]
  }

  ghost predicate Solves(s: System, y: Vec4) {
    forall r | 0 <= r < 4 :: Residual(s[r], y) == 0.0
  }

  ghost predicate Equivalent(s: System, t: System) {
    forall y: Vec4 :: Solves(s, y) <==> Solves(t, y)
  }

  /** The system a*x = b */
  function Augment(a: seq<Vec4>, b: Vec4): System
    requires |a| == 4
  {
    seq(4, r requires 0 <= r < 4 => a[r] + [b[r]])
  }

  function SubRow(u: Row, f: real, v: Row): Row {
    seq(5, c requires 0 <= c < 5 => u[c] - f * v[c])
  }

  lemma Distribute(f: real, a: real, b: real, y: real)
    ensures (a - f * b) * y == a * y - f * (b * y)
  {
  }

  lemma ResidualSubRow(u: Row, f: real, v: Row, y: Vec4)
    ensures Residual(SubRow(u, f, v), y) == Residual(u, y) - f * Residual(v, y)
  {
    Distribute(f, u[0], v[0], y[0]);
    Distribute(f, u[1], v[1], y[1]);
    Distribute(f, u[2], v[2], y[2]);
    Distribute(f, u[3], v[3], y[3]);
    var p0, p1, p2, p3 := v[0] * y[0], v[1] * y[1], v[2] * y[2], v[3] * y[3];
    assert f * (p0 + p1 + p2 + p3 - v[4]) == f * p0 + f * p1 + f * p2 + f * p3 - f * v[4];
  }

  /** Subtracting a multiple of another equation keeps the solution set. */
  lemma EliminationEquivalent(s: System, r: nat, col: nat, f: real)
    requires r < 4 && col < 4 && r != col
    ensures Equivalent(s, s[r := SubRow(s[r], f, s[col])])
  {
    var t: System := s[r := SubRow(s[r], f, s[col])];
    forall y: Vec4 ensures Solves(s, y) <==> Solves(t, y) {
      hide Residual, SubRow;
      ResidualSubRow(s[r], f, s[col], y);
      assert forall i | 0 <= i < 4 && i != r :: t[i] == s[i];
      if Solves(s, y) {
        assert Residual(s[r], y) == 0.0 && Residual(s[col], y) == 0.0;
      }
      if Solves(t, y) {
        assert Residual(t[r], y) == 0.0 && Residual(t[col], y) == 0.0;
      }
    }
  }

  lemma SwapEquivalent(s: System, i: nat, j: nat)
    requires i < 4 && j < 4
    ensures Equivalent(s, s[i := s[j]][j := s[i]])
  {
    var t: System := s[i := s[j]][j := s[i]];
    forall y: Vec4 ensures Solves(s, y) <==> Solves(t, y) {
      hide Residual;
      assert t[i] == s[j] && t[j] == s[i] && forall k | 0 <= k < 4 && k != i && k != j :: t[k] == s[k];
      if Solves(s, y) {
        assert Residual(s[i], y) == 0.0 && Residual(s[j], y) == 0.0;
      }
      if Solves(t, y) {
        assert Residual(t[i], y) == 0.0 && Residual(t[j], y) == 0.0;
      }
    }
  }

  /** Columns before col hold a diagonal with pivots of at least EPSILON. */
  ghost predicate Reduced(s: System, col: nat)
    requires col <= 4
  {
    && (forall r, c | 0 <= r < 4 && 0 <= c < col && r != c :: s[r][c] == 0.0)
    && (forall c | 0 <= c < col :: Abs(s[c][c]) >= EPSILON)
  }

  /** No usable pivot is left in column col. */
  ghost predicate Stuck(s: System, col: nat)
    requires col < 4
  {
    Reduced(s, col) && forall r | col <= r < 4 :: Abs(s[r][col]) < EPSILON
  }

  /** A diagonal system has exactly one solution. */
  lemma DiagonalUnique(s: System, x: Vec4)
    requires Reduced(s, 4)
    requires forall r | 0 <= r < 4 :: x[r] == s[r][4] / s[r][r]
    ensures forall y: Vec4 :: Solves(s, y) <==> y == x
  {
    forall y: Vec4 ensures Solves(s, y) <==> y == x {
      forall r | 0 <= r < 4 ensures Residual(s[r], y) == 0.0 <==> y[r] == x[r] {
        DiagonalRow(s, r, y, x[r]);
      }
      if Solves(s, y) {
        assert forall r | 0 <= r < 4 :: Residual(s[r], y) == 0.0;
        assert y == x;
      }
    }
  }

  lemma DiagonalRow(s: System, r: nat, y: Vec4, x: real)
    requires Reduced(s, 4) && r < 4 && x == s[r][4] / s[r][r]
    ensures Residual(s[r], y) == 0.0 <==> y[r] == x
  {
    assert Abs(s[r][r]) >= EPSILON;
    assert Residual(s[r], y) == s[r][r] * y[r] - s[r][4];
    Divide(s[r][r], s[r][4], y[r]);
  }

  lemma Divide(d: real, n: real, y: real)
    requires d != 0.0
    ensures d * y == n <==> y == n / d
  {
  }

  // ---- what failure means ---------------------------------------------------

  /** The left-hand side of an equation at v */
  function Dot(r: seq<real>, v: Vec4): real
    requires |r| >= 4
  {
    Term(r, v, 0) + Term(r, v, 1) + Term(r, v, 2) + Term(r, v, 3)
  }

  function Term(r: seq<real>, v: Vec4, c: nat): real
    requires |r| >= 4 && c < 4
  {
    r[c] * v[c]
  }

  ghost predicate Killed(s: System, col: nat, v: Vec4)
    requires col <= 4
  {
    forall c | 0 <= c < col :: Dot(s[c], v) == 0.0
  }

  type Index = i: nat | i < 4

  /** Every row of the matrix stands somewhere in perm. */
  ghost predicate Onto(perm: seq<Index>) {
    |perm| == 4 && forall i: Index :: Placed(perm, i)
  }

  ghost predicate Placed(perm: seq<Index>, i: Index)
    requires |perm| == 4
  {
    exists r | 0 <= r < 4 :: perm[r] == i
  }

  /** On the vectors that the pivot rows before col send to zero, row r of the
      reduced system still is row perm[r] of the matrix. */
  ghost predicate Tracks(a: seq<Vec4>, s: System, col: nat, perm: seq<Index>)
    requires |a| == 4 && col <= 4
  {
    && Onto(perm)
    && forall v: Vec4 | Killed(s, col, v) :: Matches(a, s, perm, v)
  }

  ghost predicate Matches(a: seq<Vec4>, s: System, perm: seq<Index>, v: Vec4)
    requires |a| == 4 && |perm| == 4
  {
    forall r | 0 <= r < 4 :: Dot(s[r], v) == Dot(a[perm[r]], v)
  }

  lemma DotSubRow(u: Row, f: real, w: Row, v: Vec4)
    requires Dot(w, v) == 0.0
    ensures Dot(SubRow(u, f, w), v) == Dot(u, v)
  {
    Distribute(f, u[0], w[0], v[0]);
    Distribute(f, u[1], w[1], v[1]);
    Distribute(f, u[2], w[2], v[2]);
    Distribute(f, u[3], w[3], v[3]);
    var p0, p1, p2, p3 := w[0] * v[0], w[1] * v[1], w[2] * v[2], w[3] * v[3];
    assert f * (p0 + p1 + p2 + p3) == f * p0 + f * p1 + f * p2 + f * p3;
  }

  lemma EliminationTracks(a: seq<Vec4>, s: System, r: nat, col: nat, f: real, perm: seq<Index>)
    requires |a| == 4 && r < 4 && col < 4 && r != col && Tracks(a, s, col + 1, perm)
    ensures Tracks(a, s[r := SubRow(s[r], f, s[col])], col + 1, perm)
  {
    hide Dot, SubRow;
    var t: System := s[r := SubRow(s[r], f, s[col])];
    forall v: Vec4 | Killed(t, col + 1, v) ensures Matches(a, t, perm, v) {
      assert t[col] == s[col] && Dot(s[col], v) == 0.0;
      DotSubRow(s[r], f, s[col], v);
      forall c | 0 <= c < 4 ensures Dot(s[c], v) == Dot(t[c], v) {
        if c != r { assert t[c] == s[c]; }
      }
      assert Killed(s, col + 1, v);
    }
  }

  lemma SwapTracks(a: seq<Vec4>, s: System, i: nat, j: nat, perm: seq<Index>)
    requires |a| == 4 && i <= j < 4 && Tracks(a, s, i, perm)
    ensures Tracks(a, s[i := s[j]][j := s[i]], i, perm[i := perm[j]][j := perm[i]])
  {
    hide Dot;
    var t: System := s[i := s[j]][j := s[i]];
    var p := perm[i := perm[j]][j := perm[i]];
    forall k: Index ensures Placed(p, k) {
      assert Placed(perm, k);
      var r :| 0 <= r < 4 && perm[r] == k;
      assert p[if r == i then j else if r == j then i else r] == k;
    }
    forall v: Vec4 | Killed(t, i, v) ensures Matches(a, t, p, v) {
      assert forall c | 0 <= c < i :: t[c] == s[c];
      assert Killed(s, i, v);
      assert t[i] == s[j] && t[j] == s[i] && forall r | 0 <= r < 4 && r != i && r != j :: t[r] == s[r];
    }
  }

  ghost predicate Kills(a: seq<Vec4>, v: Vec4)
    requires |a| == 4
  {
    forall i | 0 <= i < 4 :: Dot(a[i], v) == 0.0
  }

  /** A vector of size at least one that the whole matrix sends below EPSILON */
  ghost predicate AlmostKills(a: seq<Vec4>, v: Vec4)
    requires |a| == 4
  {
    && (exists c | 0 <= c < 4 :: v[c] == 1.0)
    && forall i | 0 <= i < 4 :: Abs(Dot(a[i], v)) < EPSILON
  }

  /** The vector that shows a stuck column: it solves the pivot rows with the
      stuck unknown set to one. */
  function StuckVector(s: System, col: nat): Vec4
    requires col < 4 && forall c | 0 <= c < col :: s[c][c] != 0.0
  {
    seq(4, c requires 0 <= c < 4 => if c < col then -s[c][col] / s[c][c] else if c == col then 1.0 else 0.0)
  }

  lemma SparseDot(u: seq<real>, v: Vec4, i: nat, j: nat)
    requires |u| >= 4 && i < 4 && j < 4
    requires forall c | 0 <= c < 4 && c != i && c != j :: u[c] == 0.0 || v[c] == 0.0
    ensures Dot(u, v) == Term(u, v, i) + if i == j then 0.0 else Term(u, v, j)
  {
    hide Term;
    var t := [Term(u, v, 0), Term(u, v, 1), Term(u, v, 2), Term(u, v, 3)];
    forall c | 0 <= c < 4 ensures t[c] == Term(u, v, c) && (c != i && c != j ==> t[c] == 0.0) {
      if c != i && c != j { ZeroTerm(u, v, c); }
    }
    TwoTerms(t, i, j);
  }

  lemma ZeroTerm(u: seq<real>, v: Vec4, c: nat)
    requires |u| >= 4 && c < 4 && (u[c] == 0.0 || v[c] == 0.0)
    ensures Term(u, v, c) == 0.0
  {
    ZeroProduct(u[c], v[c]);
  }

  lemma TwoTerms(t: seq<real>, i: nat, j: nat)
    requires |t| == 4 && i < 4 && j < 4 && forall c | 0 <= c < 4 && c != i && c != j :: t[c] == 0.0
    ensures t[0] + t[1] + t[2] + t[3] == t[i] + if i == j then 0.0 else t[j]
  {
  }

  lemma ZeroProduct(x: real, y: real)
    requires x == 0.0 || y == 0.0
    ensures x * y == 0.0
  {
  }

  lemma PivotRowDot(s: System, col: nat, r: nat)
    requires r < col < 4 && Reduced(s, col) && forall c | 0 <= c < col :: s[c][c] != 0.0
    ensures Dot(s[r], StuckVector(s, col)) == 0.0
  {
    hide Dot;
    var v := StuckVector(s, col);
    SparseDot(s[r], v, r, col);
    Divide(s[r][r], -s[r][col], v[r]);
  }

  lemma LowerRowDot(s: System, col: nat, r: nat)
    requires col <= r < 4 && Reduced(s, col) && forall c | 0 <= c < col :: s[c][c] != 0.0
    ensures Dot(s[r], StuckVector(s, col)) == s[r][col]
  {
    hide Dot;
    SparseDot(s[r], StuckVector(s, col), col, col);
  }

  lemma StuckIsAlmostSingular(a: seq<Vec4>, s: System, col: nat, perm: seq<Index>)
    requires |a| == 4 && col < 4 && Tracks(a, s, col, perm) && Stuck(s, col)
    ensures exists v: Vec4 :: AlmostKills(a, v)
  {
    hide Dot, StuckVector;
    assert forall c | 0 <= c < col :: s[c][c] != 0.0 by {
      forall c | 0 <= c < col ensures s[c][c] != 0.0 { assert Abs(s[c][c]) >= EPSILON; }
    }
    var v := StuckVector(s, col);
    assert v[col] == 1.0 by { StuckUnit(s, col); }
    forall r | 0 <= r < 4 ensures Abs(Dot(s[r], v)) < EPSILON && (r < col ==> Dot(s[r], v) == 0.0) {
      if r < col { PivotRowDot(s, col, r); } else { LowerRowDot(s, col, r); }
    }
    assert Killed(s, col, v) && Matches(a, s, perm, v);
    forall i | 0 <= i < 4 ensures Abs(Dot(a[i], v)) < EPSILON {
      assert Placed(perm, i);
      var r :| 0 <= r < 4 && perm[r] == i;
      assert Dot(s[r], v) == Dot(a[perm[r]], v);
    }
    assert AlmostKills(a, v);
  }

  lemma StuckUnit(s: System, col: nat)
    requires col < 4 && forall c | 0 <= c < col :: s[c][c] != 0.0
    ensures StuckVector(s, col)[col] == 1.0
  {
  }

  lemma AugmentTracks(a: seq<Vec4>, b: Vec4)
    requires |a| == 4
    ensures Tracks(a, Augment(a, b), 0, [0, 1, 2, 3])
  {
    forall v: Vec4, r | 0 <= r < 4 ensures Dot(Augment(a, b)[r], v) == Dot(a[r], v) {
    }
    var p: seq<Index> := [0, 1, 2, 3];
    forall i: Index ensures Placed(p, i) { assert p[i] == i; }
  }

  /** Fewer vectors are killed by more rows. */
  lemma TracksOnward(a: seq<Vec4>, s: System, col: nat, perm: seq<Index>)
    requires |a| == 4 && col < 4 && Tracks(a, s, col, perm)
    ensures Tracks(a, s, col + 1, perm)
  {
    hide Dot;
    forall v: Vec4 | Killed(s, col + 1, v) ensures Matches(a, s, perm, v) {
      assert Killed(s, col, v);
    }
  }

  // ---- the algorithm on a mutable matrix ----------------------------------

  ghost function RowOf(m: array2<real>, r: nat): Row
    reads m
    requires m.Length0 == 4 && m.Length1 == 5 && r < 4
  {
    seq(5, c requires 0 <= c < 5 reads m => m[r, c])
  }

  ghost function SystemOf(m: array2<real>): System
    reads m
    requires m.Length0 == 4 && m.Length1 == 5
  {
    seq(4, r requires 0 <= r < 4 reads m => RowOf(m, r))
  }

  method SwapRows(m: array2<real>, i: nat, j: nat)
    requires m.Length0 == 4 && m.Length1 == 5 && i < 4 && j < 4
    modifies m
    ensures SystemOf(m) == old(SystemOf(m))[i := old(SystemOf(m))[j]][j := old(SystemOf(m))[i]]
  {
    for c := 0 to 5
      invariant forall r, d | 0 <= r < 4 && 0 <= d < 5 ::
                  m[r, d] == if d >= c then old(m[r, d])
                             else if r == i then old(m[j, d])
                             else if r == j then old(m[i, d])
                             else old(m[r, d])
    {
      m[i, c], m[j, c] := m[j, c], m[i, c];
    }
    ghost var s := old(SystemOf(m));
    assert RowOf(m, i) == s[j] && RowOf(m, j) == s[i];
    assert forall r | 0 <= r < 4 && r != i && r != j :: RowOf(m, r) == s[r];
  }

  /** Only columns from col on are updated; the pivot row is zero before them. */
  method EliminateRow(m: array2<real>, r: nat, col: nat)
    requires m.Length0 == 4 && m.Length1 == 5 && r < 4 && col < 4 && r != col
    requires m[col, col] != 0.0
    requires forall c | 0 <= c < col :: m[col, c] == 0.0
    modifies m
    ensures SystemOf(m)
         == old(SystemOf(m))[r := SubRow(old(RowOf(m, r)), old(m[r, col] / m[col, col]), old(RowOf(m, col)))]
  {
    var factor := m[r, col] / m[col, col];
    for c := col to 5
      invariant forall i, d | 0 <= i < 4 && 0 <= d < 5 && i != r :: m[i, d] == old(m[i, d])
      invariant forall d | 0 <= d < 5 ::
                  m[r, d] == if col <= d < c then old(m[r, d]) - factor * old(m[col, d]) else old(m[r, d])
    {
      m[r, c] := m[r, c] - factor * m[col, c];
    }
    ghost var s, p := old(SystemOf(m)), old(RowOf(m, col));
    PartialSubRow(s[r], factor, p, col, RowOf(m, r));
    hide SubRow;
    assert forall i | 0 <= i < 4 && i != r :: RowOf(m, i) == s[i];
  }

  lemma PartialSubRow(u: Row, f: real, w: Row, col: nat, t: Row)
    requires col < 4
    requires forall d | 0 <= d < col :: w[d] == 0.0 && t[d] == u[d]
    requires forall d | col <= d < 5 :: t[d] == u[d] - f * w[d]
    ensures t == SubRow(u, f, w)
  {
    forall d | 0 <= d < 5 ensures t[d] == SubRow(u, f, w)[d] {
      if d < col { ZeroProduct(f, w[d]); }
    }
  }

  method FindPivot(m: array2<real>, col: nat) returns (pivot: nat, maxAbs: real)
    requires m.Length0 == 4 && m.Length1 == 5 && col < 4
    ensures col <= pivot < 4 && maxAbs == Abs(m[pivot, col])
    ensures forall r | col <= r < 4 :: Abs(m[r, col]) <= maxAbs
  {
    pivot, maxAbs := col, Abs(m[col, col]);
    for r := col + 1 to 4
      invariant col <= pivot < 4 && maxAbs == Abs(m[pivot, col])
      invariant forall i | col <= i < r :: Abs(m[i, col]) <= maxAbs
    {
      var v := Abs(m[r, col]);
      if v > maxAbs {
        maxAbs, pivot := v, r;
      }
    }
  }

  lemma SwapKeepsReduced(s: System, i: nat, j: nat)
    requires i <= j < 4 && Reduced(s, i)
    ensures Reduced(s[i := s[j]][j := s[i]], i)
  {
    var t: System := s[i := s[j]][j := s[i]];
    assert forall r | 0 <= r < i :: t[r] == s[r];
    assert forall r | i <= r < 4 :: exists q | i <= q < 4 :: t[r] == s[q];
  }

  /** Between rows: column col is cleared in the rows before r, except the pivot row. */
  ghost predicate Clearing(s: System, col: nat, r: nat)
    requires col < 4 && r <= 4
  {
    && Reduced(s, col) && Abs(s[col][col]) >= EPSILON
    && forall i | 0 <= i < r && i != col :: s[i][col] == 0.0
  }

  lemma ClearStep(s: System, col: nat, r: nat)
    requires col < 4 && r < 4 && r != col && Clearing(s, col, r)
    ensures Clearing(s[r := SubRow(s[r], s[r][col] / s[col][col], s[col])], col, r + 1)
  {
    var f := s[r][col] / s[col][col];
    var row := SubRow(s[r], f, s[col]);
    var t: System := s[r := row];
    Divide(s[col][col], s[r][col], f);
    forall c | 0 <= c < col ensures row[c] == s[r][c] {
      assert s[col][c] == 0.0;
    }
    assert row[col] == 0.0;
    hide SubRow;
    forall i, c | 0 <= i < 4 && 0 <= c < col ensures t[i][c] == s[i][c] {
    }
    assert forall i | 0 <= i < r && i != col :: t[i][col] == s[i][col];
    assert Reduced(t, col);
  }

  method ClearColumn(m: array2<real>, col: nat, ghost a: seq<Vec4>, ghost perm: seq<Index>)
    requires m.Length0 == 4 && m.Length1 == 5 && col < 4 && |a| == 4
    requires Clearing(SystemOf(m), col, 0) && Tracks(a, SystemOf(m), col + 1, perm)
    modifies m
    ensures Reduced(SystemOf(m), col + 1) && Tracks(a, SystemOf(m), col + 1, perm)
    ensures Equivalent(old(SystemOf(m)), SystemOf(m))
  {
    hide Tracks, Equivalent, Solves;
    assert Equivalent(SystemOf(m), SystemOf(m)) by { EquivalentSelf(SystemOf(m)); }
    for r := 0 to 4
      invariant Clearing(SystemOf(m), col, r) && Tracks(a, SystemOf(m), col + 1, perm)
      invariant Equivalent(old(SystemOf(m)), SystemOf(m))
    {
      if r != col {
        ghost var s := SystemOf(m);
        assert forall c | 0 <= c < col :: m[col, c] == s[col][c] == 0.0;
        assert m[col, col] == s[col][col] && m[r, col] == s[r][col];
        EliminateRow(m, r, col);
        ClearStep(s, col, r);
        EliminationEquivalent(s, r, col, s[r][col] / s[col][col]);
        EliminationTracks(a, s, r, col, s[r][col] / s[col][col], perm);
        EquivalentTrans(old(SystemOf(m)), s, SystemOf(m));
      }
    }
  }

  lemma EquivalentSelf(s: System)
    ensures Equivalent(s, s)
  {
  }

  lemma EquivalentTrans(s: System, t: System, u: System)
    requires Equivalent(s, t) && Equivalent(t, u)
    ensures Equivalent(s, u)
  {
  }

  /** When it reports success, x solves a*x = b and nothing else does, so a is
      regular.  When it reports failure, a is singular up to EPSILON: it sends some vector with an
      entry of one below EPSILON in every row. */
  method Solve4x4(a: seq<Vec4>, b: Vec4) returns (x: Vec4, ok: bool)
    requires |a| == 4
    ensures ok ==> forall y: Vec4 :: Solves(Augment(a, b), y) <==> y == x
    ensures ok ==> forall v: Vec4 | Kills(a, v) :: v == [0.0, 0.0, 0.0, 0.0]
    ensures !ok ==> exists v: Vec4 :: AlmostKills(a, v)
  {
    hide Tracks, AlmostKills, Kills;
    var m := NewMatrix(a, b);
    ghost var perm: seq<Index> := [0, 1, 2, 3];
    AugmentTracks(a, b);
    EquivalentSelf(Augment(a, b));
    x := [0.0, 0.0, 0.0, 0.0];
    for col := 0 to 4
      invariant Reduced(SystemOf(m), col) && Tracks(a, SystemOf(m), col, perm) && |perm| == 4
      invariant Equivalent(Augment(a, b), SystemOf(m))
    {
      hide Equivalent, Solves;
      var pivot, maxAbs := FindPivot(m, col);
      ghost var s := SystemOf(m);
      if maxAbs < EPSILON {
        assert Stuck(s, col);
        StuckIsAlmostSingular(a, s, col, perm);
        return x, false;
      }
      SwapRows(m, col, pivot);
      SwapKeepsReduced(s, col, pivot);
      SwapEquivalent(s, col, pivot);
      SwapTracks(a, s, col, pivot, perm);
      perm := perm[col := perm[pivot]][pivot := perm[col]];
      ghost var t := SystemOf(m);
      TracksOnward(a, t, col, perm);
      ClearColumn(m, col, a, perm);
      EquivalentTrans(Augment(a, b), s, t);
      EquivalentTrans(Augment(a, b), t, SystemOf(m));
    }

    ghost var s := SystemOf(m);
    for r := 0 to 4
      invariant forall i | 0 <= i < r :: x[i] == s[i][4] / s[i][i]
    {
      assert Abs(s[r][r]) >= EPSILON;
      if Abs(m[r, r]) < EPSILON {
        assert false;  // the second threshold test never fires over the reals
      }
      x := x[r := m[r, 4] / m[r, r]];
    }
    DiagonalUnique(s, x);
    forall v: Vec4 | Kills(a, v) ensures v == [0.0, 0.0, 0.0, 0.0] {
      UniqueIsRegular(a, b, x, v);
    }
    return x, true;
  }

  method NewMatrix(a: seq<Vec4>, b: Vec4) returns (m: array2<real>)
    requires |a| == 4
    ensures fresh(m) && m.Length0 == 4 && m.Length1 == 5 && SystemOf(m) == Augment(a, b)
  {
    m := new real[4, 5];
    for r := 0 to 4
      invariant forall i, c | 0 <= i < r && 0 <= c < 5 :: m[i, c] == if c < 4 then a[i][c] else b[i]
    {
      for c := 0 to 4
        invariant forall i, d | 0 <= i < r && 0 <= d < 5 :: m[i, d] == if d < 4 then a[i][d] else b[i]
        invariant forall d | 0 <= d < c :: m[r, d] == a[r][d]
      {
        m[r, c] := a[r][c];
      }
      m[r, 4] := b[r];
    }
    assert forall r | 0 <= r < 4 :: RowOf(m, r) == a[r] + [b[r]];
  }

  /** A singular matrix is never solved. */
  lemma UniqueIsRegular(a: seq<Vec4>, b: Vec4, x: Vec4, v: Vec4)
    requires |a| == 4 && Kills(a, v)
    requires forall y: Vec4 :: Solves(Augment(a, b), y) <==> y == x
    ensures v == [0.0, 0.0, 0.0, 0.0]
  {
    hide Residual, Dot;
    var s := Augment(a, b);
    var z: Vec4 := seq(4, c requires 0 <= c < 4 => x[c] + v[c]);
    assert Solves(s, x);
    forall i | 0 <= i < 4 ensures Residual(s[i], z) == 0.0 {
      assert Residual(s[i], x) == 0.0;
      ResidualShift(s[i], x, v, z);
      AugmentDot(a, b, i, v);
    }
    assert Solves(s, z);
    forall c | 0 <= c < 4 ensures v[c] == 0.0 {
      assert z[c] == x[c];
    }
  }

  lemma AugmentDot(a: seq<Vec4>, b: Vec4, i: nat, v: Vec4)
    requires |a| == 4 && i < 4
    ensures Dot(Augment(a, b)[i], v) == Dot(a[i], v)
  {
  }

  lemma ResidualShift(r: Row, x: Vec4, v: Vec4, z: Vec4)
    requires forall c | 0 <= c < 4 :: z[c] == x[c] + v[c]
    ensures Residual(r, z) == Residual(r, x) + Dot(r, v)
  {
    forall c | 0 <= c < 4 ensures r[c] * z[c] == r[c] * x[c] + r[c] * v[c] {
    }
  }
}
