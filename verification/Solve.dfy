/** Forward and back substitution (the core of skb_substi in mnc_rx.c), and what the rank test means. */
module Solve {
  import opened Laws
  import opened Fields
  import opened Linear
  import opened Lu

  /** s less each of a[t] * b[t] in turn, lo <= t < hi. */
  function Less<T>(f: Field<T>, s: T, a: Vector<T>, b: Vector<T>, lo: nat, hi: nat): T
    requires lo <= hi <= |a| && hi <= |b|
    decreases hi
  {
    if lo == hi then s else f.sub(Less(f, s, a, b, lo, hi - 1), f.mul(a[hi - 1], b[hi - 1]))
  }

  lemma {:induction false} LessPlusDot<T(!new)>(f: Field<T>, s: T, a: Vector<T>, b: Vector<T>, lo: nat, hi: nat)
    requires IsField(f) && lo <= hi <= |a| && hi <= |b|
    ensures f.add(Less(f, s, a, b, lo, hi), Dot(f, a, b, lo, hi)) == s
    decreases hi
  {
    if lo == hi {
      AddZero(f, s);
    } else {
      var t := hi - 1;
      var x := f.mul(a[t], b[t]);
      LessPlusDot(f, s, a, b, lo, t);
      SubAdd(f, Less(f, s, a, b, lo, t), x);
      Swap(f.add, Dot(f, a, b, lo, t), x);
      Shift(f.add, Less(f, s, a, b, lo, hi), x, Dot(f, a, b, lo, t));
    }
  }

  lemma {:induction false} LessAgrees<T>(f: Field<T>, s: T, a: Vector<T>, b: Vector<T>, c: Vector<T>, d: Vector<T>,
                                         lo: nat, hi: nat)
    requires lo <= hi <= |a| && hi <= |b| && hi <= |c| && hi <= |d|
    requires forall t :: lo <= t < hi ==> a[t] == c[t] && b[t] == d[t]
    ensures Less(f, s, a, b, lo, hi) == Less(f, s, c, d, lo, hi)
    decreases hi
  {
    if lo < hi {
      LessAgrees(f, s, a, b, c, d, lo, hi - 1);
    }
  }

  /** The first j entries of the y with l y == b. */
  function Forward<T>(f: Field<T>, l: Matrix<T>, b: Vector<T>, n: nat, j: nat): (y: Vector<T>)
    requires Square(l, n) && |b| == n && j <= n
    ensures |y| == j
  {
    if j == 0 then []
    else
      var y := Forward(f, l, b, n, j - 1);
      y + [Less(f, b[j - 1], l[j - 1], y, 0, j - 1)]
  }

  /** The x with u x == y, in its entries from k on; zero before. */
  function Backward<T>(f: Field<T>, u: Matrix<T>, y: Vector<T>, n: nat, k: nat): (x: Vector<T>)
    requires Square(u, n) && |y| == n && k <= n
    ensures |x| == n
    decreases n - k
  {
    if k == n then seq(n, _ => f.zero)
    else
      var x := Backward(f, u, y, n, k + 1);
      x[k := f.div(Less(f, y[k], u[k], x, k + 1, n), u[k][k])]
  }

  ghost predicate LowerUnit<T>(f: Field<T>, l: Matrix<T>, n: nat)
  {
    && Square(l, n)
    && (forall r :: 0 <= r < n ==> l[r][r] == f.one)
    && (forall r, t :: 0 <= r < t < n ==> l[r][t] == f.zero)
  }

  ghost predicate Upper<T>(f: Field<T>, u: Matrix<T>, n: nat)
  {
    Square(u, n) && forall r, t :: 0 <= t < r < n ==> u[r][t] == f.zero
  }

  /** No pivot is zero: the test on the diagonal of U. */
  predicate FullRank<T(==)>(f: Field<T>, u: Matrix<T>, n: nat)
    requires Square(u, n)
  {
    forall i :: 0 <= i < n ==> u[i][i] != f.zero
  }

  lemma LowerDot<T(!new)>(f: Field<T>, l: Matrix<T>, y: Vector<T>, n: nat, j: nat)
    requires IsField(f) && LowerUnit(f, l, n) && |y| == n && j < n
    ensures Dot(f, l[j], y, 0, n) == f.add(Dot(f, l[j], y, 0, j), y[j])
  {
    DotSplit(f, l[j], y, 0, j, n);
    DotSingle(f, l[j], y, j, j, n);
    MulOne(f, y[j]);
  }

  lemma UpperDot<T(!new)>(f: Field<T>, u: Matrix<T>, x: Vector<T>, n: nat, k: nat)
    requires IsField(f) && Upper(f, u, n) && |x| == n && k < n
    ensures Dot(f, u[k], x, 0, n) == f.add(f.mul(u[k][k], x[k]), Dot(f, u[k], x, k + 1, n))
  {
    DotSplit(f, u[k], x, 0, k + 1, n);
    DotSingle(f, u[k], x, 0, k, k + 1);
  }

  lemma {:induction false} ForwardPrefix<T>(f: Field<T>, l: Matrix<T>, b: Vector<T>, n: nat, i: nat, j: nat)
    requires Square(l, n) && |b| == n && i <= j <= n
    ensures Forward(f, l, b, n, i) == Forward(f, l, b, n, j)[..i]
    decreases j
  {
    if i < j {
      ForwardPrefix(f, l, b, n, i, j - 1);
    }
  }

  lemma ForwardSolves<T(!new)>(f: Field<T>, l: Matrix<T>, b: Vector<T>, n: nat, j: nat)
    requires IsField(f) && LowerUnit(f, l, n) && |b| == n && j < n
    ensures Dot(f, l[j], Forward(f, l, b, n, n), 0, n) == b[j]
  {
    var y := Forward(f, l, b, n, n);
    var y' := Forward(f, l, b, n, j);
    ForwardPrefix(f, l, b, n, j, n);
    ForwardPrefix(f, l, b, n, j + 1, n);
    assert y[j] == y[..j + 1][j];
    LowerDot(f, l, y, n, j);
    LessPlusDot(f, b[j], l[j], y', 0, j);
    DotAgrees(f, l[j], y, l[j], y', 0, j);
    Swap(f.add, y[j], Dot(f, l[j], y, 0, j));
  }

  lemma {:induction false} BackwardSuffix<T>(f: Field<T>, u: Matrix<T>, y: Vector<T>, n: nat, i: nat, k: nat)
    requires Square(u, n) && |y| == n && i <= k <= n
    ensures Backward(f, u, y, n, i)[k..] == Backward(f, u, y, n, k)[k..]
    decreases k - i
  {
    if i < k {
      BackwardSuffix(f, u, y, n, i + 1, k);
    }
  }

  lemma BackwardSolves<T(!new)>(f: Field<T>, u: Matrix<T>, y: Vector<T>, n: nat, k: nat)
    requires IsField(f) && Upper(f, u, n) && FullRank(f, u, n) && |y| == n && k < n
    ensures Dot(f, u[k], Backward(f, u, y, n, 0), 0, n) == y[k]
  {
    var x := Backward(f, u, y, n, 0);
    var x' := Backward(f, u, y, n, k + 1);
    var s := Less(f, y[k], u[k], x', k + 1, n);
    BackwardSuffix(f, u, y, n, 0, k);
    BackwardSuffix(f, u, y, n, 0, k + 1);
    assert x[k] == x[k..][0] == f.div(s, u[k][k]);
    assert forall t :: k + 1 <= t < n ==> x[t] == x[k + 1..][t - k - 1] == x'[t];
    UpperDot(f, u, x, n, k);
    DivIs(f, s, u[k][k], x[k]);
    Swap(f.mul, u[k][k], x[k]);
    LessPlusDot(f, y[k], u[k], x', k + 1, n);
    DotAgrees(f, u[k], x, u[k], x', k + 1, n);
  }

  // ---------------------------------------------------------------- the factored system

  /** a x, a row at a time, through the factors. */
  lemma RowThroughFactors<T(!new)>(f: Field<T>, a: Matrix<T>, l: Matrix<T>, u: Matrix<T>, p: seq<nat>, n: nat,
                                   x: Vector<T>, r: nat)
    requires IsField(f) && Factors(f, a, l, u, p, n) && |x| == n && r < n
    ensures Dot(f, a[p[r]], x, 0, n) == Dot(f, l[r], Apply(f, u, n, x), 0, n)
  {
    forall c | 0 <= c < n
      ensures a[p[r]][c] == Dot(f, l[r], Column(u, n, c), 0, n)
    {
      assert ProductAt(f, a, l, u, p, n, r, c);
    }
    DotDot(f, l[r], u, x, n, n, a[p[r]], Apply(f, u, n, x));
  }

  /** b in the order of the factored rows. */
  function Permuted<T>(b: Vector<T>, p: seq<nat>, n: nat): (q: Vector<T>)
    requires |b| == n && |p| == n && forall i :: 0 <= i < n ==> p[i] < n
    ensures |q| == n && forall i :: 0 <= i < n ==> q[i] == b[p[i]]
  {
    seq(n, i requires 0 <= i < n => b[p[i]])
  }

  /** What skb_substi computes for one block of symbols. */
  function Solution<T>(f: Field<T>, l: Matrix<T>, u: Matrix<T>, p: seq<nat>, n: nat, b: Vector<T>): (x: Vector<T>)
    requires Square(l, n) && Square(u, n) && |b| == n && |p| == n && forall i :: 0 <= i < n ==> p[i] < n
    ensures |x| == n
  {
    Backward(f, u, Forward(f, l, Permuted(b, p, n), n, n), n, 0)
  }

  /** It solves a x == b. */
  lemma SolutionSolves<T(!new)>(f: Field<T>, a: Matrix<T>, l: Matrix<T>, u: Matrix<T>, p: seq<nat>, n: nat,
                                b: Vector<T>)
    requires IsField(f) && Factors(f, a, l, u, p, n) && FullRank(f, u, n) && |b| == n
    ensures Apply(f, a, n, Solution(f, l, u, p, n, b)) == b
  {
    var y := Forward(f, l, Permuted(b, p, n), n, n);
    var x := Solution(f, l, u, p, n, b);
    forall k | 0 <= k < n
      ensures Dot(f, u[k], x, 0, n) == y[k]
    {
      BackwardSolves(f, u, y, n, k);
    }
    assert Apply(f, u, n, x) == y;
    forall i | 0 <= i < n
      ensures Dot(f, a[i], x, 0, n) == b[i]
    {
      assert i in p;
      var r :| 0 <= r < n && p[r] == i;
      RowThroughFactors(f, a, l, u, p, n, x, r);
      ForwardSolves(f, l, Permuted(b, p, n), n, r);
    }
  }

  lemma {:induction false} LowerDetermines<T(!new)>(f: Field<T>, l: Matrix<T>, n: nat, y: Vector<T>, z: Vector<T>,
          j: nat)
    requires IsField(f) && LowerUnit(f, l, n) && |y| == n && |z| == n && j <= n
    requires forall r :: 0 <= r < n ==> Dot(f, l[r], y, 0, n) == Dot(f, l[r], z, 0, n)
    ensures y[..j] == z[..j]
    decreases j
  {
    if j > 0 {
      var t := j - 1;
      LowerDetermines(f, l, n, y, z, t);
      assert forall i :: 0 <= i < t ==> y[i] == y[..t][i] == z[i];
      LowerDot(f, l, y, n, t);
      LowerDot(f, l, z, n, t);
      DotAgrees(f, l[t], y, l[t], z, 0, t);
      var d := Dot(f, l[t], y, 0, t);
      Swap(f.add, d, y[t]);
      Swap(f.add, d, z[t]);
      AddCancels(f, y[t], z[t], d);
    }
  }

  lemma {:induction false} UpperDetermines<T(!new)>(f: Field<T>, u: Matrix<T>, n: nat, x: Vector<T>, z: Vector<T>,
          k: nat)
    requires IsField(f) && Upper(f, u, n) && FullRank(f, u, n) && |x| == n && |z| == n && k <= n
    requires forall r :: 0 <= r < n ==> Dot(f, u[r], x, 0, n) == Dot(f, u[r], z, 0, n)
    ensures x[k..] == z[k..]
    decreases n - k
  {
    if k < n {
      UpperDetermines(f, u, n, x, z, k + 1);
      assert forall i :: k + 1 <= i < n ==> x[i] == x[k + 1..][i - k - 1] == z[i];
      UpperDot(f, u, x, n, k);
      UpperDot(f, u, z, n, k);
      DotAgrees(f, u[k], x, u[k], z, k + 1, n);
      AddCancels(f, f.mul(u[k][k], x[k]), f.mul(u[k][k], z[k]), Dot(f, u[k], x, k + 1, n));
      Swap(f.mul, u[k][k], x[k]);
      Swap(f.mul, u[k][k], z[k]);
      DivIs(f, f.mul(x[k], u[k][k]), u[k][k], x[k]);
      DivIs(f, f.mul(x[k], u[k][k]), u[k][k], z[k]);
    }
  }

  /** With full rank, a x determines x. */
  lemma FullRankDetermines<T(!new)>(f: Field<T>, a: Matrix<T>, l: Matrix<T>, u: Matrix<T>, p: seq<nat>, n: nat,
                                    x: Vector<T>, z: Vector<T>)
    requires IsField(f) && Factors(f, a, l, u, p, n) && FullRank(f, u, n) && |x| == n && |z| == n
    requires Apply(f, a, n, x) == Apply(f, a, n, z)
    ensures x == z
  {
    var ux, uz := Apply(f, u, n, x), Apply(f, u, n, z);
    forall r | 0 <= r < n
      ensures Dot(f, l[r], ux, 0, n) == Dot(f, l[r], uz, 0, n)
    {
      RowThroughFactors(f, a, l, u, p, n, x, r);
      RowThroughFactors(f, a, l, u, p, n, z, r);
      assert Apply(f, a, n, x)[p[r]] == Apply(f, a, n, z)[p[r]];
    }
    LowerDetermines(f, l, n, ux, uz, n);
    forall r | 0 <= r < n
      ensures Dot(f, u[r], x, 0, n) == Dot(f, u[r], z, 0, n)
    {
      assert ux[r] == ux[..n][r] == uz[r];
    }
    UpperDetermines(f, u, n, x, z, 0);
  }

  /** skb_substi finds the one x with a x == b. */
  lemma SolutionIsTheOne<T(!new)>(f: Field<T>, a: Matrix<T>, l: Matrix<T>, u: Matrix<T>, p: seq<nat>, n: nat,
                                  b: Vector<T>, x: Vector<T>)
    requires IsField(f) && Factors(f, a, l, u, p, n) && FullRank(f, u, n) && |b| == n && |x| == n
    ensures Apply(f, a, n, x) == b <==> x == Solution(f, l, u, p, n, b)
  {
    SolutionSolves(f, a, l, u, p, n, b);
    if Apply(f, a, n, x) == b {
      FullRankDetermines(f, a, l, u, p, n, x, Solution(f, l, u, p, n, b));
    }
  }

  // ---------------------------------------------------------------- the rank test and invertibility

  /** Column by column, solving for the identity. */
  lemma RightInverse<T(!new)>(f: Field<T>, a: Matrix<T>, l: Matrix<T>, u: Matrix<T>, p: seq<nat>, n: nat)
      returns (b: Matrix<T>)
    requires IsField(f) && Factors(f, a, l, u, p, n) && FullRank(f, u, n)
    ensures Square(b, n) && IsProduct(f, a, b, Identity(f, n), n)
  {
    var id := Identity(f, n);
    b := seq(n, i requires 0 <= i < n => seq(n, j requires 0 <= j < n => Solution(f, l, u, p, n, Basis(f, n, j))[i]));
    forall i, j | 0 <= i < n && 0 <= j < n
      ensures id[i][j] == Dot(f, a[i], Column(b, n, j), 0, n)
    {
      assert Column(b, n, j) == Solution(f, l, u, p, n, Basis(f, n, j));
      SolutionSolves(f, a, l, u, p, n, Basis(f, n, j));
      assert Apply(f, a, n, Column(b, n, j))[i] == Basis(f, n, j)[i];
    }
  }

  lemma RightInverseIsLeft<T(!new)>(f: Field<T>, a: Matrix<T>, l: Matrix<T>, u: Matrix<T>, p: seq<nat>, n: nat,
                                    b: Matrix<T>)
    requires IsField(f) && Factors(f, a, l, u, p, n) && FullRank(f, u, n)
    requires Square(b, n) && IsProduct(f, a, b, Identity(f, n), n)
    ensures IsProduct(f, b, a, Identity(f, n), n)
  {
    var id := Identity(f, n);
    forall i, j | 0 <= i < n && 0 <= j < n
      ensures id[i][j] == Dot(f, b[i], Column(a, n, j), 0, n)
    {
      var c := Column(a, n, j);
      ApplyProduct(f, a, b, id, n, c);
      ApplyIdentity(f, n, c);
      ApplyBasis(f, a, n, j);
      FullRankDetermines(f, a, l, u, p, n, Apply(f, b, n, c), Basis(f, n, j));
      assert Apply(f, b, n, c)[i] == Basis(f, n, j)[i];
    }
  }

  lemma FullRankInverts<T(!new)>(f: Field<T>, a: Matrix<T>, l: Matrix<T>, u: Matrix<T>, p: seq<nat>, n: nat)
    requires IsField(f) && Factors(f, a, l, u, p, n) && FullRank(f, u, n)
    ensures Invertible(f, a, n)
  {
    var b := RightInverse(f, a, l, u, p, n);
    RightInverseIsLeft(f, a, l, u, p, n, b);
    assert Inverse(f, a, b, n);
  }

  /** Above a first zero pivot, a nonzero vector that u sends to zero. */
  lemma KernelVector<T(!new)>(f: Field<T>, u: Matrix<T>, n: nat, z: nat) returns (x: Vector<T>)
    requires IsField(f) && Upper(f, u, n) && z < n && u[z][z] == f.zero
    requires forall i :: 0 <= i < z ==> u[i][i] != f.zero
    ensures |x| == n && x[z] == f.one
    ensures forall r :: 0 <= r < n ==> Dot(f, u[r], x, 0, n) == f.zero
  {
    x := Basis(f, n, z);
    forall r | z <= r < n
      ensures Dot(f, u[r], x, 0, n) == f.zero
    {
      DotZero(f, u[r], x, 0, n);
    }
    var k := z;
    while k > 0
      invariant 0 <= k <= z && |x| == n && x[z] == f.one
      invariant forall t :: 0 <= t < k ==> x[t] == f.zero
      invariant forall r :: k <= r < n ==> Dot(f, u[r], x, 0, n) == f.zero
    {
      k := k - 1;
      var s := Dot(f, u[k], x, k + 1, n);
      var v := f.div(f.sub(f.zero, s), u[k][k]);
      var x' := x[k := v];
      forall r | k < r < n
        ensures Dot(f, u[r], x', 0, n) == f.zero
      {
        UpperDot(f, u, x, n, r);
        UpperDot(f, u, x', n, r);
        DotAgrees(f, u[r], x', u[r], x, r + 1, n);
      }
      UpperDot(f, u, x', n, k);
      DotAgrees(f, u[k], x', u[k], x, k + 1, n);
      DivIs(f, f.sub(f.zero, s), u[k][k], v);
      Swap(f.mul, u[k][k], v);
      SubAdd(f, f.zero, s);
      x := x';
    }
  }

  lemma ZeroPivotIsSingular<T(!new)>(f: Field<T>, a: Matrix<T>, l: Matrix<T>, u: Matrix<T>, p: seq<nat>, n: nat)
      returns (x: Vector<T>)
    requires IsField(f) && Factors(f, a, l, u, p, n) && !FullRank(f, u, n)
    ensures |x| == n && Apply(f, a, n, x) == seq(n, _ => f.zero) && exists z :: 0 <= z < n && x[z] != f.zero
    ensures !Invertible(f, a, n)
  {
    var z := 0;
    while u[z][z] != f.zero
      invariant 0 <= z < n && forall i :: 0 <= i < z ==> u[i][i] != f.zero
      decreases n - z
    {
      z := z + 1;
    }
    x := KernelVector(f, u, n, z);
    forall i | 0 <= i < n
      ensures Dot(f, a[i], x, 0, n) == f.zero
    {
      assert i in p;
      var r :| 0 <= r < n && p[r] == i;
      RowThroughFactors(f, a, l, u, p, n, x, r);
      DotZero(f, l[r], Apply(f, u, n, x), 0, n);
    }
    if Invertible(f, a, n) {
      InvertibleHasNoKernel(f, a, n, x);
    }
  }

  /** The rank test passes exactly on the invertible matrices. */
  lemma RankTest<T(!new)>(f: Field<T>, a: Matrix<T>, l: Matrix<T>, u: Matrix<T>, p: seq<nat>, n: nat)
    requires IsField(f) && Factors(f, a, l, u, p, n)
    ensures FullRank(f, u, n) <==> Invertible(f, a, n)
  {
    if FullRank(f, u, n) {
      FullRankInverts(f, a, l, u, p, n);
    } else {
      var _ := ZeroPivotIsSingular(f, a, l, u, p, n);
    }
  }

  // ---------------------------------------------------------------- in place

  ghost predicate Ready<T>(n: nat, u: array2<T>, l: array2<T>, pivot: array<nat>)
    reads pivot
  {
    && Sized(u, n) && Sized(l, n) && pivot.Length == n
    && forall i :: 0 <= i < n ==> pivot[i] < n
  }

  method ForwardLoop<T>(f: Field<T>, n: nat, l: array2<T>, b: array<T>, y: array<T>)
    requires Sized(l, n) && b.Length == y.Length == n && b != y
    modifies y
    ensures y[..] == Forward(f, Rows(l), b[..], n, n)
  {
    for j := 0 to n
      invariant y[..j] == Forward(f, Rows(l), b[..], n, j)
    {
      ghost var done := y[..j];
      y[j] := b[j];
      for k := 0 to j
        invariant y[..j] == done
        invariant y[j] == Less(f, b[j], Rows(l)[j], done, 0, k)
      {
        y[j] := f.sub(y[j], f.mul(l[j, k], y[k]));
      }
      assert y[..j + 1] == done + [y[j]];
    }
    assert y[..n] == y[..];
  }

  /** The source passes over zero pivots; with full rank there are none. */
  method BackwardLoop<T(==)>(f: Field<T>, n: nat, u: array2<T>, y: array<T>, x: array<T>)
    requires Sized(u, n) && x.Length == y.Length == n && x != y
    requires FullRank(f, Rows(u), n)
    modifies x
    ensures x[..] == Backward(f, Rows(u), y[..], n, 0)
  {
    for j := 0 to n
      invariant forall t :: n - j <= t < n ==> x[t] == Backward(f, Rows(u), y[..], n, n - j)[t]
    {
      var k := n - 1 - j;
      ghost var want := Backward(f, Rows(u), y[..], n, k + 1);
      x[k] := y[k];
      for l := k + 1 to n
        invariant forall t :: k + 1 <= t < n ==> x[t] == want[t]
        invariant x[k] == Less(f, y[k], Rows(u)[k], want, k + 1, l)
      {
        x[k] := f.sub(x[k], f.mul(u[k, l], x[l]));
      }
      x[k] := f.div(x[k], u[k, k]);
    }
  }

  /** One block of skb_substi: t holds the received symbols, in slot order. */
  method Substitute<T(==)>(f: Field<T>, n: nat, u: array2<T>, l: array2<T>, pivot: array<nat>, t: array<T>,
                           b: array<T>, y: array<T>, x: array<T>)
    requires Ready(n, u, l, pivot) && FullRank(f, Rows(u), n)
    requires t.Length == b.Length == y.Length == x.Length == n
    requires t != b && t != y && t != x && b != y && b != x && y != x
    requires pivot as object != b && pivot as object != y && pivot as object != x
    modifies b, y, x
    ensures x[..] == Solution(f, Rows(l), Rows(u), pivot[..], n, t[..])
  {
    for j := 0 to n
      invariant forall i :: 0 <= i < j ==> b[i] == t[pivot[i]]
    {
      b[j] := t[pivot[j]];
    }
    assert b[..] == Permuted(t[..], pivot[..], n);
    ForwardLoop(f, n, l, b, y);
    BackwardLoop(f, n, u, y, x);
  }
}
