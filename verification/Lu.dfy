/** LU factorization with row pivoting (lu_fac in mnc_rx.c), over any field. */
module Lu {
  import opened Laws
  import opened Fields
  import opened Linear

  ghost function Rows<T>(m: array2<T>): (r: Matrix<T>)
    reads m
    ensures |r| == m.Length0
    ensures forall i :: 0 <= i < |r| ==> |r[i]| == m.Length1
    ensures forall i, j :: 0 <= i < m.Length0 && 0 <= j < m.Length1 ==> r[i][j] == m[i, j]
  {
    seq(m.Length0, i requires 0 <= i < m.Length0 reads m =>
      seq(m.Length1, j requires 0 <= j < m.Length1 reads m => m[i, j]))
  }

  ghost predicate IsPermutation(p: seq<nat>)
  {
    && (forall i :: 0 <= i < |p| ==> p[i] < |p|)
    && (forall i, j :: 0 <= i < j < |p| ==> p[i] != p[j])
    && (forall v :: 0 <= v < |p| ==> v in p)
  }

  /** The rows of a, in the order p, are the rows of the product of l and u. */
  ghost predicate Factors<T>(f: Field<T>, a: Matrix<T>, l: Matrix<T>, u: Matrix<T>, p: seq<nat>, n: nat)
  {
    && Square(a, n) && Square(l, n) && Square(u, n) && |p| == n && IsPermutation(p)
    && (forall r :: 0 <= r < n ==> l[r][r] == f.one)
    && (forall r, t :: 0 <= r < t < n ==> l[r][t] == f.zero)
    && (forall r, t :: 0 <= t < r < n ==> u[r][t] == f.zero)
    && (forall r, c :: 0 <= r < n && 0 <= c < n ==> ProductAt(f, a, l, u, p, n, r, c))
  }

  ghost predicate ProductAt<T>(f: Field<T>, a: Matrix<T>, l: Matrix<T>, u: Matrix<T>, p: seq<nat>, n: nat, r: nat,
                               c: nat)
    requires Square(a, n) && Square(l, n) && Square(u, n) && |p| == n && IsPermutation(p)
    requires r < n && c < n
  {
    a[p[r]][c] == Dot(f, l[r], Column(u, n, c), 0, n)
  }

  /** Row r of a is the unit vector r, as it is for a packet received in the clear. */
  ghost predicate IsUnitRow<T>(f: Field<T>, a: Matrix<T>, n: nat, r: nat)
    requires Square(a, n) && r < n
  {
    a[r] == Basis(f, n, r)
  }

  // ---------------------------------------------------------------- what every step keeps

  ghost predicate Shapes<T>(a0: Matrix<T>, a: Matrix<T>, u: Matrix<T>, l: Matrix<T>, p: seq<nat>, n: nat)
  {
    Square(a0, n) && Square(a, n) && Square(u, n) && Square(l, n) && |p| == n && IsPermutation(p)
  }

  ghost predicate RowsFollow<T>(a0: Matrix<T>, a: Matrix<T>, u: Matrix<T>, l: Matrix<T>, p: seq<nat>, n: nat)
    requires Shapes(a0, a, u, l, p, n)
  {
    forall r :: 0 <= r < n ==> a[r] == a0[p[r]]
  }

  /** a == (l + I) u, with l strictly below the diagonal. */
  ghost predicate Balanced<T>(f: Field<T>, a: Matrix<T>, u: Matrix<T>, l: Matrix<T>, n: nat)
    requires Square(a, n) && Square(u, n) && Square(l, n)
  {
    forall r, c :: 0 <= r < n && 0 <= c < n ==> BalancedAt(f, a, u, l, n, r, c)
  }

  ghost predicate BalancedAt<T>(f: Field<T>, a: Matrix<T>, u: Matrix<T>, l: Matrix<T>, n: nat, r: nat, c: nat)
    requires Square(a, n) && Square(u, n) && Square(l, n) && r < n && c < n
  {
    a[r][c] == f.add(Dot(f, l[r], Column(u, n, c), 0, r), u[r][c])
  }

  ghost predicate UnitsStay<T>(f: Field<T>, a0: Matrix<T>, u: Matrix<T>, p: seq<nat>, n: nat)
    requires Square(a0, n) && Square(u, n) && |p| == n
  {
    forall r :: 0 <= r < n && IsUnitRow(f, a0, n, r) ==> p[r] == r && u[r] == Basis(f, n, r)
  }

  /** Columns before j are cleared below the diagonal, and column j above row i. */
  ghost predicate Cleared<T>(f: Field<T>, u: Matrix<T>, n: nat, j: nat, i: nat)
    requires Square(u, n)
  {
    forall r, t :: 0 <= t < r < n && (t < j || (t == j && r < i)) ==> u[r][t] == f.zero
  }

  /** l is zero where it has not been filled yet; i is the next row of column j. */
  ghost predicate Unfilled<T>(f: Field<T>, l: Matrix<T>, n: nat, j: nat, i: nat)
    requires Square(l, n)
  {
    forall r, t :: 0 <= r < n && 0 <= t < n && r != t && (r < t || t > j || (t == j && r >= i)) ==> l[r][t] == f.zero
  }

  ghost predicate Inv<T>(f: Field<T>, a0: Matrix<T>, a: Matrix<T>, u: Matrix<T>, l: Matrix<T>, p: seq<nat>, n: nat,
                         j: nat, i: nat)
  {
    && Shapes(a0, a, u, l, p, n)
    && RowsFollow(a0, a, u, l, p, n)
    && Balanced(f, a, u, l, n)
    && UnitsStay(f, a0, u, p, n)
    && Cleared(f, u, n, j, i)
    && Unfilled(f, l, n, j, i)
  }

  /** Rows x and y of m, with the cells lo <= k < hi exchanged. */
  function SwapCells<T>(m: Matrix<T>, n: nat, x: nat, y: nat, lo: nat, hi: nat): (r: Matrix<T>)
    requires Square(m, n) && x < n && y < n && x != y
    ensures Square(r, n)
    ensures forall k :: 0 <= k < n ==> r[x][k] == if lo <= k < hi then m[y][k] else m[x][k]
    ensures forall k :: 0 <= k < n ==> r[y][k] == if lo <= k < hi then m[x][k] else m[y][k]
    ensures forall i :: 0 <= i < n && i != x && i != y ==> r[i] == m[i]
  {
    m[x := seq(n, k requires 0 <= k < n => if lo <= k < hi then m[y][k] else m[x][k])]
     [y := seq(n, k requires 0 <= k < n => if lo <= k < hi then m[x][k] else m[y][k])]
  }

  /** Two rows with the same entries of l up to j, and none after, meet columns alike up to j in the same sum. */
  lemma SameSum<T(!new)>(f: Field<T>, l: Vector<T>, l': Vector<T>, col: Vector<T>, col': Vector<T>, j: nat, r: nat,
                         r': nat)
    requires IsField(f)
    requires j <= r <= |l| && r <= |col| && j <= r' <= |l'| && r' <= |col'|
    requires forall t :: 0 <= t < j ==> l[t] == l'[t] && col[t] == col'[t]
    requires forall t :: j <= t < r ==> l[t] == f.zero
    requires forall t :: j <= t < r' ==> l'[t] == f.zero
    ensures Dot(f, l, col, 0, r) == Dot(f, l', col', 0, r')
  {
    DotSplit(f, l, col, 0, j, r);
    DotSplit(f, l', col', 0, j, r');
    DotZero(f, l, col, j, r);
    DotZero(f, l', col', j, r');
    DotAgrees(f, l, col, l', col', 0, j);
  }

  lemma SwapBalancedPivot<T(!new)>(f: Field<T>, a: Matrix<T>, u: Matrix<T>, l: Matrix<T>, n: nat, j: nat, ch: nat,
                                   c: nat)
    requires IsField(f) && Square(a, n) && Square(u, n) && Square(l, n)
    requires j < ch < n && c < n
    requires Balanced(f, a, u, l, n) && Cleared(f, u, n, j, j + 1) && Unfilled(f, l, n, j, j + 1)
    ensures
      var a', u', l' := SwapCells(a, n, j, ch, 0, n), SwapCells(u, n, j, ch, j, n), SwapCells(l, n, j, ch, 0, j);
      BalancedAt(f, a', u', l', n, j, c)
  {
    var a', u', l' := SwapCells(a, n, j, ch, 0, n), SwapCells(u, n, j, ch, j, n), SwapCells(l, n, j, ch, 0, j);
    var col, col' := Column(u, n, c), Column(u', n, c);
    assert forall t :: j <= t < ch ==> l[ch][t] == f.zero;
    assert forall t :: 0 <= t < j ==> l[ch][t] == l'[j][t] && col[t] == col'[t];
    SameSum(f, l[ch], l'[j], col, col', j, ch, j);
    assert BalancedAt(f, a, u, l, n, ch, c);
    assert u[j][c] == u[ch][c] || c >= j;
  }

  lemma SwapBalancedChosen<T(!new)>(f: Field<T>, a: Matrix<T>, u: Matrix<T>, l: Matrix<T>, n: nat, j: nat, ch: nat,
                                    c: nat)
    requires IsField(f) && Square(a, n) && Square(u, n) && Square(l, n)
    requires j < ch < n && c < n
    requires Balanced(f, a, u, l, n) && Cleared(f, u, n, j, j + 1) && Unfilled(f, l, n, j, j + 1)
    ensures
      var a', u', l' := SwapCells(a, n, j, ch, 0, n), SwapCells(u, n, j, ch, j, n), SwapCells(l, n, j, ch, 0, j);
      BalancedAt(f, a', u', l', n, ch, c)
  {
    var a', u', l' := SwapCells(a, n, j, ch, 0, n), SwapCells(u, n, j, ch, j, n), SwapCells(l, n, j, ch, 0, j);
    var col, col' := Column(u, n, c), Column(u', n, c);
    assert forall t :: j <= t < ch ==> l'[ch][t] == f.zero;
    assert forall t :: 0 <= t < j ==> l[j][t] == l'[ch][t] && col[t] == col'[t];
    SameSum(f, l[j], l'[ch], col, col', j, j, ch);
    assert BalancedAt(f, a, u, l, n, j, c);
    assert u[j][c] == u[ch][c] || c >= j;
  }

  lemma SwapBalancedElsewhere<T(!new)>(f: Field<T>, a: Matrix<T>, u: Matrix<T>, l: Matrix<T>, n: nat, j: nat, ch: nat,
                                       r: nat, c: nat)
    requires IsField(f) && Square(a, n) && Square(u, n) && Square(l, n)
    requires j < ch < n && c < n && r < n && r != j && r != ch
    requires Balanced(f, a, u, l, n) && Cleared(f, u, n, j, j + 1) && Unfilled(f, l, n, j, j + 1)
    ensures
      var a', u', l' := SwapCells(a, n, j, ch, 0, n), SwapCells(u, n, j, ch, j, n), SwapCells(l, n, j, ch, 0, j);
      BalancedAt(f, a', u', l', n, r, c)
  {
    var a', u', l' := SwapCells(a, n, j, ch, 0, n), SwapCells(u, n, j, ch, j, n), SwapCells(l, n, j, ch, 0, j);
    var col, col' := Column(u, n, c), Column(u', n, c);
    assert BalancedAt(f, a, u, l, n, r, c);
    if r < j {
      DotAgrees(f, l'[r], col', l[r], col, 0, r);
    } else {
      SameSum(f, l[r], l'[r], col, col', j, r, r);
    }
  }

  lemma SwapBalanced<T(!new)>(f: Field<T>, a: Matrix<T>, u: Matrix<T>, l: Matrix<T>, n: nat, j: nat, ch: nat)
    requires IsField(f) && Square(a, n) && Square(u, n) && Square(l, n)
    requires j < ch < n
    requires Balanced(f, a, u, l, n) && Cleared(f, u, n, j, j + 1) && Unfilled(f, l, n, j, j + 1)
    ensures Balanced(f, SwapCells(a, n, j, ch, 0, n), SwapCells(u, n, j, ch, j, n), SwapCells(l, n, j, ch, 0, j), n)
  {
    var a', u', l' := SwapCells(a, n, j, ch, 0, n), SwapCells(u, n, j, ch, j, n), SwapCells(l, n, j, ch, 0, j);
    forall r, c | 0 <= r < n && 0 <= c < n
      ensures BalancedAt(f, a', u', l', n, r, c)
    {
      if r == j {
        SwapBalancedPivot(f, a, u, l, n, j, ch, c);
      } else if r == ch {
        SwapBalancedChosen(f, a, u, l, n, j, ch, c);
      } else {
        SwapBalancedElsewhere(f, a, u, l, n, j, ch, r, c);
      }
    }
  }

  function SwapAt<X>(p: seq<X>, x: nat, y: nat): (q: seq<X>)
    requires x < |p| && y < |p|
    ensures |q| == |p|
    ensures forall i :: 0 <= i < |p| ==> q[i] == p[if i == x then y else if i == y then x else i]
  {
    p[x := p[y]][y := p[x]]
  }

  lemma SwapPermutes(p: seq<nat>, x: nat, y: nat)
    requires x < |p| && y < |p| && IsPermutation(p)
    ensures IsPermutation(SwapAt(p, x, y))
  {
    var q := SwapAt(p, x, y);
    forall v | 0 <= v < |q|
      ensures v in q
    {
      assert v in p;
      var i :| 0 <= i < |p| && p[i] == v;
      assert q[if i == x then y else if i == y then x else i] == v;
    }
  }

  /** Pivoting keeps the invariant, and moves no unit row. */
  lemma SwapKeeps<T(!new)>(f: Field<T>, a0: Matrix<T>, a: Matrix<T>, u: Matrix<T>, l: Matrix<T>, p: seq<nat>, n: nat,
                           j: nat, ch: nat)
    requires IsField(f)
    requires Inv(f, a0, a, u, l, p, n, j, j + 1)
    requires j < ch < n && u[j][j] == f.zero && u[ch][j] != f.zero
    ensures Inv(f, a0, SwapCells(a, n, j, ch, 0, n), SwapCells(u, n, j, ch, j, n), SwapCells(l, n, j, ch, 0, j),
            SwapAt(p, j, ch), n, j, j + 1)
  {
    var a', u', l', p' := SwapCells(a, n, j, ch, 0, n), SwapCells(u, n, j, ch, j, n), SwapCells(l, n, j, ch, 0, j),
      SwapAt(p, j, ch);
    SwapBalanced(f, a, u, l, n, j, ch);
    SwapPermutes(p, j, ch);
    assert RowsFollow(a0, a', u', l', p', n) by {
      forall r | 0 <= r < n
        ensures a'[r] == a0[p'[r]]
      {
        var s := if r == j then ch else if r == ch then j else r;
        assert a'[r] == a[s] && p'[r] == p[s];
      }
    }
    assert !IsUnitRow(f, a0, n, j) && !IsUnitRow(f, a0, n, ch);
  }

  /** Row i of u less x times row j, with x remembered in l. */
  function Subtract<T>(f: Field<T>, u: Matrix<T>, n: nat, i: nat, j: nat, x: T): (r: Matrix<T>)
    requires Square(u, n) && i < n && j < n
    ensures Square(r, n)
    ensures forall s :: 0 <= s < n && s != i ==> r[s] == u[s]
    ensures forall k :: 0 <= k < n ==> r[i][k] == if k < j then u[i][k] else f.sub(u[i][k], f.mul(u[j][k], x))
  {
    u[i := seq(n, k requires 0 <= k < n => if k < j then u[i][k] else f.sub(u[i][k], f.mul(u[j][k], x)))]
  }

  function Put<T>(m: Matrix<T>, n: nat, i: nat, j: nat, x: T): (r: Matrix<T>)
    requires Square(m, n) && i < n && j < n
    ensures Square(r, n)
    ensures forall s, k :: 0 <= s < n && 0 <= k < n ==> r[s][k] == if s == i && k == j then x else m[s][k]
    ensures forall s :: 0 <= s < n && s != i ==> r[s] == m[s]
  {
    m[i := m[i][j := x]]
  }

  lemma SubtractBalanced<T(!new)>(f: Field<T>, a: Matrix<T>, u: Matrix<T>, l: Matrix<T>, n: nat, j: nat, i: nat, x: T)
    requires IsField(f) && Square(a, n) && Square(u, n) && Square(l, n)
    requires j < i < n
    requires Balanced(f, a, u, l, n) && Cleared(f, u, n, j, i) && Unfilled(f, l, n, j, i)
    ensures Balanced(f, a, Subtract(f, u, n, i, j, x), Put(l, n, i, j, x), n)
  {
    var u', l' := Subtract(f, u, n, i, j, x), Put(l, n, i, j, x);
    forall r, c | 0 <= r < n && 0 <= c < n
      ensures BalancedAt(f, a, u', l', n, r, c)
    {
      var col, col' := Column(u, n, c), Column(u', n, c);
      assert BalancedAt(f, a, u, l, n, r, c);
      if r < i {
        DotAgrees(f, l'[r], col', l[r], col, 0, r);
      } else if r > i {
        SameSum(f, l[r], l'[r], col, col', i, r, r);
      } else {
        DotSplit(f, l'[i], col', 0, j, i);
        DotSplit(f, l[i], col, 0, j, i);
        DotAgrees(f, l'[i], col', l[i], col, 0, j);
        DotZero(f, l[i], col, j, i);
        DotSingle(f, l'[i], col', j, j, i);
        Moved(f, Dot(f, l[i], col, 0, j), x, u[j][c], u[i][c]);
        if c < j {
          MulZero(f, x);
          AddZero(f, Dot(f, l[i], col, 0, j));
        }
      }
    }
  }

  /** d + u == (d + x v) + (u - v x) */
  lemma Moved<T(!new)>(f: Field<T>, d: T, x: T, v: T, u: T)
    requires IsField(f)
    ensures f.add(f.add(d, f.zero), u) == f.add(f.add(d, f.mul(x, v)), f.sub(u, f.mul(v, x)))
  {
    AddZero(f, d);
    Swap(f.mul, x, v);
    SubAdd(f, u, f.mul(v, x));
    Swap(f.add, f.sub(u, f.mul(v, x)), f.mul(v, x));
    Shift(f.add, d, f.mul(x, v), f.sub(u, f.mul(v, x)));
  }

  /** Clearing row i of column j keeps the invariant. */
  lemma SubtractKeeps<T(!new)>(f: Field<T>, a0: Matrix<T>, a: Matrix<T>, u: Matrix<T>, l: Matrix<T>, p: seq<nat>,
                               n: nat, j: nat, i: nat)
    requires IsField(f)
    requires Inv(f, a0, a, u, l, p, n, j, i)
    requires j < i < n && u[j][j] != f.zero && u[i][j] != f.zero
    ensures
      var x := f.div(u[i][j], u[j][j]);
      x != f.zero && Inv(f, a0, a, Subtract(f, u, n, i, j, x), Put(l, n, i, j, x), p, n, j, i + 1)
  {
    var x := f.div(u[i][j], u[j][j]);
    var u', l' := Subtract(f, u, n, i, j, x), Put(l, n, i, j, x);
    SubtractBalanced(f, a, u, l, n, j, i, x);
    DivIs(f, u[i][j], u[j][j], x);
    Swap(f.mul, x, u[j][j]);
    MulZero(f, u[j][j]);
    AddZero(f, u[i][j]);
    SubIs(f, u[i][j], f.mul(u[j][j], x), f.zero);
    assert u'[i][j] == f.zero;
    assert !IsUnitRow(f, a0, n, i);
  }

  lemma ZeroQuotient<T(!new)>(f: Field<T>, b: T)
    requires IsField(f) && b != f.zero
    ensures f.div(f.zero, b) == f.zero
  {
    MulZero(f, b);
    DivIs(f, f.zero, b, f.zero);
  }

  /** Filled in, with ones on its diagonal, l is the left factor. */
  lemma InvGivesFactors<T(!new)>(f: Field<T>, a0: Matrix<T>, a: Matrix<T>, u: Matrix<T>, l: Matrix<T>, p: seq<nat>,
                                 n: nat)
    requires IsField(f)
    requires Inv(f, a0, a, u, l, p, n, n, n + 1)
    requires forall r :: 0 <= r < n ==> l[r][r] == f.one
    ensures Factors(f, a0, l, u, p, n)
  {
    forall r, c | 0 <= r < n && 0 <= c < n
      ensures ProductAt(f, a0, l, u, p, n, r, c)
    {
      assert BalancedAt(f, a, u, l, n, r, c);
      var col := Column(u, n, c);
      DotSplit(f, l[r], col, 0, r, n);
      DotSingle(f, l[r], col, r, r, n);
      MulOne(f, u[r][c]);
      assert a[r] == a0[p[r]];
    }
  }
  lemma Start<T(!new)>(f: Field<T>, a0: Matrix<T>, l: Matrix<T>, p: seq<nat>, n: nat)
    requires IsField(f) && Square(a0, n) && Square(l, n) && |p| == n
    requires forall i :: 0 <= i < n ==> p[i] == i
    requires forall r, t :: 0 <= r < n && 0 <= t < n ==> l[r][t] == f.zero
    ensures Inv(f, a0, a0, a0, l, p, n, 0, 1)
  {
    forall v | 0 <= v < n
      ensures v in p
    {
      assert p[v] == v;
    }
    forall r, c | 0 <= r < n && 0 <= c < n
      ensures BalancedAt(f, a0, a0, l, n, r, c)
    {
      DotZero(f, l[r], Column(a0, n, c), 0, r);
      AddZero(f, a0[r][c]);
    }
  }

  /** Only the part of l below the diagonal matters to the balance. */
  lemma DiagonalKeeps<T(!new)>(f: Field<T>, a0: Matrix<T>, a: Matrix<T>, u: Matrix<T>, l: Matrix<T>, p: seq<nat>,
                               n: nat, j: nat)
    requires j < n && Inv(f, a0, a, u, l, p, n, j, j + 1)
    ensures Inv(f, a0, a, u, Put(l, n, j, j, f.one), p, n, j, j + 1)
  {
    var l' := Put(l, n, j, j, f.one);
    forall r, c | 0 <= r < n && 0 <= c < n
      ensures BalancedAt(f, a, u, l', n, r, c)
    {
      assert BalancedAt(f, a, u, l, n, r, c);
      DotAgrees(f, l'[r], Column(u, n, c), l[r], Column(u, n, c), 0, r);
    }
  }

  lemma ZeroRowKeeps<T>(f: Field<T>, a0: Matrix<T>, a: Matrix<T>, u: Matrix<T>, l: Matrix<T>, p: seq<nat>, n: nat,
                        j: nat, i: nat)
    requires j < i < n && Inv(f, a0, a, u, l, p, n, j, i)
    requires u[i][j] == f.zero
    ensures Inv(f, a0, a, u, l, p, n, j, i + 1)
  {
  }

  lemma ZeroQuotientKeeps<T(!new)>(f: Field<T>, a0: Matrix<T>, a: Matrix<T>, u: Matrix<T>, l: Matrix<T>, p: seq<nat>,
                                   n: nat, j: nat, i: nat)
    requires IsField(f)
    requires j < i < n && Inv(f, a0, a, u, l, p, n, j, i)
    requires u[j][j] != f.zero && f.div(u[i][j], u[j][j]) == f.zero
    ensures u[i][j] == f.zero
    ensures Inv(f, a0, a, u, Put(l, n, i, j, f.zero), p, n, j, i + 1)
  {
    DivIs(f, u[i][j], u[j][j], f.zero);
    MulZero(f, u[j][j]);
    assert Put(l, n, i, j, f.zero)[i] == l[i];
    assert Put(l, n, i, j, f.zero) == l;
  }

  lemma NextColumn<T>(f: Field<T>, a0: Matrix<T>, a: Matrix<T>, u: Matrix<T>, l: Matrix<T>, p: seq<nat>, n: nat, j: nat)
    requires j < n && Inv(f, a0, a, u, l, p, n, j, n)
    ensures Inv(f, a0, a, u, l, p, n, j + 1, j + 2)
  {
  }

  // ---------------------------------------------------------------- the algorithm, in place

  ghost predicate Sized<T>(m: array2<T>, n: nat)
  {
    m.Length0 == n && m.Length1 == n
  }

  lemma SameRows<T>(m: array2<T>, r: Matrix<T>)
    requires |r| == m.Length0
    requires forall i :: 0 <= i < |r| ==> |r[i]| == m.Length1
    requires forall i, j :: 0 <= i < m.Length0 && 0 <= j < m.Length1 ==> m[i, j] == r[i][j]
    ensures Rows(m) == r
  {
    forall i | 0 <= i < |r|
      ensures Rows(m)[i] == r[i]
    {
    }
  }

  method CopyAndClear<T>(f: Field<T>, n: nat, arr: array2<T>, u: array2<T>, l: array2<T>)
    requires Sized(arr, n) && Sized(u, n) && Sized(l, n)
    requires arr != u && arr != l && u != l
    modifies u, l
    ensures Rows(u) == Rows(arr)
    ensures forall r, c :: 0 <= r < n && 0 <= c < n ==> l[r, c] == f.zero
  {
    for i := 0 to n
      invariant forall r, c :: 0 <= r < i && 0 <= c < n ==> u[r, c] == arr[r, c] && l[r, c] == f.zero
    {
      for j := 0 to n
        invariant forall r, c :: 0 <= r < i && 0 <= c < n ==> u[r, c] == arr[r, c] && l[r, c] == f.zero
        invariant forall c :: 0 <= c < j ==> u[i, c] == arr[i, c] && l[i, c] == f.zero
      {
        u[i, j] := arr[i, j];
        l[i, j] := f.zero;
      }
    }
    SameRows(u, Rows(arr));
  }

  method FindPivot<T(==)>(f: Field<T>, n: nat, u: array2<T>, j: nat) returns (k: nat)
    requires Sized(u, n) && j < n
    ensures j < k <= n
    ensures forall t :: j < t < k ==> u[t, j] == f.zero
    ensures k < n ==> u[k, j] != f.zero
  {
    k := j + 1;
    while k < n
      invariant j < k <= n
      invariant forall t :: j < t < k ==> u[t, j] == f.zero
    {
      if u[k, j] != f.zero {
        break;
      }
      k := k + 1;
    }
  }

  method ExchangeCells<T>(n: nat, m: array2<T>, x: nat, y: nat, lo: nat, hi: nat)
    requires Sized(m, n) && x < n && y < n && x != y && lo <= hi <= n
    modifies m
    ensures Rows(m) == SwapCells(old(Rows(m)), n, x, y, lo, hi)
  {
    for k := lo to hi
      invariant forall i, c :: 0 <= i < n && 0 <= c < n && (!(lo <= c < k) || (i != x && i != y)) ==>
                m[i, c] == old(m[i, c])
      invariant forall c :: lo <= c < k ==> m[x, c] == old(m[y, c]) && m[y, c] == old(m[x, c])
    {
      var temp := m[x, k];
      m[x, k] := m[y, k];
      m[y, k] := temp;
    }
    SameRows(m, SwapCells(old(Rows(m)), n, x, y, lo, hi));
  }

  method SubtractRow<T>(f: Field<T>, n: nat, u: array2<T>, i: nat, j: nat, x: T)
    requires Sized(u, n) && j < i < n
    modifies u
    ensures Rows(u) == Subtract(f, old(Rows(u)), n, i, j, x)
  {
    for k := j to n
      invariant forall r, c :: 0 <= r < n && 0 <= c < n && (r != i || !(j <= c < k)) ==> u[r, c] == old(u[r, c])
      invariant forall c :: j <= c < k ==> u[i, c] == f.sub(old(u[i, c]), f.mul(old(u[j, c]), x))
    {
      u[i, k] := f.sub(u[i, k], f.mul(u[j, k], x));
    }
    SameRows(u, Subtract(f, old(Rows(u)), n, i, j, x));
  }

  ghost predicate Holds<T>(f: Field<T>, a0: Matrix<T>, arr: array2<T>, u: array2<T>, l: array2<T>, pivot: array<nat>,
                           n: nat, j: nat, i: nat)
    reads arr, u, l, pivot
  {
    && Sized(arr, n) && Sized(u, n) && Sized(l, n) && pivot.Length == n
    && arr != u && arr != l && u != l
    && Inv(f, a0, Rows(arr), Rows(u), Rows(l), pivot[..], n, j, i)
  }

  method PivotRow<T(!new)>(f: Field<T>, n: nat, ghost a0: Matrix<T>, arr: array2<T>, u: array2<T>, l: array2<T>,
                           pivot: array<nat>, j: nat, change: nat)
    requires IsField(f) && Holds(f, a0, arr, u, l, pivot, n, j, j + 1)
    requires j < change < n && u[j, j] == f.zero && u[change, j] != f.zero
    modifies arr, u, l, pivot
    ensures Holds(f, a0, arr, u, l, pivot, n, j, j + 1)
    ensures u[j, j] != f.zero
    ensures forall r :: 0 <= r < n ==> l[r, r] == old(l[r, r])
  {
    SwapKeeps(f, a0, Rows(arr), Rows(u), Rows(l), pivot[..], n, j, change);
    ExchangeCells(n, arr, j, change, 0, n);
    ExchangeCells(n, u, j, change, j, n);
    ExchangeCells(n, l, j, change, 0, j);
    var temp := pivot[change];
    pivot[change] := pivot[j];
    pivot[j] := temp;
    assert pivot[..] == SwapAt(old(pivot[..]), j, change);
  }

  method ClearRow<T(==, !new)>(f: Field<T>, n: nat, ghost a0: Matrix<T>, arr: array2<T>, u: array2<T>, l: array2<T>,
                               pivot: array<nat>, j: nat, i: nat)
    requires IsField(f) && Holds(f, a0, arr, u, l, pivot, n, j, i)
    requires j < i < n && u[j, j] != f.zero
    modifies u, l
    ensures Holds(f, a0, arr, u, l, pivot, n, j, i + 1)
    ensures u[j, j] == old(u[j, j])
    ensures forall r :: 0 <= r < n ==> l[r, r] == old(l[r, r])
  {
    l[i, j] := f.div(u[i, j], u[j, j]);
    SameRows(l, Put(old(Rows(l)), n, i, j, f.div(u[i, j], u[j, j])));
    if l[i, j] == f.zero {
      ZeroQuotientKeeps(f, a0, Rows(arr), Rows(u), old(Rows(l)), pivot[..], n, j, i);
      return;
    }
    if Rows(u)[i][j] == f.zero {
      ZeroQuotient(f, u[j, j]);
    }
    SubtractKeeps(f, a0, Rows(arr), Rows(u), old(Rows(l)), pivot[..], n, j, i);
    SubtractRow(f, n, u, i, j, l[i, j]);
  }

  method ClearColumn<T(==, !new)>(f: Field<T>, n: nat, ghost a0: Matrix<T>, arr: array2<T>, u: array2<T>, l: array2<T>,
                                  pivot: array<nat>, j: nat)
    requires IsField(f) && j < n && Holds(f, a0, arr, u, l, pivot, n, j, j + 1)
    modifies arr, u, l, pivot
    ensures Holds(f, a0, arr, u, l, pivot, n, j + 1, j + 2)
    ensures forall r :: 0 <= r < n ==> l[r, r] == old(l[r, r])
  {
    for i := j + 1 to n
      invariant Holds(f, a0, arr, u, l, pivot, n, j, i)
      invariant forall r :: 0 <= r < n ==> l[r, r] == old(l[r, r])
      invariant i == j + 1 || u[j, j] != f.zero || forall t :: j < t < n ==> u[t, j] == f.zero
    {
      if u[j, j] == f.zero {
        var change := FindPivot(f, n, u, j);
        if change == n {
          ZeroRowKeeps(f, a0, Rows(arr), Rows(u), Rows(l), pivot[..], n, j, i);
          continue;
        }
        PivotRow(f, n, a0, arr, u, l, pivot, j, change);
      }
      ClearRow(f, n, a0, arr, u, l, pivot, j, i);
    }
    NextColumn(f, a0, Rows(arr), Rows(u), Rows(l), pivot[..], n, j);
  }

  /** lu_fac on a square matrix, with `pivot` starting as the identity. The rows of `arr` are
      exchanged along with those of u and l. A unit row is never moved and keeps its pivot. */
  method LuFac<T(==, !new)>(f: Field<T>, n: nat, arr: array2<T>, u: array2<T>, l: array2<T>, pivot: array<nat>)
    requires IsField(f)
    requires Sized(arr, n) && Sized(u, n) && Sized(l, n) && pivot.Length == n
    requires arr != u && arr != l && u != l
    requires forall i :: 0 <= i < n ==> pivot[i] == i
    modifies arr, u, l, pivot
    ensures Factors(f, old(Rows(arr)), Rows(l), Rows(u), pivot[..], n)
    ensures forall r :: 0 <= r < n ==> Rows(arr)[r] == old(Rows(arr))[pivot[r]]
    ensures UnitsStay(f, old(Rows(arr)), Rows(u), pivot[..], n)
  {
    ghost var a0 := Rows(arr);
    CopyAndClear(f, n, arr, u, l);
    Start(f, a0, Rows(l), pivot[..], n);
    for j := 0 to n
      invariant Holds(f, a0, arr, u, l, pivot, n, j, j + 1)
      invariant forall r :: 0 <= r < j ==> l[r, r] == f.one
    {
      ghost var l0 := Rows(l);
      l[j, j] := f.one;
      SameRows(l, Put(l0, n, j, j, f.one));
      DiagonalKeeps(f, a0, Rows(arr), Rows(u), l0, pivot[..], n, j);
      ClearColumn(f, n, a0, arr, u, l, pivot, j);
    }
    InvGivesFactors(f, a0, Rows(arr), Rows(u), Rows(l), pivot[..], n);
  }
}
