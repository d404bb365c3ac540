/** Vectors and matrices over a field. */
module Linear {
  import opened Laws
  import opened Fields

  type Vector<T> = seq<T>
  type Matrix<T> = seq<seq<T>>

  ghost predicate Square<T>(m: Matrix<T>, n: nat)
  {
    |m| == n && forall i :: 0 <= i < n ==> |m[i]| == n
  }

  function Column<T>(m: Matrix<T>, n: nat, c: nat): (v: Vector<T>)
    requires Square(m, n) && c < n
    ensures |v| == n && forall t :: 0 <= t < n ==> v[t] == m[t][c]
  {
    seq(n, t requires 0 <= t < n => m[t][c])
  }

  /** The sum of a[t] * b[t] over lo <= t < hi. */
  function Dot<T>(f: Field<T>, a: Vector<T>, b: Vector<T>, lo: nat, hi: nat): T
    requires lo <= hi <= |a| && hi <= |b|
    decreases hi
  {
    if lo == hi then f.zero
    else f.add(Dot(f, a, b, lo, hi - 1), f.mul(a[hi - 1], b[hi - 1]))
  }

  /** Matrix times vector. */
  function Apply<T>(f: Field<T>, m: Matrix<T>, n: nat, x: Vector<T>): (y: Vector<T>)
    requires Square(m, n) && |x| == n
    ensures |y| == n && forall i :: 0 <= i < n ==> y[i] == Dot(f, m[i], x, 0, n)
  {
    seq(n, i requires 0 <= i < n => Dot(f, m[i], x, 0, n))
  }

  ghost predicate IsProduct<T>(f: Field<T>, a: Matrix<T>, b: Matrix<T>, c: Matrix<T>, n: nat)
    requires Square(a, n) && Square(b, n) && Square(c, n)
  {
    forall i, j :: 0 <= i < n && 0 <= j < n ==> c[i][j] == Dot(f, a[i], Column(b, n, j), 0, n)
  }

  function Basis<T>(f: Field<T>, n: nat, r: nat): (e: Vector<T>)
    ensures |e| == n && forall t :: 0 <= t < n ==> e[t] == if t == r then f.one else f.zero
  {
    seq(n, t => if t == r then f.one else f.zero)
  }

  function Identity<T>(f: Field<T>, n: nat): (m: Matrix<T>)
    ensures Square(m, n) && forall i :: 0 <= i < n ==> m[i] == Basis(f, n, i)
  {
    seq(n, i requires 0 <= i < n => Basis(f, n, i))
  }

  ghost predicate Inverse<T>(f: Field<T>, a: Matrix<T>, b: Matrix<T>, n: nat)
  {
    && Square(a, n) && Square(b, n)
    && IsProduct(f, a, b, Identity(f, n), n)
    && IsProduct(f, b, a, Identity(f, n), n)
  }

  ghost predicate Invertible<T(!new)>(f: Field<T>, a: Matrix<T>, n: nat)
  {
    exists b: Matrix<T> :: Inverse(f, a, b, n)
  }

  // ---------------------------------------------------------------- sums

  lemma {:induction false} DotAgrees<T>(f: Field<T>, a: Vector<T>, b: Vector<T>, c: Vector<T>, d: Vector<T>, lo: nat,
                                        hi: nat)
    requires lo <= hi <= |a| && hi <= |b| && hi <= |c| && hi <= |d|
    requires forall t :: lo <= t < hi ==> a[t] == c[t] && b[t] == d[t]
    ensures Dot(f, a, b, lo, hi) == Dot(f, c, d, lo, hi)
    decreases hi
  {
    if lo < hi {
      DotAgrees(f, a, b, c, d, lo, hi - 1);
    }
  }

  lemma {:induction false} DotZero<T(!new)>(f: Field<T>, a: Vector<T>, b: Vector<T>, lo: nat, hi: nat)
    requires IsField(f)
    requires lo <= hi <= |a| && hi <= |b|
    requires forall t :: lo <= t < hi ==> a[t] == f.zero || b[t] == f.zero
    ensures Dot(f, a, b, lo, hi) == f.zero
    decreases hi
  {
    if lo < hi {
      DotZero(f, a, b, lo, hi - 1);
      MulZero(f, a[hi - 1]);
      MulZero(f, b[hi - 1]);
      AddZero(f, f.zero);
    }
  }

  lemma {:induction false} DotSplit<T(!new)>(f: Field<T>, a: Vector<T>, b: Vector<T>, lo: nat, mid: nat, hi: nat)
    requires IsField(f)
    requires lo <= mid <= hi <= |a| && hi <= |b|
    ensures Dot(f, a, b, lo, hi) == f.add(Dot(f, a, b, lo, mid), Dot(f, a, b, mid, hi))
    decreases hi
  {
    if mid == hi {
      AddZero(f, Dot(f, a, b, lo, mid));
    } else {
      DotSplit(f, a, b, lo, mid, hi - 1);
      Shift(f.add, Dot(f, a, b, lo, mid), Dot(f, a, b, mid, hi - 1), f.mul(a[hi - 1], b[hi - 1]));
    }
  }

  /** A sum with one term that may differ from zero. */
  lemma DotSingle<T(!new)>(f: Field<T>, a: Vector<T>, b: Vector<T>, lo: nat, k: nat, hi: nat)
    requires IsField(f)
    requires lo <= k < hi <= |a| && hi <= |b|
    requires forall t :: lo <= t < hi && t != k ==> a[t] == f.zero || b[t] == f.zero
    ensures Dot(f, a, b, lo, hi) == f.mul(a[k], b[k])
  {
    DotSplit(f, a, b, lo, k + 1, hi);
    DotZero(f, a, b, lo, k);
    DotZero(f, a, b, k + 1, hi);
    AddZero(f, f.mul(a[k], b[k]));
  }

  lemma {:induction false} DotCommutes<T(!new)>(f: Field<T>, a: Vector<T>, b: Vector<T>, lo: nat, hi: nat)
    requires IsField(f)
    requires lo <= hi <= |a| && hi <= |b|
    ensures Dot(f, a, b, lo, hi) == Dot(f, b, a, lo, hi)
    decreases hi
  {
    if lo < hi {
      DotCommutes(f, a, b, lo, hi - 1);
      Swap(f.mul, a[hi - 1], b[hi - 1]);
    }
  }

  /** Linear in the left vector: a == c + s * d. */
  lemma {:induction false} DotLinear<T(!new)>(f: Field<T>, a: Vector<T>, c: Vector<T>, s: T, d: Vector<T>,
          b: Vector<T>, lo: nat, hi: nat)
    requires IsField(f)
    requires lo <= hi <= |a| && hi <= |b| && hi <= |c| && hi <= |d|
    requires forall t :: lo <= t < hi ==> a[t] == f.add(c[t], f.mul(s, d[t]))
    ensures Dot(f, a, b, lo, hi) == f.add(Dot(f, c, b, lo, hi), f.mul(s, Dot(f, d, b, lo, hi)))
    decreases hi
  {
    if lo == hi {
      MulZero(f, s);
      AddZero(f, f.zero);
    } else {
      var t := hi - 1;
      DotLinear(f, a, c, s, d, b, lo, t);
      Distribute(f, b[t], c[t], f.mul(s, d[t]));
      Shift(f.mul, s, d[t], b[t]);
      Distribute(f, s, Dot(f, d, b, lo, t), f.mul(d[t], b[t]));
      Exchange(f.add, Dot(f, c, b, lo, t), f.mul(s, Dot(f, d, b, lo, t)),
               f.mul(c[t], b[t]), f.mul(s, f.mul(d[t], b[t])));
    }
  }

  /** Sums of sums may be taken in either order: (a^T m) x == a^T (m x), for the first k rows of m. */
  lemma {:induction false} DotDot<T(!new)>(f: Field<T>, a: Vector<T>, m: Matrix<T>, x: Vector<T>, n: nat, k: nat,
                                           am: Vector<T>, mx: Vector<T>)
    requires IsField(f)
    requires |a| == n && Square(m, n) && |x| == n && k <= n && |am| == n && |mx| == n
    requires forall j :: 0 <= j < n ==> am[j] == Dot(f, a, Column(m, n, j), 0, k)
    requires forall i :: 0 <= i < n ==> mx[i] == Dot(f, m[i], x, 0, n)
    ensures Dot(f, am, x, 0, n) == Dot(f, a, mx, 0, k)
    decreases k
  {
    if k == 0 {
      DotZero(f, am, x, 0, n);
    } else {
      var am' := seq(n, j requires 0 <= j < n => Dot(f, a, Column(m, n, j), 0, k - 1));
      DotDot(f, a, m, x, n, k - 1, am', mx);
      DotLinear(f, am, am', a[k - 1], m[k - 1], x, 0, n);
    }
  }

  lemma ApplyProduct<T(!new)>(f: Field<T>, a: Matrix<T>, b: Matrix<T>, c: Matrix<T>, n: nat, x: Vector<T>)
    requires IsField(f)
    requires Square(a, n) && Square(b, n) && Square(c, n) && |x| == n
    requires IsProduct(f, a, b, c, n)
    ensures Apply(f, c, n, x) == Apply(f, a, n, Apply(f, b, n, x))
  {
    forall i | 0 <= i < n
      ensures Dot(f, c[i], x, 0, n) == Dot(f, a[i], Apply(f, b, n, x), 0, n)
    {
      DotDot(f, a[i], b, x, n, n, c[i], Apply(f, b, n, x));
    }
  }

  lemma ApplyIdentity<T(!new)>(f: Field<T>, n: nat, x: Vector<T>)
    requires IsField(f) && |x| == n
    ensures Apply(f, Identity(f, n), n, x) == x
  {
    forall i | 0 <= i < n
      ensures Dot(f, Basis(f, n, i), x, 0, n) == x[i]
    {
      DotSingle(f, Basis(f, n, i), x, 0, i, n);
      MulOne(f, x[i]);
    }
  }

  lemma ApplyBasis<T(!new)>(f: Field<T>, m: Matrix<T>, n: nat, c: nat)
    requires IsField(f) && Square(m, n) && c < n
    ensures Apply(f, m, n, Basis(f, n, c)) == Column(m, n, c)
  {
    forall i | 0 <= i < n
      ensures Dot(f, m[i], Basis(f, n, c), 0, n) == m[i][c]
    {
      DotSingle(f, m[i], Basis(f, n, c), 0, c, n);
      MulOne(f, m[i][c]);
    }
  }

  /** An invertible matrix sends only the zero vector to zero. */
  lemma InvertibleHasNoKernel<T(!new)>(f: Field<T>, a: Matrix<T>, n: nat, x: Vector<T>)
    requires IsField(f) && Square(a, n) && Invertible(f, a, n) && |x| == n
    requires forall i :: 0 <= i < n ==> Dot(f, a[i], x, 0, n) == f.zero
    ensures forall i :: 0 <= i < n ==> x[i] == f.zero
  {
    var b: Matrix<T> :| Inverse(f, a, b, n);
    ApplyProduct(f, b, a, Identity(f, n), n, x);
    ApplyIdentity(f, n, x);
    forall i | 0 <= i < n
      ensures x[i] == f.zero
    {
      DotZero(f, b[i], Apply(f, a, n, x), 0, n);
    }
  }
}
