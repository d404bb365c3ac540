/** The sender (mnc_tx.c): systematic packets and random combinations of a generation. */
module Encoder {
  import opened Wrappers
  import opened Fields
  import opened Linear
  import opened Packets

  /** s and each of a[t] * b[t] in turn, t < m. */
  function Plus<T>(f: Field<T>, s: T, a: Vector<T>, b: Vector<T>, m: nat): T
    requires m <= |a| && m <= |b|
  {
    if m == 0 then s else f.add(Plus(f, s, a, b, m - 1), f.mul(a[m - 1], b[m - 1]))
  }

  lemma {:induction false} PlusExtendsDot<T>(f: Field<T>, x: Vector<T>, c: Vector<T>, n: nat, a: Vector<T>,
          b: Vector<T>, m: nat)
    requires m <= |a| && m <= |b| && n + m <= |x| && n + m <= |c|
    requires forall t :: 0 <= t < m ==> a[t] == x[n + t] && b[t] == c[n + t]
    ensures Plus(f, Dot(f, x, c, 0, n), a, b, m) == Dot(f, x, c, 0, n + m)
    decreases m
  {
    if m > 0 {
      PlusExtendsDot(f, x, c, n, a, b, m - 1);
    }
  }

  ghost function RowOf<T>(m: array2<T>, i: nat): (r: Vector<T>)
    requires i < m.Length0
    reads m
    ensures |r| == m.Length1 && forall j :: 0 <= j < |r| ==> r[j] == m[i, j]
  {
    seq(m.Length1, j requires 0 <= j < m.Length1 reads m => m[i, j])
  }

  /** cal_data: adds one coefficient block times p bytes of data to p bytes of the new packet. */
  method CalData<T>(f: Field<T>, data: seq<T>, p: nat, coefficient: array2<T>, dataNew: array<T>, at: nat)
    requires |data| == p && coefficient.Length0 == p && coefficient.Length1 == p
    requires at + p <= dataNew.Length
    modifies dataNew
    ensures forall i :: 0 <= i < p ==>
              dataNew[at + i] == Plus(f, old(dataNew[at + i]), data, RowOf(coefficient, i), p)
    ensures forall q :: 0 <= q < dataNew.Length && !(at <= q < at + p) ==> dataNew[q] == old(dataNew[q])
  {
    for i := 0 to p
      invariant forall t :: 0 <= t < i ==>
                  dataNew[at + t] == Plus(f, old(dataNew[at + t]), data, RowOf(coefficient, t), p)
      invariant forall q :: 0 <= q < dataNew.Length && !(at <= q < at + i) ==> dataNew[q] == old(dataNew[q])
    {
      for j := 0 to p
        invariant dataNew[at + i] == Plus(f, old(dataNew[at + i]), data, RowOf(coefficient, i), j)
        invariant forall t :: 0 <= t < i ==>
                    dataNew[at + t] == Plus(f, old(dataNew[at + t]), data, RowOf(coefficient, t), p)
        invariant forall q :: 0 <= q < dataNew.Length && !(at <= q <= at + i) ==> dataNew[q] == old(dataNew[q])
      {
        var mul := f.mul(data[j], coefficient[i, j]);
        dataNew[at + i] := f.add(dataNew[at + i], mul);
      }
    }
  }

  /** The payload of the new packet from the first `terms` products. */
  ghost function Combined<T>(f: Field<T>, originals: seq<seq<T>>, k: nat, p: nat, len: nat, coefs: seq<T>,
                             terms: nat): (r: seq<T>)
    requires Originals(originals, k, p, len) && p * p * k <= |coefs| && terms <= k * p
    ensures |r| == len && forall q :: 0 <= q < len ==> r[q] == Combination(f, originals, k, p, len, coefs, q, terms)
  {
    seq(len, q requires 0 <= q < len => Combination(f, originals, k, p, len, coefs, q, terms))
  }

  lemma Scaled(a: nat, k: nat, p: nat)
    requires a <= k
    ensures a * p <= k * p
  {
  }

  lemma SymbolOf<T>(skbs: seq<seq<T>>, k: nat, p: nat, len: nat, b: nat, base: nat, j: nat)
    requires Originals(skbs, k, p, len) && b < k && base + p <= len && j < p
    ensures b * p + j < k * p
    ensures Symbols(skbs, k, p, base, len)[b * p + j] == skbs[b][base + j]
  {
    Scaled(b + 1, k, p);
    Flat(p, b, j);
  }

  lemma CoefOf<T>(coefs: seq<T>, k: nat, p: nat, b: nat, i: nat, j: nat)
    requires Dims(k, p) && |coefs| == p * p * k && b < k && i < p && j < p
    ensures b * p + j < k * p && b * p * p + i * p + j < |coefs|
    ensures CoefRow(coefs, k, p, i)[b * p + j] == coefs[b * p * p + i * p + j]
  {
    Scaled(b + 1, k, p);
    Flat(p, b, j);
    BlockIndex(k, p, b, i, j);
  }

  /** The step of one original at one block. */
  lemma BlockAdds<T>(f: Field<T>, skbs: seq<seq<T>>, k: nat, p: nat, len: nat, coefs: seq<T>, n: nat, base: nat,
                     l: nat, data: Vector<T>, row: Vector<T>)
    requires Originals(skbs, k, p, len) && |coefs| == p * p * k && n + p <= k * p
    requires base % p == 0 && base + p <= len && l < p && |row| == p && |data| == p
    requires forall j :: 0 <= j < p ==> data[j] == Symbols(skbs, k, p, base, len)[n + j]
    requires forall j :: 0 <= j < p ==> row[j] == CoefRow(coefs, k, p, l)[n + j]
    ensures Combination(f, skbs, k, p, len, coefs, base + l, n + p)
         == Plus(f, Combination(f, skbs, k, p, len, coefs, base + l, n), data, row, p)
  {
    CombinationInBlock(f, skbs, k, p, len, coefs, base, l, n);
    CombinationInBlock(f, skbs, k, p, len, coefs, base, l, n + p);
    PlusExtendsDot(f, Symbols(skbs, k, p, base, len), CoefRow(coefs, k, p, l), n, data, row, p);
  }

  lemma BlockIndex(k: nat, p: nat, b: nat, i: nat, j: nat)
    requires b < k && i < p && j < p && 1 <= p <= 3
    ensures 0 <= b * p * p + i * p + j < p * p * k
    ensures b * p * p + p * p <= p * p * k
  {
    if p == 1 {
    } else if p == 2 {
    } else {
    }
  }

  /** The coefficient block of original b. */
  ghost predicate IsBlock<T>(coefs: seq<T>, k: nat, p: nat, b: nat, coefficient: array2<T>)
    reads coefficient
  {
    && coefficient.Length0 == p && coefficient.Length1 == p
    && forall i, j :: 0 <= i < p && 0 <= j < p ==> DrawnAt(p, b * p * p, coefs, coefficient, i, j)
  }

  ghost predicate AddsAt<T>(f: Field<T>, data: seq<T>, p: nat, coefficient: array2<T>, before: seq<T>, after: seq<T>,
                            base: nat, l: nat)
    requires coefficient.Length0 == p && coefficient.Length1 == p
    requires |data| == |before| == |after| && base + p <= |data| && l < p
    reads coefficient
  {
    after[base + l] == Plus(f, before[base + l], data[base..base + p], RowOf(coefficient, l), p)
  }

  /** Every block of `after` is that block of `before` with an original added. */
  ghost predicate Adds<T>(f: Field<T>, data: seq<T>, p: nat, coefficient: array2<T>, before: seq<T>, after: seq<T>)
    requires 1 <= p && coefficient.Length0 == p && coefficient.Length1 == p
    requires |data| == |before| == |after|
    reads coefficient
  {
    forall base: nat, l: nat :: base % p == 0 && base + p <= |data| && l < p ==>
      AddsAt(f, data, p, coefficient, before, after, base, l)
  }

  lemma OriginalAdds<T>(f: Field<T>, skbs: seq<seq<T>>, k: nat, p: nat, len: nat, coefs: seq<T>, b: nat,
                        coefficient: array2<T>, n: nat)
    requires Originals(skbs, k, p, len) && |coefs| == p * p * k && b < k
    requires IsBlock(coefs, k, p, b, coefficient)
    requires n == b * p && n + p <= k * p
    ensures Adds(f, skbs[b], p, coefficient, Combined(f, skbs, k, p, len, coefs, n),
            Combined(f, skbs, k, p, len, coefs, n + p))
  {
    var before, after := Combined(f, skbs, k, p, len, coefs, n), Combined(f, skbs, k, p, len, coefs, n + p);
    forall base: nat, l: nat | base % p == 0 && base + p <= len && l < p
      ensures AddsAt(f, skbs[b], p, coefficient, before, after, base, l)
    {
      var data, row := skbs[b][base..base + p], RowOf(coefficient, l);
      forall j | 0 <= j < p
        ensures data[j] == Symbols(skbs, k, p, base, len)[n + j]
        ensures row[j] == CoefRow(coefs, k, p, l)[n + j]
      {
        SymbolOf(skbs, k, p, len, b, base, j);
        assert DrawnAt(p, b * p * p, coefs, coefficient, l, j);
        CoefOf(coefs, k, p, b, l, j);
      }
      BlockAdds(f, skbs, k, p, len, coefs, n, base, l, data, row);
    }
  }

  /** Adds an original, block by block, to the new packet. */
  method AddOriginal<T>(f: Field<T>, data: seq<T>, p: nat, coefficient: array2<T>, dataNew: array<T>, hdr: nat,
                        ghost before: seq<T>, ghost after: seq<T>)
    requires 1 <= p <= 3 && coefficient.Length0 == p && coefficient.Length1 == p
    requires |data| == |before| == |after| && |data| % p == 0
    requires dataNew.Length == hdr + |data| && dataNew[hdr..] == before
    requires Adds(f, data, p, coefficient, before, after)
    modifies dataNew
    ensures dataNew[..hdr] == old(dataNew[..hdr]) && dataNew[hdr..] == after
  {
    var base := 0;
    while base < |data|
      invariant base <= |data| && base % p == 0
      invariant forall q :: 0 <= q < |data| ==> dataNew[hdr + q] == if q < base then after[q] else before[q]
      invariant dataNew[..hdr] == old(dataNew[..hdr])
    {
      BlockFits(p, base, |data|);
      label begun:
      CalData(f, data[base..base + p], p, coefficient, dataNew, hdr + base);
      forall q | 0 <= q < |data|
        ensures dataNew[hdr + q] == if q < base + p then after[q] else before[q]
      {
        if base <= q < base + p {
          assert dataNew[hdr + base + (q - base)] == dataNew[hdr + q];
          assert AddsAt(f, data, p, coefficient, before, after, base, q - base);
        } else {
          assert dataNew[hdr + q] == old@begun(dataNew[hdr + q]);
        }
      }
      base := base + p;
    }
  }

  lemma RowFits(p: nat, i: nat)
    requires i < p <= 3
    ensures i * p + p == (i + 1) * p <= p * p
  {
  }

  /** The coefficients of one block, drawn at random and written to the header from `start` on. */
  method DrawBlock<T>(p: nat, start: nat, end: nat, random: seq<T>, coefficient: array2<T>, dataNew: array<T>)
    requires 1 <= p <= 3 && end == start + p * p && end <= |random| <= dataNew.Length
    requires coefficient.Length0 == p && coefficient.Length1 == p
    modifies coefficient, dataNew
    ensures forall i, j :: 0 <= i < p && 0 <= j < p ==> DrawnAt(p, start, random, coefficient, i, j)
    ensures forall q :: 0 <= q < dataNew.Length ==>
            dataNew[q] == if start <= q < end then random[q] else old(dataNew[q])
  {
    var l := start;
    for i := 0 to p
      invariant l == start + i * p
      invariant forall r, j :: 0 <= r < i && 0 <= j < p ==> DrawnAt(p, start, random, coefficient, r, j)
      invariant forall q :: 0 <= q < dataNew.Length ==>
                dataNew[q] == if start <= q < l then random[q] else old(dataNew[q])
    {
      RowFits(p, i);
      label drawing:
      DrawRow(p, i, l, random, coefficient, dataNew);
      forall r, j | 0 <= r <= i && 0 <= j < p
        ensures DrawnAt(p, start, random, coefficient, r, j)
      {
        assert r < i ==> old@drawing(DrawnAt(p, start, random, coefficient, r, j));
      }
      l := l + p;
    }
  }

  ghost predicate DrawnAt<T>(p: nat, start: nat, random: seq<T>, coefficient: array2<T>, i: nat, j: nat)
    requires i < coefficient.Length0 && j < coefficient.Length1
    reads coefficient
  {
    0 <= start + i * p + j < |random| && coefficient[i, j] == random[start + i * p + j]
  }

  method DrawRow<T>(p: nat, i: nat, l: nat, random: seq<T>, coefficient: array2<T>, dataNew: array<T>)
    requires coefficient.Length0 == p && coefficient.Length1 == p && i < p && l + p <= |random| <= dataNew.Length
    modifies coefficient, dataNew
    ensures forall j :: 0 <= j < p ==> coefficient[i, j] == random[l + j]
    ensures forall r, j :: 0 <= r < p && 0 <= j < p && r != i ==> coefficient[r, j] == old(coefficient[r, j])
    ensures forall q :: 0 <= q < dataNew.Length ==> dataNew[q] == if l <= q < l + p then random[q] else old(dataNew[q])
  {
    for j := 0 to p
      invariant forall c :: 0 <= c < j ==> coefficient[i, c] == random[l + c]
      invariant forall r, c :: 0 <= r < p && 0 <= c < p && r != i ==> coefficient[r, c] == old(coefficient[r, c])
      invariant forall q :: 0 <= q < dataNew.Length ==>
                dataNew[q] == if l <= q < l + j then random[q] else old(dataNew[q])
    {
      coefficient[i, j] := random[l + j];
      dataNew[l + j] := coefficient[i, j];
    }
  }

  /** The coefficients fix a combination; what follows them does not. */
  lemma CombinationAgrees<T>(f: Field<T>, originals: seq<seq<T>>, k: nat, p: nat, len: nat, coefs: seq<T>,
                             body: seq<T>, q: nat)
    requires Originals(originals, k, p, len) && |coefs| == p * p * k <= |body| && body[..p * p * k] == coefs && q < len
    ensures Combination(f, originals, k, p, len, body, q, k * p)
            == Combination(f, originals, k, p, len, coefs, q, k * p)
  {
    var c, d := CoefRow(coefs, k, p, q % p), CoefRow(body, k, p, q % p);
    forall v | 0 <= v < k * p
      ensures c[v] == d[v]
    {
      CoefFits(k, p, q % p, v);
      assert coefs[CoefAt(p, q % p, v)] == body[..p * p * k][CoefAt(p, q % p, v)];
    }
    assert c == d;
  }

  lemma CombinedIsMade<T>(f: Field<T>, skbs: seq<seq<T>>, k: nat, p: nat, len: nat, coefs: seq<T>, s: Skb<T>)
    requires Originals(skbs, k, p, len) && |coefs| == p * p * k && !s.Systematic()
    requires s.body == coefs + Combined(f, skbs, k, p, len, coefs, k * p)
    ensures MadeFrom(f, skbs, k, p, len, s)
  {
    forall q | 0 <= q < len
      ensures s.body[p * p * k + q] == Combination(f, skbs, k, p, len, s.body, q, k * p)
    {
      CombinationAgrees(f, skbs, k, p, len, coefs, s.body, q);
    }
  }

  /** Nothing added yet. */
  lemma CombinedNone<T>(f: Field<T>, skbs: seq<seq<T>>, k: nat, p: nat, len: nat, coefs: seq<T>)
    requires Originals(skbs, k, p, len) && |coefs| == p * p * k
    ensures Combined(f, skbs, k, p, len, coefs, 0) == seq(len, _ => f.zero)
  {
  }

  method Zeroed<T(0)>(f: Field<T>, size: nat) returns (a: array<T>)
    ensures fresh(a) && a[..] == seq(size, _ => f.zero)
  {
    a := new T[size];
    for i := 0 to size
      invariant forall q :: 0 <= q < i ==> a[q] == f.zero
    {
      a[i] := f.zero;
    }
  }

  lemma Counts(b: nat, k: nat, p: nat)
    requires b < k && 1 <= p <= 3
    ensures (b + 1) * p == b * p + p <= k * p
    ensures (b + 1) * p * p == b * p * p + p * p <= p * p * k
  {
    Scaled(b + 1, k, p);
    BlockIndex(k, p, b, 0, 0);
  }

  /** The header and payload of the new packet after b originals, n == b * p products and
      l == b * p * p coefficients. */
  ghost predicate Built<T>(f: Field<T>, skbs: seq<seq<T>>, k: nat, p: nat, len: nat, random: seq<T>, body: seq<T>,
                           n: nat, l: nat)
    requires Originals(skbs, k, p, len) && |random| == p * p * k && n <= k * p && l <= |random|
  {
    |body| == |random| + len && body[..l] == random[..l] && body[|random|..] == Combined(f, skbs, k, p, len, random, n)
  }

  method IncludeOriginal<T>(f: Field<T>, skbs: seq<seq<T>>, k: nat, p: nat, len: nat, random: seq<T>, b: nat,
                            coefficient: array2<T>, dataNew: array<T>, ghost n: nat, l: nat)
    requires Originals(skbs, k, p, len) && |random| == p * p * k && b < k
    requires n == b * p && l == b * p * p && n + p <= k * p && l + p * p <= |random|
    requires coefficient.Length0 == p && coefficient.Length1 == p
    requires Built(f, skbs, k, p, len, random, dataNew[..], n, l)
    modifies coefficient, dataNew
    ensures Built(f, skbs, k, p, len, random, dataNew[..], n + p, l + p * p)
  {
    var hdr, end := |random|, l + p * p;
    ghost var before, after := Combined(f, skbs, k, p, len, random, n), Combined(f, skbs, k, p, len, random, n + p);
    ghost var body := dataNew[..];
    DrawBlock(p, l, end, random, coefficient, dataNew);
    assert IsBlock(random, k, p, b, coefficient);
    HeaderGrows(body, dataNew[..], random, l, end, before);
    OriginalAdds(f, skbs, k, p, len, random, b, coefficient, n);
    AddOriginal(f, skbs[b], p, coefficient, dataNew, hdr, before, after);
    assert dataNew[..end] == dataNew[..hdr][..end];
  }

  lemma HeaderGrows<T>(body: seq<T>, body': seq<T>, random: seq<T>, l: nat, end: nat, payload: seq<T>)
    requires l <= end <= |random| && |body| == |body'| == |random| + |payload|
    requires body[..l] == random[..l] && body[|random|..] == payload
    requires forall q :: 0 <= q < |body| ==> body'[q] == if l <= q < end then random[q] else body[q]
    ensures body'[..end] == random[..end] && body'[|random|..] == payload
  {
    assert forall q :: 0 <= q < l ==> body[q] == body[..l][q];
    assert forall q :: 0 <= q < |payload| ==> body[|random| + q] == body[|random|..][q];
  }

  method IncludeAll<T(0)>(f: Field<T>, skbs: seq<seq<T>>, k: nat, p: nat, len: nat, random: seq<T>, dataNew: array<T>)
    requires Originals(skbs, k, p, len) && |random| == p * p * k
    requires Built(f, skbs, k, p, len, random, dataNew[..], 0, 0)
    modifies dataNew
    ensures Built(f, skbs, k, p, len, random, dataNew[..], k * p, |random|)
  {
    var coefficient := new T[p, p];
    ghost var n := 0;
    var l := 0;
    for b := 0 to k
      invariant n == b * p <= k * p && l == b * p * p <= |random|
      invariant Built(f, skbs, k, p, len, random, dataNew[..], n, l)
    {
      Counts(b, k, p);
      IncludeOriginal(f, skbs, k, p, len, random, b, coefficient, dataNew, n, l);
      n, l := n + p, l + p * p;
    }
    assert l == |random|;
  }

  /** The coefficients and payload of a coded packet. */
  method MakeBody<T(0)>(f: Field<T>, skbs: seq<seq<T>>, k: nat, p: nat, len: nat, random: seq<T>) returns (body: seq<T>)
    requires Originals(skbs, k, p, len) && |random| == p * p * k
    ensures body == random + Combined(f, skbs, k, p, len, random, k * p)
  {
    var dataNew := Zeroed(f, |random| + len);
    BuiltStart(f, skbs, k, p, len, random, dataNew[..]);
    IncludeAll(f, skbs, k, p, len, random, dataNew);
    body := dataNew[..];
    BuiltEnd(f, skbs, k, p, len, random, body);
  }

  lemma BuiltStart<T>(f: Field<T>, skbs: seq<seq<T>>, k: nat, p: nat, len: nat, random: seq<T>, body: seq<T>)
    requires Originals(skbs, k, p, len) && |random| == p * p * k
    requires |body| == |random| + len && forall i :: 0 <= i < |body| ==> body[i] == f.zero
    ensures Built(f, skbs, k, p, len, random, body, 0, 0)
  {
    CombinedNone(f, skbs, k, p, len, random);
  }

  lemma BuiltEnd<T>(f: Field<T>, skbs: seq<seq<T>>, k: nat, p: nat, len: nat, random: seq<T>, body: seq<T>)
    requires Originals(skbs, k, p, len) && |random| == p * p * k
             && Built(f, skbs, k, p, len, random, body, k * p, |random|)
    ensures body == random + Combined(f, skbs, k, p, len, random, k * p)
  {
    assert random[..|random|] == random;
    Halves(body, |random|, random, Combined(f, skbs, k, p, len, random, k * p));
  }

  lemma Halves<X>(s: seq<X>, n: nat, a: seq<X>, b: seq<X>)
    requires n <= |s| && s[..n] == a && s[n..] == b
    ensures s == a + b
  {
  }

  /** make_skb_new: one coded packet. `copied` says whether skb_copy succeeds, and `random` stands for the bytes of
      get_random_bytes. */
  method MakeSkbNew<T(0)>(f: Field<T>, skbs: seq<seq<T>>, p: nat, id: u8, copied: bool, random: seq<T>)
      returns (r: Option<Skb<T>>)
    requires 1 <= p <= 3 && |skbs| < 64
    requires forall i :: 0 <= i < |skbs| ==> |skbs[i]| == |skbs[0]| && |skbs[i]| % p == 0
    requires |random| == p * p * |skbs|
    ensures r.None? <==> skbs == [] || !copied
    ensures r.Some? ==> r.value.kp == KpOf(|skbs|, p) && r.value.eid == id && !r.value.Systematic()
    ensures r.Some? ==> random <= r.value.body
    ensures r.Some? ==> MadeFrom(f, skbs, |skbs|, p, |skbs[0]|, r.value)
  {
    var k := |skbs|;
    if k == 0 || !copied {
      return None;
    }
    var body := MakeBody(f, skbs, k, p, |skbs[0]|, random);
    r := Some(Skb(KpOf(k, p), id, 0xfc, body));
    CombinedIsMade(f, skbs, k, p, |skbs[0]|, random, r.value);
  }

  /** enqueue_skb_original: the originals themselves, each with its index, up to the first that skb_copy fails for. */
  method EnqueueSkbOriginal<T>(f: Field<T>, skbs: seq<seq<T>>, p: nat, id: u8, copied: seq<bool>)
      returns (result: seq<Skb<T>>)
    requires 1 <= p <= 3 && |skbs| < 64 && |copied| == |skbs|
    requires forall i :: 0 <= i < |skbs| ==> |skbs[i]| == |skbs[0]| && |skbs[i]| % p == 0
    ensures |result| <= |skbs| && (forall j :: 0 <= j < |result| ==> copied[j])
            && (|result| < |skbs| ==> !copied[|result|])
    ensures forall j :: 0 <= j < |result| ==> IsOriginal(f, skbs, p, id, j, result[j])
  {
    result := [];
    var k := |skbs|;
    for j := 0 to k
      invariant |result| == j && forall i :: 0 <= i < j ==> copied[i]
      invariant forall i :: 0 <= i < j ==> IsOriginal(f, skbs, p, id, i, result[i])
    {
      if !copied[j] {
        return;
      }
      result := result + [Skb(KpOf(k, p), id, 4 * j, skbs[j])];
    }
  }

  /** Original j as a systematic packet. */
  ghost predicate IsOriginal<T>(f: Field<T>, skbs: seq<seq<T>>, p: nat, id: u8, j: nat, s: Skb<T>)
    requires 1 <= p <= 3 && j < |skbs| < 64
    requires forall i :: 0 <= i < |skbs| ==> |skbs[i]| == |skbs[0]| && |skbs[i]| % p == 0
  {
    && s.kp == KpOf(|skbs|, p) && s.eid == id && s.Systematic() && s.Index() == j
    && MadeFrom(f, skbs, |skbs|, p, |skbs[0]|, s)
  }

  // ---------------------------------------------------------------- the sender

  /** The coefficient size that the sender uses. */
  const P := 2

  /** Generation ids step through 1..255: 0 is skipped when the byte wraps. */
  function NextId(eid: u8): (r: u8)
    ensures r != 0
  {
    if (eid + 1) % 256 == 0 then 1 else eid + 1
  }

  function IdAfter(eid: u8, n: nat): u8
  {
    if n == 0 then eid else NextId(IdAfter(eid, n - 1))
  }

  lemma {:induction false} IdAfterIs(eid: u8, n: nat)
    requires eid != 0
    ensures IdAfter(eid, n) == (eid - 1 + n) % 255 + 1
  {
    if n > 0 {
      IdAfterIs(eid, n - 1);
      NextModulo(eid - 1 + n - 1);
    }
  }

  lemma NextModulo(a: nat)
    ensures (a + 1) % 255 == if a % 255 == 254 then 0 else a % 255 + 1
  {
    var q, r := a / 255, a % 255;
    assert a == 255 * q + r;
    if r == 254 {
      assert a + 1 == 255 * (q + 1);
    } else {
      assert a + 1 == 255 * q + (r + 1);
    }
  }

  /** A generation id comes back after 255 generations, and no sooner. */
  lemma IdsReturn(eid: u8, n: nat)
    requires eid != 0 && 0 < n <= 255
    ensures IdAfter(eid, n) == eid <==> n == 255
  {
    IdAfterIs(eid, n);
  }

  ghost predicate Equal<T>(skbs: seq<seq<T>>)
  {
    |skbs| < 64 && forall i :: 0 <= i < |skbs| ==> |skbs[i]| == |skbs[0]| && |skbs[i]| % P == 0
  }

  /** A packet of generation id, made of these originals. */
  ghost predicate OfGeneration<T>(f: Field<T>, skbs: seq<seq<T>>, id: u8, s: Skb<T>)
  {
    skbs != [] && Equal(skbs) && s.eid == id && s.kp == KpOf(|skbs|, P) && MadeFrom(f, skbs, |skbs|, P, |skbs[0]|, s)
  }

  /** How many copies succeed, and how many before the first that does not. */
  function Copies(copied: seq<bool>): nat
  {
    if copied == [] then 0 else Copies(copied[..|copied| - 1]) + if copied[|copied| - 1] then 1 else 0
  }

  /** Which copies succeed, in order. */
  ghost function Successes(copied: seq<bool>): (r: seq<nat>)
    ensures |r| == Copies(copied)
    ensures forall i :: 0 <= i < |r| ==> r[i] < |copied| && copied[r[i]]
    ensures forall i, j :: 0 <= i < j < |r| ==> r[i] < r[j]
  {
    if copied == [] then []
    else
      var n := |copied| - 1;
      Successes(copied[..n]) + if copied[n] then [n] else []
  }

  /** Each once and no others. */
  lemma {:induction false} SuccessesAre(copied: seq<bool>, m: nat)
    ensures m in Successes(copied) <==> m < |copied| && copied[m]
    decreases |copied|
  {
    if copied != [] {
      var n := |copied| - 1;
      SuccessesAre(copied[..n], m);
      assert m < n ==> copied[..n][m] == copied[m];
    }
  }

  /** The packets from `base` on are the coded ones, each with a draw of its own: those whose copy succeeded, in the
      order of the draws. */
  ghost predicate OwnDraws<T>(sent: seq<Skb<T>>, base: nat, copied: seq<bool>, random: seq<seq<T>>)
    requires |copied| <= |random|
  {
    && |sent| == base + Copies(copied)
    && var r := Successes(copied);
       forall j :: 0 <= j < |r| ==> random[r[j]] <= sent[base + j].body
  }

  lemma OneMoreDraw<T>(sent: seq<Skb<T>>, base: nat, copied: seq<bool>, random: seq<seq<T>>, m: nat, s: Skb<T>)
    requires m < |copied| <= |random| && OwnDraws(sent, base, copied[..m], random)
    requires copied[m] ==> random[m] <= s.body
    ensures OwnDraws(if copied[m] then sent + [s] else sent, base, copied[..m + 1], random)
  {
    var next := copied[..m + 1];
    assert next[..m] == copied[..m];
    var r, r' := Successes(copied[..m]), Successes(next);
    var sent' := if copied[m] then sent + [s] else sent;
    assert r' == r + if copied[m] then [m] else [];
    forall j | 0 <= j < |r'|
      ensures random[r'[j]] <= sent'[base + j].body
    {
      if j < |r| {
        assert r'[j] == r[j] && sent'[base + j] == sent[base + j];
      }
    }
  }

  function Leading(copied: seq<bool>): nat
  {
    if copied == [] || !copied[0] then 0 else 1 + Leading(copied[1..])
  }

  lemma {:induction false} LeadingIs(copied: seq<bool>, n: nat)
    requires n <= |copied| && (forall j :: 0 <= j < n ==> copied[j]) && (n < |copied| ==> !copied[n])
    ensures Leading(copied) == n
    decreases n
  {
    if n > 0 {
      LeadingIs(copied[1..], n - 1);
    }
  }

  /** When every copy succeeds, all packets are made. */
  lemma {:induction false} AllCopied(copied: seq<bool>)
    requires forall j :: 0 <= j < |copied| ==> copied[j]
    ensures Copies(copied) == Leading(copied) == |copied|
    decreases |copied|
  {
    LeadingIs(copied, |copied|);
    if copied != [] {
      AllCopied(copied[..|copied| - 1]);
    }
  }

  class Sender<T(0)> {
    var eid: u8
    var originals: seq<seq<T>>
    var sent: seq<Skb<T>>

    ghost predicate Valid()
      reads this
    {
      eid != 0 && Equal(originals)
    }

    constructor ()
      ensures Valid() && eid == 1 && originals == [] && sent == []
    {
      eid, originals, sent := 1, [], [];
    }

    method MakeCoded(f: Field<T>, count: nat, copied: seq<bool>, random: seq<seq<T>>)
      requires Valid() && |random| == |copied| == count && forall i :: 0 <= i < count ==>
               |random[i]| == P * P * |originals|
      modifies this`sent
      ensures old(sent) <= sent && |sent| == |old(sent)| + if originals == [] then 0 else Copies(copied)
      ensures forall j :: |old(sent)| <= j < |sent| ==>
              !sent[j].Systematic() && OfGeneration(f, originals, eid, sent[j])
      ensures originals != [] ==> OwnDraws(sent, |old(sent)|, copied, random)
    {
      for m := 0 to count
        invariant old(sent) <= sent && |sent| == |old(sent)| + if originals == [] then 0 else Copies(copied[..m])
        invariant forall j :: |old(sent)| <= j < |sent| ==>
                  !sent[j].Systematic() && OfGeneration(f, originals, eid, sent[j])
        invariant originals != [] ==> OwnDraws(sent, |old(sent)|, copied[..m], random)
      {
        assert copied[..m + 1][..m] == copied[..m];
        var r := MakeSkbNew(f, originals, P, eid, copied[m], random[m]);
        if originals != [] {
          OneMoreDraw(sent, |old(sent)|, copied, random, m, if r.Some? then r.value else Skb(0, 0, 0, []));
        }
        if r.Some? {
          sent := sent + [r.value];
        }
      }
      assert copied[..count] == copied;
    }

    /** mnc_encoding_tx at the source: originals first when the code is systematic, then coded packets;
        `n` packets in all for generations of `k`. The next generation gets the next id. */
    method EncodingTx(f: Field<T>, systematic: bool, k: nat, n: nat, copiedSys: seq<bool>, copied: seq<bool>,
                      random: seq<seq<T>>)
      requires Valid() && |random| == |copied| == n && forall i :: 0 <= i < n ==> |random[i]| == P * P * |originals|
      requires |copiedSys| == |originals|
      modifies this`sent, this`eid
      ensures Valid() && eid == NextId(old(eid)) && old(sent) <= sent
      ensures forall j :: |old(sent)| <= j < |sent| ==> OfGeneration(f, originals, old(eid), sent[j])
      ensures systematic ==> |sent| >= |old(sent)| + Leading(copiedSys)
      ensures systematic ==> forall j :: |old(sent)| <= j < |old(sent)| + Leading(copiedSys) ==>
                                           sent[j].Systematic() && sent[j].Index() == j - |old(sent)|
      ensures originals != [] && !systematic ==> |sent| == |old(sent)| + Copies(copied)
      ensures originals != [] && systematic ==>
                |sent| == |old(sent)| + Leading(copiedSys) + if n > k then Copies(copied[..n - k]) else 0
      ensures originals != [] && !systematic ==> OwnDraws(sent, |old(sent)|, copied, random)
      ensures originals != [] && systematic && n > k ==>
                OwnDraws(sent, |old(sent)| + Leading(copiedSys), copied[..n - k], random[..n - k])
      ensures forall j :: |old(sent)| + (if systematic then Leading(copiedSys) else 0) <= j < |sent| ==>
                            !sent[j].Systematic()
    {
      if systematic {
        var first := EnqueueSkbOriginal(f, originals, P, eid, copiedSys);
        LeadingIs(copiedSys, |first|);
        sent := sent + first;
        if n > k {
          MakeCoded(f, n - k, copied[..n - k], random[..n - k]);
        }
      } else {
        MakeCoded(f, n, copied, random);
      }
      eid := NextId(eid);
    }
  }
}
