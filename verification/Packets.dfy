/** Packets of the matrix network code, and what a combination of originals is. */
module Packets {
  import opened Fields
  import opened Linear

  /** A received or outgoing packet: the three header bytes, then the coefficient bytes of a coded
      packet, then the payload. The Ethernet header in front is not modelled. */
  datatype Skb<T> = Skb(kp: u8, eid: u8, tag: u8, body: seq<T>) {
    /** Index 0x3f marks a coded packet. */
    predicate Systematic()
    {
      Index() != 0x3f
    }

    function Index(): nat
    {
      tag / 4
    }
  }

  /** A header byte, as the number it holds: shifting right by two divides by four. */
  type u8 = x: nat | x < 256

  /** The number of originals in a generation, and the side of a coefficient block. */
  function KOf(kp: u8): nat
  {
    kp / 4
  }

  function POf(kp: u8): nat
  {
    kp % 4
  }

  /** (k << 2) | p, for k and p that fit their fields. */
  function KpOf(k: nat, p: nat): (kp: u8)
    requires k < 64 && p < 4
    ensures KOf(kp) == k && POf(kp) == p
  {
    4 * k + p
  }

  ghost predicate Dims(k: nat, p: nat)
  {
    1 <= k && 1 <= p <= 3
  }

  // ---------------------------------------------------------------- indices

  lemma Flat(p: nat, i: nat, l: nat)
    requires 1 <= p <= 3 && l < p
    ensures (i * p + l) / p == i && (i * p + l) % p == l
  {
    if p == 1 {
    } else if p == 2 {
    } else {
    }
  }

  lemma Unflat(k: nat, p: nat, v: nat)
    requires 1 <= p <= 3 && v < k * p
    ensures v / p < k && v % p < p && v == (v / p) * p + v % p
  {
    if p == 1 {
    } else if p == 2 {
    } else {
    }
  }

  /** A position within the block that starts at base. */
  lemma InBlock(p: nat, base: nat, l: nat)
    requires 1 <= p <= 3 && base % p == 0 && l < p
    ensures (base + l) / p == base / p && (base + l) % p == l && base + l - (base + l) % p == base
  {
    if p == 1 {
    } else if p == 2 {
    } else {
    }
  }

  lemma BlockFits(p: nat, base: nat, len: nat)
    requires 1 <= p <= 3 && base % p == 0 && len % p == 0 && base < len
    ensures base + p <= len && (base + p) % p == 0
  {
    if p == 2 {
      assert base % 2 == 0 && len % 2 == 0;
    } else if p == 3 {
      assert base % 3 == 0 && len % 3 == 0;
    }
  }

  lemma BlockStart(p: nat, q: nat, len: nat)
    requires 1 <= p <= 3 && len % p == 0 && q < len
    ensures (q - q % p) % p == 0 && q - q % p + p <= len
  {
    if p == 1 {
    } else if p == 2 {
      BlockStart2(q, len);
    } else {
      BlockStart3(q, len);
    }
  }

  lemma BlockStart2(q: nat, len: nat)
    requires len % 2 == 0 && q < len
    ensures (q - q % 2) % 2 == 0 && q - q % 2 + 2 <= len
  {
    var d, e := q / 2, len / 2;
    assert q - q % 2 == 2 * d && len == 2 * e;
  }

  lemma BlockStart3(q: nat, len: nat)
    requires len % 3 == 0 && q < len
    ensures (q - q % 3) % 3 == 0 && q - q % 3 + 3 <= len
  {
    var d, e := q / 3, len / 3;
    assert q - q % 3 == 3 * d && len == 3 * e;
  }

  /** Where entry v of row i lies among the coefficient bytes: block v / p, row i, column v % p. */
  function CoefAt(p: nat, i: nat, v: nat): nat
    requires 1 <= p
  {
    v / p * p * p + i * p + v % p
  }

  lemma CoefFits(k: nat, p: nat, i: nat, v: nat)
    requires 1 <= p <= 3 && i < p && v < k * p
    ensures CoefAt(p, i, v) < p * p * k
  {
    Unflat(k, p, v);
    CoefBound(k, p, i, v / p, v % p);
  }

  lemma CoefBound(k: nat, p: nat, i: nat, block: nat, column: nat)
    requires 1 <= p <= 3 && i < p && block < k && column < p
    ensures block * p * p + i * p + column < p * p * k
  {
    if p == 1 {
    } else if p == 2 {
      assert block * 2 * 2 + i * 2 + column < 2 * 2 * k;
    } else {
      assert block * 3 * 3 + i * 3 + column < 3 * 3 * k;
    }
  }

  // ---------------------------------------------------------------- combinations

  /** The k * p symbols that the block at base takes from the packets. */
  function Symbols<T>(packets: seq<seq<T>>, k: nat, p: nat, base: nat, len: nat): (x: Vector<T>)
    requires Dims(k, p) && |packets| == k && base + p <= len
    requires forall i :: 0 <= i < k ==> |packets[i]| == len
    ensures |x| == k * p
    ensures forall v :: 0 <= v < k * p ==> v / p < k && v % p < p && x[v] == packets[v / p][base + v % p]
  {
    assert forall v :: 0 <= v < k * p ==> v / p < k && v % p < p by {
      forall v | 0 <= v < k * p
        ensures v / p < k && v % p < p
      {
        Unflat(k, p, v);
      }
    }
    seq(k * p, v requires 0 <= v < k * p => packets[v / p][base + v % p])
  }

  /** Row i of the coefficients of a coded packet. */
  function CoefRow<T>(coefs: seq<T>, k: nat, p: nat, i: nat): (c: Vector<T>)
    requires Dims(k, p) && p * p * k <= |coefs| && i < p
    ensures |c| == k * p
    ensures forall v :: 0 <= v < k * p ==> CoefAt(p, i, v) < |coefs| && c[v] == coefs[CoefAt(p, i, v)]
  {
    assert forall v :: 0 <= v < k * p ==> CoefAt(p, i, v) < |coefs| by {
      forall v | 0 <= v < k * p
        ensures CoefAt(p, i, v) < |coefs|
      {
        CoefFits(k, p, i, v);
      }
    }
    seq(k * p, v requires 0 <= v < k * p => coefs[CoefAt(p, i, v)])
  }

  ghost predicate Originals<T>(originals: seq<seq<T>>, k: nat, p: nat, len: nat)
  {
    Dims(k, p) && |originals| == k && len % p == 0 && forall i :: 0 <= i < k ==> |originals[i]| == len
  }

  /** Byte q of the combination of the originals with the given coefficients, from the first
      `terms` products. */
  function Combination<T>(f: Field<T>, originals: seq<seq<T>>, k: nat, p: nat, len: nat, coefs: seq<T>, q: nat,
                          terms: nat): T
    requires Originals(originals, k, p, len) && p * p * k <= |coefs| && q < len && terms <= k * p
  {
    BlockStart(p, q, len);
    Dot(f, Symbols(originals, k, p, q - q % p, len), CoefRow(coefs, k, p, q % p), 0, terms)
  }

  lemma CombinationInBlock<T>(f: Field<T>, originals: seq<seq<T>>, k: nat, p: nat, len: nat, coefs: seq<T>, base: nat,
                              l: nat, terms: nat)
    requires Originals(originals, k, p, len) && p * p * k <= |coefs| && terms <= k * p
    requires base % p == 0 && base + p <= len && l < p
    ensures Combination(f, originals, k, p, len, coefs, base + l, terms)
         == Dot(f, Symbols(originals, k, p, base, len), CoefRow(coefs, k, p, l), 0, terms)
  {
    InBlock(p, base, l);
  }

  /** A packet that the sender may make of these originals, with whatever coefficients. */
  ghost predicate MadeFrom<T>(f: Field<T>, originals: seq<seq<T>>, k: nat, p: nat, len: nat, s: Skb<T>)
    requires Originals(originals, k, p, len)
  {
    if s.Systematic() then s.Index() < k && s.body == originals[s.Index()]
    else
      && |s.body| == p * p * k + len
      && forall q :: 0 <= q < len ==> s.body[p * p * k + q] == Combination(f, originals, k, p, len, s.body, q, k * p)
  }
}
