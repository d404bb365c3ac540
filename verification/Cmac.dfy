/** AES-CMAC over scattered segments (aes_cmac.c), against sections 2.3 and 2.4 of RFC 4493. The block
    function is arbitrary. */
module Cmac {
  type byte = bv8

  const BLOCK := 16

  type Cipher = seq<byte> -> seq<byte>

  ghost predicate BlockFunction(cipher: Cipher)
  {
    forall b :: |b| == BLOCK ==> |cipher(b)| == BLOCK
  }

  // ---------------------------------------------------------------- the reference

  function Xor(a: seq<byte>, b: seq<byte>): (c: seq<byte>)
    requires |a| == |b|
    ensures |c| == |a|
  {
    seq(|a|, i requires 0 <= i < |a| => a[i] ^ b[i])
  }

  /** Bit k of a byte, the most significant bit first. */
  function BitOf(b: byte, k: nat): bool
    requires k < 8
  {
    match k
    case 0 => b & 0x80 != 0
    case 1 => b & 0x40 != 0
    case 2 => b & 0x20 != 0
    case 3 => b & 0x10 != 0
    case 4 => b & 0x08 != 0
    case 5 => b & 0x04 != 0
    case 6 => b & 0x02 != 0
    case 7 => b & 0x01 != 0
  }

  /** Bit n of a 128-bit string. */
  function Bit(s: seq<byte>, n: nat): bool
    requires |s| == BLOCK && n < 128
  {
    BitOf(s[n / 8], n % 8)
  }

  /** const_Rb: the bits of 0x87 at the end of the block. */
  predicate RbBit(n: nat)
  {
    n == 120 || n == 125 || n == 126 || n == 127
  }

  /** The subkey step of section 2.3: shifted left by one bit, and xored with const_Rb when a bit fell out. */
  ghost predicate Doubled(s: seq<byte>, d: seq<byte>)
  {
    && |s| == |d| == BLOCK
    && forall n :: 0 <= n < 128 ==> DoubledAt(s, d, n)
  }

  ghost predicate DoubledAt(s: seq<byte>, d: seq<byte>, n: nat)
    requires |s| == |d| == BLOCK && n < 128
  {
    Bit(d, n) == ((n < 127 && Bit(s, n + 1)) != (Bit(s, 0) && RbBit(n)))
  }

  function Zeros(n: nat): (z: seq<byte>)
    ensures |z| == n && forall i :: 0 <= i < n ==> z[i] == 0
  {
    seq(n, _ => 0)
  }

  // ---------------------------------------------------------------- doubling

  function Joined(a: byte, b: byte): byte
  {
    (a << 1) | (b >> 7)
  }

  function Low(a: byte, carry: bool): byte
  {
    if carry then (a << 1) ^ 0x87 else a << 1
  }

  /** What gf_mulx computes, byte by byte. */
  function Shifted(s: seq<byte>): (d: seq<byte>)
    requires |s| == BLOCK
    ensures |d| == BLOCK
  {
    seq(BLOCK - 1, i requires 0 <= i < BLOCK - 1 => Joined(s[i], s[i + 1])) + [Low(s[15], s[0] & 0x80 != 0)]
  }

  lemma ShiftedByte(a: byte, b: byte, k: nat)
    requires k < 8
    ensures BitOf(Joined(a, b), k) == if k < 7 then BitOf(a, k + 1) else BitOf(b, 0)
  {
    match k
    case 0 =>
    case 1 =>
    case 2 =>
    case 3 =>
    case 4 =>
    case 5 =>
    case 6 =>
    case 7 =>
  }

  lemma LastByte(a: byte, carry: bool, k: nat)
    requires k < 8
    ensures BitOf(Low(a, carry), k) == ((k < 7 && BitOf(a, k + 1)) != (carry && (k == 0 || k == 5 || k == 6 || k == 7)))
  {
    match k
    case 0 =>
    case 1 =>
    case 2 =>
    case 3 =>
    case 4 =>
    case 5 =>
    case 6 =>
    case 7 =>
  }

  lemma NextBit(n: nat)
    requires n < 127
    ensures if n % 8 < 7 then (n + 1) / 8 == n / 8 && (n + 1) % 8 == n % 8 + 1
            else (n + 1) / 8 == n / 8 + 1 && (n + 1) % 8 == 0
  {
  }

  lemma ShiftedHigh(s: seq<byte>, n: nat)
    requires |s| == BLOCK && n < 120
    ensures DoubledAt(s, Shifted(s), n)
  {
    NextBit(n);
    ShiftedByte(s[n / 8], s[n / 8 + 1], n % 8);
  }

  lemma ShiftedLow(s: seq<byte>, n: nat)
    requires |s| == BLOCK && 120 <= n < 128
    ensures DoubledAt(s, Shifted(s), n)
  {
    if n < 127 {
      NextBit(n);
    }
    LastByte(s[15], s[0] & 0x80 != 0, n - 120);
  }

  /** gf_mulx doubles. */
  lemma ShiftedDoubles(s: seq<byte>)
    requires |s| == BLOCK
    ensures Doubled(s, Shifted(s))
  {
    forall n | 0 <= n < 128
      ensures DoubledAt(s, Shifted(s), n)
    {
      if n < 120 {
        ShiftedHigh(s, n);
      } else {
        ShiftedLow(s, n);
      }
    }
  }

  lemma BitsDetermine(a: byte, b: byte)
    requires forall k :: 0 <= k < 8 ==> BitOf(a, k) == BitOf(b, k)
    ensures a == b
  {
    assert BitOf(a, 0) == BitOf(b, 0) && BitOf(a, 1) == BitOf(b, 1) && BitOf(a, 2) == BitOf(b, 2)
           && BitOf(a, 3) == BitOf(b, 3);
    assert BitOf(a, 4) == BitOf(b, 4) && BitOf(a, 5) == BitOf(b, 5) && BitOf(a, 6) == BitOf(b, 6)
           && BitOf(a, 7) == BitOf(b, 7);
  }

  /** There is only one way to double a block. */
  lemma DoubledOnce(s: seq<byte>, d: seq<byte>, d': seq<byte>)
    requires Doubled(s, d) && Doubled(s, d')
    ensures d == d'
  {
    forall i | 0 <= i < BLOCK
      ensures d[i] == d'[i]
    {
      forall k | 0 <= k < 8
        ensures BitOf(d[i], k) == BitOf(d'[i], k)
      {
        var n := 8 * i + k;
        assert n / 8 == i && n % 8 == k;
        assert DoubledAt(s, d, n) && DoubledAt(s, d', n);
      }
      BitsDetermine(d[i], d'[i]);
    }
  }

  /** Doubling, as section 2.3 defines it. */
  ghost function Double(s: seq<byte>): (d: seq<byte>)
    requires |s| == BLOCK
    ensures Doubled(s, d)
  {
    ShiftedDoubles(s);
    var d :| Doubled(s, d);
    d
  }

  lemma DoubleIsShifted(s: seq<byte>)
    requires |s| == BLOCK
    ensures Double(s) == Shifted(s)
  {
    ShiftedDoubles(s);
    DoubledOnce(s, Double(s), Shifted(s));
  }

  /** gf_mulx doubles in place. */
  method GfMulx(pad: array<byte>)
    requires pad.Length == BLOCK
    modifies pad
    ensures pad[..] == Double(old(pad[..]))
  {
    ghost var s := pad[..];
    var carry := pad[0] & 0x80 != 0;
    for i := 0 to BLOCK - 1
      invariant forall t :: 0 <= t < i ==> pad[t] == Joined(s[t], s[t + 1])
      invariant forall t :: i <= t < BLOCK ==> pad[t] == s[t]
    {
      pad[i] := Joined(pad[i], pad[i + 1]);
    }
    pad[BLOCK - 1] := Low(pad[BLOCK - 1], carry);
    assert pad[..] == Shifted(s);
    DoubleIsShifted(s);
  }

  // ---------------------------------------------------------------- the code of section 2.4

  /** Block number n of a message. */
  function BlockAt(m: seq<byte>, n: nat): (b: seq<byte>)
    requires 16 * (n + 1) <= |m|
    ensures |b| == BLOCK
  {
    m[16 * n..16 * (n + 1)]
  }

  /** X after n blocks. */
  function Chain(cipher: Cipher, m: seq<byte>, n: nat): (x: seq<byte>)
    requires BlockFunction(cipher) && 16 * n <= |m|
    ensures |x| == BLOCK
  {
    if n == 0 then Zeros(BLOCK) else cipher(Xor(Chain(cipher, m, n - 1), BlockAt(m, n - 1)))
  }

  function Padded(last: seq<byte>): (p: seq<byte>)
    requires |last| < BLOCK
    ensures |p| == BLOCK
  {
    last + [0x80] + Zeros(BLOCK - 1 - |last|)
  }

  ghost function Subkey1(cipher: Cipher): (k: seq<byte>)
    requires BlockFunction(cipher)
    ensures |k| == BLOCK
  {
    Double(cipher(Zeros(BLOCK)))
  }

  /** The number of blocks; an empty message has one, all padding. */
  function BlockCount(len: nat): (n: nat)
    ensures 1 <= n && 16 * (n - 1) <= len <= 16 * n
    ensures len > 16 * (n - 1) || n == 1
  {
    if len == 0 then 1 else (len + 15) / 16
  }

  ghost function MLast(cipher: Cipher, last: seq<byte>): (p: seq<byte>)
    requires BlockFunction(cipher) && |last| <= BLOCK
    ensures |p| == BLOCK
  {
    if |last| == BLOCK then Xor(last, Subkey1(cipher)) else Xor(Padded(last), Double(Subkey1(cipher)))
  }

  /** AES-CMAC with this block function, in full length. */
  ghost function Mac(cipher: Cipher, m: seq<byte>): (t: seq<byte>)
    requires BlockFunction(cipher)
    ensures |t| == BLOCK
  {
    MacFrom(cipher, m, BlockCount(|m|) - 1)
  }

  /** The tag, when block b is the last one. */
  ghost function MacFrom(cipher: Cipher, m: seq<byte>, b: nat): (t: seq<byte>)
    requires BlockFunction(cipher) && 16 * b <= |m| <= 16 * (b + 1)
    ensures |t| == BLOCK
  {
    cipher(Xor(MLast(cipher, m[16 * b..]), Chain(cipher, m, b)))
  }

  // ---------------------------------------------------------------- what the reference amounts to

  /** A message of at most one block: with subkeys k1 and k2, doubled from the enciphered zero block, it is xored with
      k1 if it is a whole block, and otherwise padded with one bit and zeros and xored with k2. */
  lemma ShortMac(cipher: Cipher, m: seq<byte>, k1: seq<byte>, k2: seq<byte>)
    requires BlockFunction(cipher) && |m| <= BLOCK && Doubled(cipher(Zeros(BLOCK)), k1) && Doubled(k1, k2)
    ensures |m| == BLOCK ==> Mac(cipher, m) == cipher(Xor(m, k1))
    ensures |m| < BLOCK ==> Mac(cipher, m) == cipher(Xor(m + [0x80] + Zeros(15 - |m|), k2))
  {
    DoubledOnce(cipher(Zeros(BLOCK)), k1, Subkey1(cipher));
    DoubledOnce(k1, k2, Double(k1));
    assert m[0..] == m;
    XorZeros(MLast(cipher, m));
  }

  lemma XorZeros(a: seq<byte>)
    ensures Xor(a, Zeros(|a|)) == a
  {
    forall i | 0 <= i < |a|
      ensures Xor(a, Zeros(|a|))[i] == a[i]
    {
      XorBytes(a[i], 0, 0);
    }
  }

  /** One block and a part of another. */
  lemma BlockAndPart(cipher: Cipher, m: seq<byte>, k1: seq<byte>, k2: seq<byte>)
    requires BlockFunction(cipher) && BLOCK < |m| < 2 * BLOCK && Doubled(cipher(Zeros(BLOCK)), k1) && Doubled(k1, k2)
    ensures Mac(cipher, m) == cipher(Xor(Xor(m[16..] + [0x80] + Zeros(31 - |m|), k2), cipher(m[..16])))
  {
    DoubledOnce(cipher(Zeros(BLOCK)), k1, Subkey1(cipher));
    DoubledOnce(k1, k2, Double(k1));
    assert BlockAt(m, 0) == m[..16];
    XorFront(m[..16]);
    assert Chain(cipher, m, 0) == Zeros(BLOCK) && Chain(cipher, m, 1) == cipher(m[..16]);
    assert BlockCount(|m|) - 1 == 1;
  }

  /** A longer message: its first block can be enciphered and folded into the second. */
  function Folded(cipher: Cipher, m: seq<byte>): (r: seq<byte>)
    requires BlockFunction(cipher) && 32 <= |m|
    ensures |r| == |m| - 16
  {
    Xor(cipher(m[..16]), m[16..32]) + m[32..]
  }

  lemma {:induction false} ChainFolded(cipher: Cipher, m: seq<byte>, n: nat)
    requires BlockFunction(cipher) && 32 <= |m| && 1 <= n && 16 * (n + 1) <= |m|
    ensures Chain(cipher, Folded(cipher, m), n) == Chain(cipher, m, n + 1)
  {
    var c, r := cipher(m[..16]), Folded(cipher, m);
    if n == 1 {
      assert BlockAt(m, 0) == m[..16] && BlockAt(m, 1) == m[16..32];
      assert BlockAt(r, 0) == Xor(c, BlockAt(m, 1));
      XorFront(m[..16]);
      XorFront(Xor(c, BlockAt(m, 1)));
      assert Chain(cipher, r, 0) == Zeros(BLOCK) == Chain(cipher, m, 0);
      assert Chain(cipher, m, 1) == c;
    } else {
      ChainFolded(cipher, m, n - 1);
      assert BlockAt(r, n - 1) == BlockAt(m, n);
    }
  }

  lemma XorFront(a: seq<byte>)
    ensures Xor(Zeros(|a|), a) == a
  {
    forall i | 0 <= i < |a|
      ensures Xor(Zeros(|a|), a)[i] == a[i]
    {
      XorBytes(0, a[i], 0);
    }
  }

  /** The MAC of a message of two blocks or more is that of the folded message. */
  lemma MacFolds(cipher: Cipher, m: seq<byte>)
    requires BlockFunction(cipher) && 32 <= |m|
    ensures Mac(cipher, m) == Mac(cipher, Folded(cipher, m))
  {
    var r, b := Folded(cipher, m), BlockCount(|m|) - 1;
    assert BlockCount(|r|) == b;
    if b == 1 {
      TwoBlocksFold(cipher, m);
    } else {
      ChainFolded(cipher, m, b - 1);
      assert r[16 * (b - 1)..] == m[16 * b..];
    }
  }

  lemma TwoBlocksFold(cipher: Cipher, m: seq<byte>)
    requires BlockFunction(cipher) && |m| == 32
    ensures MacFrom(cipher, m, 1) == MacFrom(cipher, Folded(cipher, m), 0)
  {
    var r, c, k, last := Folded(cipher, m), cipher(m[..16]), Subkey1(cipher), m[16..];
    assert m[16..32] == last && m[32..] == [] && r[0..] == r == Xor(c, last);
    assert BlockAt(m, 0) == m[..16];
    XorFront(m[..16]);
    assert Chain(cipher, m, 0) == Zeros(BLOCK) && Chain(cipher, m, 1) == c;
    XorZeros(Xor(r, k));
    XorRotates(last, k, c);
    assert MacFrom(cipher, m, 1) == cipher(Xor(Xor(last, k), c));
    assert MacFrom(cipher, r, 0) == cipher(Xor(Xor(r, k), Zeros(BLOCK)));
  }

  lemma XorRotates(a: seq<byte>, b: seq<byte>, c: seq<byte>)
    requires |a| == |b| == |c|
    ensures Xor(Xor(a, b), c) == Xor(Xor(c, a), b)
  {
    forall i | 0 <= i < |a|
      ensures Xor(Xor(a, b), c)[i] == Xor(Xor(c, a), b)[i]
    {
      assert (a[i] ^ b[i]) ^ c[i] == (c[i] ^ a[i]) ^ b[i];
    }
  }

  // ---------------------------------------------------------------- segments

  function Concat<T>(segs: seq<seq<T>>): seq<T>
  {
    if segs == [] then [] else Concat(segs[..|segs| - 1]) + segs[|segs| - 1]
  }

  lemma {:induction false} ConcatPrefix<T>(segs: seq<seq<T>>, e: nat)
    requires e < |segs|
    ensures |Concat(segs[..e])| + |segs[e]| <= |Concat(segs)|
    ensures Concat(segs)[|Concat(segs[..e])|..|Concat(segs[..e])| + |segs[e]|] == segs[e]
    ensures Concat(segs[..e + 1]) == Concat(segs[..e]) + segs[e]
    decreases |segs|
  {
    var n := |segs| - 1;
    assert segs[..e + 1][..e] == segs[..e];
    if e < n {
      ConcatPrefix(segs[..n], e);
      assert segs[..n][..e] == segs[..e] && segs[..n][..e + 1] == segs[..e + 1];
    } else {
      assert segs[..e] == segs[..n];
    }
  }

  ghost predicate Segments<T>(segs: seq<seq<T>>)
  {
    segs != [] && forall e :: 0 <= e < |segs| ==> segs[e] != []
  }

  /** The cursor points at byte `off` of the whole, or past its end. */
  ghost predicate At<T>(segs: seq<seq<T>>, e: nat, pos: nat, off: nat)
  {
    e <= |segs| && off == |Concat(segs[..e])| + pos && if e < |segs| then pos < |segs[e]| else pos == 0
  }

  lemma CursorInside<T>(segs: seq<seq<T>>, e: nat, pos: nat, off: nat)
    requires At(segs, e, pos, off) && off < |Concat(segs)|
    ensures e < |segs|
  {
    assert segs[..|segs|] == segs;
  }

  lemma SliceAt<T>(m: seq<T>, start: nat, part: seq<T>, pos: nat)
    requires start + |part| <= |m| && m[start..start + |part|] == part && pos < |part|
    ensures m[start + pos] == part[pos]
  {
    assert m[start..start + |part|][pos] == m[start + pos];
  }

  lemma CursorByte<T>(segs: seq<seq<T>>, e: nat, pos: nat, off: nat)
    requires Segments(segs) && At(segs, e, pos, off) && off < |Concat(segs)|
    ensures e < |segs| && Concat(segs)[off] == segs[e][pos]
  {
    CursorInside(segs, e, pos, off);
    ConcatPrefix(segs, e);
    SliceAt(Concat(segs), |Concat(segs[..e])|, segs[e], pos);
  }

  lemma CursorNext<T>(segs: seq<seq<T>>, e: nat, pos: nat, off: nat)
    requires Segments(segs) && At(segs, e, pos, off) && e < |segs|
    ensures pos + 1 < |segs[e]| ==> At(segs, e, pos + 1, off + 1)
    ensures pos + 1 == |segs[e]| ==> At(segs, e + 1, 0, off + 1)
  {
    ConcatPrefix(segs, e);
  }

  /** Xors the next n bytes of the segments into cbc. The cursor may end up past the last segment; it is
      not read there. */
  method XorNext(segs: seq<seq<byte>>, e: nat, pos: nat, cbc: array<byte>, n: nat, ghost off: nat)
      returns (e': nat, pos': nat)
    requires Segments(segs) && At(segs, e, pos, off) && cbc.Length == BLOCK && n <= BLOCK && off + n <= |Concat(segs)|
    modifies cbc
    ensures At(segs, e', pos', off + n)
    ensures forall t :: 0 <= t < n ==> cbc[t] == old(cbc[t]) ^ Concat(segs)[off + t]
    ensures forall t :: n <= t < BLOCK ==> cbc[t] == old(cbc[t])
  {
    e', pos' := e, pos;
    for i := 0 to n
      invariant At(segs, e', pos', off + i)
      invariant forall t :: 0 <= t < i ==> cbc[t] == old(cbc[t]) ^ Concat(segs)[off + t]
      invariant forall t :: i <= t < BLOCK ==> cbc[t] == old(cbc[t])
    {
      CursorByte(segs, e', pos', off + i);
      CursorNext(segs, e', pos', off + i);
      cbc[i] := cbc[i] ^ segs[e'][pos'];
      pos' := pos' + 1;
      if pos' >= |segs[e']| {
        e', pos' := e' + 1, 0;
      }
    }
  }

  /** crypto_cipher_encrypt_one, in place. */
  method Encrypt(cipher: Cipher, a: array<byte>)
    requires BlockFunction(cipher) && a.Length == BLOCK
    modifies a
    ensures a[..] == cipher(old(a[..]))
  {
    var c := cipher(a[..]);
    forall i | 0 <= i < BLOCK {
      a[i] := c[i];
    }
    assert a[..] == c;
  }

  // ---------------------------------------------------------------- aes_cmac_vector

  /** The variable cbc after b whole blocks: the last block of the message is not enciphered yet. */
  function Running(cipher: Cipher, m: seq<byte>, b: nat): (x: seq<byte>)
    requires BlockFunction(cipher) && 16 * b <= |m|
    ensures |x| == BLOCK
  {
    if b == 0 || 16 * b < |m| then Chain(cipher, m, b) else Xor(Chain(cipher, m, b - 1), BlockAt(m, b - 1))
  }

  lemma XorBytes(a: byte, b: byte, c: byte)
    ensures a ^ (b ^ c) == (c ^ a) ^ b
  {
  }

  lemma XorThree(a: seq<byte>, b: seq<byte>, c: seq<byte>)
    requires |a| == |b| == |c|
    ensures Xor(a, Xor(b, c)) == Xor(Xor(c, a), b)
  {
    forall i | 0 <= i < |a|
      ensures Xor(a, Xor(b, c))[i] == Xor(Xor(c, a), b)[i]
    {
      XorBytes(a[i], b[i], c[i]);
    }
  }

  lemma BlockCountIs(len: nat, b: nat)
    requires 16 * b < len <= 16 * (b + 1)
    ensures BlockCount(len) == b + 1
  {
  }

  lemma XorsBlock(x: seq<byte>, y: seq<byte>, m: seq<byte>, b: nat)
    requires |x| == |y| == BLOCK && 16 * (b + 1) <= |m|
    requires forall t :: 0 <= t < BLOCK ==> y[t] == x[t] ^ m[16 * b + t]
    ensures y == Xor(x, BlockAt(m, b))
  {
    var c := BlockAt(m, b);
    assert forall t :: 0 <= t < BLOCK ==> c[t] == m[16 * b + t];
  }

  /** One whole block; the last one of the message is not enciphered. */
  method OneBlock(cipher: Cipher, segs: seq<seq<byte>>, e: nat, pos: nat, left: nat, cbc: array<byte>, ghost b: nat)
      returns (e': nat, pos': nat)
    requires BlockFunction(cipher) && Segments(segs) && cbc.Length == BLOCK
    requires left == |Concat(segs)| - 16 * b && left >= BLOCK && At(segs, e, pos, 16 * b)
    requires cbc[..] == Running(cipher, Concat(segs), b)
    modifies cbc
    ensures At(segs, e', pos', 16 * b + 16) && cbc[..] == Running(cipher, Concat(segs), b + 1)
  {
    ghost var x, m := cbc[..], Concat(segs);
    e', pos' := XorNext(segs, e, pos, cbc, BLOCK, 16 * b);
    XorsBlock(x, cbc[..], m, b);
    if left > BLOCK {
      Encrypt(cipher, cbc);
    }
  }

  /** The whole blocks. */
  method WholeBlocks(cipher: Cipher, segs: seq<seq<byte>>, total: nat, cbc: array<byte>)
      returns (e: nat, pos: nat, left: nat, ghost b: nat)
    requires BlockFunction(cipher) && Segments(segs) && cbc.Length == BLOCK && cbc[..] == Zeros(BLOCK)
             && total == |Concat(segs)|
    modifies cbc
    ensures left == total - 16 * b && left < BLOCK
    ensures At(segs, e, pos, 16 * b) && cbc[..] == Running(cipher, Concat(segs), b)
  {
    e, pos, left, b := 0, 0, total, 0;
    while left >= BLOCK
      invariant left == total - 16 * b && At(segs, e, pos, 16 * b)
      invariant cbc[..] == Running(cipher, Concat(segs), b)
    {
      e, pos := OneBlock(cipher, segs, e, pos, left, cbc, b);
      left := left - BLOCK;
      b := b + 1;
    }
  }

  /** The short last block, padded. */
  method ShortBlock(segs: seq<seq<byte>>, e: nat, pos: nat, left: nat, cbc: array<byte>, ghost off: nat)
    requires Segments(segs) && At(segs, e, pos, off) && off + left == |Concat(segs)| && left < BLOCK
             && cbc.Length == BLOCK
    modifies cbc
    ensures cbc[..] == Xor(old(cbc[..]), Padded(Concat(segs)[off..]))
  {
    ghost var m := Concat(segs);
    ghost var x, p := cbc[..], Padded(m[off..]);
    var _, _ := XorNext(segs, e, pos, cbc, left, off);
    cbc[left] := cbc[left] ^ 0x80;
    forall t | 0 <= t < BLOCK
      ensures cbc[t] == x[t] ^ p[t]
    {
      assert t < left ==> p[t] == m[off + t];
    }
  }

  method Zeroed() returns (a: array<byte>)
    ensures fresh(a) && a.Length == BLOCK && a[..] == Zeros(BLOCK)
  {
    a := new byte[BLOCK];
    for i := 0 to BLOCK
      invariant forall t :: 0 <= t < i ==> a[t] == 0
    {
      a[i] := 0;
    }
  }

  /** Xors cbc into pad. */
  method XorBlock(pad: array<byte>, cbc: array<byte>)
    requires pad.Length == cbc.Length == BLOCK && pad != cbc
    modifies pad
    ensures pad[..] == Xor(old(pad[..]), cbc[..])
  {
    for i := 0 to BLOCK
      invariant forall t :: 0 <= t < i ==> pad[t] == old(pad[t]) ^ cbc[t]
      invariant forall t :: i <= t < BLOCK ==> pad[t] == old(pad[t])
    {
      pad[i] := pad[i] ^ cbc[i];
    }
  }

  method TotalLen(segs: seq<seq<byte>>) returns (total: nat)
    ensures total == |Concat(segs)|
  {
    total := 0;
    for e := 0 to |segs|
      invariant total == |Concat(segs[..e])|
    {
      ConcatPrefix(segs, e);
      total := total + |segs[e]|;
    }
    assert segs[..|segs|] == segs;
  }

  lemma MacIs(cipher: Cipher, m: seq<byte>, b: nat)
    requires BlockFunction(cipher) && 16 * b < |m| <= 16 * (b + 1)
    ensures Mac(cipher, m) == MacFrom(cipher, m, b)
  {
    BlockCountIs(|m|, b);
    assert BlockCount(|m|) - 1 == b;
  }

  /** The last step: the block is xored with the subkey and enciphered. */
  method Finish(cipher: Cipher, pad: array<byte>, cbc: array<byte>, ghost key: seq<byte>, ghost chain: seq<byte>,
                ghost last: seq<byte>)
    requires BlockFunction(cipher) && pad.Length == cbc.Length == BLOCK && pad != cbc
    requires |key| == |chain| == |last| == BLOCK && pad[..] == key && cbc[..] == Xor(chain, last)
    modifies pad
    ensures pad[..] == cipher(Xor(Xor(last, key), chain))
  {
    XorBlock(pad, cbc);
    XorThree(key, chain, last);
    Encrypt(cipher, pad);
  }

  /** The end of a message of whole blocks. */
  method EndWhole(cipher: Cipher, pad: array<byte>, cbc: array<byte>, ghost m: seq<byte>, ghost b: nat)
    requires BlockFunction(cipher) && pad.Length == cbc.Length == BLOCK && pad != cbc
    requires |m| == 16 * (b + 1) && pad[..] == Subkey1(cipher) && cbc[..] == Running(cipher, m, b + 1)
    modifies pad
    ensures pad[..] == Mac(cipher, m)
  {
    ghost var last := m[16 * b..];
    assert last == BlockAt(m, b);
    Finish(cipher, pad, cbc, pad[..], Chain(cipher, m, b), last);
    assert pad[..] == MacFrom(cipher, m, b);
    MacIs(cipher, m, b);
  }

  /** The end of a message with a short last block. */
  method EndShort(cipher: Cipher, segs: seq<seq<byte>>, e: nat, pos: nat, left: nat, pad: array<byte>,
                  cbc: array<byte>, ghost b: nat)
    requires BlockFunction(cipher) && pad.Length == cbc.Length == BLOCK && pad != cbc
    requires Segments(segs) && At(segs, e, pos, 16 * b) && 16 * b + left == |Concat(segs)| && 0 < left < BLOCK
    requires pad[..] == Subkey1(cipher) && cbc[..] == Running(cipher, Concat(segs), b)
    modifies pad, cbc
    ensures pad[..] == Mac(cipher, Concat(segs))
  {
    ghost var m := Concat(segs);
    ghost var last := m[16 * b..];
    ShortBlock(segs, e, pos, left, cbc, 16 * b);
    GfMulx(pad);
    Finish(cipher, pad, cbc, pad[..], Chain(cipher, m, b), Padded(last));
    assert pad[..] == MacFrom(cipher, m, b);
    MacIs(cipher, m, b);
  }

  method Subkey(cipher: Cipher) returns (pad: array<byte>)
    requires BlockFunction(cipher)
    ensures fresh(pad) && pad.Length == BLOCK && pad[..] == Subkey1(cipher)
  {
    pad := Zeroed();
    Encrypt(cipher, pad);
    GfMulx(pad);
  }

  /** aes_cmac_vector: the MAC of the concatenation, however it is cut into segments. */
  method CmacVector(cipher: Cipher, segs: seq<seq<byte>>, macLen: nat) returns (mac: seq<byte>)
    requires BlockFunction(cipher) && Segments(segs) && macLen <= BLOCK
    ensures mac == Mac(cipher, Concat(segs))[..macLen]
  {
    ghost var m := Concat(segs);
    var cbc := Zeroed();
    var total := TotalLen(segs);
    ghost var b;
    var e, pos, left;
    e, pos, left, b := WholeBlocks(cipher, segs, total, cbc);
    ConcatPrefix(segs, 0);
    var pad := Subkey(cipher);
    if left > 0 {
      EndShort(cipher, segs, e, pos, left, pad, cbc, b);
    } else {
      EndWhole(cipher, pad, cbc, m, b - 1);
    }
    mac := pad[..macLen];
  }
}
