/** Laws of operations on any type. Each law is instantiated only where a proof names its
    arguments with `On`, `On2` or `On3`: rewriting by associativity has no natural end. */
module Laws {

  predicate On<T>(a: T) { true }
  predicate On2<T>(a: T, b: T) { true }
  predicate On3<T>(a: T, b: T, c: T) { true }

  ghost predicate Commutes<T(!new)>(f: (T, T) -> T)
  {
    forall a, b {:trigger On2(a, b)} :: f(a, b) == f(b, a)
  }

  ghost predicate Associates<T(!new)>(f: (T, T) -> T)
  {
    forall a, b, c {:trigger On3(a, b, c)} :: f(f(a, b), c) == f(a, f(b, c))
  }

  ghost predicate HasUnit<T(!new)>(f: (T, T) -> T, e: T)
  {
    forall a {:trigger On(a)} :: f(a, e) == a
  }

  ghost predicate Preserves<T(!new)>(g: T -> T, f: (T, T) -> T)
  {
    forall a, b {:trigger On2(a, b)} :: g(f(a, b)) == f(g(a), g(b))
  }

  ghost predicate Distributes<T(!new)>(m: (T, T) -> T, f: (T, T) -> T)
  {
    forall a, b, c {:trigger On3(a, b, c)} :: m(a, f(b, c)) == f(m(a, b), m(a, c))
  }

  lemma Swap<T(!new)>(f: (T, T) -> T, a: T, b: T)
    requires Commutes(f)
    ensures f(a, b) == f(b, a)
  {
    assert On2(a, b);
  }

  lemma Shift<T(!new)>(f: (T, T) -> T, a: T, b: T, c: T)
    requires Associates(f)
    ensures f(f(a, b), c) == f(a, f(b, c))
  {
    assert On3(a, b, c);
  }

  lemma Unit<T(!new)>(f: (T, T) -> T, e: T, a: T)
    requires HasUnit(f, e)
    ensures f(a, e) == a
  {
    assert On(a);
  }

  /** (a + b) + (c + d) == (a + c) + (b + d) */
  lemma Exchange<T(!new)>(f: (T, T) -> T, a: T, b: T, c: T, d: T)
    requires Commutes(f) && Associates(f)
    ensures f(f(a, b), f(c, d)) == f(f(a, c), f(b, d))
  {
    Shift(f, a, b, f(c, d));
    Shift(f, b, c, d);
    Swap(f, b, c);
    Shift(f, c, b, d);
    Shift(f, a, c, f(b, d));
  }
}

/** Sums of repeated shifts, over any additive group with an additive shift. */
module ShiftSum {
  import opened Laws

  datatype Ops<!T> = Ops(zero: T, add: (T, T) -> T, shift: T -> T)

  ghost predicate Additive<T(!new)>(o: Ops<T>)
  {
    && Commutes(o.add)
    && Associates(o.add)
    && HasUnit(o.add, o.zero)
    && Preserves(o.shift, o.add)
    && o.shift(o.zero) == o.zero
  }

  /** The sum of b shifted i times, over the set bits i. */
  function Sum<T>(o: Ops<T>, bits: seq<bool>, b: T): T
    decreases |bits|
  {
    if bits == [] then o.zero
    else o.add(if bits[0] then b else o.zero, Sum(o, bits[1..], o.shift(b)))
  }

  lemma {:induction false} SumOfAdd<T(!new)>(o: Ops<T>, bits: seq<bool>, b: T, c: T)
    requires Additive(o)
    ensures Sum(o, bits, o.add(b, c)) == o.add(Sum(o, bits, b), Sum(o, bits, c))
    decreases |bits|
  {
    Unit(o.add, o.zero, o.zero);
    if bits != [] {
      SumOfAdd(o, bits[1..], o.shift(b), o.shift(c));
      assert On2(b, c);
      Exchange(o.add, if bits[0] then b else o.zero, if bits[0] then c else o.zero,
               Sum(o, bits[1..], o.shift(b)), Sum(o, bits[1..], o.shift(c)));
    }
  }

  lemma {:induction false} SumOfShift<T(!new)>(o: Ops<T>, bits: seq<bool>, b: T)
    requires Additive(o)
    ensures Sum(o, bits, o.shift(b)) == o.shift(Sum(o, bits, b))
    decreases |bits|
  {
    if bits != [] {
      SumOfShift(o, bits[1..], o.shift(b));
      assert On2(if bits[0] then b else o.zero, Sum(o, bits[1..], o.shift(b)));
    }
  }

  lemma {:induction false} SumOfZero<T(!new)>(o: Ops<T>, bits: seq<bool>)
    requires Additive(o)
    ensures Sum(o, bits, o.zero) == o.zero
    decreases |bits|
  {
    if bits != [] {
      SumOfZero(o, bits[1..]);
      Unit(o.add, o.zero, o.zero);
    }
  }

  /** Summing shifts by one set of bits commutes with summing shifts by another. */
  lemma {:induction false} SumsCommute<T(!new)>(o: Ops<T>, c: seq<bool>, a: seq<bool>, b: T)
    requires Additive(o)
    ensures Sum(o, c, Sum(o, a, b)) == Sum(o, a, Sum(o, c, b))
    decreases |a|
  {
    SumOfZero(o, c);
    if a != [] {
      var tail := Sum(o, a[1..], o.shift(b));
      SumOfAdd(o, c, if a[0] then b else o.zero, tail);
      SumsCommute(o, c, a[1..], o.shift(b));
      SumOfShift(o, c, b);
    }
  }
}

/** Fields, given by their operations. */
module Fields {
  import opened Laws

  /** Subtraction and division are operations of their own, as they are in gf.c. */
  datatype Field<!T> = Field(zero: T, one: T, add: (T, T) -> T, sub: (T, T) -> T,
                             mul: (T, T) -> T, div: (T, T) -> T)

  ghost predicate SubUndoesAdd<T(!new)>(f: Field<T>)
  {
    forall a, b {:trigger On2(a, b)} :: f.add(f.sub(a, b), b) == a
  }

  ghost predicate DivUndoesMul<T(!new)>(f: Field<T>)
  {
    forall a, b {:trigger On2(a, b)} :: b != f.zero ==> f.mul(f.div(a, b), b) == a
  }

  ghost predicate IsField<T(!new)>(f: Field<T>)
  {
    && Commutes(f.add) && Associates(f.add) && HasUnit(f.add, f.zero)
    && Commutes(f.mul) && Associates(f.mul) && HasUnit(f.mul, f.one)
    && Distributes(f.mul, f.add)
    && SubUndoesAdd(f) && DivUndoesMul(f)
    && f.zero != f.one
  }

  lemma SubAdd<T(!new)>(f: Field<T>, a: T, b: T)
    requires IsField(f)
    ensures f.add(f.sub(a, b), b) == a
  {
    assert On2(a, b);
  }

  lemma Distribute<T(!new)>(f: Field<T>, a: T, b: T, c: T)
    requires IsField(f)
    ensures f.mul(a, f.add(b, c)) == f.add(f.mul(a, b), f.mul(a, c))
    ensures f.mul(f.add(b, c), a) == f.add(f.mul(b, a), f.mul(c, a))
  {
    assert On3(a, b, c);
    Swap(f.mul, a, f.add(b, c));
    Swap(f.mul, a, b);
    Swap(f.mul, a, c);
  }

  /** Adding c can be undone by adding a fixed element. */
  lemma AddCancels<T(!new)>(f: Field<T>, a: T, b: T, c: T)
    requires IsField(f)
    requires f.add(a, c) == f.add(b, c)
    ensures a == b
  {
    var n := f.sub(f.zero, c);
    SubAdd(f, f.zero, c);
    Swap(f.add, n, c);
    Shift(f.add, a, c, n);
    Shift(f.add, b, c, n);
    Unit(f.add, f.zero, a);
    Unit(f.add, f.zero, b);
  }

  lemma SubIs<T(!new)>(f: Field<T>, a: T, b: T, c: T)
    requires IsField(f)
    ensures f.sub(a, b) == c <==> a == f.add(c, b)
  {
    SubAdd(f, a, b);
    if a == f.add(c, b) {
      AddCancels(f, f.sub(a, b), c, b);
    }
  }

  lemma AddZero<T(!new)>(f: Field<T>, a: T)
    requires IsField(f)
    ensures f.add(a, f.zero) == a == f.add(f.zero, a)
  {
    Unit(f.add, f.zero, a);
    Swap(f.add, a, f.zero);
  }

  lemma MulZero<T(!new)>(f: Field<T>, a: T)
    requires IsField(f)
    ensures f.mul(a, f.zero) == f.zero == f.mul(f.zero, a)
  {
    var z := f.zero;
    AddZero(f, z);
    AddZero(f, f.mul(a, z));
    Distribute(f, a, z, z);
    AddCancels(f, f.mul(a, z), z, f.mul(a, z));
    Swap(f.mul, a, z);
  }

  lemma MulOne<T(!new)>(f: Field<T>, a: T)
    requires IsField(f)
    ensures f.mul(a, f.one) == a == f.mul(f.one, a)
  {
    Unit(f.mul, f.one, a);
    Swap(f.mul, a, f.one);
  }

  lemma DivIs<T(!new)>(f: Field<T>, a: T, b: T, c: T)
    requires IsField(f) && b != f.zero
    ensures f.div(a, b) == c <==> a == f.mul(c, b)
  {
    assert On2(a, b);
    if a == f.mul(c, b) {
      var d, i := f.div(a, b), f.div(f.one, b);
      assert On2(f.one, b);
      Swap(f.mul, i, b);
      Shift(f.mul, d, b, i);
      Shift(f.mul, c, b, i);
      MulOne(f, d);
      MulOne(f, c);
    }
  }
}

/** Arithmetic in GF(2^8) by logarithm and antilogarithm tables (gf.c), tied to the
    product of section 4.2 of FIPS 197. */
module Gf {
  import opened Laws
  import opened ShiftSum
  import opened Fields

  type byte = bv8

  function PickLog(d: byte, v0: nat, v1: nat, v2: nat, v3: nat, v4: nat, v5: nat, v6: nat, v7: nat): nat
  {
    if d < 4 then if d < 2 then if d < 1 then v0 else v1 else if d < 3 then v2 else v3
    else if d < 6 then if d < 5 then v4 else v5 else if d < 7 then v6 else v7
  }

  function PickByte(d: nat, v0: byte, v1: byte, v2: byte, v3: byte, v4: byte, v5: byte, v6: byte, v7: byte): byte
  {
    if d < 4 then if d < 2 then if d < 1 then v0 else v1 else if d < 3 then v2 else v3
    else if d < 6 then if d < 5 then v4 else v5 else if d < 7 then v6 else v7
  }

  /** ltable: logarithms to the base 0xe5. */
  function Ltable(a: byte): nat
  {
    if a < 0x08 then PickLog(a & 7, 0x00, 0xff, 0xc8, 0x08, 0x91, 0x10, 0xd0, 0x36)
    else if a < 0x10 then PickLog(a & 7, 0x5a, 0x3e, 0xd8, 0x43, 0x99, 0x77, 0xfe, 0x18)
    else if a < 0x18 then PickLog(a & 7, 0x23, 0x20, 0x07, 0x70, 0xa1, 0x6c, 0x0c, 0x7f)
    else if a < 0x20 then PickLog(a & 7, 0x62, 0x8b, 0x40, 0x46, 0xc7, 0x4b, 0xe0, 0x0e)
    else if a < 0x28 then PickLog(a & 7, 0xeb, 0x16, 0xe8, 0xad, 0xcf, 0xcd, 0x39, 0x53)
    else if a < 0x30 then PickLog(a & 7, 0x6a, 0x27, 0x35, 0x93, 0xd4, 0x4e, 0x48, 0xc3)
    else if a < 0x38 then PickLog(a & 7, 0x2b, 0x79, 0x54, 0x28, 0x09, 0x78, 0x0f, 0x21)
    else if a < 0x40 then PickLog(a & 7, 0x90, 0x87, 0x14, 0x2a, 0xa9, 0x9c, 0xd6, 0x74)
    else if a < 0x48 then PickLog(a & 7, 0xb4, 0x7c, 0xde, 0xed, 0xb1, 0x86, 0x76, 0xa4)
    else if a < 0x50 then PickLog(a & 7, 0x98, 0xe2, 0x96, 0x8f, 0x02, 0x32, 0x1c, 0xc1)
    else if a < 0x58 then PickLog(a & 7, 0x33, 0xee, 0xef, 0x81, 0xfd, 0x30, 0x5c, 0x13)
    else if a < 0x60 then PickLog(a & 7, 0x9d, 0x29, 0x17, 0xc4, 0x11, 0x44, 0x8c, 0x80)
    else if a < 0x68 then PickLog(a & 7, 0xf3, 0x73, 0x42, 0x1e, 0x1d, 0xb5, 0xf0, 0x12)
    else if a < 0x70 then PickLog(a & 7, 0xd1, 0x5b, 0x41, 0xa2, 0xd7, 0x2c, 0xe9, 0xd5)
    else if a < 0x78 then PickLog(a & 7, 0x59, 0xcb, 0x50, 0xa8, 0xdc, 0xfc, 0xf2, 0x56)
    else if a < 0x80 then PickLog(a & 7, 0x72, 0xa6, 0x65, 0x2f, 0x9f, 0x9b, 0x3d, 0xba)
    else if a < 0x88 then PickLog(a & 7, 0x7d, 0xc2, 0x45, 0x82, 0xa7, 0x57, 0xb6, 0xa3)
    else if a < 0x90 then PickLog(a & 7, 0x7a, 0x75, 0x4f, 0xae, 0x3f, 0x37, 0x6d, 0x47)
    else if a < 0x98 then PickLog(a & 7, 0x61, 0xbe, 0xab, 0xd3, 0x5f, 0xb0, 0x58, 0xaf)
    else if a < 0xa0 then PickLog(a & 7, 0xca, 0x5e, 0xfa, 0x85, 0xe4, 0x4d, 0x8a, 0x05)
    else if a < 0xa8 then PickLog(a & 7, 0xfb, 0x60, 0xb7, 0x7b, 0xb8, 0x26, 0x4a, 0x67)
    else if a < 0xb0 then PickLog(a & 7, 0xc6, 0x1a, 0xf8, 0x69, 0x25, 0xb3, 0xdb, 0xbd)
    else if a < 0xb8 then PickLog(a & 7, 0x66, 0xdd, 0xf1, 0xd2, 0xdf, 0x03, 0x8d, 0x34)
    else if a < 0xc0 then PickLog(a & 7, 0xd9, 0x92, 0x0d, 0x63, 0x55, 0xaa, 0x49, 0xec)
    else if a < 0xc8 then PickLog(a & 7, 0xbc, 0x95, 0x3c, 0x84, 0x0b, 0xf5, 0xe6, 0xe7)
    else if a < 0xd0 then PickLog(a & 7, 0xe5, 0xac, 0x7e, 0x6e, 0xb9, 0xf9, 0xda, 0x8e)
    else if a < 0xd8 then PickLog(a & 7, 0x9a, 0xc9, 0x24, 0xe1, 0x0a, 0x15, 0x6b, 0x3a)
    else if a < 0xe0 then PickLog(a & 7, 0xa0, 0x51, 0xf4, 0xea, 0xb2, 0x97, 0x9e, 0x5d)
    else if a < 0xe8 then PickLog(a & 7, 0x22, 0x88, 0x94, 0xce, 0x19, 0x01, 0x71, 0x4c)
    else if a < 0xf0 then PickLog(a & 7, 0xa5, 0xe3, 0xc5, 0x31, 0xbb, 0xcc, 0x1f, 0x2d)
    else if a < 0xf8 then PickLog(a & 7, 0x3b, 0x52, 0x6f, 0xf6, 0x2e, 0x89, 0xf7, 0xc0)
    else PickLog(a & 7, 0x68, 0x1b, 0x64, 0x04, 0x06, 0xbf, 0x83, 0x38)
  }

  /** atable: powers of 0xe5. */
  function Atable(i: nat): byte
  {
    if i < 0x08 then PickByte(i, 0x01, 0xe5, 0x4c, 0xb5, 0xfb, 0x9f, 0xfc, 0x12)
    else if i < 0x10 then PickByte(i - 0x08, 0x03, 0x34, 0xd4, 0xc4, 0x16, 0xba, 0x1f, 0x36)
    else if i < 0x18 then PickByte(i - 0x10, 0x05, 0x5c, 0x67, 0x57, 0x3a, 0xd5, 0x21, 0x5a)
    else if i < 0x20 then PickByte(i - 0x18, 0x0f, 0xe4, 0xa9, 0xf9, 0x4e, 0x64, 0x63, 0xee)
    else if i < 0x28 then PickByte(i - 0x20, 0x11, 0x37, 0xe0, 0x10, 0xd2, 0xac, 0xa5, 0x29)
    else if i < 0x30 then PickByte(i - 0x28, 0x33, 0x59, 0x3b, 0x30, 0x6d, 0xef, 0xf4, 0x7b)
    else if i < 0x38 then PickByte(i - 0x30, 0x55, 0xeb, 0x4d, 0x50, 0xb7, 0x2a, 0x07, 0x8d)
    else if i < 0x40 then PickByte(i - 0x38, 0xff, 0x26, 0xd7, 0xf0, 0xc2, 0x7e, 0x09, 0x8c)
    else if i < 0x48 then PickByte(i - 0x40, 0x1a, 0x6a, 0x62, 0x0b, 0x5d, 0x82, 0x1b, 0x8f)
    else if i < 0x50 then PickByte(i - 0x48, 0x2e, 0xbe, 0xa6, 0x1d, 0xe7, 0x9d, 0x2d, 0x8a)
    else if i < 0x58 then PickByte(i - 0x50, 0x72, 0xd9, 0xf1, 0x27, 0x32, 0xbc, 0x77, 0x85)
    else if i < 0x60 then PickByte(i - 0x58, 0x96, 0x70, 0x08, 0x69, 0x56, 0xdf, 0x99, 0x94)
    else if i < 0x68 then PickByte(i - 0x60, 0xa1, 0x90, 0x18, 0xbb, 0xfa, 0x7a, 0xb0, 0xa7)
    else if i < 0x70 then PickByte(i - 0x68, 0xf8, 0xab, 0x28, 0xd6, 0x15, 0x8e, 0xcb, 0xf2)
    else if i < 0x78 then PickByte(i - 0x70, 0x13, 0xe6, 0x78, 0x61, 0x3f, 0x89, 0x46, 0x0d)
    else if i < 0x80 then PickByte(i - 0x78, 0x35, 0x31, 0x88, 0xa3, 0x41, 0x80, 0xca, 0x17)
    else if i < 0x88 then PickByte(i - 0x80, 0x5f, 0x53, 0x83, 0xfe, 0xc3, 0x9b, 0x45, 0x39)
    else if i < 0x90 then PickByte(i - 0x88, 0xe1, 0xf5, 0x9e, 0x19, 0x5e, 0xb6, 0xcf, 0x4b)
    else if i < 0x98 then PickByte(i - 0x90, 0x38, 0x04, 0xb9, 0x2b, 0xe2, 0xc1, 0x4a, 0xdd)
    else if i < 0xa0 then PickByte(i - 0x98, 0x48, 0x0c, 0xd0, 0x7d, 0x3d, 0x58, 0xde, 0x7c)
    else if i < 0xa8 then PickByte(i - 0xa0, 0xd8, 0x14, 0x6b, 0x87, 0x47, 0xe8, 0x79, 0x84)
    else if i < 0xb0 then PickByte(i - 0xa8, 0x73, 0x3c, 0xbd, 0x92, 0xc9, 0x23, 0x8b, 0x97)
    else if i < 0xb8 then PickByte(i - 0xb0, 0x95, 0x44, 0xdc, 0xad, 0x40, 0x65, 0x86, 0xa2)
    else if i < 0xc0 then PickByte(i - 0xb8, 0xa4, 0xcc, 0x7f, 0xec, 0xc0, 0xaf, 0x91, 0xfd)
    else if i < 0xc8 then PickByte(i - 0xc0, 0xf7, 0x4f, 0x81, 0x2f, 0x5b, 0xea, 0xa8, 0x1c)
    else if i < 0xd0 then PickByte(i - 0xc8, 0x02, 0xd1, 0x98, 0x71, 0xed, 0x25, 0xe3, 0x24)
    else if i < 0xd8 then PickByte(i - 0xd0, 0x06, 0x68, 0xb3, 0x93, 0x2c, 0x6f, 0x3e, 0x6c)
    else if i < 0xe0 then PickByte(i - 0xd8, 0x0a, 0xb8, 0xce, 0xae, 0x74, 0xb1, 0x42, 0xb4)
    else if i < 0xe8 then PickByte(i - 0xe0, 0x1e, 0xd3, 0x49, 0xe9, 0x9c, 0xc8, 0xc6, 0xc7)
    else if i < 0xf0 then PickByte(i - 0xe8, 0x22, 0x6e, 0xdb, 0x20, 0xbf, 0x43, 0x51, 0x52)
    else if i < 0xf8 then PickByte(i - 0xf0, 0x66, 0xb2, 0x76, 0x60, 0xda, 0xc5, 0xf3, 0xf6)
    else PickByte(i - 0xf8, 0xaa, 0xcd, 0x9a, 0xa0, 0x75, 0x54, 0x0e, 0x01)
  }

  function Gadd(a: byte, b: byte): byte
  {
    a ^ b
  }

  function Gsub(a: byte, b: byte): byte
  {
    a ^ b
  }

  function Gmul(a: byte, b: byte): byte
  {
    var s := Atable((Ltable(a) + Ltable(b)) % 255);
    if a == 0 || b == 0 then 0 else s
  }

  /** Zero is its own inverse. */
  function GmulInverse(a: byte): byte
  {
    if a == 0 then 0 else
      TablesInvert(a);
      Atable(255 - Ltable(a))
  }

  /** Division by zero gives zero. */
  function Gdiv(a: byte, b: byte): byte
  {
    if b == 0 then 0 else Gmul(a, GmulInverse(b))
  }

  /** The operations of gf.c, as a field. */
  const GF: Field<byte> := Field(0, 1, Gadd, Gsub, Gmul, Gdiv)

  // ---------------------------------------------------------------- the reference product

  /** Multiplication by x modulo x^8 + x^4 + x^3 + x + 1: xtime() of section 4.2.1 of FIPS 197. */
  function XTime(a: byte): byte
  {
    (a << 1) ^ (if a & 0x80 != 0 then 0x1b else 0)
  }

  const POLYNOMIALS: Ops<byte> := Ops(0, Gadd, XTime)

  /** The coefficients of a, that of x^0 first. */
  function Bits(a: byte): seq<bool>
  {
    [a & 0x01 != 0, a & 0x02 != 0, a & 0x04 != 0, a & 0x08 != 0,
     a & 0x10 != 0, a & 0x20 != 0, a & 0x40 != 0, a & 0x80 != 0]
  }

  /** The product of section 4.2 of FIPS 197: the sum of x^i * b over the terms x^i of a. */
  function Product(a: byte, b: byte): byte
  {
    Sum(POLYNOMIALS, Bits(a), b)
  }

  lemma XTimeXor(a: byte, b: byte)
    ensures XTime(a ^ b) == XTime(a) ^ XTime(b)
  {
    if a & 0x80 != 0 {
      if b & 0x80 != 0 {
      } else {
      }
    } else if b & 0x80 != 0 {
    } else {
    }
  }

  lemma GaddCommutes()
    ensures Commutes(Gadd)
  {
    forall a: byte, b: byte
      ensures Gadd(a, b) == Gadd(b, a)
    {
    }
  }

  lemma GaddAssociates()
    ensures Associates(Gadd)
  {
    forall a: byte, b: byte, c: byte
      ensures Gadd(Gadd(a, b), c) == Gadd(a, Gadd(b, c))
    {
    }
  }

  lemma GaddUnit()
    ensures HasUnit(Gadd, 0)
  {
    forall a: byte
      ensures Gadd(a, 0) == a
    {
    }
  }

  lemma XTimePreservesGadd()
    ensures Preserves(XTime, Gadd)
  {
    forall a, b
      ensures XTime(Gadd(a, b)) == Gadd(XTime(a), XTime(b))
    {
      XTimeXor(a, b);
    }
  }

  lemma PolynomialsAdditive()
    ensures Additive(POLYNOMIALS)
  {
    GaddCommutes();
    GaddAssociates();
    GaddUnit();
    XTimePreservesGadd();
  }

  lemma SumFrom<T>(o: Ops<T>, bits: seq<bool>, i: nat, t: T)
    requires i < |bits|
    ensures Sum(o, bits[i..], t) == o.add(if bits[i] then t else o.zero, Sum(o, bits[i + 1..], o.shift(t)))
  {
    assert bits[i..][1..] == bits[i + 1..];
  }

  /** A sum of eight shifts, written out. */
  lemma SumOfEight<T>(o: Ops<T>, bits: seq<bool>, b: T)
    requires |bits| == 8
    ensures
      var pick := (i: nat, t: T) requires i < 8 => if bits[i] then t else o.zero;
      var b1 := o.shift(b);
      var b2 := o.shift(b1);
      var b3 := o.shift(b2);
      var b4 := o.shift(b3);
      var b5 := o.shift(b4);
      var b6 := o.shift(b5);
      var b7 := o.shift(b6);
      Sum(o, bits, b) ==
      o.add(pick(0, b), o.add(pick(1, b1), o.add(pick(2, b2), o.add(pick(3, b3),
      o.add(pick(4, b4), o.add(pick(5, b5), o.add(pick(6, b6), o.add(pick(7, b7), o.zero))))))))
  {
    var b1 := o.shift(b);
    var b2 := o.shift(b1);
    var b3 := o.shift(b2);
    var b4 := o.shift(b3);
    var b5 := o.shift(b4);
    var b6 := o.shift(b5);
    var b7 := o.shift(b6);
    assert bits[0..] == bits && bits[8..] == [];
    SumFrom(o, bits, 0, b);
    SumFrom(o, bits, 1, b1);
    SumFrom(o, bits, 2, b2);
    SumFrom(o, bits, 3, b3);
    SumFrom(o, bits, 4, b4);
    SumFrom(o, bits, 5, b5);
    SumFrom(o, bits, 6, b6);
    SumFrom(o, bits, 7, b7);
  }

  lemma ProductOneRight(a: byte)
    ensures Product(a, 1) == a
  {
    SumOfEight(POLYNOMIALS, Bits(a), 1);
  }

  lemma ProductCommutes(a: byte, b: byte)
    ensures Product(a, b) == Product(b, a)
  {
    PolynomialsAdditive();
    ProductOneRight(a);
    ProductOneRight(b);
    SumsCommute(POLYNOMIALS, Bits(a), Bits(b), 1);
  }

  lemma ProductAssociates(a: byte, b: byte, c: byte)
    ensures Product(Product(a, b), c) == Product(a, Product(b, c))
  {
    PolynomialsAdditive();
    ProductCommutes(Product(a, b), c);
    ProductCommutes(b, c);
    SumsCommute(POLYNOMIALS, Bits(c), Bits(a), b);
  }

  lemma ProductDistributes(a: byte, b: byte, c: byte)
    ensures Product(a, Gadd(b, c)) == Gadd(Product(a, b), Product(a, c))
  {
    PolynomialsAdditive();
    SumOfAdd(POLYNOMIALS, Bits(a), b, c);
  }

  // ---------------------------------------------------------------- the tables and the product

  /** Multiplication by the generator 0xe5, bit by bit. */
  function ByGenerator(a: byte): byte
  {
    (if a & 0x01 != 0 then 0xe5 else 0) ^ (if a & 0x02 != 0 then 0xd1 else 0)
    ^ (if a & 0x04 != 0 then 0xb9 else 0) ^ (if a & 0x08 != 0 then 0x69 else 0)
    ^ (if a & 0x10 != 0 then 0xd2 else 0) ^ (if a & 0x20 != 0 then 0xbf else 0)
    ^ (if a & 0x40 != 0 then 0x65 else 0) ^ (if a & 0x80 != 0 then 0xca else 0)
  }

  lemma ByGeneratorIsProduct(a: byte)
    ensures ByGenerator(a) == Product(0xe5, a)
  {
    ProductCommutes(0xe5, a);
    SumOfEight(POLYNOMIALS, Bits(a), 0xe5);
  }

  lemma AtableStep0(i: nat)
    requires 0 <= i < 64
    ensures Atable(i + 1) == ByGenerator(Atable(i))
  {
    if i < 16 {
      match i {
        case 0 => case 1 => case 2 => case 3 => case 4 => case 5 => case 6 => case 7 =>
        case 8 => case 9 => case 10 => case 11 => case 12 => case 13 => case 14 => case 15 =>
      }
    } else if i < 32 {
      match i {
        case 16 => case 17 => case 18 => case 19 => case 20 => case 21 => case 22 => case 23 =>
        case 24 => case 25 => case 26 => case 27 => case 28 => case 29 => case 30 => case 31 =>
      }
    } else if i < 48 {
      match i {
        case 32 => case 33 => case 34 => case 35 => case 36 => case 37 => case 38 => case 39 =>
        case 40 => case 41 => case 42 => case 43 => case 44 => case 45 => case 46 => case 47 =>
      }
    } else if i < 64 {
      match i {
        case 48 => case 49 => case 50 => case 51 => case 52 => case 53 => case 54 => case 55 =>
        case 56 => case 57 => case 58 => case 59 => case 60 => case 61 => case 62 => case 63 =>
      }
    }
  }

  lemma AtableStep1(i: nat)
    requires 64 <= i < 128
    ensures Atable(i + 1) == ByGenerator(Atable(i))
  {
    if i < 80 {
      match i {
        case 64 => case 65 => case 66 => case 67 => case 68 => case 69 => case 70 => case 71 =>
        case 72 => case 73 => case 74 => case 75 => case 76 => case 77 => case 78 => case 79 =>
      }
    } else if i < 96 {
      match i {
        case 80 => case 81 => case 82 => case 83 => case 84 => case 85 => case 86 => case 87 =>
        case 88 => case 89 => case 90 => case 91 => case 92 => case 93 => case 94 => case 95 =>
      }
    } else if i < 112 {
      match i {
        case 96 => case 97 => case 98 => case 99 => case 100 => case 101 => case 102 => case 103 =>
        case 104 => case 105 => case 106 => case 107 => case 108 => case 109 => case 110 => case 111 =>
      }
    } else if i < 128 {
      match i {
        case 112 => case 113 => case 114 => case 115 => case 116 => case 117 => case 118 => case 119 =>
        case 120 => case 121 => case 122 => case 123 => case 124 => case 125 => case 126 => case 127 =>
      }
    }
  }

  lemma AtableStep2(i: nat)
    requires 128 <= i < 192
    ensures Atable(i + 1) == ByGenerator(Atable(i))
  {
    if i < 144 {
      match i {
        case 128 => case 129 => case 130 => case 131 => case 132 => case 133 => case 134 => case 135 =>
        case 136 => case 137 => case 138 => case 139 => case 140 => case 141 => case 142 => case 143 =>
      }
    } else if i < 160 {
      match i {
        case 144 => case 145 => case 146 => case 147 => case 148 => case 149 => case 150 => case 151 =>
        case 152 => case 153 => case 154 => case 155 => case 156 => case 157 => case 158 => case 159 =>
      }
    } else if i < 176 {
      match i {
        case 160 => case 161 => case 162 => case 163 => case 164 => case 165 => case 166 => case 167 =>
        case 168 => case 169 => case 170 => case 171 => case 172 => case 173 => case 174 => case 175 =>
      }
    } else if i < 192 {
      match i {
        case 176 => case 177 => case 178 => case 179 => case 180 => case 181 => case 182 => case 183 =>
        case 184 => case 185 => case 186 => case 187 => case 188 => case 189 => case 190 => case 191 =>
      }
    }
  }

  lemma AtableStep3(i: nat)
    requires 192 <= i < 255
    ensures Atable(i + 1) == ByGenerator(Atable(i))
  {
    if i < 208 {
      match i {
        case 192 => case 193 => case 194 => case 195 => case 196 => case 197 => case 198 => case 199 =>
        case 200 => case 201 => case 202 => case 203 => case 204 => case 205 => case 206 => case 207 =>
      }
    } else if i < 224 {
      match i {
        case 208 => case 209 => case 210 => case 211 => case 212 => case 213 => case 214 => case 215 =>
        case 216 => case 217 => case 218 => case 219 => case 220 => case 221 => case 222 => case 223 =>
      }
    } else if i < 240 {
      match i {
        case 224 => case 225 => case 226 => case 227 => case 228 => case 229 => case 230 => case 231 =>
        case 232 => case 233 => case 234 => case 235 => case 236 => case 237 => case 238 => case 239 =>
      }
    } else if i < 256 {
      match i {
        case 240 => case 241 => case 242 => case 243 => case 244 => case 245 => case 246 => case 247 =>
        case 248 => case 249 => case 250 => case 251 => case 252 => case 253 => case 254 =>
      }
    }
  }

  /** The antilog table steps by the generator, and comes round after 255 steps. */
  lemma AtableStep(i: nat)
    requires i < 255
    ensures Atable(i + 1) == ByGenerator(Atable(i))
  {
    if i < 64 {
      AtableStep0(i);
    } else if i < 128 {
      AtableStep1(i);
    } else if i < 192 {
      AtableStep2(i);
    } else {
      AtableStep3(i);
    }
  }

  lemma TablesInvertLow(a: byte)
    requires 0 < a < 0x80
    ensures 1 <= Ltable(a) <= 255 && Atable(Ltable(a)) == a
  {
  }

  lemma TablesInvertHigh(a: byte)
    requires 0x80 <= a
    ensures 1 <= Ltable(a) <= 255 && Atable(Ltable(a)) == a
  {
  }

  /** The antilog of the logarithm of a nonzero byte is that byte. */
  lemma TablesInvert(a: byte)
    requires a != 0
    ensures 1 <= Ltable(a) <= 255 && Atable(Ltable(a)) == a
  {
    if a < 0x80 {
      TablesInvertLow(a);
    } else {
      TablesInvertHigh(a);
    }
  }

  /** If powers step by multiplication and come round after 255 steps, exponents add modulo 255. */
  lemma {:induction false} PowersAdd<T(!new)>(mul: (T, T) -> T, g: T, power: nat -> T, i: nat, j: nat)
    requires Associates(mul)
    requires mul(power(0), power(j)) == power(j)
    requires forall k: nat :: k < 255 ==> power(k + 1) == mul(g, power(k))
    requires power(255) == power(0)
    requires i <= 255 && j <= 255
    ensures mul(power(i), power(j)) == power((i + j) % 255)
    decreases i
  {
    if i > 0 {
      PowersAdd(mul, g, power, i - 1, j);
      var s := (i - 1 + j) % 255;
      Shift(mul, g, power(i - 1), power(j));
      assert (i + j) % 255 == if s + 1 == 255 then 0 else s + 1;
    }
  }

  lemma ProductIsAssociative()
    ensures Associates(Product)
  {
    forall a, b, c
      ensures Product(Product(a, b), c) == Product(a, Product(b, c))
    {
      ProductAssociates(a, b, c);
    }
  }

  lemma AtablePowers()
    ensures forall k: nat :: k < 255 ==> Atable(k + 1) == Product(0xe5, Atable(k))
  {
    forall k: nat | k < 255
      ensures Atable(k + 1) == Product(0xe5, Atable(k))
    {
      AtableStep(k);
      ByGeneratorIsProduct(Atable(k));
    }
  }

  lemma AtableOfSum(i: nat, j: nat)
    requires i <= 255 && j <= 255
    ensures Product(Atable(i), Atable(j)) == Atable((i + j) % 255)
  {
    ProductIsAssociative();
    AtablePowers();
    ProductCommutes(1, Atable(j));
    ProductOneRight(Atable(j));
    PowersAdd(Product, 0xe5, Atable, i, j);
  }

  lemma ProductZero(a: byte)
    ensures Product(a, 0) == 0 == Product(0, a)
  {
    PolynomialsAdditive();
    SumOfZero(POLYNOMIALS, Bits(a));
    ProductCommutes(0, a);
  }

  /** The tables compute the product of FIPS 197. */
  lemma GmulIsProduct(a: byte, b: byte)
    ensures Gmul(a, b) == Product(a, b)
  {
    if a == 0 {
      ProductZero(b);
    } else if b == 0 {
      ProductZero(a);
    } else {
      TablesInvert(a);
      TablesInvert(b);
      AtableOfSum(Ltable(a), Ltable(b));
    }
  }

  lemma InverseIsInverse(a: byte)
    requires a != 0
    ensures Product(GmulInverse(a), a) == 1
  {
    TablesInvert(a);
    AtableOfSum(255 - Ltable(a), Ltable(a));
  }

  lemma GdivUndoesGmul(a: byte, b: byte)
    requires b != 0
    ensures Gmul(Gdiv(a, b), b) == a
  {
    GmulIsProduct(a, GmulInverse(b));
    GmulIsProduct(Gdiv(a, b), b);
    ProductAssociates(a, GmulInverse(b), b);
    InverseIsInverse(b);
    ProductOneRight(a);
  }

  lemma GmulCommutes()
    ensures Commutes(Gmul)
  {
    forall a, b
      ensures Gmul(a, b) == Gmul(b, a)
    {
      GmulIsProduct(a, b);
      GmulIsProduct(b, a);
      ProductCommutes(a, b);
    }
  }

  lemma GmulAssociates()
    ensures Associates(Gmul)
  {
    forall a, b, c
      ensures Gmul(Gmul(a, b), c) == Gmul(a, Gmul(b, c))
    {
      GmulIsProduct(a, b);
      GmulIsProduct(b, c);
      GmulIsProduct(Gmul(a, b), c);
      GmulIsProduct(a, Gmul(b, c));
      ProductAssociates(a, b, c);
    }
  }

  lemma GmulUnit()
    ensures HasUnit(Gmul, 1)
  {
    forall a
      ensures Gmul(a, 1) == a
    {
      GmulIsProduct(a, 1);
      ProductOneRight(a);
    }
  }

  lemma GmulDistributes()
    ensures Distributes(Gmul, Gadd)
  {
    forall a, b, c
      ensures Gmul(a, Gadd(b, c)) == Gadd(Gmul(a, b), Gmul(a, c))
    {
      GmulIsProduct(a, Gadd(b, c));
      GmulIsProduct(a, b);
      GmulIsProduct(a, c);
      ProductDistributes(a, b, c);
    }
  }

  lemma GsubUndoesGadd()
    ensures SubUndoesAdd(GF)
  {
    forall a: byte, b: byte
      ensures Gadd(Gsub(a, b), b) == a
    {
    }
  }

  lemma GdivUndoes()
    ensures DivUndoesMul(GF)
  {
    forall a, b | b != 0
      ensures Gmul(Gdiv(a, b), b) == a
    {
      GdivUndoesGmul(a, b);
    }
  }

  /** The table arithmetic of gf.c is a field. */
  lemma GfIsField()
    ensures IsField(GF)
  {
    GaddCommutes();
    GaddAssociates();
    GaddUnit();
    GmulCommutes();
    GmulAssociates();
    GmulUnit();
    GmulDistributes();
    GsubUndoesGadd();
    GdivUndoes();
  }
}
