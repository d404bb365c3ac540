/** The decoder (skbs_decoding and skb_substi in mnc_rx.c). */
module Decoder {
  import opened Wrappers
  import opened Laws
  import opened Fields
  import opened Linear
  import opened Lu
  import opened Solve
  import opened Packets
  import opened Picks

  /** A queue of buffers that its users change in place. */
  class Queue<X> {
    var items: seq<X>

    constructor ()
      ensures items == []
    {
      items := [];
    }

    method Dequeue() returns (x: X)
      requires items != []
      modifies this
      ensures x == old(items)[0] && items == old(items)[1..]
    {
      x := items[0];
      items := items[1..];
    }

    method Tail(x: X)
      modifies this
      ensures items == old(items) + [x]
    {
      items := items + [x];
    }
  }

  ghost predicate WellFormed<T>(s: Skb<T>, k: nat, p: nat, len: nat)
  {
    if s.Systematic() then s.Index() < k && |s.body| == len else |s.body| == p * p * k + len
  }

  ghost predicate AllWellFormed<T>(q: seq<Skb<T>>, k: nat, p: nat, len: nat)
  {
    forall i :: 0 <= i < |q| ==> WellFormed(q[i], k, p, len)
  }

  // ---------------------------------------------------------------- sorting packets into slots

  ghost function CodedOf<T>(q: seq<Skb<T>>): seq<Skb<T>>
  {
    if q == [] then []
    else
      var c := CodedOf(q[..|q| - 1]);
      if q[|q| - 1].Systematic() then c else c + [q[|q| - 1]]
  }

  lemma {:induction false} CodedMember<T>(q: seq<Skb<T>>, s: Skb<T>)
    requires s in CodedOf(q)
    ensures s in q && !s.Systematic()
    decreases |q|
  {
    var last := q[|q| - 1];
    if s != last || last.Systematic() {
      CodedMember(q[..|q| - 1], s);
    }
  }

  ghost predicate NoDuplicates<T>(q: seq<Skb<T>>)
  {
    forall i, j :: 0 <= i < j < |q| && q[i].Systematic() && q[j].Systematic() ==> q[i].Index() != q[j].Index()
  }

  ghost predicate HasIndex<T>(q: seq<Skb<T>>, m: nat)
  {
    exists i :: 0 <= i < |q| && q[i].Systematic() && q[i].Index() == m
  }

  ghost function Count(s: seq<bool>): (c: nat)
    ensures c <= |s|
  {
    if s == [] then 0 else Count(s[..|s| - 1]) + if s[|s| - 1] then 1 else 0
  }

  lemma {:induction false} CountSet(s: seq<bool>, i: nat)
    requires i < |s| && !s[i]
    ensures Count(s[i := true]) == Count(s) + 1
    decreases |s|
  {
    var t := s[i := true];
    if i < |s| - 1 {
      assert t[..|s| - 1] == s[..|s| - 1][i := true];
      CountSet(s[..|s| - 1], i);
    } else {
      assert t[..|s| - 1] == s[..|s| - 1];
    }
  }

  lemma {:induction false} CountRest(s: seq<bool>, i: nat)
    requires i <= |s|
    ensures Count(s) <= Count(s[..i]) + |s| - i
    decreases |s|
  {
    if i < |s| {
      CountRest(s[..|s| - 1], i);
      assert s[..|s| - 1][..i] == s[..i];
    } else {
      assert s[..i] == s;
    }
  }

  lemma {:induction false} CountNone(s: seq<bool>)
    requires forall i :: 0 <= i < |s| ==> !s[i]
    ensures Count(s) == 0
    decreases |s|
  {
    if s != [] {
      CountNone(s[..|s| - 1]);
    }
  }

  /** The occupied slots, in order. */
  ghost function Filled<X>(slots: seq<Option<X>>): seq<X>
  {
    if slots == [] then []
    else
      var r := Filled(slots[..|slots| - 1]);
      if slots[|slots| - 1].None? then r else r + [slots[|slots| - 1].value]
  }

  lemma {:induction false} FilledMember<X>(slots: seq<Option<X>>, x: X)
    ensures x in Filled(slots) <==> Some(x) in slots
    decreases |slots|
  {
    if slots != [] {
      FilledMember(slots[..|slots| - 1], x);
      assert slots == slots[..|slots| - 1] + [slots[|slots| - 1]];
    }
  }

  ghost function Occupied<X>(slots: seq<Option<X>>): (b: seq<bool>)
    ensures |b| == |slots| && forall i :: 0 <= i < |b| ==> b[i] == slots[i].Some?
  {
    seq(|slots|, i requires 0 <= i < |slots| => slots[i].Some?)
  }

  lemma {:induction false} FilledCount<X>(slots: seq<Option<X>>)
    ensures |Filled(slots)| == Count(Occupied(slots))
    decreases |slots|
  {
    if slots != [] {
      FilledCount(slots[..|slots| - 1]);
      assert Occupied(slots)[..|slots| - 1] == Occupied(slots[..|slots| - 1]);
    }
  }

  method Requeue<X>(skb: array<Option<X>>, skbs: Queue<X>)
    modifies skbs
    ensures skbs.items == old(skbs.items) + Filled(skb[..])
  {
    for j := 0 to skb.Length
      invariant skbs.items == old(skbs.items) + Filled(skb[..j])
    {
      assert skb[..j + 1][..j] == skb[..j];
      if skb[j].Some? {
        skbs.Tail(skb[j].value);
      }
    }
    assert skb[..skb.Length] == skb[..];
  }

  /** What the slots say of the packets taken so far. */
  ghost predicate Sorted<T>(q: seq<Skb<T>>, skb: seq<Option<Skb<T>>>, isSys: seq<bool>)
  {
    && |skb| == |isSys|
    && NoDuplicates(q)
    && (forall m :: 0 <= m < |skb| ==> isSys[m] == skb[m].Some?)
    && (forall m :: 0 <= m < |skb| && isSys[m] ==>
       skb[m].value in q && skb[m].value.Systematic() && skb[m].value.Index() == m)
    && (forall t :: 0 <= t < |q| && q[t].Systematic() ==> q[t].Index() < |skb| && skb[q[t].Index()] == Some(q[t]))
    && Count(isSys) + |CodedOf(q)| == |q|
  }

  lemma SortedSystematic<T>(q: seq<Skb<T>>, s: Skb<T>, skb: seq<Option<Skb<T>>>, isSys: seq<bool>)
    requires Sorted(q, skb, isSys) && s.Systematic() && s.Index() < |skb| && !isSys[s.Index()]
    ensures Sorted(q + [s], skb[s.Index() := Some(s)], isSys[s.Index() := true])
  {
    var all := q + [s];
    CountSet(isSys, s.Index());
    assert all[..|q|] == q && all[|q|] == s;
    forall t | 0 <= t < |q|
      ensures all[t] == q[t] && (q[t].Systematic() ==> q[t].Index() != s.Index())
    {
    }
  }

  lemma SortedCoded<T>(q: seq<Skb<T>>, s: Skb<T>, skb: seq<Option<Skb<T>>>, isSys: seq<bool>)
    requires Sorted(q, skb, isSys) && !s.Systematic()
    ensures Sorted(q + [s], skb, isSys)
  {
    assert (q + [s])[..|q|] == q;
  }

  /** The slots after sorting: systematic packets at their own index, coded ones in the gaps, in
      the order they arrived. */
  ghost predicate Slotted<T>(q: seq<Skb<T>>, slots: seq<Skb<T>>, isSys: seq<bool>)
  {
    && |slots| == |isSys| == |q|
    && (forall m :: 0 <= m < |slots| ==> slots[m] in q)
    && (forall m :: 0 <= m < |slots| ==> isSys[m] == slots[m].Systematic())
    && (forall m :: 0 <= m < |slots| && isSys[m] ==> slots[m].Index() == m)
    && (forall t :: 0 <= t < |q| && q[t].Systematic() ==> q[t].Index() < |slots| && slots[q[t].Index()] == q[t])
    && CodedOf(slots) == CodedOf(q)
  }

  /** A failed attempt loses no systematic index, invents nothing, and leaves room. */
  ghost predicate Retains<T>(q: seq<Skb<T>>, rest: seq<Skb<T>>)
  {
    && |rest| < |q|
    && (forall s :: s in rest ==> s in q)
    && (forall m :: HasIndex(q, m) ==> HasIndex(rest, m))
  }

  /** What an attempt does that meets an index a second time: the first packet to double an index goes, and every
      other packet stays. */
  ghost predicate DropsDoubled<T>(q: seq<Skb<T>>, rest: seq<Skb<T>>)
  {
    exists d: nat :: FirstDoubled(q, d) && multiset(q) == multiset(rest) + multiset{q[d]}
  }

  /** How an attempt that meets an index a second time leaves the queue. */
  ghost predicate GivesUp<T>(q: seq<Skb<T>>, rest: seq<Skb<T>>)
  {
    !NoDuplicates(q) && Retains(q, rest) && DropsDoubled(q, rest)
  }

  ghost predicate FirstDoubled<T>(q: seq<Skb<T>>, d: nat)
  {
    d < |q| && NoDuplicates(q[..d]) && q[d].Systematic() && HasIndex(q[..d], q[d].Index())
  }

  /** How many of the first n slots hold y. */
  ghost function Holding<X>(slots: seq<Option<X>>, n: nat, y: X): nat
    requires n <= |slots|
  {
    if n == 0 then 0 else Holding(slots, n - 1, y) + if slots[n - 1] == Some(y) then 1 else 0
  }

  lemma {:induction false} HoldingIs<X>(slots: seq<Option<X>>, y: X)
    ensures multiset(Filled(slots))[y] == Holding(slots, |slots|, y)
    decreases |slots|
  {
    if slots != [] {
      var n := |slots| - 1;
      var front := slots[..n];
      HoldingIs(front, y);
      HoldingSame(slots, front, n, y);
      if slots[n].Some? {
        CountSnoc(Filled(front), slots[n].value, y);
      }
    }
  }

  lemma {:induction false} HoldingSame<X>(slots: seq<Option<X>>, front: seq<Option<X>>, n: nat, y: X)
    requires n <= |front| <= |slots| && forall m :: 0 <= m < n ==> slots[m] == front[m]
    ensures Holding(slots, n, y) == Holding(front, n, y)
    decreases n
  {
    if n > 0 {
      HoldingSame(slots, front, n - 1, y);
    }
  }

  lemma CountSnoc<X>(a: seq<X>, v: X, y: X)
    ensures multiset(a + [v])[y] == multiset(a)[y] + if v == y then 1 else 0
  {
  }

  lemma {:induction false} HoldingTake<X>(slots: seq<Option<X>>, taken: seq<Option<X>>, m: nat, n: nat, y: X)
    requires m < |slots| && n <= |slots| && slots[m].Some? && taken == slots[m := None]
    ensures Holding(slots, n, y) == Holding(taken, n, y) + if m < n && slots[m] == Some(y) then 1 else 0
    decreases n
  {
    if n > 0 {
      HoldingTake(slots, taken, m, n - 1, y);
    }
  }

  lemma {:induction false} HoldingNone<X>(slots: seq<Option<X>>, n: nat, y: X)
    requires n <= |slots| && forall m :: 0 <= m < |slots| ==> slots[m].None?
    ensures Holding(slots, n, y) == 0
    decreases n
  {
    if n > 0 {
      HoldingNone(slots, n - 1, y);
    }
  }

  /** The slots hold the systematic packets, each at its index. */
  ghost predicate InSlots<T>(q: seq<Skb<T>>, skb: seq<Option<Skb<T>>>)
  {
    && (forall m :: 0 <= m < |skb| && skb[m].Some? ==> HeldAt(q, skb[m].value, m))
    && (forall t :: 0 <= t < |q| && q[t].Systematic() ==> q[t].Index() < |skb| && skb[q[t].Index()] == Some(q[t]))
  }

  ghost predicate HeldAt<T>(q: seq<Skb<T>>, s: Skb<T>, m: nat)
  {
    s in q && s.Systematic() && s.Index() == m
  }

  /** Without the packet that came last. */
  lemma InSlotsBefore<T>(q: seq<Skb<T>>, s: Skb<T>, skb: seq<Option<Skb<T>>>)
    requires NoDuplicates(q + [s]) && InSlots(q + [s], skb)
    ensures s.Systematic() ==> s.Index() < |skb| && skb[s.Index()] == Some(s) && InSlots(q, skb[s.Index() := None])
    ensures !s.Systematic() ==> InSlots(q, skb)
    ensures NoDuplicates(q)
  {
    var all := q + [s];
    assert all[|q|] == s;
    forall t | 0 <= t < |q|
      ensures all[t] == q[t] && (q[t].Systematic() && s.Systematic() ==> q[t].Index() != s.Index())
    {
    }
    forall m | 0 <= m < |skb| && skb[m].Some? && !(s.Systematic() && m == s.Index())
      ensures HeldAt(q, skb[m].value, m)
    {
      assert HeldAt(all, skb[m].value, m) && skb[m].value != s;
    }
  }

  /** Slots and coded packets together are the packets taken. */
  lemma {:induction false} SortedAll<T>(q: seq<Skb<T>>, skb: seq<Option<Skb<T>>>, y: Skb<T>)
    requires NoDuplicates(q) && InSlots(q, skb)
    ensures Holding(skb, |skb|, y) + multiset(CodedOf(q))[y] == multiset(q)[y]
    decreases |q|
  {
    if q == [] {
      HoldingNone(skb, |skb|, y);
    } else {
      var n := |q| - 1;
      var s := q[n];
      assert q[..n] + [s] == q;
      InSlotsBefore(q[..n], s, skb);
      if s.Systematic() {
        var taken := skb[s.Index() := None];
        HoldingTake(skb, taken, s.Index(), |skb|, y);
        SortedAll(q[..n], taken, y);
      } else {
        SortedAll(q[..n], skb, y);
      }
    }
  }

  lemma AllTaken<T>(q: seq<Skb<T>>, skb: seq<Option<Skb<T>>>)
    requires NoDuplicates(q) && InSlots(q, skb)
    ensures multiset(Filled(skb)) + multiset(CodedOf(q)) == multiset(q)
  {
    var a, b, c := multiset(Filled(skb)), multiset(CodedOf(q)), multiset(q);
    forall y
      ensures a[y] + b[y] == c[y]
    {
      SortedAll(q, skb, y);
      HoldingIs(skb, y);
    }
    SumIs(a, b, c);
  }

  lemma SumIs<X>(a: multiset<X>, b: multiset<X>, c: multiset<X>)
    requires forall y :: a[y] + b[y] == c[y]
    ensures a + b == c
  {
    forall y
      ensures (a + b)[y] == c[y]
    {
    }
  }

  lemma DoubledDropped<T>(q: seq<Skb<T>>, i: nat, skb: seq<Option<Skb<T>>>, isSys: seq<bool>, rest: seq<Skb<T>>)
    requires i < |q| && Sorted(q[..i], skb, isSys)
    requires q[i].Systematic() && q[i].Index() < |skb| && isSys[q[i].Index()]
    requires rest == q[i + 1..] + CodedOf(q[..i]) + Filled(skb)
    ensures DropsDoubled(q, rest)
  {
    assert InSlots(q[..i], skb) by {
      assert forall m :: 0 <= m < |skb| && skb[m].Some? ==> HeldAt(q[..i], skb[m].value, m);
    }
    AllTaken(q[..i], skb);
    Parted(q, i, CodedOf(q[..i]), Filled(skb));
    var t :| 0 <= t < i && q[..i][t] == skb[q[i].Index()].value;
    assert FirstDoubled(q, i);
  }

  lemma Parted<X>(q: seq<X>, i: nat, a: seq<X>, b: seq<X>)
    requires i < |q| && multiset(b) + multiset(a) == multiset(q[..i])
    ensures multiset(q) == multiset(q[i + 1..] + a + b) + multiset{q[i]}
  {
    assert q == q[..i] + [q[i]] + q[i + 1..];
  }

  lemma IndexKept<T>(q: seq<Skb<T>>, i: nat, skb: seq<Option<Skb<T>>>, isSys: seq<bool>, rest: seq<Skb<T>>, m: nat)
    requires i < |q| && Sorted(q[..i], skb, isSys)
    requires q[i].Systematic() && q[i].Index() < |skb| && isSys[q[i].Index()]
    requires rest == q[i + 1..] + CodedOf(q[..i]) + Filled(skb)
    requires HasIndex(q, m)
    ensures HasIndex(rest, m)
  {
    var u :| 0 <= u < |q| && q[u].Systematic() && q[u].Index() == m;
    if u > i {
      assert rest[u - i - 1] == q[u];
    } else {
      assert u < i ==> q[..i][u] == q[u];
      var s := skb[m].value;
      FilledMember(skb, s);
      var v :| 0 <= v < |Filled(skb)| && Filled(skb)[v] == s;
      ThirdPart(q[i + 1..], CodedOf(q[..i]), Filled(skb), v);
    }
  }

  lemma ThirdPart<X>(a: seq<X>, b: seq<X>, c: seq<X>, v: nat)
    requires v < |c|
    ensures (a + b + c)[|a| + |b| + v] == c[v]
  {
  }

  lemma DuplicateRetains<T>(q: seq<Skb<T>>, i: nat, skb: seq<Option<Skb<T>>>, isSys: seq<bool>, rest: seq<Skb<T>>)
    requires i < |q| && Sorted(q[..i], skb, isSys)
    requires q[i].Systematic() && q[i].Index() < |skb| && isSys[q[i].Index()]
    requires rest == q[i + 1..] + CodedOf(q[..i]) + Filled(skb)
    ensures !NoDuplicates(q) && Retains(q, rest)
  {
    var d := skb[q[i].Index()].value;
    assert d in q[..i];
    var t :| 0 <= t < i && q[..i][t] == d;
    assert !NoDuplicates(q) by {
      assert q[t].Systematic() && q[t].Index() == q[i].Index();
    }
    FilledCount(skb);
    assert Occupied(skb) == isSys;
    forall s | s in rest
      ensures s in q
    {
      FilledMember(skb, s);
      if s in CodedOf(q[..i]) {
        CodedMember(q[..i], s);
      } else if s in Filled(skb) {
        var m :| 0 <= m < |skb| && skb[m] == Some(s);
        assert s in q[..i];
      }
    }
    forall m | HasIndex(q, m)
      ensures HasIndex(rest, m)
    {
      IndexKept(q, i, skb, isSys, rest, m);
    }
  }

  method ClearSlots<X>(skb: array<Option<X>>, isSys: array<bool>)
    requires skb.Length == isSys.Length
    modifies skb, isSys
    ensures forall m :: 0 <= m < skb.Length ==> skb[m] == None && !isSys[m]
  {
    for i := 0 to skb.Length
      invariant forall m :: 0 <= m < i ==> skb[m] == None && !isSys[m]
    {
      skb[i], isSys[i] := None, false;
    }
  }

  ghost predicate Taking<T>(skbs: Queue<Skb<T>>, q: seq<Skb<T>>, i: nat, skb: array<Option<Skb<T>>>, isSys: array<bool>)
    requires i <= |q|
    reads skbs, skb, isSys
  {
    Sorted(q[..i], skb[..], isSys[..]) && skbs.items == q[i..] + CodedOf(q[..i])
  }

  method Place<T>(s: Skb<T>, skb: array<Option<Skb<T>>>, isSys: array<bool>, ghost q: seq<Skb<T>>)
    requires skb.Length == isSys.Length && s.Systematic() && s.Index() < skb.Length && !isSys[s.Index()]
    requires Sorted(q, skb[..], isSys[..])
    modifies skb, isSys
    ensures Sorted(q + [s], skb[..], isSys[..])
  {
    var m := s.Index();
    SortedSystematic(q, s, skb[..], isSys[..]);
    ghost var skb', isSys' := skb[..][m := Some(s)], isSys[..][m := true];
    isSys[m] := true;
    skb[m] := Some(s);
    assert skb[..] == skb' && isSys[..] == isSys';
  }

  lemma TakingNext<T>(q: seq<Skb<T>>, i: nat, queue: seq<Skb<T>>)
    requires i < |q| && queue == q[i..] + CodedOf(q[..i])
    ensures queue[0] == q[i] && queue[1..] == q[i + 1..] + CodedOf(q[..i])
    ensures q[..i + 1] == q[..i] + [q[i]]
    ensures q[i].Systematic() ==> queue[1..] == q[i + 1..] + CodedOf(q[..i + 1])
    ensures !q[i].Systematic() ==> queue[1..] + [q[i]] == q[i + 1..] + CodedOf(q[..i + 1])
  {
    assert q[..i + 1] == q[..i] + [q[i]];
    CodedSnoc(q[..i], q[i]);
  }

  lemma TakingEnds<T>(q: seq<Skb<T>>)
    ensures q[..0] == [] && q[0..] + CodedOf(q[..0]) == q && q[..|q|] == q && q[|q|..] + CodedOf(q) == CodedOf(q)
  {
  }

  method TakeClear<T>(skbs: Queue<Skb<T>>, s: Skb<T>, ghost q: seq<Skb<T>>, ghost i: nat, skb: array<Option<Skb<T>>>,
                      isSys: array<bool>) returns (ok: bool)
    requires i < |q| && skb.Length == isSys.Length && s == q[i] && s.Systematic() && s.Index() < skb.Length
    requires Sorted(q[..i], skb[..], isSys[..]) && skbs.items == q[i + 1..] + CodedOf(q[..i])
    modifies skbs, skb, isSys
    ensures ok ==> Sorted(q[..i] + [s], skb[..], isSys[..]) && skbs.items == old(skbs.items)
    ensures !ok ==> GivesUp(q, skbs.items)
  {
    ok := !isSys[s.Index()];
    if ok {
      Place(s, skb, isSys, q[..i]);
    } else {
      Requeue(skb, skbs);
      DuplicateRetains(q, i, skb[..], isSys[..], skbs.items);
      DoubledDropped(q, i, skb[..], isSys[..], skbs.items);
    }
  }

  method TakeOne<T>(skbs: Queue<Skb<T>>, ghost q: seq<Skb<T>>, ghost i: nat, skb: array<Option<Skb<T>>>,
                    isSys: array<bool>) returns (ok: bool)
    requires i < |q| && skb.Length == isSys.Length
    requires q[i].Systematic() ==> q[i].Index() < skb.Length
    requires Taking(skbs, q, i, skb, isSys)
    modifies skbs, skb, isSys
    ensures ok ==> Taking(skbs, q, i + 1, skb, isSys)
    ensures !ok ==> GivesUp(q, skbs.items)
  {
    TakingNext(q, i, skbs.items);
    var s := skbs.Dequeue();
    if s.Systematic() {
      ok := TakeClear(skbs, s, q, i, skb, isSys);
    } else {
      SortedCoded(q[..i], s, skb[..], isSys[..]);
      skbs.Tail(s);
      ok := true;
    }
  }

  /** Systematic packets go to their slots and coded ones back to the queue; a second packet with
      the same index ends the attempt. */
  method TakeSystematic<T>(skbs: Queue<Skb<T>>, k: nat, skb: array<Option<Skb<T>>>, isSys: array<bool>)
      returns (ok: bool)
    requires skb.Length == isSys.Length == k && |skbs.items| == k
    requires forall i :: 0 <= i < k && skbs.items[i].Systematic() ==> skbs.items[i].Index() < k
    modifies skbs, skb, isSys
    ensures ok <==> NoDuplicates(old(skbs.items))
    ensures ok ==> Sorted(old(skbs.items), skb[..], isSys[..]) && skbs.items == CodedOf(old(skbs.items))
    ensures !ok ==> GivesUp(old(skbs.items), skbs.items)
  {
    ghost var q := skbs.items;
    ClearSlots(skb, isSys);
    CountNone(isSys[..]);
    TakingEnds(q);
    for i := 0 to k
      invariant Taking(skbs, q, i, skb, isSys)
    {
      ok := TakeOne(skbs, q, i, skb, isSys);
      if !ok {
        return;
      }
    }
    ok := true;
  }

  /** Filling the gaps: slots before i are done, and the queue holds the coded packets to come. */
  ghost predicate Filling<T>(q: seq<Skb<T>>, skb: seq<Option<Skb<T>>>, isSys: seq<bool>, i: nat, queue: seq<Skb<T>>)
  {
    && i <= |skb| == |isSys| == |q|
    && FilledSlots(q, skb, isSys, i)
    && CodedOf(Filled(skb[..i])) + queue == CodedOf(q)
    && |queue| + Count(isSys) + i == |q| + Count(isSys[..i])
  }

  ghost predicate FilledSlots<T>(q: seq<Skb<T>>, skb: seq<Option<Skb<T>>>, isSys: seq<bool>, i: nat)
    requires i <= |skb| == |isSys| == |q|
  {
    && (forall m :: 0 <= m < i ==> skb[m].Some?)
    && (forall m :: 0 <= m < |skb| && isSys[m] ==>
       skb[m].Some? && skb[m].value in q && skb[m].value.Systematic() && skb[m].value.Index() == m)
    && (forall m :: 0 <= m < i && !isSys[m] ==> skb[m].value in q && !skb[m].value.Systematic())
    && (forall t :: 0 <= t < |q| && q[t].Systematic() ==>
       q[t].Index() < |skb| && isSys[q[t].Index()] && skb[q[t].Index()] == Some(q[t]))
  }

  method FillGaps<T>(skbs: Queue<Skb<T>>, k: nat, skb: array<Option<Skb<T>>>, isSys: array<bool>, ghost q: seq<Skb<T>>)
    requires skb.Length == isSys.Length == k == |q|
    requires Sorted(q, skb[..], isSys[..]) && skbs.items == CodedOf(q)
    modifies skbs, skb
    ensures Filling(q, skb[..], isSys[..], k, skbs.items)
  {
    FillingStart(q, skb[..], isSys[..]);
    for i := 0 to k
      invariant Filling(q, skb[..], isSys[..], i, skbs.items)
    {
      if !isSys[i] {
        FillingGap(q, skb[..], isSys[..], i, skbs.items);
        FillGap(skbs, skb, i);
      } else {
        FillingStep(q, skb[..], isSys[..], i, skbs.items);
      }
    }
  }

  method FillGap<X>(skbs: Queue<X>, skb: array<Option<X>>, i: nat)
    requires i < skb.Length && skbs.items != []
    modifies skbs, skb
    ensures skb[..] == old(skb[..])[i := Some(old(skbs.items)[0])] && skbs.items == old(skbs.items)[1..]
  {
    var s := skbs.Dequeue();
    skb[i] := Some(s);
  }

  lemma FillingStart<T>(q: seq<Skb<T>>, skb: seq<Option<Skb<T>>>, isSys: seq<bool>)
    requires |skb| == |q| && Sorted(q, skb, isSys)
    ensures Filling(q, skb, isSys, 0, CodedOf(q))
  {
    assert skb[..0] == [] && isSys[..0] == [];
    assert CodedOf(Filled(skb[..0])) == [];
  }

  lemma CodedSnoc<T>(q: seq<Skb<T>>, s: Skb<T>)
    ensures CodedOf(q + [s]) == if s.Systematic() then CodedOf(q) else CodedOf(q) + [s]
  {
    assert (q + [s])[..|q|] == q;
  }

  lemma FilledSnoc<X>(slots: seq<Option<X>>, i: nat)
    requires i < |slots| && slots[i].Some?
    ensures Filled(slots[..i + 1]) == Filled(slots[..i]) + [slots[i].value]
  {
    assert slots[..i + 1][..i] == slots[..i];
  }

  lemma FillingStep<T>(q: seq<Skb<T>>, skb: seq<Option<Skb<T>>>, isSys: seq<bool>, i: nat, queue: seq<Skb<T>>)
    requires Filling(q, skb, isSys, i, queue) && i < |q| && isSys[i]
    ensures Filling(q, skb, isSys, i + 1, queue)
  {
    assert isSys[..i + 1][..i] == isSys[..i];
    FilledSnoc(skb, i);
    CodedSnoc(Filled(skb[..i]), skb[i].value);
  }

  lemma GapSlots<T>(q: seq<Skb<T>>, skb: seq<Option<Skb<T>>>, isSys: seq<bool>, i: nat, s: Skb<T>)
    requires i < |skb| == |isSys| == |q| && FilledSlots(q, skb, isSys, i) && !isSys[i] && s in q && !s.Systematic()
    ensures FilledSlots(q, skb[i := Some(s)], isSys, i + 1)
  {
  }

  lemma GapCoded<T>(skb: seq<Option<Skb<T>>>, i: nat, queue: seq<Skb<T>>)
    requires i < |skb| && queue != [] && !queue[0].Systematic()
    ensures CodedOf(Filled(skb[i := Some(queue[0])][..i + 1])) + queue[1..] == CodedOf(Filled(skb[..i])) + queue
  {
    var skb' := skb[i := Some(queue[0])];
    assert skb'[..i] == skb[..i];
    FilledSnoc(skb', i);
    CodedSnoc(Filled(skb[..i]), queue[0]);
    Regroup(CodedOf(Filled(skb[..i])), queue);
  }

  lemma Regroup<X>(a: seq<X>, queue: seq<X>)
    requires queue != []
    ensures a + [queue[0]] + queue[1..] == a + queue
  {
  }

  lemma FillingGap<T>(q: seq<Skb<T>>, skb: seq<Option<Skb<T>>>, isSys: seq<bool>, i: nat, queue: seq<Skb<T>>)
    requires Filling(q, skb, isSys, i, queue) && i < |q| && !isSys[i]
    ensures queue != [] && Filling(q, skb[i := Some(queue[0])], isSys, i + 1, queue[1..])
  {
    assert isSys[..i + 1][..i] == isSys[..i];
    CountRest(isSys, i + 1);
    var c := CodedOf(Filled(skb[..i]));
    assert queue[0] == (c + queue)[|c|];
    assert queue[0] in CodedOf(q);
    CodedMember(q, queue[0]);
    GapSlots(q, skb, isSys, i, queue[0]);
    GapCoded(skb, i, queue);
  }

  ghost function Values<X>(slots: seq<Option<X>>): (r: seq<X>)
    requires forall m :: 0 <= m < |slots| ==> slots[m].Some?
    ensures |r| == |slots| && forall m :: 0 <= m < |slots| ==> r[m] == slots[m].value
  {
    seq(|slots|, m requires 0 <= m < |slots| => slots[m].value)
  }

  lemma {:induction false} FilledAll<X>(slots: seq<Option<X>>)
    requires forall m :: 0 <= m < |slots| ==> slots[m].Some?
    ensures Filled(slots) == Values(slots)
    decreases |slots|
  {
    if slots != [] {
      FilledAll(slots[..|slots| - 1]);
    }
  }

  lemma DoneCoded<T>(q: seq<Skb<T>>, skb: seq<Option<Skb<T>>>)
    requires (forall m :: 0 <= m < |skb| ==> skb[m].Some?) && |skb| == |q|
             && CodedOf(Filled(skb[..|q|])) + [] == CodedOf(q)
    ensures CodedOf(Values(skb)) == CodedOf(q)
  {
    assert skb[..|q|] == skb;
    FilledAll(skb);
    assert CodedOf(Values(skb)) + [] == CodedOf(Values(skb));
  }

  lemma FillingDone<T>(q: seq<Skb<T>>, skb: seq<Option<Skb<T>>>, isSys: seq<bool>, queue: seq<Skb<T>>)
    requires Filling(q, skb, isSys, |q|, queue)
    ensures queue == [] && Slotted(q, Values(skb), isSys)
  {
    assert isSys[..|q|] == isSys;
    assert queue == [];
    DoneCoded(q, skb);
  }

  // ---------------------------------------------------------------- the linear system

  ghost predicate Slots<T>(slots: seq<Skb<T>>, isSys: seq<bool>, k: nat, p: nat, len: nat)
  {
    && Dims(k, p) && |slots| == |isSys| == k && len % p == 0
    && (forall m :: 0 <= m < k ==> isSys[m] == slots[m].Systematic() && WellFormed(slots[m], k, p, len))
    && (forall m :: 0 <= m < k && isSys[m] ==> slots[m].Index() == m)
  }

  /** Row r of the coefficient matrix. */
  function CoefficientRow<T>(f: Field<T>, slots: seq<Skb<T>>, isSys: seq<bool>, k: nat, p: nat, ghost len: nat,
                             r: nat): (row: Vector<T>)
    requires Slots(slots, isSys, k, p, len) && r < k * p
    ensures |row| == k * p
  {
    Unflat(k, p, r);
    if isSys[r / p] then Basis(f, k * p, r) else CoefRow(slots[r / p].body, k, p, r % p)
  }

  ghost function Coefficients<T>(f: Field<T>, slots: seq<Skb<T>>, isSys: seq<bool>, k: nat, p: nat,
                                 len: nat): (a: Matrix<T>)
    requires Slots(slots, isSys, k, p, len)
    ensures Square(a, k * p)
    ensures forall r :: 0 <= r < k * p ==> a[r] == CoefficientRow(f, slots, isSys, k, p, len, r)
  {
    seq(k * p, r requires 0 <= r < k * p => CoefficientRow(f, slots, isSys, k, p, len, r))
  }

  function Payload<T>(s: Skb<T>, k: nat, p: nat): seq<T>
    requires p * p * k <= |s.body| || s.Systematic()
  {
    if s.Systematic() then s.body else s.body[p * p * k..]
  }

  ghost function Payloads<T>(slots: seq<Skb<T>>, isSys: seq<bool>, k: nat, p: nat, len: nat): (r: seq<seq<T>>)
    requires Slots(slots, isSys, k, p, len)
    ensures |r| == k && forall m :: 0 <= m < k ==> r[m] == Payload(slots[m], k, p) && |r[m]| == len
  {
    seq(k, m requires 0 <= m < k => Payload(slots[m], k, p))
  }

  lemma CodedByte<T>(f: Field<T>, s: Skb<T>, k: nat, p: nat, len: nat, originals: seq<seq<T>>, q: nat)
    requires Originals(originals, k, p, len) && !s.Systematic() && MadeFrom(f, originals, k, p, len, s) && q < len
    ensures Payload(s, k, p)[q] == Combination(f, originals, k, p, len, s.body, q, k * p)
  {
    assert Payload(s, k, p)[q] == s.body[p * p * k + q];
  }

  lemma CodedRow<T(!new)>(f: Field<T>, coefs: seq<T>, k: nat, p: nat, len: nat, originals: seq<seq<T>>, base: nat,
                          l: nat)
    requires IsField(f) && Originals(originals, k, p, len) && p * p * k <= |coefs|
    requires base % p == 0 && base + p <= len && l < p
    ensures Dot(f, CoefRow(coefs, k, p, l), Symbols(originals, k, p, base, len), 0, k * p)
            == Combination(f, originals, k, p, len, coefs, base + l, k * p)
  {
    DotCommutes(f, CoefRow(coefs, k, p, l), Symbols(originals, k, p, base, len), 0, k * p);
    CombinationInBlock(f, originals, k, p, len, coefs, base, l, k * p);
  }

  lemma BasisRow<T(!new)>(f: Field<T>, x: Vector<T>, n: nat, r: nat)
    requires IsField(f) && |x| == n && r < n
    ensures Dot(f, Basis(f, n, r), x, 0, n) == x[r]
  {
    DotSingle(f, Basis(f, n, r), x, 0, r, n);
    MulOne(f, x[r]);
  }

  lemma ClearSlot<T(!new)>(f: Field<T>, s: Skb<T>, k: nat, p: nat, len: nat, originals: seq<seq<T>>, x: Vector<T>,
                           n: nat, q: nat, r: nat)
    requires IsField(f) && Originals(originals, k, p, len) && s.Systematic() && MadeFrom(f, originals, k, p, len, s)
    requires |x| == n && r < n && q < len && x[r] == originals[s.Index()][q]
    ensures Dot(f, Basis(f, n, r), x, 0, n) == Payload(s, k, p)[q]
  {
    BasisRow(f, x, n, r);
  }

  lemma CodedSlot<T(!new)>(f: Field<T>, s: Skb<T>, k: nat, p: nat, len: nat, originals: seq<seq<T>>, base: nat, l: nat)
    requires IsField(f) && Originals(originals, k, p, len) && !s.Systematic() && MadeFrom(f, originals, k, p, len, s)
    requires base % p == 0 && base + p <= len && l < p
    ensures Dot(f, CoefRow(s.body, k, p, l), Symbols(originals, k, p, base, len), 0, k * p)
            == Payload(s, k, p)[base + l]
  {
    CodedRow(f, s.body, k, p, len, originals, base, l);
    CodedByte(f, s, k, p, len, originals, base + l);
  }

  lemma RowIsMade<T(!new)>(f: Field<T>, slots: seq<Skb<T>>, isSys: seq<bool>, k: nat, p: nat, len: nat,
                           originals: seq<seq<T>>, base: nat, r: nat)
    requires IsField(f) && Slots(slots, isSys, k, p, len) && Originals(originals, k, p, len)
    requires forall m :: 0 <= m < k ==> MadeFrom(f, originals, k, p, len, slots[m])
    requires base % p == 0 && base + p <= len && r < k * p
    ensures Dot(f, CoefficientRow(f, slots, isSys, k, p, len, r), Symbols(originals, k, p, base, len), 0, k * p)
         == Symbols(Payloads(slots, isSys, k, p, len), k, p, base, len)[r]
  {
    Unflat(k, p, r);
    var m, l := r / p, r % p;
    if isSys[m] {
      ClearSlot(f, slots[m], k, p, len, originals, Symbols(originals, k, p, base, len), k * p, base + l, r);
    } else {
      CodedSlot(f, slots[m], k, p, len, originals, base, l);
    }
  }

  /** The originals solve the receiver's equations, whatever the coefficients. */
  lemma OriginalsSolve<T(!new)>(f: Field<T>, slots: seq<Skb<T>>, isSys: seq<bool>, k: nat, p: nat, len: nat,
                                originals: seq<seq<T>>, base: nat)
    requires IsField(f) && Slots(slots, isSys, k, p, len) && Originals(originals, k, p, len)
    requires forall m :: 0 <= m < k ==> MadeFrom(f, originals, k, p, len, slots[m])
    requires base % p == 0 && base + p <= len
    ensures Apply(f, Coefficients(f, slots, isSys, k, p, len), k * p, Symbols(originals, k, p, base, len))
         == Symbols(Payloads(slots, isSys, k, p, len), k, p, base, len)
  {
    var a := Coefficients(f, slots, isSys, k, p, len);
    forall r | 0 <= r < k * p
      ensures Dot(f, a[r], Symbols(originals, k, p, base, len), 0, k * p)
              == Symbols(Payloads(slots, isSys, k, p, len), k, p, base, len)[r]
    {
      RowIsMade(f, slots, isSys, k, p, len, originals, base, r);
    }
  }

  /** The decoded payloads satisfy the equations at every block. */
  ghost predicate Decodes<T>(f: Field<T>, slots: seq<Skb<T>>, isSys: seq<bool>, k: nat, p: nat, len: nat,
                             outs: seq<seq<T>>)
    requires Slots(slots, isSys, k, p, len)
  {
    && Originals(outs, k, p, len)
    && forall base: nat :: base % p == 0 && base + p <= len ==> DecodesAt(f, slots, isSys, k, p, len, outs, base)
  }

  ghost predicate DecodesAt<T>(f: Field<T>, slots: seq<Skb<T>>, isSys: seq<bool>, k: nat, p: nat, len: nat,
                               outs: seq<seq<T>>, base: nat)
    requires Slots(slots, isSys, k, p, len) && Originals(outs, k, p, len) && base + p <= len
  {
    Apply(f, Coefficients(f, slots, isSys, k, p, len), k * p, Symbols(outs, k, p, base, len))
    == Symbols(Payloads(slots, isSys, k, p, len), k, p, base, len)
  }

  lemma InvertibleDetermines<T(!new)>(f: Field<T>, a: Matrix<T>, n: nat, x: Vector<T>, z: Vector<T>)
    requires IsField(f) && Square(a, n) && Invertible(f, a, n) && |x| == n && |z| == n
    requires Apply(f, a, n, x) == Apply(f, a, n, z)
    ensures x == z
  {
    var b: Matrix<T> :| Inverse(f, a, b, n);
    ApplyProduct(f, b, a, Identity(f, n), n, x);
    ApplyProduct(f, b, a, Identity(f, n), n, z);
    ApplyIdentity(f, n, x);
    ApplyIdentity(f, n, z);
  }

  /** Payloads with the same symbols in every block are the same. */
  lemma SameSymbols<T>(a: seq<seq<T>>, b: seq<seq<T>>, k: nat, p: nat, len: nat)
    requires Originals(a, k, p, len) && Originals(b, k, p, len)
    requires forall base: nat :: base % p == 0 && base + p <= len ==>
             Symbols(a, k, p, base, len) == Symbols(b, k, p, base, len)
    ensures a == b
  {
    forall m, q | 0 <= m < k && 0 <= q < len
      ensures a[m][q] == b[m][q]
    {
      BlockStart(p, q, len);
      var base, l := q - q % p, q % p;
      Flat(p, m, l);
      assert Symbols(a, k, p, base, len)[m * p + l] == Symbols(b, k, p, base, len)[m * p + l] by {
        assert m * p + l < k * p by { Below(m, k, p, l); }
      }
    }
    assert forall m :: 0 <= m < k ==> a[m] == b[m];
  }

  lemma Below(m: nat, k: nat, p: nat, l: nat)
    requires m < k && l < p
    ensures m * p + l < k * p
  {
    assert (m + 1) * p <= k * p;
  }

  /** Decoding undoes encoding: when the equations determine their solution, it is the originals. */
  lemma RoundTrip<T(!new)>(f: Field<T>, slots: seq<Skb<T>>, isSys: seq<bool>, k: nat, p: nat, len: nat,
                           originals: seq<seq<T>>, outs: seq<seq<T>>)
    requires IsField(f) && Slots(slots, isSys, k, p, len) && Originals(originals, k, p, len)
    requires forall m :: 0 <= m < k ==> MadeFrom(f, originals, k, p, len, slots[m])
    requires Invertible(f, Coefficients(f, slots, isSys, k, p, len), k * p)
    requires Decodes(f, slots, isSys, k, p, len, outs)
    ensures outs == originals
  {
    forall base: nat | base % p == 0 && base + p <= len
      ensures Symbols(outs, k, p, base, len) == Symbols(originals, k, p, base, len)
    {
      assert DecodesAt(f, slots, isSys, k, p, len, outs, base);
      OriginalsSolve(f, slots, isSys, k, p, len, originals, base);
      InvertibleDetermines(f, Coefficients(f, slots, isSys, k, p, len), k * p,
                           Symbols(outs, k, p, base, len), Symbols(originals, k, p, base, len));
    }
    SameSymbols(outs, originals, k, p, len);
  }

  // ---------------------------------------------------------------- filling the coefficient matrix

  lemma CoefInBlock(k: nat, p: nat, m: nat, j: nat, n: nat)
    requires Dims(k, p) && m < p && n < p && j % p == 0 && j < k * p
    ensures j + n < k * p && CoefAt(p, m, j + n) == j * p + m * p + n < p * p * k
  {
    var d := j / p;
    Unflat(k, p, j);
    Flat(p, d, n);
    Below(d, k, p, n);
    CoefBound(k, p, m, d, n);
  }

  method FillBlock<T>(body: seq<T>, k: nat, p: nat, coefficient: array2<T>, row: nat, j: nat)
    requires Dims(k, p) && p * p * k <= |body|
    requires coefficient.Length0 == coefficient.Length1 == k * p && row + p <= k * p
    requires j % p == 0 && j + p <= k * p
    modifies coefficient
    ensures forall m, c :: 0 <= m < p && j <= c < j + p ==>
              CoefAt(p, m, c) < |body| && coefficient[row + m, c] == body[CoefAt(p, m, c)]
    ensures forall r, c :: 0 <= r < k * p && 0 <= c < k * p && !(row <= r < row + p && j <= c < j + p) ==>
              coefficient[r, c] == old(coefficient[r, c])
  {
    for m := 0 to p
      invariant forall t, c :: 0 <= t < m && j <= c < j + p ==>
                  CoefAt(p, t, c) < |body| && coefficient[row + t, c] == body[CoefAt(p, t, c)]
      invariant forall r, c :: 0 <= r < k * p && 0 <= c < k * p && !(row <= r < row + m && j <= c < j + p) ==>
                  coefficient[r, c] == old(coefficient[r, c])
    {
      FillBlockRow(body, k, p, coefficient, row + m, m, j);
    }
  }

  method FillBlockRow<T>(body: seq<T>, k: nat, p: nat, coefficient: array2<T>, r: nat, m: nat, j: nat)
    requires Dims(k, p) && p * p * k <= |body| && m < p
    requires coefficient.Length0 == coefficient.Length1 == k * p && r < k * p
    requires j % p == 0 && j + p <= k * p
    modifies coefficient
    ensures forall c :: j <= c < j + p ==> CoefAt(p, m, c) < |body| && coefficient[r, c] == body[CoefAt(p, m, c)]
    ensures forall i, c :: 0 <= i < k * p && 0 <= c < k * p && !(i == r && j <= c < j + p) ==>
              coefficient[i, c] == old(coefficient[i, c])
  {
    for n := 0 to p
      invariant forall c :: j <= c < j + n ==> CoefAt(p, m, c) < |body| && coefficient[r, c] == body[CoefAt(p, m, c)]
      invariant forall i, c :: 0 <= i < k * p && 0 <= c < k * p && !(i == r && j <= c < j + n) ==>
                  coefficient[i, c] == old(coefficient[i, c])
    {
      CoefInBlock(k, p, m, j, n);
      coefficient[r, j + n] := body[j * p + m * p + n];
    }
  }

  method FillCoded<T>(body: seq<T>, k: nat, p: nat, coefficient: array2<T>, row: nat)
    requires Dims(k, p) && p * p * k <= |body|
    requires coefficient.Length0 == coefficient.Length1 == k * p && row + p <= k * p
    modifies coefficient
    ensures forall m, c :: 0 <= m < p && 0 <= c < k * p ==> coefficient[row + m, c] == CoefRow(body, k, p, m)[c]
    ensures forall r, c :: 0 <= r < k * p && 0 <= c < k * p && !(row <= r < row + p) ==>
            coefficient[r, c] == old(coefficient[r, c])
  {
    var j := 0;
    while j < k * p
      invariant j <= k * p && j % p == 0
      invariant forall m, c :: 0 <= m < p && 0 <= c < j ==>
                CoefAt(p, m, c) < |body| && coefficient[row + m, c] == body[CoefAt(p, m, c)]
      invariant forall r, c :: 0 <= r < k * p && 0 <= c < k * p && !(row <= r < row + p) ==>
                coefficient[r, c] == old(coefficient[r, c])
    {
      assert k * p % p == 0 by { Flat(p, k, 0); }
      BlockFits(p, j, k * p);
      FillBlock(body, k, p, coefficient, row, j);
      j := j + p;
    }
  }

  method FillSystematic<T>(f: Field<T>, p: nat, size: nat, coefficient: array2<T>, row: nat)
    requires coefficient.Length0 == coefficient.Length1 == size && row + p <= size
    modifies coefficient
    ensures forall r, c :: row <= r < row + p && 0 <= c < size ==> coefficient[r, c] == if c == r then f.one else f.zero
    ensures forall r, c :: 0 <= r < size && 0 <= c < size && !(row <= r < row + p) ==>
            coefficient[r, c] == old(coefficient[r, c])
  {
    for m := 0 to p
      invariant forall r, c :: row <= r < row + m && 0 <= c < size ==>
                coefficient[r, c] == if c == r then f.one else f.zero
      invariant forall r, c :: 0 <= r < size && 0 <= c < size && !(row <= r < row + m) ==>
                coefficient[r, c] == old(coefficient[r, c])
    {
      var here := row + m;
      for n := 0 to size
        invariant forall r, c :: row <= r < row + m && 0 <= c < size ==>
                  coefficient[r, c] == if c == r then f.one else f.zero
        invariant forall c :: 0 <= c < n ==> coefficient[here, c] == if c == here then f.one else f.zero
        invariant forall r, c :: 0 <= r < size && 0 <= c < size && !(row <= r < row + m) && !(r == here && c < n) ==>
                    coefficient[r, c] == old(coefficient[r, c])
      {
        coefficient[here, n] := if n == here then f.one else f.zero;
      }
    }
  }

  lemma RowsOfSlot(k: nat, p: nat, i: nat, r: nat)
    requires Dims(k, p) && i < k && i * p <= r < i * p + p
    ensures i * p + p <= k * p && r / p == i && r % p == r - i * p
  {
    Below(i, k, p, p - 1);
    Flat(p, i, r - i * p);
  }

  method FillSlot<T>(f: Field<T>, slots: seq<Skb<T>>, isSys: seq<bool>, k: nat, p: nat, ghost len: nat,
                     coefficient: array2<T>, i: nat, row: nat)
    requires Slots(slots, isSys, k, p, len) && i < k && row == i * p && row + p <= k * p
    requires coefficient.Length0 == coefficient.Length1 == k * p
    modifies coefficient
    ensures forall r, c :: row <= r < row + p && 0 <= c < k * p ==>
            coefficient[r, c] == CoefficientRow(f, slots, isSys, k, p, len, r)[c]
    ensures forall r, c :: 0 <= r < k * p && 0 <= c < k * p && !(row <= r < row + p) ==>
            coefficient[r, c] == old(coefficient[r, c])
  {
    if isSys[i] {
      FillSystematic(f, p, k * p, coefficient, row);
    } else {
      FillCoded(slots[i].body, k, p, coefficient, row);
    }
    forall r, c | row <= r < row + p && 0 <= c < k * p
      ensures coefficient[r, c] == CoefficientRow(f, slots, isSys, k, p, len, r)[c]
    {
      RowsOfSlot(k, p, i, r);
      assert coefficient[row + (r - row), c] == coefficient[r, c];
    }
  }

  method FillCoefficients<T>(f: Field<T>, slots: seq<Skb<T>>, isSys: seq<bool>, k: nat, p: nat, ghost len: nat,
                             coefficient: array2<T>)
    requires Slots(slots, isSys, k, p, len)
    requires coefficient.Length0 == coefficient.Length1 == k * p
    modifies coefficient
    ensures Rows(coefficient) == Coefficients(f, slots, isSys, k, p, len)
  {
    var row := 0;
    for i := 0 to k
      invariant row == i * p <= k * p
      invariant forall r, c :: 0 <= r < row && 0 <= c < k * p ==>
                coefficient[r, c] == CoefficientRow(f, slots, isSys, k, p, len, r)[c]
    {
      RowsOfSlot(k, p, i, row);
      FillSlot(f, slots, isSys, k, p, len, coefficient, i, row);
      row := row + p;
    }
    SameRows(coefficient, Coefficients(f, slots, isSys, k, p, len));
  }

  // ---------------------------------------------------------------- substitution, block by block

  method LoadBlock<T>(payloads: seq<seq<T>>, k: nat, p: nat, len: nat, base: nat, t: array<T>)
    requires Originals(payloads, k, p, len) && base + p <= len && t.Length == k * p
    modifies t
    ensures t[..] == Symbols(payloads, k, p, base, len)
  {
    ghost var want := Symbols(payloads, k, p, base, len);
    var jp := 0;
    for j := 0 to k
      invariant jp == j * p <= k * p
      invariant forall v :: 0 <= v < jp ==> t[v] == want[v]
    {
      Below(j, k, p, p - 1);
      for l := 0 to p
        invariant forall v :: 0 <= v < jp + l ==> t[v] == want[v]
      {
        RowsOfSlot(k, p, j, jp + l);
        t[jp + l] := payloads[j][base + l];
      }
      jp := jp + p;
    }
  }

  method StoreBlock<T>(newData: array2<T>, x: array<T>, k: nat, p: nat, len: nat, base: nat)
    requires Dims(k, p) && newData.Length0 == k && newData.Length1 == len && x.Length == k * p && base + p <= len
    modifies newData
    ensures Symbols(Rows(newData), k, p, base, len) == x[..]
    ensures forall j, q :: 0 <= j < k && 0 <= q < len && !(base <= q < base + p) ==> newData[j, q] == old(newData[j, q])
  {
    var jp := 0;
    for j := 0 to k
      invariant jp == j * p <= k * p
      invariant forall v :: 0 <= v < jp ==> v / p < j && StoredAt(newData, x, p, base, v)
      invariant forall i, q :: 0 <= i < k && 0 <= q < len && !(base <= q < base + p) ==>
                newData[i, q] == old(newData[i, q])
    {
      Below(j, k, p, p - 1);
      StoreRow(newData, x, j, jp, p, base);
      forall v | jp <= v < jp + p
        ensures v / p == j && StoredAt(newData, x, p, base, v)
      {
        RowsOfSlot(k, p, j, v);
      }
      jp := jp + p;
    }
    AllStored(newData, x, k, p, len, base);
  }

  /** Symbol v of the block stands where it belongs. */
  ghost predicate StoredAt<T>(newData: array2<T>, x: array<T>, p: nat, base: nat, v: nat)
    requires 1 <= p && v < x.Length
    reads newData, x
  {
    v / p < newData.Length0 && base + v % p < newData.Length1 && newData[v / p, base + v % p] == x[v]
  }

  lemma AllStored<T>(newData: array2<T>, x: array<T>, k: nat, p: nat, len: nat, base: nat)
    requires Dims(k, p) && newData.Length0 == k && newData.Length1 == len && x.Length == k * p && base + p <= len
    requires forall v :: 0 <= v < k * p ==> StoredAt(newData, x, p, base, v)
    ensures Symbols(Rows(newData), k, p, base, len) == x[..]
  {
    forall v | 0 <= v < k * p
      ensures Symbols(Rows(newData), k, p, base, len)[v] == x[v]
    {
      assert StoredAt(newData, x, p, base, v);
    }
  }

  method StoreRow<T>(newData: array2<T>, x: array<T>, j: nat, jp: nat, p: nat, base: nat)
    requires j < newData.Length0 && base + p <= newData.Length1 && jp + p <= x.Length
    modifies newData
    ensures forall q :: base <= q < base + p ==> newData[j, q] == x[jp + q - base]
    ensures forall i, q :: 0 <= i < newData.Length0 && 0 <= q < newData.Length1 && !(i == j && base <= q < base + p) ==>
              newData[i, q] == old(newData[i, q])
  {
    for l := 0 to p
      invariant forall q :: base <= q < base + l ==> newData[j, q] == x[jp + q - base]
      invariant forall i, q :: 0 <= i < newData.Length0 && 0 <= q < newData.Length1 ==>
                  (i == j && base <= q < base + p) || newData[i, q] == old(newData[i, q])
    {
      newData[j, base + l] := x[jp + l];
    }
  }

  lemma SymbolsKept<T>(a: seq<seq<T>>, b: seq<seq<T>>, k: nat, p: nat, len: nat, base: nat, other: nat)
    requires Originals(a, k, p, len) && Originals(b, k, p, len)
    requires base % p == 0 && base + p <= len && other % p == 0 && other + p <= len && other != base
    requires forall j, q :: 0 <= j < k && 0 <= q < len && !(base <= q < base + p) ==> a[j][q] == b[j][q]
    ensures Symbols(a, k, p, other, len) == Symbols(b, k, p, other, len)
  {
    Apart(p, base, other);
  }

  lemma Apart(p: nat, base: nat, other: nat)
    requires 1 <= p <= 3 && base % p == 0 && other % p == 0 && base != other
    ensures base + p <= other || other + p <= base
  {
    if base < other {
      BlockFits(p, base, other);
    } else {
      BlockFits(p, other, base);
    }
  }

  ghost predicate SolvedAt<T>(f: Field<T>, l: Matrix<T>, u: Matrix<T>, p': seq<nat>, n: nat, payloads: seq<seq<T>>,
                              rows: seq<seq<T>>, k: nat, p: nat, len: nat, base: nat)
    requires Originals(payloads, k, p, len) && Originals(rows, k, p, len) && base + p <= len && n == k * p
    requires Square(l, n) && Square(u, n) && |p'| == n && forall i :: 0 <= i < n ==> p'[i] < n
  {
    Symbols(rows, k, p, base, len) == Solution(f, l, u, p', n, Symbols(payloads, k, p, base, len))
  }

  /** Solving the block at base leaves the earlier ones solved. */
  lemma EarlierStaySolved<T>(f: Field<T>, l: Matrix<T>, u: Matrix<T>, p': seq<nat>, n: nat, payloads: seq<seq<T>>,
                             before: seq<seq<T>>, after: seq<seq<T>>, k: nat, p: nat, len: nat, base: nat)
    requires Originals(payloads, k, p, len) && Originals(before, k, p, len) && Originals(after, k, p, len) && n == k * p
    requires base % p == 0 && base + p <= len
    requires Square(l, n) && Square(u, n) && |p'| == n && forall i :: 0 <= i < n ==> p'[i] < n
    requires forall done: nat :: done % p == 0 && done + p <= len && done < base ==>
             SolvedAt(f, l, u, p', n, payloads, before, k, p, len, done)
    requires SolvedAt(f, l, u, p', n, payloads, after, k, p, len, base)
    requires forall j, q :: 0 <= j < k && 0 <= q < len && !(base <= q < base + p) ==> after[j][q] == before[j][q]
    ensures forall done: nat :: done % p == 0 && done + p <= len && done < base + p ==>
            SolvedAt(f, l, u, p', n, payloads, after, k, p, len, done)
  {
    forall done: nat | done % p == 0 && done + p <= len && done < base + p
      ensures SolvedAt(f, l, u, p', n, payloads, after, k, p, len, done)
    {
      if done != base {
        Apart(p, base, done);
        assert SolvedAt(f, l, u, p', n, payloads, before, k, p, len, done);
        SymbolsKept(after, before, k, p, len, base, done);
      }
    }
  }

  method SolveBlock<T(==)>(f: Field<T>, k: nat, p: nat, n: nat, u: array2<T>, l: array2<T>, pivot: array<nat>,
                           payloads: seq<seq<T>>, len: nat, base: nat, t: array<T>, b: array<T>, y: array<T>,
                           x: array<T>, newData: array2<T>)
    requires Originals(payloads, k, p, len) && n == k * p && base + p <= len
    requires Ready(n, u, l, pivot) && FullRank(f, Rows(u), n)
    requires t.Length == b.Length == y.Length == x.Length == n
    requires t != b && t != y && t != x && b != y && b != x && y != x
    requires pivot as object != t && pivot as object != b && pivot as object != y && pivot as object != x
    requires newData.Length0 == k && newData.Length1 == len && newData != u && newData != l
    modifies t, b, y, x, newData
    ensures SolvedAt(f, Rows(l), Rows(u), pivot[..], n, payloads, Rows(newData), k, p, len, base)
    ensures forall j, q :: 0 <= j < k && 0 <= q < len && !(base <= q < base + p) ==>
            Rows(newData)[j][q] == old(Rows(newData))[j][q]
  {
    LoadBlock(payloads, k, p, len, base, t);
    Substitute(f, n, u, l, pivot, t, b, y, x);
    StoreBlock(newData, x, k, p, len, base);
  }

  method SolveBlocks<T(0, ==)>(f: Field<T>, k: nat, p: nat, n: nat, u: array2<T>, l: array2<T>, pivot: array<nat>,
                               payloads: seq<seq<T>>, len: nat) returns (newData: array2<T>)
    requires Originals(payloads, k, p, len) && n == k * p
    requires Ready(n, u, l, pivot) && FullRank(f, Rows(u), n)
    ensures newData.Length0 == k && newData.Length1 == len
    ensures forall base: nat :: base % p == 0 && base + p <= len ==>
              SolvedAt(f, Rows(l), Rows(u), pivot[..], n, payloads, Rows(newData), k, p, len, base)
  {
    var t, b, y, x := new T[n], new T[n], new T[n], new T[n];
    newData := new T[k, len];
    ghost var lr, ur, pr := Rows(l), Rows(u), pivot[..];
    var base := 0;
    while base < len
      invariant base <= len && base % p == 0
      invariant Rows(l) == lr && Rows(u) == ur && pivot[..] == pr
      invariant forall done: nat :: done % p == 0 && done + p <= len && done < base ==>
                  SolvedAt(f, lr, ur, pr, n, payloads, Rows(newData), k, p, len, done)
    {
      BlockFits(p, base, len);
      var next := base + p;
      assert next % p == 0;
      ghost var before := Rows(newData);
      SolveBlock(f, k, p, n, u, l, pivot, payloads, len, base, t, b, y, x, newData);
      EarlierStaySolved(f, lr, ur, pr, n, payloads, before, Rows(newData), k, p, len, base);
      base := next;
    }
  }

  method Frozen<T>(m: array2<T>) returns (r: seq<seq<T>>)
    ensures r == Rows(m)
  {
    r := seq(m.Length0, i requires 0 <= i < m.Length0 reads m => seq(m.Length1,
      j requires 0 <= j < m.Length1 reads m => m[i, j]));
    SameRows(m, r);
  }

  /** skb_substi: every block is solved by substitution, with the factors of the coefficient matrix. */
  method SkbSubsti<T(0, ==, !new)>(f: Field<T>, k: nat, p: nat, n: nat, ghost a: Matrix<T>, u: array2<T>, l: array2<T>,
                                   pivot: array<nat>, payloads: seq<seq<T>>, len: nat) returns (outs: seq<seq<T>>)
    requires IsField(f) && Originals(payloads, k, p, len) && n == k * p
    requires Ready(n, u, l, pivot) && Factors(f, a, Rows(l), Rows(u), pivot[..], n) && FullRank(f, Rows(u), n)
    ensures Originals(outs, k, p, len)
    ensures forall base: nat :: base % p == 0 && base + p <= len ==>
              Apply(f, a, n, Symbols(outs, k, p, base, len)) == Symbols(payloads, k, p, base, len)
  {
    var newData := SolveBlocks(f, k, p, n, u, l, pivot, payloads, len);
    outs := Frozen(newData);
    forall base: nat | base % p == 0 && base + p <= len
      ensures Apply(f, a, n, Symbols(outs, k, p, base, len)) == Symbols(payloads, k, p, base, len)
    {
      assert SolvedAt(f, Rows(l), Rows(u), pivot[..], n, payloads, outs, k, p, len, base);
      SolutionSolves(f, a, Rows(l), Rows(u), pivot[..], n, Symbols(payloads, k, p, base, len));
    }
  }

  // ---------------------------------------------------------------- the rank test and the whole attempt

  /** The slots after the first i pivots have been looked at: each zero pivot empties one. */
  function Emptied<T(==)>(f: Field<T>, u: Matrix<T>, pivot: seq<nat>, n: nat, k: nat, p: nat, skb: seq<Option<Skb<T>>>,
                          i: nat): (r: seq<Option<Skb<T>>>)
    requires Square(u, n) && |pivot| == n && Dims(k, p) && n == k * p && |skb| == k && i <= n
    requires forall t :: 0 <= t < n ==> pivot[t] < n
    ensures |r| == k
    decreases i
  {
    if i == 0 then skb
    else
      var r := Emptied(f, u, pivot, n, k, p, skb, i - 1);
      if u[i - 1][i - 1] == f.zero then SlotDropped(n, k, p, r, pivot[i - 1]) else r
  }

  function SlotDropped<X>(n: nat, k: nat, p: nat, skb: seq<Option<X>>, row: nat): (r: seq<Option<X>>)
    requires Dims(k, p) && n == k * p && |skb| == k && row < n
    ensures |r| == k
  {
    Unflat(k, p, row);
    skb[row / p := None]
  }

  method DropSlot<X>(n: nat, k: nat, p: nat, skb: array<Option<X>>, row: nat)
    requires Dims(k, p) && n == k * p && skb.Length == k && row < n
    modifies skb
    ensures skb[..] == SlotDropped(n, k, p, old(skb[..]), row)
  {
    Unflat(k, p, row);
    skb[row / p] := None;
  }

  method DropDependent<T(==)>(f: Field<T>, n: nat, k: nat, p: nat, u: array2<T>, pivot: array<nat>,
                              skb: array<Option<Skb<T>>>) returns (rank: nat)
    requires Sized(u, n) && pivot.Length == n && skb.Length == k && Dims(k, p) && n == k * p
    requires forall i :: 0 <= i < n ==> pivot[i] < n
    requires pivot as object != skb
    modifies skb
    ensures rank == n <==> FullRank(f, Rows(u), n)
    ensures skb[..] == Emptied(f, Rows(u), pivot[..], n, k, p, old(skb[..]), n)
  {
    rank := n;
    for i := 0 to n
      invariant n - i <= rank <= n && (rank == n <==> forall j :: 0 <= j < i ==> Rows(u)[j][j] != f.zero)
      invariant skb[..] == Emptied(f, Rows(u), pivot[..], n, k, p, old(skb[..]), i)
    {
      if u[i, i] == f.zero {
        rank := rank - 1;
        DropSlot(n, k, p, skb, pivot[i]);
      }
    }
  }

  /** A systematic slot keeps its unit pivot in its own row. */
  lemma UnitPivot<T(!new)>(f: Field<T>, slots: seq<Skb<T>>, isSys: seq<bool>, k: nat, p: nat, len: nat, u: Matrix<T>,
                           pivot: seq<nat>, i: nat)
    requires IsField(f) && Slots(slots, isSys, k, p, len) && Square(u, k * p) && |pivot| == k * p
             && IsPermutation(pivot)
    requires UnitsStay(f, Coefficients(f, slots, isSys, k, p, len), u, pivot, k * p)
    requires i < k * p && pivot[i] / p < k && isSys[pivot[i] / p]
    ensures u[i][i] == f.one
  {
    var r := pivot[i];
    assert IsUnitRow(f, Coefficients(f, slots, isSys, k, p, len), k * p, r);
    assert pivot[r] == r;
    assert i == r;
    assert u[i][i] == Basis(f, k * p, r)[r];
  }

  /** No zero pivot names a systematic slot, so none is emptied. */
  lemma SystematicNotEmptied<T(!new)>(f: Field<T>, slots: seq<Skb<T>>, isSys: seq<bool>, k: nat, p: nat, len: nat,
                                      u: Matrix<T>, pivot: seq<nat>, skb: seq<Option<Skb<T>>>, i: nat, m: nat)
    requires IsField(f) && Slots(slots, isSys, k, p, len) && |skb| == k && Square(u, k * p) && |pivot| == k * p
             && IsPermutation(pivot)
    requires UnitsStay(f, Coefficients(f, slots, isSys, k, p, len), u, pivot, k * p)
    requires i <= k * p && m < k && isSys[m]
    ensures Emptied(f, u, pivot, k * p, k, p, skb, i)[m] == skb[m]
  {
    forall t | 0 <= t < k * p && pivot[t] / p == m
      ensures u[t][t] != f.zero
    {
      UnitPivot(f, slots, isSys, k, p, len, u, pivot, t);
    }
    NotEmptied(f, u, pivot, k * p, k, p, skb, i, m);
  }

  lemma {:induction false} NotEmptied<T>(f: Field<T>, u: Matrix<T>, pivot: seq<nat>, n: nat, k: nat, p: nat,
                                         skb: seq<Option<Skb<T>>>, i: nat, m: nat)
    requires Square(u, n) && |pivot| == n && Dims(k, p) && n == k * p && |skb| == k && i <= n && m < k
    requires forall t :: 0 <= t < n ==> pivot[t] < n && (pivot[t] / p == m ==> u[t][t] != f.zero)
    ensures Emptied(f, u, pivot, n, k, p, skb, i)[m] == skb[m]
    decreases i
  {
    if i > 0 {
      NotEmptied(f, u, pivot, n, k, p, skb, i - 1, m);
      Unflat(k, p, pivot[i - 1]);
    }
  }

  lemma {:induction false} OnlyEmptied<T>(f: Field<T>, u: Matrix<T>, pivot: seq<nat>, n: nat, k: nat, p: nat,
                                          skb: seq<Option<Skb<T>>>, i: nat, m: nat)
    requires Square(u, n) && |pivot| == n && Dims(k, p) && n == k * p && |skb| == k && i <= n && m < k
    requires forall t :: 0 <= t < n ==> pivot[t] < n
    ensures Emptied(f, u, pivot, n, k, p, skb, i)[m] in {skb[m], None}
    decreases i
  {
    if i > 0 {
      OnlyEmptied(f, u, pivot, n, k, p, skb, i - 1, m);
    }
  }

  /** A zero pivot empties the slot it names. */
  lemma {:induction false} ZeroPivotEmpties<T>(f: Field<T>, u: Matrix<T>, pivot: seq<nat>, n: nat, k: nat, p: nat,
          skb: seq<Option<Skb<T>>>, i: nat, z: nat)
    requires Square(u, n) && |pivot| == n && Dims(k, p) && n == k * p && |skb| == k && z < i <= n
    requires forall t :: 0 <= t < n ==> pivot[t] < n
    requires u[z][z] == f.zero
    ensures pivot[z] / p < k && Emptied(f, u, pivot, n, k, p, skb, i)[pivot[z] / p] == None
    decreases i
  {
    Unflat(k, p, pivot[z]);
    if z < i - 1 {
      ZeroPivotEmpties(f, u, pivot, n, k, p, skb, i - 1, z);
    }
  }

  /** A zero pivot names this slot. */
  ghost predicate Named<T>(f: Field<T>, u: Matrix<T>, pivot: seq<nat>, n: nat, p: nat, m: nat)
    requires Square(u, n) && |pivot| == n && 1 <= p
  {
    exists z :: 0 <= z < n && u[z][z] == f.zero && pivot[z] / p == m
  }

  /** Exactly the slots that a zero pivot names are emptied. */
  lemma EmptiedIff<T>(f: Field<T>, u: Matrix<T>, pivot: seq<nat>, n: nat, k: nat, p: nat, skb: seq<Option<Skb<T>>>,
                      m: nat)
    requires Square(u, n) && |pivot| == n && Dims(k, p) && n == k * p && |skb| == k && m < k
    requires forall t :: 0 <= t < n ==> pivot[t] < n
    ensures Emptied(f, u, pivot, n, k, p, skb, n)[m] == if Named(f, u, pivot, n, p, m) then None else skb[m]
  {
    if Named(f, u, pivot, n, p, m) {
      var z :| 0 <= z < n && u[z][z] == f.zero && pivot[z] / p == m;
      ZeroPivotEmpties(f, u, pivot, n, k, p, skb, n, z);
    } else {
      NotEmptied(f, u, pivot, n, k, p, skb, n, m);
    }
  }

  lemma {:induction false} FilledInOrder<X>(slots: seq<Option<X>>, items: seq<X>) returns (idx: seq<nat>)
    requires |slots| == |items| && forall m :: 0 <= m < |slots| && slots[m].Some? ==> slots[m].value == items[m]
    ensures InOrder(items, Filled(slots), idx)
    ensures forall m: nat :: m in idx <==> m < |slots| && slots[m].Some?
    decreases |slots|
  {
    if slots == [] {
      idx := [];
    } else {
      var n := |slots| - 1;
      idx := FilledInOrder(slots[..n], items[..n]);
      idx := PickLast(items, Occupied(slots), Filled(slots[..n]), idx);
    }
  }

  /** What a rank-deficient attempt leaves: in slot order, the packets of the slots that no zero pivot of the
      factors names. */
  ghost predicate LeftBy<T>(f: Field<T>, a: Matrix<T>, n: nat, p: nat, slots: seq<Skb<T>>, rest: seq<Skb<T>>,
                            l: Matrix<T>, u: Matrix<T>, pivot: seq<nat>, idx: seq<nat>)
  {
    && 1 <= p && Factors(f, a, l, u, pivot, n) && UnitsStay(f, a, u, pivot, n) && InOrder(slots, rest, idx)
    && forall m: nat :: m in idx <==> m < |slots| && !Named(f, u, pivot, n, p, m)
  }

  lemma LeftByPivots<T>(f: Field<T>, a: Matrix<T>, n: nat, k: nat, p: nat, skb: seq<Option<Skb<T>>>, rest: seq<Skb<T>>,
                        l: Matrix<T>, u: Matrix<T>, pivot: seq<nat>) returns (idx: seq<nat>)
    requires Dims(k, p) && n == k * p && Factors(f, a, l, u, pivot, n) && UnitsStay(f, a, u, pivot, n)
    requires |skb| == k && forall m :: 0 <= m < k ==> skb[m].Some?
    requires rest == Filled(Emptied(f, u, pivot, n, k, p, skb, n))
    ensures LeftBy(f, a, n, p, Values(skb), rest, l, u, pivot, idx)
  {
    var after := Emptied(f, u, pivot, n, k, p, skb, n);
    forall m | 0 <= m < k
      ensures after[m] == if Named(f, u, pivot, n, p, m) then None else skb[m]
    {
      EmptiedIff(f, u, pivot, n, k, p, skb, m);
    }
    idx := FilledInOrder(after, Values(skb));
  }

  lemma SomeEmptied<T>(f: Field<T>, u: Matrix<T>, pivot: seq<nat>, n: nat, k: nat, p: nat, skb: seq<Option<Skb<T>>>)
    requires Dims(k, p) && n == k * p && Square(u, n) && |pivot| == n && |skb| == k
    requires forall t :: 0 <= t < n ==> pivot[t] < n
    requires !FullRank(f, u, n)
    ensures |Filled(Emptied(f, u, pivot, n, k, p, skb, n))| < k
  {
    var z :| 0 <= z < n && u[z][z] == f.zero;
    var after := Emptied(f, u, pivot, n, k, p, skb, n);
    ZeroPivotEmpties(f, u, pivot, n, k, p, skb, n, z);
    var m := pivot[z] / p;
    EmptySlot(after, m);
  }

  lemma EmptySlot<X>(slots: seq<Option<X>>, m: nat)
    requires m < |slots| && slots[m].None?
    ensures |Filled(slots)| < |slots|
  {
    FilledCount(slots);
    CountMissing(Occupied(slots), m);
  }

  lemma CountMissing(s: seq<bool>, m: nat)
    requires m < |s| && !s[m]
    ensures Count(s) < |s|
  {
    CountSet(s, m);
  }

  /** The entries of the slots that were not received in the clear, in order. */
  function Missing<X>(items: seq<X>, isSys: seq<bool>): seq<X>
    requires |items| == |isSys|
  {
    if items == [] then []
    else
      var n := |items| - 1;
      Missing(items[..n], isSys[..n]) + if isSys[n] then [] else [items[n]]
  }

  /** What is missing stands in index order, and is what did not arrive in the clear. */
  lemma {:induction false} MissingInOrder<X>(items: seq<X>, isSys: seq<bool>) returns (idx: seq<nat>)
    requires |items| == |isSys|
    ensures InOrder(items, Missing(items, isSys), idx)
    ensures forall m: nat :: m in idx <==> m < |items| && !isSys[m]
    decreases |items|
  {
    var keep := seq(|isSys|, m requires 0 <= m < |isSys| => !isSys[m]);
    if items == [] {
      idx := [];
    } else {
      var n := |items| - 1;
      idx := MissingInOrder(items[..n], isSys[..n]);
      idx := PickLast(items, keep, Missing(items[..n], isSys[..n]), idx);
    }
  }

  method DeliverMissing<X>(outs: seq<X>, isSys: seq<bool>, newskbs: Queue<X>)
    requires |outs| == |isSys|
    modifies newskbs
    ensures newskbs.items == old(newskbs.items) + Missing(outs, isSys)
  {
    for i := 0 to |outs|
      invariant newskbs.items == old(newskbs.items) + Missing(outs[..i], isSys[..i])
    {
      assert outs[..i + 1][..i] == outs[..i] && isSys[..i + 1][..i] == isSys[..i];
      if !isSys[i] {
        newskbs.Tail(outs[i]);
      }
    }
    assert outs[..|outs|] == outs && isSys[..|outs|] == isSys;
  }

  /** What one attempt to decode the k packets q may do: `rest` is what it leaves queued and `news`
      what it delivers. */
  ghost predicate Attempt<T(!new)>(f: Field<T>, q: seq<Skb<T>>, k: nat, p: nat, len: nat, ok: bool, rest: seq<Skb<T>>,
                                   news: seq<seq<T>>)
  {
    if !NoDuplicates(q) then !ok && news == [] && GivesUp(q, rest)
    else exists slots, isSys, outs :: AttemptWith(f, q, k, p, len, ok, rest, news, slots, isSys, outs)
  }

  ghost predicate AttemptWith<T(!new)>(f: Field<T>, q: seq<Skb<T>>, k: nat, p: nat, len: nat, ok: bool,
                                       rest: seq<Skb<T>>, news: seq<seq<T>>, slots: seq<Skb<T>>, isSys: seq<bool>,
                                       outs: seq<seq<T>>)
  {
    && Slotted(q, slots, isSys) && Slots(slots, isSys, k, p, len)
    && (ok <==> Invertible(f, Coefficients(f, slots, isSys, k, p, len), k * p))
    && (ok ==> rest == [] && Decodes(f, slots, isSys, k, p, len, outs) && news == Missing(outs, isSys))
    && (!ok ==> news == [] && Retains(q, rest) && NoDuplicates(rest))
    && (!ok ==> forall s :: s in q && s.Systematic() ==> s in rest)
    && (!ok ==> Left(f, Coefficients(f, slots, isSys, k, p, len), k * p, p, slots, rest))
  }

  ghost predicate Left<T(!new)>(f: Field<T>, a: Matrix<T>, n: nat, p: nat, slots: seq<Skb<T>>, rest: seq<Skb<T>>)
  {
    exists l, u, pivot, idx :: LeftBy(f, a, n, p, slots, rest, l, u, pivot, idx)
  }

  lemma SlottedAreSlots<T>(q: seq<Skb<T>>, slots: seq<Skb<T>>, isSys: seq<bool>, k: nat, p: nat, len: nat)
    requires Dims(k, p) && len % p == 0 && |q| == k && AllWellFormed(q, k, p, len) && Slotted(q, slots, isSys)
    ensures Slots(slots, isSys, k, p, len)
  {
    forall m | 0 <= m < k
      ensures WellFormed(slots[m], k, p, len)
    {
      assert slots[m] in q;
    }
  }

  /** Lines that sort the queue into slots; on failure the queue is what is left. */
  method Arrange<T>(skbs: Queue<Skb<T>>, k: nat, skb: array<Option<Skb<T>>>, isSys: array<bool>) returns (ok: bool)
    requires skb.Length == isSys.Length == k && |skbs.items| == k
    requires forall i :: 0 <= i < k && skbs.items[i].Systematic() ==> skbs.items[i].Index() < k
    modifies skbs, skb, isSys
    ensures ok <==> NoDuplicates(old(skbs.items))
    ensures ok ==> skbs.items == [] && forall m :: 0 <= m < k ==> skb[m].Some?
    ensures ok ==> Slotted(old(skbs.items), Values(skb[..]), isSys[..])
    ensures !ok ==> GivesUp(old(skbs.items), skbs.items)
  {
    ok := TakeSystematic(skbs, k, skb, isSys);
    if ok {
      FillGaps(skbs, k, skb, isSys, old(skbs.items));
      FillingDone(old(skbs.items), skb[..], isSys[..], skbs.items);
    }
  }

  /** Slots that hold systematic packets at their own index hold no duplicates. */
  lemma {:induction false} FilledNoDuplicates<T>(slots: seq<Option<Skb<T>>>)
    requires forall m :: 0 <= m < |slots| && slots[m].Some? && slots[m].value.Systematic() ==>
             slots[m].value.Index() == m
    ensures NoDuplicates(Filled(slots))
    decreases |slots|
  {
    if slots != [] {
      var n := |slots| - 1;
      FilledNoDuplicates(slots[..n]);
      forall i | 0 <= i < |Filled(slots[..n])| && Filled(slots[..n])[i].Systematic()
        ensures Filled(slots[..n])[i].Index() < n
      {
        FilledMember(slots[..n], Filled(slots[..n])[i]);
      }
    }
  }

  lemma RankDeficientRetains<T(!new)>(f: Field<T>, q: seq<Skb<T>>, skb: seq<Option<Skb<T>>>, isSys: seq<bool>, k: nat,
                                      p: nat, len: nat, u: Matrix<T>, pivot: seq<nat>, rest: seq<Skb<T>>)
    requires IsField(f) && |q| == k && |skb| == k && (forall m :: 0 <= m < k ==> skb[m].Some?)
    requires Slotted(q, Values(skb), isSys) && Slots(Values(skb), isSys, k, p, len)
    requires Square(u, k * p) && |pivot| == k * p && IsPermutation(pivot) && !FullRank(f, u, k * p)
    requires UnitsStay(f, Coefficients(f, Values(skb), isSys, k, p, len), u, pivot, k * p)
    requires rest == Filled(Emptied(f, u, pivot, k * p, k, p, skb, k * p))
    ensures Retains(q, rest) && NoDuplicates(rest)
    ensures forall s :: s in q && s.Systematic() ==> s in rest
  {
    var after := Emptied(f, u, pivot, k * p, k, p, skb, k * p);
    SomeEmptied(f, u, pivot, k * p, k, p, skb);
    forall m | 0 <= m < k && after[m].Some? && after[m].value.Systematic()
      ensures after[m].value.Index() == m
    {
      OnlyEmptied(f, u, pivot, k * p, k, p, skb, k * p, m);
      assert Values(skb)[m] == skb[m].value;
    }
    FilledNoDuplicates(after);
    forall s | s in rest
      ensures s in q
    {
      FilledMember(after, s);
      var m :| 0 <= m < k && after[m] == Some(s);
      OnlyEmptied(f, u, pivot, k * p, k, p, skb, k * p, m);
      assert Values(skb)[m] in q;
    }
    forall s | s in q && s.Systematic()
      ensures s in rest
    {
      var t :| 0 <= t < k && q[t] == s;
      SystematicNotEmptied(f, Values(skb), isSys, k, p, len, u, pivot, skb, k * p, s.Index());
      FilledMember(after, s);
      assert after[s.Index()] == Some(s);
    }
    forall m | HasIndex(q, m)
      ensures HasIndex(rest, m)
    {
      var t :| 0 <= t < k && q[t].Systematic() && q[t].Index() == m;
      assert q[t] in rest;
    }
  }

  method FactorSlots<T(0, ==, !new)>(f: Field<T>, slots: seq<Skb<T>>, sys: seq<bool>, k: nat, p: nat, n: nat,
                                     ghost len: nat) returns (u: array2<T>, l: array2<T>, pivot: array<nat>)
    requires IsField(f) && Slots(slots, sys, k, p, len) && n == k * p
    ensures fresh(u) && fresh(l) && fresh(pivot) && Ready(n, u, l, pivot)
    ensures Factors(f, Coefficients(f, slots, sys, k, p, len), Rows(l), Rows(u), pivot[..], n)
    ensures UnitsStay(f, Coefficients(f, slots, sys, k, p, len), Rows(u), pivot[..], n)
  {
    var coefficient := new T[n, n];
    u, l := new T[n, n], new T[n, n];
    pivot := new nat[n](i => i);
    FillCoefficients(f, slots, sys, k, p, len, coefficient);
    LuFac(f, n, coefficient, u, l, pivot);
  }

  method SolveSlots<T(0, ==, !new)>(f: Field<T>, slots: seq<Skb<T>>, sys: seq<bool>, k: nat, p: nat, n: nat,
                                    ghost len: nat, u: array2<T>, l: array2<T>, pivot: array<nat>,
                                    newskbs: Queue<seq<T>>) returns (outs: seq<seq<T>>)
    requires IsField(f) && Slots(slots, sys, k, p, len) && n == k * p && Ready(n, u, l, pivot)
    requires Factors(f, Coefficients(f, slots, sys, k, p, len), Rows(l), Rows(u), pivot[..], n)
             && FullRank(f, Rows(u), n)
    modifies newskbs
    ensures Decodes(f, slots, sys, k, p, len, outs)
    ensures newskbs.items == old(newskbs.items) + Missing(outs, sys)
  {
    var payloads := seq(k, m requires 0 <= m < k => Payload(slots[m], k, p));
    assert payloads == Payloads(slots, sys, k, p, len);
    var length := |payloads[0]|;
    ghost var a := Coefficients(f, slots, sys, k, p, len);
    outs := SkbSubsti(f, k, p, n, a, u, l, pivot, payloads, length);
    forall base: nat | base % p == 0 && base + p <= len
      ensures DecodesAt(f, slots, sys, k, p, len, outs, base)
    {
    }
    DeliverMissing(outs, sys, newskbs);
  }

  /** The rank test: on a zero pivot the packets it names are dropped and the rest go back to the queue. */
  method CheckRank<T(==, !new)>(f: Field<T>, skbs: Queue<Skb<T>>, ghost q: seq<Skb<T>>, k: nat, p: nat, n: nat,
                                ghost len: nat, skb: array<Option<Skb<T>>>, ghost sys: seq<bool>, u: array2<T>,
                                ghost l: Matrix<T>, pivot: array<nat>) returns (ok: bool)
    requires IsField(f) && |q| == k && skb.Length == k && skbs.items == [] && n == k * p
    requires (forall m :: 0 <= m < k ==> skb[m].Some?)
    requires Slotted(q, Values(skb[..]), sys) && Slots(Values(skb[..]), sys, k, p, len)
    requires Sized(u, n) && pivot.Length == n && IsPermutation(pivot[..]) && pivot as object != skb
    requires UnitsStay(f, Coefficients(f, Values(skb[..]), sys, k, p, len), Rows(u), pivot[..], n)
    requires Factors(f, Coefficients(f, Values(skb[..]), sys, k, p, len), l, Rows(u), pivot[..], n)
    modifies skbs, skb
    ensures ok <==> FullRank(f, Rows(u), n)
    ensures ok ==> skbs.items == []
    ensures !ok ==> Retains(q, skbs.items) && NoDuplicates(skbs.items)
    ensures !ok ==> forall s :: s in q && s.Systematic() ==> s in skbs.items
    ensures !ok ==> Left(f, Coefficients(f, Values(old(skb[..])), sys, k, p, len), n, p, Values(old(skb[..])),
            skbs.items)
  {
    ghost var a := Coefficients(f, Values(skb[..]), sys, k, p, len);
    var rank := DropDependent(f, n, k, p, u, pivot, skb);
    ok := rank == n;
    if !ok {
      Requeue(skb, skbs);
      RankDeficientRetains(f, q, old(skb[..]), sys, k, p, len, Rows(u), pivot[..], skbs.items);
      ghost var idx := LeftByPivots(f, a, n, k, p, old(skb[..]), skbs.items, l, Rows(u), pivot[..]);
      assert LeftBy(f, a, n, p, Values(old(skb[..])), skbs.items, l, Rows(u), pivot[..], idx);
    }
  }

  /** The attempt from the slots on: factor, test the rank, substitute. */
  method DecodeSlots<T(0, ==, !new)>(f: Field<T>, skbs: Queue<Skb<T>>, newskbs: Queue<seq<T>>, ghost q: seq<Skb<T>>,
                                     k: nat, p: nat, ghost len: nat, skb: array<Option<Skb<T>>>, slots: seq<Skb<T>>,
                                     sys: seq<bool>) returns (ok: bool, ghost news: seq<seq<T>>,
                                     ghost outs: seq<seq<T>>)
    requires IsField(f) && |q| == k && skb.Length == k && skbs.items == []
    requires (forall m :: 0 <= m < k ==> skb[m].Some?) && slots == Values(skb[..])
    requires Slotted(q, slots, sys) && Slots(slots, sys, k, p, len)
    requires skbs as object != newskbs
    modifies skbs, newskbs, skb
    ensures newskbs.items == old(newskbs.items) + news
    ensures AttemptWith(f, q, k, p, len, ok, skbs.items, news, slots, sys, outs)
  {
    var n := k * p;
    var u, l, pivot := FactorSlots(f, slots, sys, k, p, n, len);
    RankTest(f, Coefficients(f, slots, sys, k, p, len), Rows(l), Rows(u), pivot[..], n);
    ok := CheckRank(f, skbs, q, k, p, n, len, skb, sys, u, Rows(l), pivot);
    news, outs := [], [];
    if ok {
      var decoded := SolveSlots(f, slots, sys, k, p, n, len, u, l, pivot, newskbs);
      outs := decoded;
      news := Missing(outs, sys);
    }
  }

  /** skbs_decoding: an attempt on the k packets of a generation. */
  method SkbsDecoding<T(0, ==, !new)>(f: Field<T>, skbs: Queue<Skb<T>>, newskbs: Queue<seq<T>>, kp: u8, ghost len: nat)
      returns (ok: bool, ghost news: seq<seq<T>>)
    requires IsField(f) && Dims(KOf(kp), POf(kp)) && len % POf(kp) == 0
    requires |skbs.items| == KOf(kp) && AllWellFormed(skbs.items, KOf(kp), POf(kp), len)
    requires skbs as object != newskbs
    modifies skbs, newskbs
    ensures newskbs.items == old(newskbs.items) + news
    ensures Attempt(f, old(skbs.items), KOf(kp), POf(kp), len, ok, skbs.items, news)
  {
    var k, p := KOf(kp), POf(kp);
    ghost var q := skbs.items;
    var skb, isSys := new Option<Skb<T>>[k](_ => None), new bool[k];
    ok := Arrange(skbs, k, skb, isSys);
    if !ok {
      news := [];
      return;
    }
    var slots, sys := seq(k, m requires 0 <= m < k && skb[m].Some? reads skb => skb[m].value), isSys[..];
    assert slots == Values(skb[..]);
    SlottedAreSlots(q, slots, sys, k, p, len);
    ghost var outs;
    ok, news, outs := DecodeSlots(f, skbs, newskbs, q, k, p, len, skb, slots, sys);
  }

  /** The decoder gives exactly the originals that did not arrive in the clear, in order. */
  lemma DecodeReturnsOriginals<T(!new)>(f: Field<T>, q: seq<Skb<T>>, k: nat, p: nat, len: nat, ok: bool,
                                        rest: seq<Skb<T>>, news: seq<seq<T>>, originals: seq<seq<T>>, clear: seq<bool>)
      returns (idx: seq<nat>)
    requires IsField(f) && Originals(originals, k, p, len) && |q| == k
    requires forall i :: 0 <= i < k ==> MadeFrom(f, originals, k, p, len, q[i])
    requires Attempt(f, q, k, p, len, ok, rest, news) && ok
    requires |clear| == k && forall m :: 0 <= m < k ==> (clear[m] <==> HasIndex(q, m))
    ensures InOrder(originals, news, idx) && forall m: nat :: m in idx <==> m < k && !HasIndex(q, m)
    ensures news == Missing(originals, clear)
  {
    var slots, isSys, outs :| AttemptWith(f, q, k, p, len, ok, rest, news, slots, isSys, outs);
    forall m | 0 <= m < k
      ensures MadeFrom(f, originals, k, p, len, slots[m])
      ensures isSys[m] == clear[m]
    {
      assert slots[m] in q;
    }
    assert isSys == clear;
    RoundTrip(f, slots, isSys, k, p, len, originals, outs);
    idx := MissingInOrder(originals, clear);
  }

  /** A failed attempt leaves fewer than k packets, and keeps every systematic index. */
  lemma AttemptFails<T(!new)>(f: Field<T>, q: seq<Skb<T>>, k: nat, p: nat, len: nat, rest: seq<Skb<T>>,
                              news: seq<seq<T>>)
    requires Attempt(f, q, k, p, len, false, rest, news)
    ensures Retains(q, rest) && news == []
    ensures NoDuplicates(q) ==> NoDuplicates(rest)
  {
    if NoDuplicates(q) {
      var slots, isSys, outs :| AttemptWith(f, q, k, p, len, false, rest, news, slots, isSys, outs);
    }
  }
}
