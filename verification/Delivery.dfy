/** What the receiver passes up of one generation, over any run. */
module Delivery {
  import opened Wrappers
  import opened Fields
  import opened Packets
  import opened Decoder
  import opened GenList
  import opened Receiver

  /** The payloads passed up for generation eid. */
  ghost function Delivered<T>(up: seq<(u8, seq<T>)>, eid: u8): seq<seq<T>>
  {
    if up == [] then []
    else
      var n := |up| - 1;
      Delivered(up[..n], eid) + if up[n].0 == eid then [up[n].1] else []
  }

  lemma {:induction false} DeliveredMore<T>(up: seq<(u8, seq<T>)>, more: seq<(u8, seq<T>)>, eid: u8)
    ensures Delivered(up + more, eid) == Delivered(up, eid) + Delivered(more, eid)
    decreases |more|
  {
    if more == [] {
      assert up + more == up;
    } else {
      var n := |more| - 1;
      DeliveredMore(up, more[..n], eid);
      assert (up + more)[..|up| + n] == up + more[..n];
    }
  }

  lemma {:induction false} DeliveredTagged<T>(eid: u8, news: seq<seq<T>>, other: u8)
    ensures Delivered(Tagged(eid, news), other) == if eid == other then news else []
    decreases |news|
  {
    if news != [] {
      var n := |news| - 1;
      DeliveredTagged(eid, news[..n], other);
      assert Tagged(eid, news)[..n] == Tagged(eid, news[..n]);
      assert news == news[..n] + [news[n]];
    }
  }

  /** The originals that did arrive in the clear. */
  ghost function Present<X>(items: seq<X>, clear: seq<bool>): seq<X>
    requires |items| == |clear|
  {
    if items == [] then []
    else
      var n := |items| - 1;
      Present(items[..n], clear[..n]) + if clear[n] then [items[n]] else []
  }

  lemma {:induction false} PresentAndMissing<X>(items: seq<X>, clear: seq<bool>)
    requires |items| == |clear|
    ensures multiset(Present(items, clear)) + multiset(Missing(items, clear)) == multiset(items)
    decreases |items|
  {
    if items != [] {
      var n := |items| - 1;
      PresentAndMissing(items[..n], clear[..n]);
      assert items == items[..n] + [items[n]];
    }
  }

  lemma {:induction false} PresentMore<X>(items: seq<X>, clear: seq<bool>, m: nat)
    requires |items| == |clear| && m < |clear| && !clear[m]
    ensures multiset(Present(items, clear[m := true])) == multiset(Present(items, clear)) + multiset{items[m]}
    decreases |items|
  {
    var n := |items| - 1;
    if m < n {
      PresentMore(items[..n], clear[..n], m);
      assert clear[m := true][..n] == clear[..n][m := true];
    } else {
      assert clear[m := true][..n] == clear[..n];
    }
  }

  lemma {:induction false} PresentAll<X>(items: seq<X>, clear: seq<bool>)
    requires |items| == |clear| && forall m :: 0 <= m < |clear| ==> clear[m]
    ensures Present(items, clear) == items
    decreases |items|
  {
    if items != [] {
      var n := |items| - 1;
      PresentAll(items[..n], clear[..n]);
      assert items == items[..n] + [items[n]];
    }
  }

  lemma {:induction false} PresentNone<X>(items: seq<X>, clear: seq<bool>)
    requires |items| == |clear| && forall m :: 0 <= m < |clear| ==> !clear[m]
    ensures Present(items, clear) == []
    decreases |items|
  {
    if items != [] {
      PresentNone(items[..|items| - 1], clear[..|items| - 1]);
    }
  }

  // ---------------------------------------------------------------- k distinct systematic packets

  /** Without duplicates, the slot of a further systematic packet is free. */
  lemma SlotFree<T>(q: seq<Skb<T>>, s: Skb<T>, skb: seq<Option<Skb<T>>>, isSys: seq<bool>)
    requires NoDuplicates(q + [s]) && Sorted(q, skb, isSys) && s.Systematic() && s.Index() < |skb|
    ensures !isSys[s.Index()]
  {
    forall t | 0 <= t < |q| && q[t].Systematic()
      ensures q[t].Index() != s.Index()
    {
      assert (q + [s])[t] == q[t] && (q + [s])[|q|] == s;
    }
  }

  lemma {:induction false} SortedExists<T>(q: seq<Skb<T>>, k: nat) returns (skb: seq<Option<Skb<T>>>, isSys: seq<bool>)
    requires NoDuplicates(q) && forall i :: 0 <= i < |q| && q[i].Systematic() ==> q[i].Index() < k
    ensures |skb| == |isSys| == k && Sorted(q, skb, isSys)
    decreases |q|
  {
    if q == [] {
      skb, isSys := seq(k, _ => None), seq(k, _ => false);
      CountNone(isSys);
    } else {
      var n := |q| - 1;
      skb, isSys := SortedExists(q[..n], k);
      assert q == q[..n] + [q[n]];
      if q[n].Systematic() {
        SlotFree(q[..n], q[n], skb, isSys);
        SortedSystematic(q[..n], q[n], skb, isSys);
        skb, isSys := skb[q[n].Index() := Some(q[n])], isSys[q[n].Index() := true];
      } else {
        SortedCoded(q[..n], q[n], skb, isSys);
      }
    }
  }

  lemma {:induction false} NoCoded<T>(q: seq<Skb<T>>)
    requires forall i :: 0 <= i < |q| ==> q[i].Systematic()
    ensures CodedOf(q) == []
    decreases |q|
  {
    if q != [] {
      NoCoded(q[..|q| - 1]);
    }
  }

  lemma {:induction false} FullCount(s: seq<bool>)
    requires Count(s) == |s|
    ensures forall m :: 0 <= m < |s| ==> s[m]
    decreases |s|
  {
    if s != [] {
      FullCount(s[..|s| - 1]);
      assert forall m :: 0 <= m < |s| - 1 ==> s[m] == s[..|s| - 1][m];
    }
  }

  /** k systematic packets without duplicates are all of them. */
  lemma AllPresent<T>(q: seq<Skb<T>>, k: nat, m: nat)
    requires NoDuplicates(q) && |q| == k && m < k
    requires forall i :: 0 <= i < |q| ==> q[i].Systematic() && q[i].Index() < k
    ensures HasIndex(q, m)
  {
    var skb, isSys := SortedExists(q, k);
    NoCoded(q);
    FullCount(isSys);
    assert skb[m].value in q;
    var t :| 0 <= t < k && q[t] == skb[m].value;
  }

  // ---------------------------------------------------------------- following one generation

  /** The generation under study. */
  datatype Target<T> = Target(eid: u8, kp: u8, len: nat, originals: seq<seq<T>>) {
    function K(): nat { KOf(kp) }
    function P(): nat { POf(kp) }

    ghost predicate Good()
    {
      Originals(originals, K(), P(), len)
    }
  }

  /** What has been gathered for the target; clear[m] says that index m arrived in the clear. */
  ghost predicate Gathered<T>(f: Field<T>, t: Target<T>, g: Gen<T>, clear: seq<bool>)
    requires t.Good()
  {
    && g.eid == t.eid && g.kp == t.kp && |g.skbs| < t.K() && |clear| == t.K()
    && GatheredPackets(f, t, g.skbs, clear)
    && (g.sys ==> forall i :: 0 <= i < |g.skbs| ==> g.skbs[i].Systematic())
  }

  ghost predicate GatheredPackets<T>(f: Field<T>, t: Target<T>, q: seq<Skb<T>>, clear: seq<bool>)
    requires t.Good() && |clear| == t.K()
  {
    && (forall i :: 0 <= i < |q| ==> MadeFrom(f, t.originals, t.K(), t.P(), t.len, q[i]))
    && NoDuplicates(q)
    && (forall m :: 0 <= m < t.K() ==> (clear[m] <==> HasIndex(q, m)))
  }

  ghost predicate Absent<T>(t: Target<T>, list: seq<Gen<T>>)
  {
    forall g :: g in list ==> g.eid != t.eid
  }

  ghost predicate Pending<T>(f: Field<T>, t: Target<T>, s: Rx<T>, from: nat, clear: seq<bool>)
    requires t.Good() && |clear| == t.K() && from <= |s.up|
  {
    && t.eid !in s.lastDid
    && multiset(Delivered(s.up[from..], t.eid)) == multiset(Present(t.originals, clear))
    && (forall g :: g in s.list && g.eid == t.eid ==> Gathered(f, t, g, clear))
    && (Absent(t, s.list) ==> forall m :: 0 <= m < |clear| ==> !clear[m])
  }

  ghost predicate Complete<T>(t: Target<T>, s: Rx<T>, from: nat)
    requires from <= |s.up|
  {
    && t.eid in s.lastDid
    && multiset(Delivered(s.up[from..], t.eid)) == multiset(t.originals)
    && Absent(t, s.list)
  }

  ghost predicate Tracked<T>(f: Field<T>, t: Target<T>, s: Rx<T>, from: nat, clear: seq<bool>)
    requires t.Good() && |clear| == t.K()
  {
    from <= |s.up| && (Pending(f, t, s, from, clear) || Complete(t, s, from))
  }

  /** Which indices have arrived in the clear after a packet of the target. */
  function Cleared<T>(t: Target<T>, clear: seq<bool>, skb: Skb<T>): (c: seq<bool>)
    ensures |c| == |clear|
  {
    if skb.eid == t.eid && skb.Systematic() && skb.Index() < |clear| then clear[skb.Index() := true] else clear
  }

  /** What the theorem asks of an arrival: packets of the target come from its originals, no systematic
      one twice, and the target does not time out. */
  ghost predicate Fair<T>(f: Field<T>, t: Target<T>, s: Rx<T>, e: Event<T>, clear: seq<bool>)
    requires t.Good() && |clear| == t.K()
  {
    && (e.skb.eid == t.eid ==>
          && e.skb.kp == t.kp && e.len == t.len && MadeFrom(f, t.originals, t.K(), t.P(), t.len, e.skb)
          && (e.skb.Systematic() ==> !clear[e.skb.Index()]))
    && (forall g :: g in s.list && g.eid == t.eid ==> Elapsed(e.now, g.born) <= ETIMEOUT)
  }

  /** The step pushes the target off the list of completed generations. */
  predicate Forgets<T>(t: Target<T>, s: Rx<T>, s': Rx<T>)
  {
    t.eid in s.lastDid && t.eid !in s'.lastDid
  }

  /** Adding a packet of the target. */
  lemma GatherOne<T>(f: Field<T>, t: Target<T>, q: seq<Skb<T>>, clear: seq<bool>, skb: Skb<T>)
    requires t.Good() && |clear| == t.K() && GatheredPackets(f, t, q, clear)
    requires skb.eid == t.eid && MadeFrom(f, t.originals, t.K(), t.P(), t.len, skb)
    requires skb.Systematic() ==> !clear[skb.Index()]
    ensures GatheredPackets(f, t, q + [skb], Cleared(t, clear, skb))
  {
    var q', clear' := q + [skb], Cleared(t, clear, skb);
    forall m | 0 <= m < t.K()
      ensures clear'[m] <==> HasIndex(q', m)
    {
      if HasIndex(q, m) {
        var i :| 0 <= i < |q| && q[i].Systematic() && q[i].Index() == m;
        assert q'[i] == q[i];
      }
      if skb.Systematic() && skb.Index() == m {
        assert q'[|q|] == skb;
      }
    }
    forall i | 0 <= i < |q| && q[i].Systematic() && skb.Systematic()
      ensures q[i].Index() != skb.Index()
    {
      assert HasIndex(q, q[i].Index());
    }
  }

  /** A failed attempt keeps what was gathered. */
  lemma GatheredRetained<T(!new)>(f: Field<T>, t: Target<T>, q: seq<Skb<T>>, clear: seq<bool>, rest: seq<Skb<T>>,
                                  news: seq<seq<T>>)
    requires t.Good() && |clear| == t.K() && GatheredPackets(f, t, q, clear)
    requires Attempt(f, q, t.K(), t.P(), t.len, false, rest, news)
    ensures |rest| < |q| && GatheredPackets(f, t, rest, clear)
  {
    AttemptFails(f, q, t.K(), t.P(), t.len, rest, news);
    forall i | 0 <= i < |rest|
      ensures MadeFrom(f, t.originals, t.K(), t.P(), t.len, rest[i])
    {
      assert rest[i] in q;
    }
    forall m | 0 <= m < t.K() && HasIndex(rest, m)
      ensures HasIndex(q, m)
    {
      var i :| 0 <= i < |rest| && rest[i].Systematic() && rest[i].Index() == m;
      assert rest[i] in q;
      var j :| 0 <= j < |q| && q[j] == rest[i];
    }
  }

  /** A successful attempt delivers exactly what was missing. */
  lemma DecodedCompletes<T(!new)>(f: Field<T>, t: Target<T>, q: seq<Skb<T>>, clear: seq<bool>, rest: seq<Skb<T>>,
                                  news: seq<seq<T>>)
    requires IsField(f) && t.Good() && |clear| == t.K() && GatheredPackets(f, t, q, clear) && |q| == t.K()
    requires Attempt(f, q, t.K(), t.P(), t.len, true, rest, news)
    ensures multiset(Present(t.originals, clear)) + multiset(news) == multiset(t.originals)
  {
    var _ := DecodeReturnsOriginals(f, q, t.K(), t.P(), t.len, true, rest, news, t.originals, clear);
    PresentAndMissing(t.originals, clear);
  }

  /** k systematic packets leave nothing to decode. */
  lemma SystematicCompletes<T>(f: Field<T>, t: Target<T>, q: seq<Skb<T>>, clear: seq<bool>)
    requires t.Good() && |clear| == t.K() && GatheredPackets(f, t, q, clear) && |q| == t.K()
    requires forall i :: 0 <= i < |q| ==> q[i].Systematic()
    ensures Present(t.originals, clear) == t.originals
  {
    forall m | 0 <= m < t.K()
      ensures clear[m]
    {
      AllPresent(q, t.K(), m);
    }
    PresentAll(t.originals, clear);
  }

  lemma PassedUpDelivers<T>(f: Field<T>, t: Target<T>, s: Rx<T>, from: nat, clear: seq<bool>, skb: Skb<T>)
    requires t.Good() && |clear| == t.K() && from <= |s.up|
    requires multiset(Delivered(s.up[from..], t.eid)) == multiset(Present(t.originals, clear))
    requires skb.eid == t.eid && MadeFrom(f, t.originals, t.K(), t.P(), t.len, skb)
    requires skb.Systematic() ==> !clear[skb.Index()]
    ensures from <= |PassedUp(s, skb)|
    ensures multiset(Delivered(PassedUp(s, skb)[from..], t.eid))
            == multiset(Present(t.originals, Cleared(t, clear, skb)))
  {
    if skb.Systematic() {
      var one := [(skb.eid, skb.body)];
      assert PassedUp(s, skb)[from..] == s.up[from..] + one;
      DeliveredMore(s.up[from..], one, t.eid);
      assert one[..0] == [];
      assert Delivered(one, t.eid) == [skb.body];
      PresentMore(t.originals, clear, skb.Index());
    }
  }

  // ---------------------------------------------------------------- one step

  /** The two lists hold the same generations of the target. */
  ghost predicate SameTarget<T>(t: Target<T>, l: seq<Gen<T>>, l': seq<Gen<T>>)
  {
    && (forall g :: g in l && g.eid == t.eid ==> g in l')
    && (forall g :: g in l' && g.eid == t.eid ==> g in l)
  }

  lemma FreshSame<T>(t: Target<T>, l: seq<Gen<T>>, now: nat)
    requires forall g :: g in l && g.eid == t.eid ==> Elapsed(now, g.born) <= ETIMEOUT
    ensures SameTarget(t, l, FreshGens(l, now))
  {
    forall g | g in l || g in FreshGens(l, now)
      ensures g.eid == t.eid ==> (g in l <==> g in FreshGens(l, now))
    {
      FreshMember(l, now, g);
    }
  }

  lemma UpdateSame<T>(t: Target<T>, l: seq<Gen<T>>, i: nat, g: Gen<T>)
    requires i < |l| && l[i].eid != t.eid && g.eid != t.eid
    ensures SameTarget(t, l, l[i := g]) && SameTarget(t, l, Without(l, i))
  {
    forall h | h in l && h.eid == t.eid
      ensures h in l[i := g] && h in Without(l, i)
    {
      var j :| 0 <= j < |l| && l[j] == h;
      assert l[i := g][j] == h;
      assert j < i ==> Without(l, i)[j] == h;
      assert j > i ==> Without(l, i)[j - 1] == h;
    }
  }

  /** A change that does not touch the target. */
  lemma Untouched<T>(f: Field<T>, t: Target<T>, s: Rx<T>, s': Rx<T>, from: nat, clear: seq<bool>,
                     more: seq<(u8, seq<T>)>)
    requires t.Good() && |clear| == t.K() && Tracked(f, t, s, from, clear)
    requires SameTarget(t, s.list, s'.list) && s'.up == s.up + more && Delivered(more, t.eid) == []
    requires t.eid in s.lastDid <==> t.eid in s'.lastDid
    ensures Tracked(f, t, s', from, clear)
  {
    SameDelivered(s.up, from, more, t.eid);
    if Complete(t, s, from) {
      assert Complete(t, s', from);
    } else {
      assert forall g :: g in s'.list && g.eid == t.eid ==> Gathered(f, t, g, clear);
      assert Absent(t, s'.list) ==> Absent(t, s.list);
      assert Pending(f, t, s', from, clear);
    }
  }

  lemma SameDelivered<T>(up: seq<(u8, seq<T>)>, from: nat, more: seq<(u8, seq<T>)>, eid: u8)
    requires from <= |up| && Delivered(more, eid) == []
    ensures Delivered((up + more)[from..], eid) == Delivered(up[from..], eid)
  {
    assert (up + more)[from..] == up[from..] + more;
    DeliveredMore(up[from..], more, eid);
  }

  lemma DroppedTracked<T>(f: Field<T>, t: Target<T>, s: Rx<T>, e: Event<T>, s': Rx<T>, from: nat, clear: seq<bool>)
    requires t.Good() && |clear| == t.K() && Tracked(f, t, s, from, clear) && Fair(f, t, s, e, clear)
    requires e.skb.eid in s.lastDid && s' == s.(list := FreshGens(s.list, e.now))
    ensures Tracked(f, t, s', from, Cleared(t, clear, e.skb))
  {
    FreshSame(t, s.list, e.now);
    Untouched(f, t, s, s', from, clear, []);
  }

  lemma OtherPassedUp<T>(t: Target<T>, s: Rx<T>, skb: Skb<T>) returns (more: seq<(u8, seq<T>)>)
    requires skb.eid != t.eid
    ensures PassedUp(s, skb) == s.up + more && Delivered(more, t.eid) == []
  {
    more := if skb.Systematic() then [(skb.eid, skb.body)] else [];
    assert more != [] ==> more[..0] == [];
  }

  lemma OtherTagged<T>(t: Target<T>, up: seq<(u8, seq<T>)>, more: seq<(u8, seq<T>)>, eid: u8, news: seq<seq<T>>)
    requires eid != t.eid && Delivered(more, t.eid) == []
    ensures up + more + Tagged(eid, news) == up + (more + Tagged(eid, news))
    ensures Delivered(more + Tagged(eid, news), t.eid) == []
  {
    DeliveredTagged(eid, news, t.eid);
    DeliveredMore(more, Tagged(eid, news), t.eid);
  }

  lemma OtherTried<T(!new)>(f: Field<T>, t: Target<T>, s: Rx<T>, e: Event<T>, s': Rx<T>, l: seq<Gen<T>>, i: nat)
      returns (more: seq<(u8, seq<T>)>)
    requires |s.lastDid| == 3 && i < |l| && e.skb.eid != t.eid && Taken(f, s, e, s', l, i)
    ensures s'.up == s.up + more && Delivered(more, t.eid) == []
  {
    more := OtherPassedUp(t, s, e.skb);
    var g := Grown(l[i], e.skb);
    if e.skb.kp != l[i].kp {
      more := [];
    } else if |g.skbs| == KOf(e.skb.kp) && !g.sys {
      var ok, rest, news :| Tried(f, s, e, s', l, i, ok, rest, news);
      if ok {
        assert s'.up == PassedUp(s, e.skb) + Tagged(e.skb.eid, news);
        OtherTagged(t, s.up, more, e.skb.eid, news);
        more := more + Tagged(e.skb.eid, news);
      } else {
        assert s'.up == PassedUp(s, e.skb);
      }
    }
  }

  lemma OtherList<T(!new)>(f: Field<T>, t: Target<T>, s: Rx<T>, e: Event<T>, s': Rx<T>, l: seq<Gen<T>>, i: nat)
    requires |s.lastDid| == 3 && i < |l| && l[i].eid != t.eid && Short(l) && Taken(f, s, e, s', l, i)
    ensures SameTarget(t, l, s'.list)
    ensures s'.lastDid == s.lastDid || s'.lastDid == Push(s.lastDid, e.skb.eid)
  {
    var g := TakenCases(f, s, e, s', l, i);
    UpdateSame(t, l, i, g);
  }

  /** A packet of another generation. */
  lemma OtherTracked<T(!new)>(f: Field<T>, t: Target<T>, s: Rx<T>, e: Event<T>, s': Rx<T>, from: nat, clear: seq<bool>)
    requires t.Good() && |clear| == t.K() && Tracked(f, t, s, from, clear) && Fair(f, t, s, e, clear)
    requires e.skb.eid !in s.lastDid && e.skb.eid != t.eid && Sound(s) && 0 < KOf(e.skb.kp) && Step(f, s, e, s')
    requires !Forgets(t, s, s')
    ensures Tracked(f, t, s', from, clear)
  {
    var l, i := Joined(s, e), Find(FreshGens(s.list, e.now), e.skb.eid);
    FreshSame(t, s.list, e.now);
    var more := OtherTried(f, t, s, e, s', l, i);
    assert l[i].eid == e.skb.eid;
    JoinedShort(s, e);
    OtherList(f, t, s, e, s', l, i);
    assert SameTarget(t, s.list, l);
    Untouched(f, t, s, s', from, clear, more);
  }

  /** What the target's generation looks like once the packet has joined it. */
  lemma JoinedGathers<T>(f: Field<T>, t: Target<T>, s: Rx<T>, e: Event<T>, s': Rx<T>, from: nat, clear: seq<bool>,
                         i: nat)
    requires t.Good() && |clear| == t.K() && from <= |s.up| && Pending(f, t, s, from, clear) && Fair(f, t, s, e, clear)
    requires e.skb.eid == t.eid && i == Find(FreshGens(s.list, e.now), e.skb.eid)
    ensures Joined(s, e)[i].eid == t.eid && Gathered(f, t, Joined(s, e)[i], clear)
  {
    var l := FreshGens(s.list, e.now);
    FreshSame(t, s.list, e.now);
    if i == |l| {
      assert Absent(t, l);
      assert Absent(t, s.list);
    } else {
      assert l[i] in l;
    }
  }

  /** With unique ids, the generation at i is the only one of the target. */
  lemma OnlyOne<T>(t: Target<T>, l: seq<Gen<T>>, i: nat, g: Gen<T>)
    requires UniqueIds(l) && i < |l| && l[i].eid == t.eid
    ensures Absent(t, Without(l, i))
    ensures forall h :: h in l[i := g] && h.eid == t.eid ==> h == g
  {
    assert forall j :: 0 <= j < |l| && l[j].eid == t.eid ==> j == i;
  }

  /** A packet of the target that does not complete it. */
  lemma GrownTracked<T>(f: Field<T>, t: Target<T>, s: Rx<T>, e: Event<T>, s': Rx<T>, from: nat, clear: seq<bool>,
                        l: seq<Gen<T>>, i: nat, g: Gen<T>)
    requires t.Good() && |clear| == t.K() && from <= |s.up| && Pending(f, t, s, from, clear) && Fair(f, t, s, e, clear)
    requires e.skb.eid == t.eid && UniqueIds(l) && i < |l| && l[i].eid == t.eid
    requires s' == Rx(l[i := g], s.lastDid, PassedUp(s, e.skb)) && Gathered(f, t, g, Cleared(t, clear, e.skb))
    ensures Tracked(f, t, s', from, Cleared(t, clear, e.skb))
  {
    OnlyOne(t, l, i, g);
    PassedUpDelivers(f, t, s, from, clear, e.skb);
    assert s'.list[i] == g;
    assert g in s'.list;
  }

  lemma TaggedDelivers<T>(t: Target<T>, up: seq<(u8, seq<T>)>, from: nat, news: seq<seq<T>>)
    requires from <= |up|
    ensures Delivered((up + Tagged(t.eid, news))[from..], t.eid) == Delivered(up[from..], t.eid) + news
  {
    var more := Tagged(t.eid, news);
    assert (up + more)[from..] == up[from..] + more;
    DeliveredMore(up[from..], more, t.eid);
    DeliveredTagged(t.eid, news, t.eid);
  }

  /** A packet of the target that completes it. */
  lemma CompletedTracked<T>(f: Field<T>, t: Target<T>, s: Rx<T>, e: Event<T>, s': Rx<T>, from: nat, clear: seq<bool>,
                            l: seq<Gen<T>>, i: nat, news: seq<seq<T>>)
    requires t.Good() && |clear| == t.K() && from <= |s.up| && Pending(f, t, s, from, clear) && Fair(f, t, s, e, clear)
    requires e.skb.eid == t.eid && UniqueIds(l) && i < |l| && l[i].eid == t.eid && |s.lastDid| == 3
    requires s' == Rx(Without(l, i), Push(s.lastDid, e.skb.eid), PassedUp(s, e.skb) + Tagged(e.skb.eid, news))
    requires multiset(Present(t.originals, Cleared(t, clear, e.skb))) + multiset(news) == multiset(t.originals)
    ensures from <= |s'.up| && Complete(t, s', from)
  {
    OnlyOne(t, l, i, l[i]);
    PassedUpDelivers(f, t, s, from, clear, e.skb);
    TaggedDelivers(t, PassedUp(s, e.skb), from, news);
  }

  /** The target's generation once the packet is in it. */
  lemma GrownGathers<T>(f: Field<T>, t: Target<T>, g: Gen<T>, clear: seq<bool>, skb: Skb<T>)
    requires t.Good() && |clear| == t.K() && Gathered(f, t, g, clear)
    requires skb.eid == t.eid && MadeFrom(f, t.originals, t.K(), t.P(), t.len, skb)
    requires skb.Systematic() ==> !clear[skb.Index()]
    ensures GatheredPackets(f, t, Grown(g, skb).skbs, Cleared(t, clear, skb))
    ensures Grown(g, skb).sys ==> forall i :: 0 <= i < |Grown(g, skb).skbs| ==> Grown(g, skb).skbs[i].Systematic()
    ensures |Grown(g, skb).skbs| <= t.K()
  {
    GatherOne(f, t, g.skbs, clear, skb);
  }

  lemma TriedTracked<T(!new)>(f: Field<T>, t: Target<T>, s: Rx<T>, e: Event<T>, s': Rx<T>, from: nat, clear: seq<bool>,
                              l: seq<Gen<T>>, i: nat, ok: bool, rest: seq<Skb<T>>, news: seq<seq<T>>)
    requires IsField(f) && t.Good() && |clear| == t.K() && from <= |s.up| && Pending(f, t, s, from, clear)
             && Fair(f, t, s, e, clear)
    requires e.skb.eid == t.eid && UniqueIds(l) && i < |l| && l[i].eid == t.eid && |s.lastDid| == 3
    requires Gathered(f, t, l[i], clear) && |Grown(l[i], e.skb).skbs| == t.K() && !Grown(l[i], e.skb).sys
    requires Tried(f, s, e, s', l, i, ok, rest, news)
    ensures Tracked(f, t, s', from, Cleared(t, clear, e.skb))
  {
    var g, clear' := Grown(l[i], e.skb), Cleared(t, clear, e.skb);
    GrownGathers(f, t, l[i], clear, e.skb);
    if ok {
      DecodedCompletes(f, t, g.skbs, clear', rest, news);
      CompletedTracked(f, t, s, e, s', from, clear, l, i, news);
    } else {
      GatheredRetained(f, t, g.skbs, clear', rest, news);
      GrownTracked(f, t, s, e, s', from, clear, l, i, g.(skbs := rest));
    }
  }

  lemma AllSystematicTracked<T(!new)>(f: Field<T>, t: Target<T>, s: Rx<T>, e: Event<T>, s': Rx<T>, from: nat,
                                      clear: seq<bool>, l: seq<Gen<T>>, i: nat)
    requires t.Good() && |clear| == t.K() && from <= |s.up| && Pending(f, t, s, from, clear) && Fair(f, t, s, e, clear)
    requires e.skb.eid == t.eid && UniqueIds(l) && i < |l| && l[i].eid == t.eid && |s.lastDid| == 3
    requires Gathered(f, t, l[i], clear) && |Grown(l[i], e.skb).skbs| == t.K() && Grown(l[i], e.skb).sys
    requires s' == Rx(Without(l, i), Push(s.lastDid, e.skb.eid), PassedUp(s, e.skb))
    ensures Tracked(f, t, s', from, Cleared(t, clear, e.skb))
  {
    GrownGathers(f, t, l[i], clear, e.skb);
    SystematicCompletes(f, t, Grown(l[i], e.skb).skbs, Cleared(t, clear, e.skb));
    assert PassedUp(s, e.skb) + Tagged(e.skb.eid, []) == PassedUp(s, e.skb);
    CompletedTracked(f, t, s, e, s', from, clear, l, i, []);
  }

  lemma TargetTracked<T(!new)>(f: Field<T>, t: Target<T>, s: Rx<T>, e: Event<T>, s': Rx<T>, from: nat, clear: seq<bool>)
    requires IsField(f) && t.Good() && |clear| == t.K() && from <= |s.up| && Pending(f, t, s, from, clear)
             && Fair(f, t, s, e, clear)
    requires Sound(s) && Step(f, s, e, s') && e.skb.eid == t.eid
    ensures Tracked(f, t, s', from, Cleared(t, clear, e.skb))
  {
    var l, i := Joined(s, e), Find(FreshGens(s.list, e.now), e.skb.eid);
    JoinedUnique(s, e);
    JoinedGathers(f, t, s, e, s', from, clear, i);
    GrownGathers(f, t, l[i], clear, e.skb);
    var g := Grown(l[i], e.skb);
    if |g.skbs| != t.K() {
      GrownTracked(f, t, s, e, s', from, clear, l, i, g);
    } else if g.sys {
      AllSystematicTracked(f, t, s, e, s', from, clear, l, i);
    } else {
      var ok, rest, news :| Tried(f, s, e, s', l, i, ok, rest, news);
      TriedTracked(f, t, s, e, s', from, clear, l, i, ok, rest, news);
    }
  }

  /** One packet of any generation keeps the account of the target, as long as the target is not forgotten. */
  lemma StepTracked<T(!new)>(f: Field<T>, t: Target<T>, s: Rx<T>, e: Event<T>, s': Rx<T>, from: nat, clear: seq<bool>)
    requires IsField(f) && t.Good() && |clear| == t.K() && Tracked(f, t, s, from, clear) && Fair(f, t, s, e, clear)
    requires Sound(s) && 0 < KOf(e.skb.kp) && Step(f, s, e, s')
    ensures Tracked(f, t, s', from, Cleared(t, clear, e.skb)) || Forgets(t, s, s')
  {
    if e.skb.eid in s.lastDid {
      DroppedTracked(f, t, s, e, s', from, clear);
    } else if e.skb.eid != t.eid {
      if !Forgets(t, s, s') {
        OtherTracked(f, t, s, e, s', from, clear);
      }
    } else {
      TargetTracked(f, t, s, e, s', from, clear);
    }
  }

  // ---------------------------------------------------------------- whole runs

  /** A run of the receiver: states[i] becomes states[i + 1] by events[i]. */
  ghost predicate Run<T(!new)>(f: Field<T>, states: seq<Rx<T>>, events: seq<Event<T>>)
  {
    && |states| == |events| + 1
    && forall i :: 0 <= i < |events| ==> RunAt(f, states, events, i)
  }

  ghost predicate RunAt<T(!new)>(f: Field<T>, states: seq<Rx<T>>, events: seq<Event<T>>, i: nat)
    requires i < |events| < |states|
  {
    0 < KOf(events[i].skb.kp) && Step(f, states[i], events[i], states[i + 1])
  }

  /** Which indices have arrived in the clear after the first n events. */
  ghost function ClearAfter<T>(t: Target<T>, events: seq<Event<T>>, n: nat): (c: seq<bool>)
    requires n <= |events|
    ensures |c| == t.K()
  {
    if n == 0 then seq(t.K(), _ => false) else Cleared(t, ClearAfter(t, events, n - 1), events[n - 1].skb)
  }

  /** The first n arrivals are as the theorem asks. */
  ghost predicate FairRun<T(!new)>(f: Field<T>, t: Target<T>, states: seq<Rx<T>>, events: seq<Event<T>>, n: nat)
    requires t.Good() && Run(f, states, events) && n <= |events|
  {
    forall i :: 0 <= i < n ==> FairAt(f, t, states, events, i)
  }

  ghost predicate FairAt<T>(f: Field<T>, t: Target<T>, states: seq<Rx<T>>, events: seq<Event<T>>, i: nat)
    requires t.Good() && i < |events| < |states|
  {
    Fair(f, t, states[i], events[i], ClearAfter(t, events, i))
  }

  // ---------------------------------------------------------------- how long a completed generation is known

  /** One packet moves the list of completed ids only by completing its own generation. */
  lemma CompletionPushes<T(!new)>(f: Field<T>, s: Rx<T>, e: Event<T>, s': Rx<T>)
    requires Sound(s) && Step(f, s, e, s') && 0 < KOf(e.skb.kp)
    ensures |s'.lastDid| == 3
    ensures s'.lastDid != s.lastDid ==> e.skb.eid !in s.lastDid && s'.lastDid == Push(s.lastDid, e.skb.eid)
  {
    if e.skb.eid !in s.lastDid {
      JoinedShort(s, e);
      var _ := TakenCases(f, s, e, s', Joined(s, e), Find(FreshGens(s.list, e.now), e.skb.eid));
    }
  }

  /** How many generations complete between the states a and n of a run. */
  ghost function Completions<T>(states: seq<Rx<T>>, a: nat, n: nat): nat
    requires a <= n < |states|
  {
    if n == a then 0
    else Completions(states, a, n - 1) + if states[n].lastDid != states[n - 1].lastDid then 1 else 0
  }

  lemma {:induction false} RunSound<T(!new)>(f: Field<T>, states: seq<Rx<T>>, events: seq<Event<T>>, n: nat)
    requires Run(f, states, events) && Sound(states[0]) && n <= |events|
    ensures Sound(states[n])
  {
    if n > 0 {
      RunSound(f, states, events, n - 1);
      assert RunAt(f, states, events, n - 1);
      StepSound(f, states[n - 1], events[n - 1], states[n]);
    }
  }

  /** State i + 1 knows the same completed ids as state i, or one new one in front. */
  predicate PushedAt<T>(states: seq<Rx<T>>, i: nat)
    requires i + 1 < |states|
  {
    var d, d' := states[i].lastDid, states[i + 1].lastDid;
    |d| == 3 && |d'| == 3 && (d' == d || (d'[0] !in d && d' == Push(d, d'[0])))
  }

  lemma RunPushes<T(!new)>(f: Field<T>, states: seq<Rx<T>>, events: seq<Event<T>>, i: nat)
    requires Run(f, states, events) && Sound(states[0]) && i < |events|
    ensures PushedAt(states, i)
  {
    RunSound(f, states, events, i);
    assert RunAt(f, states, events, i);
    CompletionPushes(f, states[i], events[i], states[i + 1]);
  }

  /** Over every run, the id of a completed generation moves back one place with each later completion and with
      nothing else: it is known until the third. */
  lemma {:induction false} ForgottenSlowly<T(!new)>(f: Field<T>, states: seq<Rx<T>>, events: seq<Event<T>>, a: nat,
          n: nat)
    requires Run(f, states, events) && Sound(states[0]) && a <= n <= |events| && Completions(states, a, n) < 3
    ensures |states[a].lastDid| == |states[n].lastDid| == 3
    ensures states[n].lastDid[Completions(states, a, n)] == states[a].lastDid[0]
    ensures forall j :: 0 <= j < Completions(states, a, n) ==> states[n].lastDid[j] != states[a].lastDid[0]
    decreases n
  {
    if a == n {
      RunSound(f, states, events, n);
    } else {
      ForgottenSlowly(f, states, events, a, n - 1);
      RunPushes(f, states, events, n - 1);
    }
  }

  /** The third later completion pushes it off. */
  lemma ForgottenAtThird<T(!new)>(f: Field<T>, states: seq<Rx<T>>, events: seq<Event<T>>, a: nat, n: nat)
    requires Run(f, states, events) && Sound(states[0]) && a < n <= |events|
    requires Completions(states, a, n - 1) == 2 && states[n].lastDid != states[n - 1].lastDid
    ensures |states[a].lastDid| == 3 && states[a].lastDid[0] !in states[n].lastDid
  {
    ForgottenSlowly(f, states, events, a, n - 1);
    RunPushes(f, states, events, n - 1);
  }

  /** Wherever the target has completed, fewer than three generations have completed since. */
  ghost predicate Recent<T>(t: Target<T>, states: seq<Rx<T>>, n: nat)
    requires n < |states|
  {
    forall a :: 0 <= a <= n && CompletedAt(t, states, a) ==> Completions(states, a, n) < 3
  }

  ghost predicate CompletedAt<T>(t: Target<T>, states: seq<Rx<T>>, a: nat)
    requires a < |states|
  {
    0 < a && t.eid !in states[a - 1].lastDid && t.eid in states[a].lastDid
  }

  lemma RecentBefore<T>(t: Target<T>, states: seq<Rx<T>>, n: nat)
    requires n + 1 < |states| && Recent(t, states, n + 1)
    ensures Recent(t, states, n)
  {
    forall a | 0 <= a <= n && CompletedAt(t, states, a)
      ensures Completions(states, a, n) < 3
    {
      assert Completions(states, a, n) <= Completions(states, a, n + 1);
    }
  }

  /** The state in which a known id was completed. */
  lemma {:induction false} WhenCompleted<T(!new)>(f: Field<T>, t: Target<T>, states: seq<Rx<T>>, events: seq<Event<T>>,
          n: nat) returns (a: nat)
    requires Run(f, states, events) && Sound(states[0]) && n <= |events|
    requires t.eid !in states[0].lastDid && t.eid in states[n].lastDid
    ensures a <= n && CompletedAt(t, states, a) && |states[a].lastDid| == 3 && states[a].lastDid[0] == t.eid
  {
    if t.eid in states[n - 1].lastDid {
      a := WhenCompleted(f, t, states, events, n - 1);
    } else {
      a := n;
      RunPushes(f, states, events, n - 1);
    }
  }

  /** A target that completed recently is not forgotten. */
  lemma RecentKnown<T(!new)>(f: Field<T>, t: Target<T>, states: seq<Rx<T>>, events: seq<Event<T>>, n: nat)
    requires Run(f, states, events) && Sound(states[0]) && n < |events|
    requires t.eid !in states[0].lastDid && Recent(t, states, n + 1)
    ensures !Forgets(t, states[n], states[n + 1])
  {
    if t.eid in states[n].lastDid {
      var a := WhenCompleted(f, t, states, events, n);
      ForgottenSlowly(f, states, events, a, n + 1);
    }
  }

  // ---------------------------------------------------------------- delivery over whole runs

  lemma RunStep<T(!new)>(f: Field<T>, t: Target<T>, states: seq<Rx<T>>, events: seq<Event<T>>, n: nat, from: nat)
    requires IsField(f) && t.Good() && Run(f, states, events) && n < |events| && FairAt(f, t, states, events, n)
    requires Sound(states[n]) && Tracked(f, t, states[n], from, ClearAfter(t, events, n))
    requires !Forgets(t, states[n], states[n + 1])
    ensures Sound(states[n + 1]) && Tracked(f, t, states[n + 1], from, ClearAfter(t, events, n + 1))
  {
    var e := events[n];
    assert RunAt(f, states, events, n);
    StepSound(f, states[n], e, states[n + 1]);
    StepTracked(f, t, states[n], e, states[n + 1], from, ClearAfter(t, events, n));
  }

  lemma StartTracked<T>(f: Field<T>, t: Target<T>, s: Rx<T>, clear: seq<bool>)
    requires t.Good() && Absent(t, s.list) && t.eid !in s.lastDid
    requires |clear| == t.K() && forall m :: 0 <= m < |clear| ==> !clear[m]
    ensures Tracked(f, t, s, |s.up|, clear)
  {
    PresentNone(t.originals, clear);
    assert s.up[|s.up|..] == [];
  }

  lemma {:induction false} RunTracked<T(!new)>(f: Field<T>, t: Target<T>, states: seq<Rx<T>>, events: seq<Event<T>>,
          n: nat)
    requires IsField(f) && t.Good() && Run(f, states, events) && n <= |events|
    requires FairRun(f, t, states, events, n) && Recent(t, states, n)
    requires Sound(states[0]) && Absent(t, states[0].list) && t.eid !in states[0].lastDid
    ensures Sound(states[n]) && Tracked(f, t, states[n], |states[0].up|, ClearAfter(t, events, n))
  {
    if n == 0 {
      StartTracked(f, t, states[0], ClearAfter(t, events, 0));
    } else {
      RecentBefore(t, states, n - 1);
      RunTracked(f, t, states, events, n - 1);
      RecentKnown(f, t, states, events, n - 1);
      assert FairAt(f, t, states, events, n - 1);
      RunStep(f, t, states, events, n - 1, |states[0].up|);
    }
  }

  /** Each of these payloads is one of the originals, no original twice: idx says which. */
  predicate Attributed<X(==)>(payloads: seq<X>, originals: seq<X>, idx: seq<nat>)
  {
    && |idx| == |payloads|
    && (forall j :: 0 <= j < |idx| ==> idx[j] < |originals| && payloads[j] == originals[idx[j]])
    && (forall i, j :: 0 <= i < j < |idx| ==> idx[i] != idx[j])
  }

  /** Payloads that are among the originals, counted with their multiplicity, have such an attribution; and as
      many payloads as originals leave no original out. */
  lemma {:induction false} Attribute<X>(payloads: seq<X>, originals: seq<X>) returns (idx: seq<nat>)
    requires multiset(payloads) <= multiset(originals)
    ensures Attributed(payloads, originals, idx)
    ensures |payloads| == |originals| ==> forall m :: 0 <= m < |originals| ==> m in idx
    decreases |payloads|
  {
    if payloads == [] {
      idx := [];
    } else {
      var n := |payloads| - 1;
      assert payloads == payloads[..n] + [payloads[n]];
      assert payloads[n] in multiset(payloads);
      var i :| 0 <= i < |originals| && originals[i] == payloads[n];
      var rest := Without(originals, i);
      OneLess(payloads, originals, i);
      var idx' := Attribute(payloads[..n], rest);
      idx := Shifted(idx', i) + [i];
      AttributeOneMore(payloads, originals, idx', i, idx);
    }
  }

  lemma AttributeOneMore<X>(payloads: seq<X>, originals: seq<X>, idx': seq<nat>, i: nat, idx: seq<nat>)
    requires payloads != [] && i < |originals| && originals[i] == payloads[|payloads| - 1]
    requires Attributed(payloads[..|payloads| - 1], Without(originals, i), idx') && idx == Shifted(idx', i) + [i]
    ensures Attributed(payloads, originals, idx)
    ensures forall m :: 0 <= m < |originals| && (forall m' :: 0 <= m' < |originals| - 1 ==> m' in idx') ==> m in idx
  {
    var n := |payloads| - 1;
    forall m | 0 <= m < |originals| && (forall m' :: 0 <= m' < |originals| - 1 ==> m' in idx')
      ensures m in idx
    {
      if m == i {
        assert idx[n] == m;
      } else {
        var m' := if m < i then m else m - 1;
        assert m' in idx';
        var j :| 0 <= j < n && idx'[j] == m';
        assert idx[j] == m;
      }
    }
  }

  lemma CancelOne<X>(a: multiset<X>, b: multiset<X>, x: multiset<X>)
    requires a + x <= b + x
    ensures a <= b
  {
    forall y
      ensures a[y] <= b[y]
    {
      assert (a + x)[y] == a[y] + x[y] && (b + x)[y] == b[y] + x[y];
    }
  }

  lemma OneLess<X>(payloads: seq<X>, originals: seq<X>, i: nat)
    requires payloads != [] && i < |originals| && originals[i] == payloads[|payloads| - 1]
    requires multiset(payloads) <= multiset(originals)
    ensures multiset(payloads[..|payloads| - 1]) <= multiset(Without(originals, i))
  {
    var n := |payloads| - 1;
    var x := multiset{payloads[n]};
    assert payloads == payloads[..n] + [payloads[n]];
    assert originals == originals[..i] + [originals[i]] + originals[i + 1..];
    var a, b := multiset(payloads[..n]), multiset(Without(originals, i));
    assert multiset(payloads) == a + x && multiset(originals) == b + x;
    CancelOne(a, b, x);
  }

  /** Positions in a sequence from which item i was taken, as positions in the whole. */
  function Shifted(idx: seq<nat>, i: nat): (r: seq<nat>)
    ensures |r| == |idx| && forall j :: 0 <= j < |r| ==> r[j] == if idx[j] < i then idx[j] else idx[j] + 1
  {
    seq(|idx|, j requires 0 <= j < |idx| => if idx[j] < i then idx[j] else idx[j] + 1)
  }

  /** Over every run with fair arrivals, until three generations have completed after the target: each original
      of the target is delivered at most once, and from its completion on each has been delivered exactly once. */
  lemma DeliveredOnce<T(!new)>(f: Field<T>, t: Target<T>, states: seq<Rx<T>>, events: seq<Event<T>>, n: nat)
      returns (idx: seq<nat>)
    requires IsField(f) && t.Good() && Run(f, states, events) && n <= |events|
    requires FairRun(f, t, states, events, n) && Recent(t, states, n)
    requires Sound(states[0]) && Absent(t, states[0].list) && t.eid !in states[0].lastDid
    ensures |states[0].up| <= |states[n].up|
    ensures Attributed(Delivered(states[n].up[|states[0].up|..], t.eid), t.originals, idx)
    ensures (exists a :: 0 <= a <= n && CompletedAt(t, states, a)) ==> forall m :: 0 <= m < t.K() ==> m in idx
  {
    RunTracked(f, t, states, events, n);
    PresentAndMissing(t.originals, ClearAfter(t, events, n));
    var payloads := Delivered(states[n].up[|states[0].up|..], t.eid);
    idx := Attribute(payloads, t.originals);
    if a :| 0 <= a <= n && CompletedAt(t, states, a) {
      StillKnown(f, t, states, events, a, n);
      assert |payloads| == |multiset(payloads)| == |multiset(t.originals)| == |t.originals|;
    }
  }

  lemma StillKnown<T(!new)>(f: Field<T>, t: Target<T>, states: seq<Rx<T>>, events: seq<Event<T>>, a: nat, n: nat)
    requires Run(f, states, events) && Sound(states[0]) && a <= n <= |events|
    requires CompletedAt(t, states, a) && Completions(states, a, n) < 3
    ensures t.eid in states[n].lastDid
  {
    RunPushes(f, states, events, a - 1);
    ForgottenSlowly(f, states, events, a, n);
  }
}
