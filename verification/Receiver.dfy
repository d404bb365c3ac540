/** The receiver as a state machine (decoding_try in mnc_rx.c), and what it delivers of a generation. */
module Receiver {
  import opened Fields
  import opened Packets
  import opened Decoder
  import opened GenList

  /** A generation being gathered. */
  datatype Gen<T> = Gen(eid: u8, born: nat, kp: u8, sys: bool, skbs: seq<Skb<T>>)

  /** `up` logs what is passed up the stack: generation and payload. */
  datatype Rx<T> = Rx(list: seq<Gen<T>>, lastDid: seq<u8>, up: seq<(u8, seq<T>)>)

  /** A coded-protocol packet and its time of arrival. `len` is the payload length of its generation. */
  datatype Event<T> = Event(skb: Skb<T>, now: nat, len: nat)

  function FreshGens<T>(list: seq<Gen<T>>, now: nat): seq<Gen<T>>
  {
    if list == [] then []
    else
      var n := |list| - 1;
      FreshGens(list[..n], now) + if Elapsed(now, list[n].born) > ETIMEOUT then [] else [list[n]]
  }

  /** The position of the first generation with this id, or the length of the list. */
  function Find<T>(list: seq<Gen<T>>, eid: u8): (i: nat)
    ensures i <= |list|
    ensures forall t :: 0 <= t < i ==> list[t].eid != eid
    ensures i < |list| ==> list[i].eid == eid
  {
    if list == [] then 0 else if list[0].eid == eid then 0 else 1 + Find(list[1..], eid)
  }

  function Without<X>(s: seq<X>, i: nat): seq<X>
    requires i < |s|
  {
    s[..i] + s[i + 1..]
  }

  function Tagged<T>(eid: u8, news: seq<seq<T>>): (r: seq<(u8, seq<T>)>)
    ensures |r| == |news| && forall i :: 0 <= i < |r| ==> r[i] == (eid, news[i])
  {
    seq(|news|, i requires 0 <= i < |news| => (eid, news[i]))
  }

  /** The three generations that completed last, most recent first. */
  function Push(lastDid: seq<u8>, eid: u8): seq<u8>
    requires |lastDid| == 3
  {
    [eid, lastDid[0], lastDid[1]]
  }

  /** Ids are unique in the list, and every generation lacks packets. */
  ghost predicate Sound<T>(s: Rx<T>)
  {
    |s.lastDid| == 3 && UniqueIds(s.list) && Short(s.list)
  }

  function WithGen<T>(l: seq<Gen<T>>, eid: u8, now: nat, kp: u8): seq<Gen<T>>
  {
    if Find(l, eid) < |l| then l else l + [Gen(eid, now, kp, true, [])]
  }

  /** The list once the packet's generation is in it. */
  function Joined<T>(s: Rx<T>, e: Event<T>): (l: seq<Gen<T>>)
    ensures Find(FreshGens(s.list, e.now), e.skb.eid) < |l|
  {
    WithGen(FreshGens(s.list, e.now), e.skb.eid, e.now, e.skb.kp)
  }

  function Grown<T>(g: Gen<T>, skb: Skb<T>): Gen<T>
  {
    g.(skbs := g.skbs + [skb], sys := g.sys && skb.Systematic())
  }

  /** A systematic packet is passed up at once. */
  function PassedUp<T>(s: Rx<T>, skb: Skb<T>): seq<(u8, seq<T>)>
  {
    if skb.Systematic() then s.up + [(skb.eid, skb.body)] else s.up
  }

  /** One packet with ethertype 0x0810. */
  ghost predicate Step<T(!new)>(f: Field<T>, s: Rx<T>, e: Event<T>, s': Rx<T>)
  {
    && |s.lastDid| == 3
    && if e.skb.eid in s.lastDid then s' == s.(list := FreshGens(s.list, e.now))
       else Taken(f, s, e, s', Joined(s, e), Find(FreshGens(s.list, e.now), e.skb.eid))
  }

  /** The packet joins generation i of l. */
  ghost predicate Taken<T(!new)>(f: Field<T>, s: Rx<T>, e: Event<T>, s': Rx<T>, l: seq<Gen<T>>, i: nat)
    requires |s.lastDid| == 3 && i < |l|
  {
    if e.skb.kp != l[i].kp then s' == s.(list := l)
    else
      var g := Grown(l[i], e.skb);
      if |g.skbs| != KOf(e.skb.kp) then s' == Rx(l[i := g], s.lastDid, PassedUp(s, e.skb))
      else if g.sys then s' == Rx(Without(l, i), Push(s.lastDid, e.skb.eid), PassedUp(s, e.skb))
      else exists ok, rest, news :: Tried(f, s, e, s', l, i, ok, rest, news)
  }

  ghost predicate Tried<T(!new)>(f: Field<T>, s: Rx<T>, e: Event<T>, s': Rx<T>, l: seq<Gen<T>>, i: nat, ok: bool,
                                 rest: seq<Skb<T>>, news: seq<seq<T>>)
    requires |s.lastDid| == 3 && i < |l|
  {
    var g := Grown(l[i], e.skb);
    && Attempt(f, g.skbs, KOf(e.skb.kp), POf(e.skb.kp), e.len, ok, rest, news)
    && s' == if ok then Rx(Without(l, i), Push(s.lastDid, e.skb.eid), PassedUp(s, e.skb) + Tagged(e.skb.eid, news))
             else Rx(l[i := g.(skbs := rest)], s.lastDid, PassedUp(s, e.skb))
  }

  // ---------------------------------------------------------------- what the list operations keep

  lemma {:induction false} FreshMember<T>(list: seq<Gen<T>>, now: nat, g: Gen<T>)
    ensures g in FreshGens(list, now) <==> g in list && Elapsed(now, g.born) <= ETIMEOUT
    decreases |list|
  {
    if list != [] {
      FreshMember(list[..|list| - 1], now, g);
      assert list == list[..|list| - 1] + [list[|list| - 1]];
    }
  }

  ghost predicate UniqueIds<T>(list: seq<Gen<T>>)
  {
    forall i, j :: 0 <= i < j < |list| ==> list[i].eid != list[j].eid
  }

  lemma {:induction false} FreshUnique<T>(list: seq<Gen<T>>, now: nat)
    requires UniqueIds(list)
    ensures UniqueIds(FreshGens(list, now))
    decreases |list|
  {
    if list != [] {
      var n := |list| - 1;
      FreshUnique(list[..n], now);
      var l := FreshGens(list[..n], now);
      forall i | 0 <= i < |l|
        ensures l[i].eid != list[n].eid
      {
        FreshMember(list[..n], now, l[i]);
        assert l[i] in list[..n];
      }
    }
  }

  lemma JoinedUnique<T>(s: Rx<T>, e: Event<T>)
    requires UniqueIds(s.list)
    ensures UniqueIds(Joined(s, e))
  {
    FreshUnique(s.list, e.now);
  }

  ghost predicate Short<T>(list: seq<Gen<T>>)
  {
    forall i :: 0 <= i < |list| ==> |list[i].skbs| < KOf(list[i].kp)
  }

  lemma JoinedShort<T>(s: Rx<T>, e: Event<T>)
    requires Short(s.list) && 0 < KOf(e.skb.kp)
    ensures Short(Joined(s, e)) && Short(FreshGens(s.list, e.now))
  {
    var l := FreshGens(s.list, e.now);
    forall i | 0 <= i < |l|
      ensures |l[i].skbs| < KOf(l[i].kp)
    {
      FreshMember(s.list, e.now, l[i]);
      assert l[i] in s.list;
    }
  }

  /** Every step keeps generation ids unique and every generation short of k packets. */
  lemma StepSound<T(!new)>(f: Field<T>, s: Rx<T>, e: Event<T>, s': Rx<T>)
    requires Sound(s) && Step(f, s, e, s') && 0 < KOf(e.skb.kp)
    ensures Sound(s')
  {
    JoinedUnique(s, e);
    FreshUnique(s.list, e.now);
    JoinedShort(s, e);
    if e.skb.eid !in s.lastDid {
      TakenSound(f, s, e, s', Joined(s, e), Find(FreshGens(s.list, e.now), e.skb.eid));
    }
  }

  /** What one packet can do to its generation: nothing more than change it or finish it. */
  lemma TakenCases<T(!new)>(f: Field<T>, s: Rx<T>, e: Event<T>, s': Rx<T>, l: seq<Gen<T>>, i: nat) returns (g: Gen<T>)
    requires |s.lastDid| == 3 && i < |l| && Short(l) && Taken(f, s, e, s', l, i)
    ensures g.eid == l[i].eid && g.kp == l[i].kp && |g.skbs| < KOf(g.kp)
    ensures (s'.list == l[i := g] && s'.lastDid == s.lastDid)
            || (s'.list == Without(l, i) && s'.lastDid == Push(s.lastDid, e.skb.eid))
  {
    g := l[i];
    if e.skb.kp == l[i].kp {
      var grown := Grown(l[i], e.skb);
      if |grown.skbs| != KOf(e.skb.kp) {
        g := grown;
      } else if !grown.sys {
        var ok, rest, news :| Tried(f, s, e, s', l, i, ok, rest, news);
        if !ok {
          AttemptFails(f, grown.skbs, KOf(e.skb.kp), POf(e.skb.kp), e.len, rest, news);
          g := grown.(skbs := rest);
        }
      }
    }
  }

  lemma TakenSound<T(!new)>(f: Field<T>, s: Rx<T>, e: Event<T>, s': Rx<T>, l: seq<Gen<T>>, i: nat)
    requires |s.lastDid| == 3 && i < |l| && UniqueIds(l) && Short(l)
    requires Taken(f, s, e, s', l, i)
    ensures Sound(s')
  {
    var g := TakenCases(f, s, e, s', l, i);
    UniqueUpdated(l, i, g);
    ShortUpdated(l, i, g);
    assert Sound(s');
  }

  lemma UniqueUpdated<T>(l: seq<Gen<T>>, i: nat, g: Gen<T>)
    requires UniqueIds(l) && i < |l| && g.eid == l[i].eid
    ensures UniqueIds(l[i := g]) && UniqueIds(Without(l, i))
  {
    var w := Without(l, i);
    assert forall j :: 0 <= j < |w| ==> w[j] == l[if j < i then j else j + 1];
  }

  lemma ShortUpdated<T>(l: seq<Gen<T>>, i: nat, g: Gen<T>)
    requires Short(l) && i < |l| && |g.skbs| < KOf(g.kp)
    ensures Short(l[i := g]) && Short(Without(l, i))
  {
    var w := Without(l, i);
    assert forall j :: 0 <= j < |w| ==> w[j] == l[if j < i then j else j + 1];
  }
}
