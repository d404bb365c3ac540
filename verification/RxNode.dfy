/** The receiver's packet handler (decoding_try in mnc_rx.c) over the linked list of generations. */
module RxNode {
  import opened Fields
  import opened Packets
  import opened Decoder
  import opened GenList
  import opened Receiver
  import opened Delivery

  ghost predicate IsGen<T>(q: MncQueue<T>, g: Gen<T>)
    reads q`sys, q.skbs
  {
    g == Gen(q.eid, q.ejiffies, q.kp, q.sys, q.skbs.items)
  }

  ghost function Buffers<T>(nodes: seq<MncQueue<T>>): set<Queue<Skb<T>>>
  {
    set i | 0 <= i < |nodes| :: nodes[i].skbs
  }

  /** The linked generations are these ones. */
  ghost predicate Mirrors<T>(nodes: seq<MncQueue<T>>, gens: seq<Gen<T>>)
    reads (set i | 0 <= i < |nodes| :: nodes[i])`sys, Buffers(nodes)
  {
    |nodes| == |gens| && forall i :: 0 <= i < |nodes| ==> IsGen(nodes[i], gens[i])
  }

  lemma {:induction false} FreshMirrors<T>(nodes: seq<MncQueue<T>>, gens: seq<Gen<T>>, now: nat)
    requires Mirrors(nodes, gens)
    ensures Mirrors(Fresh(nodes, now), FreshGens(gens, now))
    decreases |nodes|
  {
    if nodes != [] {
      var n := |nodes| - 1;
      FreshMirrors(nodes[..n], gens[..n], now);
      assert IsGen(nodes[n], gens[n]);
    }
  }

  lemma WithoutMirrors<T>(nodes: seq<MncQueue<T>>, gens: seq<Gen<T>>, i: nat)
    requires Mirrors(nodes, gens) && i < |nodes|
    ensures Mirrors(nodes[..i] + nodes[i + 1..], Without(gens, i))
  {
  }

  /** The first generation with this id is the one Find names. */
  lemma FindIs<T>(nodes: seq<MncQueue<T>>, gens: seq<Gen<T>>, eid: u8, i: nat)
    requires Mirrors(nodes, gens)
    requires i <= |nodes| && (forall t :: 0 <= t < i ==> nodes[t].eid != eid) && (i < |nodes| ==> nodes[i].eid == eid)
    ensures Find(gens, eid) == i
  {
    assert forall t :: 0 <= t < |gens| ==> gens[t].eid == nodes[t].eid;
  }

  lemma WithoutUpdated<T>(l: seq<Gen<T>>, i: nat, g: Gen<T>)
    requires i < |l|
    ensures Without(l[i := g], i) == Without(l, i)
  {
  }

  /** The packets of this packet's generation have the same layout. */
  ghost predicate Formed<T>(gens: seq<Gen<T>>, skb: Skb<T>, len: nat)
    requires Dims(KOf(skb.kp), POf(skb.kp))
  {
    forall g :: g in gens && g.eid == skb.eid && g.kp == skb.kp ==> AllWellFormed(g.skbs, KOf(skb.kp), POf(skb.kp), len)
  }

  lemma FreshFormed<T>(gens: seq<Gen<T>>, now: nat, skb: Skb<T>, len: nat)
    requires Dims(KOf(skb.kp), POf(skb.kp)) && Formed(gens, skb, len)
    ensures Formed(FreshGens(gens, now), skb, len)
  {
    forall g | g in FreshGens(gens, now)
      ensures g in gens
    {
      FreshMember(gens, now, g);
    }
  }

  /** The outcome of an attempt on generation i, which the packet has just filled, is that of the step. */
  lemma TriedIs<T(!new)>(f: Field<T>, s: Rx<T>, e: Event<T>, b: Rx<T>, s': Rx<T>, l: seq<Gen<T>>, i: nat, ok: bool,
                         rest: seq<Skb<T>>, news: seq<seq<T>>)
    requires |s.lastDid| == 3 && i < |l| && b == Rx(l[i := Grown(l[i], e.skb)], s.lastDid, PassedUp(s, e.skb))
    requires Attempt(f, b.list[i].skbs, KOf(e.skb.kp), POf(e.skb.kp), e.len, ok, rest, news)
    requires ok ==> s' == Rx(Without(b.list, i), Push(b.lastDid, e.skb.eid), b.up + Tagged(e.skb.eid, news))
    requires !ok ==> s' == Rx(b.list[i := b.list[i].(skbs := rest)], b.lastDid, b.up)
    ensures exists ok, rest, news :: Tried(f, s, e, s', l, i, ok, rest, news)
  {
    WithoutUpdated(l, i, Grown(l[i], e.skb));
    assert Tried(f, s, e, s', l, i, ok, rest, news);
  }

  /** Every generation's packets have the layout that its id and header promise; lens gives the payload lengths. */
  ghost predicate AllFormed<T>(gens: seq<Gen<T>>, lens: u8 -> nat)
  {
    forall g :: g in gens ==> AllWellFormed(g.skbs, KOf(g.kp), POf(g.kp), lens(g.eid))
  }

  /** A packet of the coded protocol with its full header, as long as all of its generation. */
  ghost predicate Proper<T>(e: Event<T>, lens: u8 -> nat)
  {
    && Dims(KOf(e.skb.kp), POf(e.skb.kp)) && e.len == lens(e.skb.eid) && e.len % POf(e.skb.kp) == 0
    && WellFormed(e.skb, KOf(e.skb.kp), POf(e.skb.kp), e.len)
  }

  ghost predicate AllProper<T>(events: seq<Event<T>>, lens: u8 -> nat)
  {
    forall i :: 0 <= i < |events| ==> Proper(events[i], lens)
  }

  lemma JoinedFormed<T>(s: Rx<T>, e: Event<T>, lens: u8 -> nat)
    requires AllFormed(s.list, lens)
    ensures AllFormed(FreshGens(s.list, e.now), lens) && AllFormed(Joined(s, e), lens)
  {
    var l := FreshGens(s.list, e.now);
    forall g | g in l
      ensures g in s.list
    {
      FreshMember(s.list, e.now, g);
    }
  }

  lemma UpdatedFormed<T>(l: seq<Gen<T>>, i: nat, g: Gen<T>, lens: u8 -> nat)
    requires AllFormed(l, lens) && i < |l| && AllWellFormed(g.skbs, KOf(g.kp), POf(g.kp), lens(g.eid))
    ensures AllFormed(l[i := g], lens) && AllFormed(Without(l, i), lens)
  {
  }

  /** A step keeps every generation's packets in form. */
  lemma StepFormed<T(!new)>(f: Field<T>, s: Rx<T>, e: Event<T>, s': Rx<T>, lens: u8 -> nat)
    requires AllFormed(s.list, lens) && Proper(e, lens) && Step(f, s, e, s')
    ensures AllFormed(s'.list, lens)
  {
    JoinedFormed(s, e, lens);
    if e.skb.eid !in s.lastDid {
      var l, i := Joined(s, e), Find(FreshGens(s.list, e.now), e.skb.eid);
      assert l[i].eid == e.skb.eid;
      TakenFormed(f, s, e, s', l, i, lens);
    }
  }

  lemma TakenFormed<T(!new)>(f: Field<T>, s: Rx<T>, e: Event<T>, s': Rx<T>, l: seq<Gen<T>>, i: nat, lens: u8 -> nat)
    requires |s.lastDid| == 3 && i < |l| && l[i].eid == e.skb.eid && Taken(f, s, e, s', l, i)
    requires AllFormed(l, lens) && Proper(e, lens)
    ensures AllFormed(s'.list, lens)
  {
    if e.skb.kp == l[i].kp {
      var g := Grown(l[i], e.skb);
      assert l[i] in l;
      UpdatedFormed(l, i, g, lens);
      if |g.skbs| == KOf(e.skb.kp) && !g.sys {
        var ok, rest, news :| Tried(f, s, e, s', l, i, ok, rest, news);
        if !ok {
          AttemptFails(f, g.skbs, KOf(e.skb.kp), POf(e.skb.kp), e.len, rest, news);
          SubsetFormed(g.skbs, rest, KOf(e.skb.kp), POf(e.skb.kp), e.len);
          UpdatedFormed(l, i, g.(skbs := rest), lens);
        }
      }
    }
  }

  lemma SubsetFormed<T>(q: seq<Skb<T>>, rest: seq<Skb<T>>, k: nat, p: nat, len: nat)
    requires AllWellFormed(q, k, p, len) && forall s :: s in rest ==> s in q
    ensures AllWellFormed(rest, k, p, len)
  {
    forall t | 0 <= t < |rest|
      ensures WellFormed(rest[t], k, p, len)
    {
      assert rest[t] in q;
    }
  }

  lemma RunMore<T(!new)>(f: Field<T>, states: seq<Rx<T>>, events: seq<Event<T>>, n: nat, s': Rx<T>)
    requires n < |events| && Run(f, states, events[..n])
    requires 0 < KOf(events[n].skb.kp) && Step(f, states[n], events[n], s')
    ensures Run(f, states + [s'], events[..n + 1]) && (states + [s'])[0] == states[0] && (states + [s'])[n + 1] == s'
  {
    var states', before, events' := states + [s'], events[..n], events[..n + 1];
    forall i | 0 <= i < |events'|
      ensures RunAt(f, states', events', i)
    {
      assert i < n ==> RunAt(f, states, before, i);
    }
  }

  class RxState<T(0, ==, !new)> {
    const list: MncQueueHead<T>
    var lastDid: seq<u8>
    var up: seq<(u8, seq<T>)>  // netif_receive_skb, in order
    ghost var gens: seq<Gen<T>>
    ghost var repr: set<object>

    ghost predicate Valid()
      reads this, list, list.footprint`next, list.footprint`prev
      reads (set i | 0 <= i < |list.nodes| :: list.nodes[i])`sys, Buffers(list.nodes)
    {
      list.Valid() && |lastDid| == 3 && Mirrors(list.nodes, gens)
    }

    /** Valid, and everything that the handler may change is in repr. */
    ghost predicate Owned()
      reads this, repr
    {
      && this in repr && list in repr
      && (forall q :: q in list.footprint ==> q in repr && q.skbs in repr)
      && (forall i :: 0 <= i < |list.nodes| ==> list.nodes[i] in list.footprint)
      && Valid()
    }

    ghost function State(): Rx<T>
      reads this
    {
      Rx(gens, lastDid, up)
    }

    constructor ()
      ensures Owned() && fresh(repr) && State() == Rx([], [0, 0, 0], []) && list.footprint == {}
    {
      list := new MncQueueHead();
      lastDid, up, gens := [0, 0, 0], [], [];
      new;
      repr := {this, list};
    }

    method Known(eid: u8) returns (found: bool)
      requires |lastDid| == 3
      ensures found <==> eid in lastDid
    {
      found := false;
      for j := 0 to 3
        invariant found <==> eid in lastDid[..j]
      {
        found := found || eid == lastDid[j];
      }
      assert lastDid[..3] == lastDid;
    }

    method CheckEtime(now: nat)
      requires Valid()
      modifies this`gens, list, list.footprint`next, list.footprint`prev
      ensures Valid() && gens == FreshGens(old(gens), now)
      ensures list.footprint == old(list.footprint)
    {
      ghost var nodes := list.nodes;
      list.CheckEtime(now);
      FreshMirrors(nodes, gens, now);
      gens := FreshGens(gens, now);
    }

    method Create(eid: u8, now: nat, kp: u8) returns (q: MncQueue<T>)
      requires Valid()
      modifies this`gens, list, list.footprint`next
      ensures Valid() && list.nodes == old(list.nodes) + [q] && fresh(q) && fresh(q.skbs)
      ensures gens == old(gens) + [Gen(eid, now, kp, true, [])]
      ensures list.footprint == old(list.footprint) + {q}
    {
      q := new MncQueue(eid, now, kp, list);
      list.Insert(q);
      gens := gens + [Gen(eid, now, kp, true, [])];
    }

    /** The generation of the packet, made anew when there is none. */
    method Join(eid: u8, now: nat, kp: u8) returns (q: MncQueue<T>, ghost i: nat)
      requires Valid()
      modifies this`gens, list, list.footprint`next
      ensures Valid() && i < |list.nodes| && q == list.nodes[i] && i == Find(old(gens), eid)
      ensures gens == WithGen(old(gens), eid, now, kp)
      ensures q in old(list.footprint) || (fresh(q) && fresh(q.skbs))
      ensures list.footprint == old(list.footprint) + {q}
    {
      var found;
      found, i := list.FindEid(eid);
      FindIs(list.nodes, gens, eid, i);
      if found == null {
        q := Create(eid, now, kp);
      } else {
        q := found;
        assert list.footprint == old(list.footprint) + {q};
      }
    }

    /** Puts the packet on its generation's queue, and passes a systematic one up. */
    method Take(q: MncQueue<T>, ghost i: nat, skb: Skb<T>)
      requires Valid() && i < |list.nodes| && q == list.nodes[i]
      modifies this`gens, this`up, q`sys, q.skbs
      ensures Valid() && up == PassedUp(old(State()), skb)
      ensures gens == old(gens)[i := Grown(old(gens)[i], skb)]
    {
      assert IsGen(q, gens[i]);
      if skb.Systematic() {
        up := up + [(skb.eid, skb.body)];
      } else {
        q.sys := false;
      }
      q.skbs.Tail(skb);
      gens := gens[i := Grown(gens[i], skb)];
    }

    /** Removes a completed generation and remembers its id. */
    method Finish(q: MncQueue<T>, ghost i: nat)
      requires Valid() && i < |list.nodes| && q == list.nodes[i]
      modifies this`gens, this`lastDid, list, list.footprint`next, list.footprint`prev
      ensures Valid() && lastDid == Push(old(lastDid), q.eid)
      ensures gens == Without(old(gens), i) && list.footprint == old(list.footprint)
    {
      ghost var nodes := list.nodes;
      list.Free(q, i);
      WithoutMirrors(nodes, gens, i);
      gens := Without(gens, i);
      lastDid := [q.eid, lastDid[0], lastDid[1]];
    }

    method Deliver(eid: u8, news: Queue<seq<T>>)
      modifies this`up, news
      ensures up == old(up) + Tagged(eid, old(news.items))
    {
      ghost var all := news.items;
      ghost var n := 0;
      while news.items != []
        invariant 0 <= n <= |all| && news.items == all[n..]
        invariant up == old(up) + Tagged(eid, all[..n])
        decreases |news.items|
      {
        var x := news.Dequeue();
        up := up + [(eid, x)];
        assert Tagged(eid, all[..n + 1]) == Tagged(eid, all[..n]) + [(eid, all[n])];
        n := n + 1;
      }
      assert all[..n] == all;
    }

    /** Decodes generation i, which has its k packets. */
    method Decode(f: Field<T>, q: MncQueue<T>, ghost i: nat, ghost len: nat, newskbs: Queue<seq<T>>)
        returns (ok: bool, ghost news: seq<seq<T>>)
      requires Valid() && i < |list.nodes| && q == list.nodes[i] && q.skbs as object != newskbs && newskbs.items == []
      requires IsField(f) && Dims(KOf(q.kp), POf(q.kp)) && len % POf(q.kp) == 0
      requires |q.skbs.items| == KOf(q.kp) && AllWellFormed(q.skbs.items, KOf(q.kp), POf(q.kp), len)
      modifies this`gens, q.skbs, newskbs
      ensures Valid() && newskbs.items == news
      ensures Attempt(f, old(gens)[i].skbs, KOf(q.kp), POf(q.kp), len, ok, gens[i].skbs, news)
      ensures gens == old(gens)[i := old(gens)[i].(skbs := gens[i].skbs)]
    {
      assert IsGen(q, gens[i]);
      ok, news := SkbsDecoding(f, q.skbs, newskbs, q.kp, len);
      gens := gens[i := gens[i].(skbs := q.skbs.items)];
    }

    method Complete(q: MncQueue<T>, ghost i: nat, news: Queue<seq<T>>)
      requires Valid() && i < |list.nodes| && q == list.nodes[i]
      requires forall j :: 0 <= j < |list.nodes| ==> list.nodes[j].skbs as object != news
      modifies this`gens, this`lastDid, this`up, list, list.footprint`next, list.footprint`prev, news
      ensures Valid() && list.footprint == old(list.footprint)
      ensures State() == Rx(Without(old(gens), i), Push(old(lastDid), q.eid), old(up) + Tagged(q.eid, old(news.items)))
    {
      Deliver(q.eid, news);
      Finish(q, i);
    }

    /** Decodes generation i; on success its originals go up and the generation is done. */
    method TryDecode(f: Field<T>, q: MncQueue<T>, ghost i: nat, ghost len: nat)
        returns (ok: bool, ghost rest: seq<Skb<T>>, ghost news: seq<seq<T>>)
      requires Valid() && i < |list.nodes| && q == list.nodes[i]
      requires IsField(f) && Dims(KOf(q.kp), POf(q.kp)) && len % POf(q.kp) == 0
      requires |q.skbs.items| == KOf(q.kp) && AllWellFormed(q.skbs.items, KOf(q.kp), POf(q.kp), len)
      modifies this`gens, this`lastDid, this`up, list, list.footprint`next, list.footprint`prev, q.skbs
      ensures Valid() && list.footprint == old(list.footprint)
      ensures Attempt(f, old(gens)[i].skbs, KOf(q.kp), POf(q.kp), len, ok, rest, news)
      ensures ok ==> State() == Rx(Without(old(gens), i), Push(old(lastDid), q.eid), old(up) + Tagged(q.eid, news))
      ensures !ok ==> State() == Rx(old(gens)[i := old(gens)[i].(skbs := rest)], old(lastDid), old(up))
    {
      var newskbs := new Queue();
      ok, news := Decode(f, q, i, len, newskbs);
      rest := gens[i].skbs;
      if ok {
        WithoutUpdated(old(gens), i, gens[i]);
        Complete(q, i, newskbs);
      }
    }

    method TryTaken(f: Field<T>, skb: Skb<T>, now: nat, ghost len: nat, q: MncQueue<T>, ghost i: nat, ghost s: Rx<T>,
                    ghost l: seq<Gen<T>>)
      requires Valid() && i < |list.nodes| && q == list.nodes[i] && q.eid == skb.eid && q.kp == skb.kp
      requires IsField(f) && Dims(KOf(skb.kp), POf(skb.kp)) && len % POf(skb.kp) == 0
      requires |q.skbs.items| == KOf(skb.kp) && AllWellFormed(q.skbs.items, KOf(skb.kp), POf(skb.kp), len)
      requires i < |l| && gens == l[i := Grown(l[i], skb)] && lastDid == s.lastDid && up == PassedUp(s, skb)
      modifies this`gens, this`lastDid, this`up, list, list.footprint`next, list.footprint`prev, q.skbs
      ensures Valid() && list.footprint == old(list.footprint)
      ensures exists ok, rest, news :: Tried(f, s, Event(skb, now, len), State(), l, i, ok, rest, news)
    {
      ghost var ok, rest, news, before;
      before := State();
      ok, rest, news := TryDecode(f, q, i, len);
      TriedIs(f, s, Event(skb, now, len), before, State(), l, i, ok, rest, news);
    }

    /** The packet joins generation i. */
    method TakeIn(f: Field<T>, skb: Skb<T>, now: nat, ghost len: nat, q: MncQueue<T>, ghost i: nat, ghost s: Rx<T>)
      requires Valid() && i < |list.nodes| && q == list.nodes[i] && q.eid == skb.eid
      requires IsField(f) && Dims(KOf(skb.kp), POf(skb.kp)) && len % POf(skb.kp) == 0
               && WellFormed(skb, KOf(skb.kp), POf(skb.kp), len)
      requires q.kp == skb.kp ==> AllWellFormed(q.skbs.items, KOf(skb.kp), POf(skb.kp), len)
      requires s.lastDid == lastDid && s.up == up
      modifies this`gens, this`lastDid, this`up, list, list.footprint`next, list.footprint`prev, q`sys, q.skbs
      ensures Valid() && list.footprint == old(list.footprint)
      ensures Taken(f, s, Event(skb, now, len), State(), old(gens), i)
    {
      assert IsGen(q, gens[i]);
      if skb.kp != q.kp {
        return;
      }
      ghost var l := gens;
      ghost var g := Grown(l[i], skb);
      WithoutUpdated(l, i, g);
      Take(q, i, skb);
      assert IsGen(q, g);
      if |q.skbs.items| == KOf(skb.kp) {
        if q.sys {
          Finish(q, i);
        } else {
          TryTaken(f, skb, now, len, q, i, s, l);
        }
      }
    }

    /** The packet finds or makes its generation, and joins it. */
    method JoinAndTake(f: Field<T>, skb: Skb<T>, now: nat, ghost len: nat, ghost s: Rx<T>)
      requires Valid() && IsField(f) && gens == FreshGens(s.list, now) && s.lastDid == lastDid && s.up == up
      requires Dims(KOf(skb.kp), POf(skb.kp)) && len % POf(skb.kp) == 0
               && WellFormed(skb, KOf(skb.kp), POf(skb.kp), len)
      requires Formed(gens, skb, len)
      modifies this`gens, this`lastDid, this`up, list, list.footprint, (set q | q in list.footprint :: q.skbs)
      ensures Valid() && Taken(f, s, Event(skb, now, len), State(), Joined(s, Event(skb, now, len)),
              Find(FreshGens(s.list, now), skb.eid))
      ensures forall q :: q in list.footprint ==> q in old(list.footprint) || (fresh(q) && fresh(q.skbs))
      ensures old(list.footprint) <= list.footprint
    {
      var q;
      ghost var i;
      q, i := Join(skb.eid, now, skb.kp);
      assert IsGen(q, gens[i]);
      assert q.kp == skb.kp ==> AllWellFormed(q.skbs.items, KOf(skb.kp), POf(skb.kp), len);
      TakeIn(f, skb, now, len, q, i, s);
    }

    /** decoding_try, for a packet of the coded protocol: one step of the receiver. */
    method DecodingTry(f: Field<T>, skb: Skb<T>, now: nat, ghost len: nat)
      requires Valid() && IsField(f)
      requires Dims(KOf(skb.kp), POf(skb.kp)) && len % POf(skb.kp) == 0
               && WellFormed(skb, KOf(skb.kp), POf(skb.kp), len)
      requires Formed(gens, skb, len)
      modifies this`gens, this`lastDid, this`up, list, list.footprint, (set q | q in list.footprint :: q.skbs)
      ensures Valid()
      ensures Step(f, old(State()), Event(skb, now, len), State())
      ensures forall q :: q in list.footprint ==> q in old(list.footprint) || (fresh(q) && fresh(q.skbs))
      ensures old(list.footprint) <= list.footprint
    {
      ghost var s := State();
      FreshFormed(gens, now, skb, len);
      CheckEtime(now);
      var known := Known(skb.eid);
      if !known {
        JoinAndTake(f, skb, now, len, s);
      }
    }

    /** The handler for any proper packet. */
    method Arrive(f: Field<T>, e: Event<T>, ghost lens: u8 -> nat)
      requires Owned() && IsField(f) && AllFormed(gens, lens) && Proper(e, lens)
      modifies repr
      ensures Owned() && fresh(repr - old(repr)) && AllFormed(gens, lens) && Step(f, old(State()), e, State())
    {
      ghost var s := State();
      DecodingTry(f, e.skb, e.now, e.len);
      repr := repr + list.footprint + (set q | q in list.footprint :: q.skbs);
      StepFormed(f, s, e, State(), lens);
    }

    /** The handler over any packets that arrive, one after the other: a run of the receiver. */
    method ReceiveAll(f: Field<T>, events: seq<Event<T>>, ghost lens: u8 -> nat) returns (ghost states: seq<Rx<T>>)
      requires Owned() && IsField(f) && AllFormed(gens, lens) && AllProper(events, lens)
      modifies repr
      ensures Owned() && fresh(repr - old(repr)) && AllFormed(gens, lens)
      ensures Run(f, states, events) && states[0] == old(State()) && states[|events|] == State()
    {
      states := [State()];
      for n := 0 to |events|
        invariant Owned() && fresh(repr - old(repr)) && AllFormed(gens, lens)
        invariant Run(f, states, events[..n]) && states[0] == old(State()) && states[n] == State()
      {
        Arrive(f, events[n], lens);
        RunMore(f, states, events, n, State());
        states := states + [State()];
      }
      assert events[..|events|] == events;
    }
  }
}
