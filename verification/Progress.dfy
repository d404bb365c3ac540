/** The receiver's progress: k useful packets of a generation complete it. Everything is asked of the arrivals, and
    nothing of the receiver's own state. */
module Progress {
  import opened Wrappers
  import opened Fields
  import opened Linear
  import opened Packets
  import opened Decoder
  import opened GenList
  import opened Receiver
  import opened Delivery

  /** The packets of generation eid among the first n arrivals, in order. */
  ghost function Arrived<T>(events: seq<Event<T>>, eid: u8, n: nat): seq<Skb<T>>
    requires n <= |events|
  {
    if n == 0 then []
    else
      var q := Arrived(events, eid, n - 1);
      if events[n - 1].skb.eid == eid then q + [events[n - 1].skb] else q
  }

  /** When the first of them came. */
  ghost function FirstTime<T>(events: seq<Event<T>>, eid: u8, n: nat): nat
    requires n <= |events| && Arrived(events, eid, n) != []
  {
    if Arrived(events, eid, n - 1) != [] then FirstTime(events, eid, n - 1) else events[n - 1].now
  }

  /** Every packet of the target among the first n arrivals is made from its originals. */
  ghost predicate Genuine<T>(f: Field<T>, t: Target<T>, events: seq<Event<T>>, n: nat)
    requires t.Good() && n <= |events|
  {
    forall i :: 0 <= i < n ==> GenuineAt(f, t, events, i)
  }

  ghost predicate GenuineAt<T>(f: Field<T>, t: Target<T>, events: seq<Event<T>>, i: nat)
    requires t.Good() && i < |events|
  {
    var e := events[i];
    e.skb.eid == t.eid ==> e.skb.kp == t.kp && e.len == t.len && MadeFrom(f, t.originals, t.K(), t.P(), t.len, e.skb)
  }

  /** No arrival comes more than ETIMEOUT after the target's first packet. */
  ghost predicate OnTime<T>(events: seq<Event<T>>, eid: u8, n: nat)
    requires n <= |events|
  {
    forall i :: 0 <= i < n ==> OnTimeAt(events, eid, i)
  }

  ghost predicate OnTimeAt<T>(events: seq<Event<T>>, eid: u8, i: nat)
    requires i < |events|
  {
    Arrived(events, eid, i) != [] ==> Elapsed(events[i].now, FirstTime(events, eid, i)) <= ETIMEOUT
  }

  /** The packets determine the originals: with systematic packets at their own index and the coded ones in the gaps,
      the coefficients form an invertible matrix. */
  ghost predicate Decodable<T(!new)>(f: Field<T>, q: seq<Skb<T>>, k: nat, p: nat, len: nat)
  {
    exists slots, isSys :: DecodableAs(f, q, k, p, len, slots, isSys)
  }

  ghost predicate DecodableAs<T(!new)>(f: Field<T>, q: seq<Skb<T>>, k: nat, p: nat, len: nat, slots: seq<Skb<T>>,
                                       isSys: seq<bool>)
  {
    Slotted(q, slots, isSys) && Slots(slots, isSys, k, p, len)
      && Invertible(f, Coefficients(f, slots, isSys, k, p, len), k * p)
  }

  // ---------------------------------------------------------------- the slots are determined by the packets

  lemma SystematicAt<T>(q: seq<Skb<T>>, slots: seq<Skb<T>>, isSys: seq<bool>, m: nat)
    requires Slotted(q, slots, isSys) && m < |slots|
    ensures isSys[m] <==> HasIndex(q, m)
  {
    if isSys[m] {
      assert slots[m] in q;
      var t :| 0 <= t < |q| && q[t] == slots[m];
    }
  }

  /** Two arrangements with the same systematic slots and the same coded packets in order are one. */
  lemma {:induction false} SameSlots<T>(a: seq<Skb<T>>, b: seq<Skb<T>>)
    requires |a| == |b| && CodedOf(a) == CodedOf(b)
    requires forall m :: 0 <= m < |a| ==> a[m].Systematic() == b[m].Systematic() && (a[m].Systematic() ==> a[m] == b[m])
    ensures a == b
    decreases |a|
  {
    if a != [] {
      var n := |a| - 1;
      var c, d := CodedOf(a[..n]), CodedOf(b[..n]);
      if !a[n].Systematic() {
        assert c + [a[n]] == d + [b[n]];
        assert (c + [a[n]])[|c|] == a[n] && (d + [b[n]])[|d|] == b[n];
        assert (c + [a[n]])[..|c|] == c && (d + [b[n]])[..|d|] == d;
      }
      SameSlots(a[..n], b[..n]);
      assert a == a[..n] + [a[n]] && b == b[..n] + [b[n]];
    }
  }

  lemma SlottedOnce<T>(q: seq<Skb<T>>, slots: seq<Skb<T>>, isSys: seq<bool>, slots': seq<Skb<T>>, isSys': seq<bool>)
    requires Slotted(q, slots, isSys) && Slotted(q, slots', isSys')
    ensures slots == slots' && isSys == isSys'
  {
    forall m | 0 <= m < |q|
      ensures isSys[m] == isSys'[m] && (isSys[m] ==> slots[m] == slots'[m])
    {
      SystematicAt(q, slots, isSys, m);
      SystematicAt(q, slots', isSys', m);
      if isSys[m] {
        assert slots[m] in q;
        var t :| 0 <= t < |q| && q[t] == slots[m];
      }
    }
    SameSlots(slots, slots');
  }

  /** An attempt succeeds exactly if the packets are decodable. */
  lemma DecodableIff<T(!new)>(f: Field<T>, q: seq<Skb<T>>, k: nat, p: nat, len: nat, ok: bool, rest: seq<Skb<T>>,
                              news: seq<seq<T>>)
    requires NoDuplicates(q) && Attempt(f, q, k, p, len, ok, rest, news)
    ensures ok <==> Decodable(f, q, k, p, len)
  {
    var slots', isSys', outs :| AttemptWith(f, q, k, p, len, ok, rest, news, slots', isSys', outs);
    if ok {
      assert DecodableAs(f, q, k, p, len, slots', isSys');
    } else if Decodable(f, q, k, p, len) {
      var slots, isSys :| DecodableAs(f, q, k, p, len, slots, isSys);
      SlottedOnce(q, slots, isSys, slots', isSys');
      assert false;
    }
  }

  // ---------------------------------------------------------------- k systematic packets

  ghost predicate AllSystematic<T>(q: seq<Skb<T>>)
  {
    forall i :: 0 <= i < |q| ==> q[i].Systematic()
  }

  lemma IdentityInvertible<T(!new)>(f: Field<T>, n: nat)
    requires IsField(f)
    ensures Invertible(f, Identity(f, n), n)
  {
    var e := Identity(f, n);
    forall i, j | 0 <= i < n && 0 <= j < n
      ensures e[i][j] == Dot(f, e[i], Column(e, n, j), 0, n)
    {
      ApplyIdentity(f, n, Column(e, n, j));
      assert Apply(f, e, n, Column(e, n, j))[i] == Column(e, n, j)[i];
    }
    assert Inverse(f, e, e, n);
  }

  lemma SystematicCoefficients<T(!new)>(f: Field<T>, slots: seq<Skb<T>>, isSys: seq<bool>, k: nat, p: nat, len: nat)
    requires Slots(slots, isSys, k, p, len) && forall m :: 0 <= m < k ==> isSys[m]
    ensures Coefficients(f, slots, isSys, k, p, len) == Identity(f, k * p)
  {
    var a := Coefficients(f, slots, isSys, k, p, len);
    forall r | 0 <= r < k * p
      ensures a[r] == Identity(f, k * p)[r]
    {
      Unflat(k, p, r);
      assert a[r] == CoefficientRow(f, slots, isSys, k, p, len, r);
    }
  }

  /** k systematic packets without duplicates fill every slot. */
  lemma SystematicSlots<T>(q: seq<Skb<T>>, k: nat, p: nat, len: nat) returns (slots: seq<Skb<T>>, isSys: seq<bool>)
    requires Dims(k, p) && len % p == 0 && |q| == k && NoDuplicates(q) && AllSystematic(q)
    requires AllWellFormed(q, k, p, len)
    ensures Slotted(q, slots, isSys) && Slots(slots, isSys, k, p, len) && forall m :: 0 <= m < k ==> isSys[m]
  {
    assert forall i :: 0 <= i < k ==> WellFormed(q[i], k, p, len);
    var skb;
    skb, isSys := SortedExists(q, k);
    NoCoded(q);
    FullCount(isSys);
    slots := Values(skb);
    NoCoded(slots);
    assert Slotted(q, slots, isSys);
    SlottedAreSlots(q, slots, isSys, k, p, len);
  }

  /** k systematic packets with distinct indices determine the originals. */
  lemma SystematicDecodable<T(!new)>(f: Field<T>, q: seq<Skb<T>>, k: nat, p: nat, len: nat)
    requires IsField(f) && Dims(k, p) && len % p == 0 && |q| == k && NoDuplicates(q) && AllSystematic(q)
    requires AllWellFormed(q, k, p, len)
    ensures Decodable(f, q, k, p, len)
  {
    var slots, isSys := SystematicSlots(q, k, p, len);
    SystematicCoefficients(f, slots, isSys, k, p, len);
    IdentityInvertible(f, k * p);
    assert DecodableAs(f, q, k, p, len, slots, isSys);
  }

  // ---------------------------------------------------------------- the target's generation while it gathers

  /** The generation that the receiver should hold after n arrivals. */
  ghost function GenAfter<T>(t: Target<T>, events: seq<Event<T>>, n: nat): Gen<T>
    requires n <= |events| && Arrived(events, t.eid, n) != []
  {
    var q := Arrived(events, t.eid, n);
    Gen(t.eid, FirstTime(events, t.eid, n), t.kp, AllSystematic(q), q)
  }

  /** After n arrivals the receiver holds exactly the target's packets, and has not forgotten or finished it. */
  ghost predicate Gathering<T>(t: Target<T>, s: Rx<T>, events: seq<Event<T>>, n: nat)
    requires n <= |events|
  {
    && t.eid !in s.lastDid
    && (Arrived(events, t.eid, n) == [] ==> Absent(t, s.list))
    && (Arrived(events, t.eid, n) != [] ==> Only(t, s.list, GenAfter(t, events, n)))
  }

  ghost predicate Only<T>(t: Target<T>, l: seq<Gen<T>>, g: Gen<T>)
  {
    g in l && forall h :: h in l && h.eid == t.eid ==> h == g
  }

  lemma SameGathered<T>(t: Target<T>, s: Rx<T>, s': Rx<T>, events: seq<Event<T>>, n: nat)
    requires n < |events| && events[n].skb.eid != t.eid && Gathering(t, s, events, n)
    requires SameTarget(t, s.list, s'.list) && t.eid !in s'.lastDid
    ensures Gathering(t, s', events, n + 1)
  {
    if Arrived(events, t.eid, n) != [] {
      var g := GenAfter(t, events, n);
      assert GenAfter(t, events, n + 1) == g;
      assert g.eid == t.eid && g in s'.list;
    }
  }

  lemma NotStale<T>(t: Target<T>, s: Rx<T>, events: seq<Event<T>>, n: nat)
    requires n < |events| && Gathering(t, s, events, n) && OnTimeAt(events, t.eid, n)
    ensures forall g :: g in s.list && g.eid == t.eid ==> Elapsed(events[n].now, g.born) <= ETIMEOUT
  {
    forall g | g in s.list && g.eid == t.eid
      ensures Elapsed(events[n].now, g.born) <= ETIMEOUT
    {
      assert g == GenAfter(t, events, n);
    }
  }

  /** A packet of another generation leaves the target's as it is. */
  lemma OtherGathers<T(!new)>(f: Field<T>, t: Target<T>, s: Rx<T>, s': Rx<T>, events: seq<Event<T>>, n: nat)
    requires n < |events| && Gathering(t, s, events, n) && OnTimeAt(events, t.eid, n) && events[n].skb.eid != t.eid
    requires Sound(s) && 0 < KOf(events[n].skb.kp) && Step(f, s, events[n], s')
    ensures Gathering(t, s', events, n + 1)
  {
    var e := events[n];
    NotStale(t, s, events, n);
    FreshSame(t, s.list, e.now);
    if e.skb.eid !in s.lastDid {
      var l, i := Joined(s, e), Find(FreshGens(s.list, e.now), e.skb.eid);
      assert l[i].eid == e.skb.eid;
      JoinedShort(s, e);
      OtherList(f, t, s, e, s', l, i);
      assert SameTarget(t, s.list, l);
    }
    SameGathered(t, s, s', events, n);
  }

  lemma {:induction false} AbsentNotFound<T>(t: Target<T>, l: seq<Gen<T>>)
    requires Absent(t, l)
    ensures Find(l, t.eid) == |l|
    decreases |l|
  {
    if l != [] {
      assert l[0] in l;
      AbsentNotFound(t, l[1..]);
    }
  }

  lemma OneMoreSystematic<T>(q: seq<Skb<T>>, s: Skb<T>)
    ensures AllSystematic(q + [s]) <==> AllSystematic(q) && s.Systematic()
    ensures q == [] ==> AllSystematic(q) && [] + [s] == q + [s]
  {
    var q' := q + [s];
    assert forall x :: 0 <= x < |q| ==> q'[x] == q[x];
    assert q'[|q|] == s;
  }

  /** The target's generation once its next packet has joined: where it is, and that nothing else is there. */
  lemma TargetJoined<T>(t: Target<T>, s: Rx<T>, events: seq<Event<T>>, n: nat)
    requires n < |events| && Gathering(t, s, events, n) && OnTimeAt(events, t.eid, n)
    requires events[n].skb.eid == t.eid && events[n].skb.kp == t.kp
    ensures var e := events[n]; var l, i := Joined(s, e), Find(FreshGens(s.list, e.now), t.eid);
            l[i].eid == t.eid && Grown(l[i], e.skb) == GenAfter(t, events, n + 1) && l[i].kp == t.kp
  {
    var e := events[n];
    var l := FreshGens(s.list, e.now);
    var i := Find(l, t.eid);
    NotStale(t, s, events, n);
    FreshSame(t, s.list, e.now);
    var q, q' := Arrived(events, t.eid, n), Arrived(events, t.eid, n + 1);
    assert q' == q + [e.skb];
    OneMoreSystematic(q, e.skb);
    if q == [] {
      AbsentNotFound(t, l);
      assert Joined(s, e)[i] == Gen(t.eid, e.now, t.kp, true, []);
      assert FirstTime(events, t.eid, n + 1) == e.now;
    } else {
      var g := GenAfter(t, events, n);
      assert g in l && g.eid == t.eid;
      var j :| 0 <= j < |l| && l[j] == g;
      assert i < |l| && l[i] in l;
      assert l[i] == g && FirstTime(events, t.eid, n + 1) == g.born;
    }
  }

  /** The target's next packet, when it is not the k-th. */
  lemma TargetGathers<T(!new)>(f: Field<T>, t: Target<T>, s: Rx<T>, s': Rx<T>, events: seq<Event<T>>, n: nat)
    requires n < |events| && Gathering(t, s, events, n) && OnTimeAt(events, t.eid, n)
    requires events[n].skb.eid == t.eid && events[n].skb.kp == t.kp && |Arrived(events, t.eid, n + 1)| < t.K()
    requires Sound(s) && Step(f, s, events[n], s')
    ensures Gathering(t, s', events, n + 1)
  {
    var e := events[n];
    var l, i := Joined(s, e), Find(FreshGens(s.list, e.now), t.eid);
    TargetJoined(t, s, events, n);
    JoinedUnique(s, e);
    var g := GenAfter(t, events, n + 1);
    OnlyOne(t, l, i, g);
    assert s'.list == l[i := g] && s'.list[i] == g;
  }

  /** In any state, also after attempts that failed: the packet that brings a generation to k packets completes it if
      they are decodable, and otherwise completes nothing and leaves it short of k packets again. */
  lemma KthDecides<T(!new)>(f: Field<T>, s: Rx<T>, e: Event<T>, s': Rx<T>, g: Gen<T>)
    requires IsField(f) && Sound(s) && Step(f, s, e, s') && e.skb.eid !in s.lastDid
    requires g in s.list && Elapsed(e.now, g.born) <= ETIMEOUT && g.eid == e.skb.eid && g.kp == e.skb.kp
    requires |g.skbs| + 1 == KOf(g.kp) && (g.sys ==> AllSystematic(g.skbs))
    requires Dims(KOf(g.kp), POf(g.kp)) && e.len % POf(g.kp) == 0 && NoDuplicates(g.skbs + [e.skb])
    requires AllWellFormed(g.skbs + [e.skb], KOf(g.kp), POf(g.kp), e.len)
    ensures if Decodable(f, g.skbs + [e.skb], KOf(g.kp), POf(g.kp), e.len)
              then s'.lastDid == Push(s.lastDid, g.eid) && forall h :: h in s'.list ==> h.eid != g.eid
            else s'.lastDid == s.lastDid && exists h :: h in s'.list && h.eid == g.eid && |h.skbs| < KOf(g.kp)
  {
    var fresh', l, i := FreshGens(s.list, e.now), Joined(s, e), Find(FreshGens(s.list, e.now), e.skb.eid);
    FreshMember(s.list, e.now, g);
    JoinedUnique(s, e);
    var j :| 0 <= j < |fresh'| && fresh'[j] == g;
    assert l == fresh' && l[i] == g;
    OthersOnly(l, i);
    var grown := Grown(g, e.skb);
    if grown.sys {
      assert AllSystematic(grown.skbs);
      SystematicDecodable(f, grown.skbs, KOf(g.kp), POf(g.kp), e.len);
    } else {
      var ok, rest, news :| Tried(f, s, e, s', l, i, ok, rest, news);
      DecodableIff(f, grown.skbs, KOf(g.kp), POf(g.kp), e.len, ok, rest, news);
      if !ok {
        AttemptFails(f, grown.skbs, KOf(g.kp), POf(g.kp), e.len, rest, news);
        assert s'.list[i] in s'.list;
      }
    }
  }

  lemma OthersOnly<T>(l: seq<Gen<T>>, i: nat)
    requires UniqueIds(l) && i < |l|
    ensures forall h :: h in Without(l, i) ==> h.eid != l[i].eid
  {
    var w := Without(l, i);
    assert forall j :: 0 <= j < |w| ==> w[j] == l[if j < i then j else j + 1];
  }

  /** The k-th packet completes the target if the packets are decodable, and otherwise completes nothing. */
  lemma TargetCompletes<T(!new)>(f: Field<T>, t: Target<T>, s: Rx<T>, s': Rx<T>, events: seq<Event<T>>, n: nat)
    requires IsField(f) && n < |events| && Gathering(t, s, events, n) && OnTimeAt(events, t.eid, n)
    requires events[n].skb.eid == t.eid && events[n].skb.kp == t.kp && events[n].len == t.len
    requires |Arrived(events, t.eid, n + 1)| == t.K() && NoDuplicates(Arrived(events, t.eid, n + 1))
    requires Dims(t.K(), t.P()) && t.len % t.P() == 0
    requires AllWellFormed(Arrived(events, t.eid, n + 1), t.K(), t.P(), t.len)
    requires Sound(s) && Step(f, s, events[n], s')
    ensures s'.lastDid == if Decodable(f, Arrived(events, t.eid, n + 1), t.K(), t.P(), t.len)
            then Push(s.lastDid, t.eid) else s.lastDid
  {
    var e := events[n];
    var l, i := Joined(s, e), Find(FreshGens(s.list, e.now), t.eid);
    TargetJoined(t, s, events, n);
    var g := GenAfter(t, events, n + 1);
    if g.sys {
      SystematicDecodable(f, g.skbs, t.K(), t.P(), t.len);
    } else {
      var ok, rest, news :| Tried(f, s, e, s', l, i, ok, rest, news);
      DecodableIff(f, g.skbs, t.K(), t.P(), t.len, ok, rest, news);
    }
  }

  // ---------------------------------------------------------------- whole runs

  lemma {:induction false} ArrivedGrows<T>(events: seq<Event<T>>, eid: u8, m: nat, n: nat)
    requires m <= n <= |events|
    ensures |Arrived(events, eid, m)| <= |Arrived(events, eid, n)|
    ensures Arrived(events, eid, n)[..|Arrived(events, eid, m)|] == Arrived(events, eid, m)
    decreases n
  {
    if m < n {
      ArrivedGrows(events, eid, m, n - 1);
    }
  }

  /** What a run has to satisfy for the first n arrivals: the target is new, its packets come from its originals, and
      nothing comes too late. */
  ghost predicate Prompt<T(!new)>(f: Field<T>, t: Target<T>, states: seq<Rx<T>>, events: seq<Event<T>>, n: nat)
  {
    && t.Good() && Run(f, states, events) && n <= |events|
    && Sound(states[0]) && Absent(t, states[0].list) && t.eid !in states[0].lastDid
    && Genuine(f, t, events, n) && OnTime(events, t.eid, n)
  }

  lemma PromptBefore<T(!new)>(f: Field<T>, t: Target<T>, states: seq<Rx<T>>, events: seq<Event<T>>, i: nat, n: nat)
    requires i <= n && Prompt(f, t, states, events, n)
    ensures Prompt(f, t, states, events, i)
  {}

  lemma PromptStep<T(!new)>(f: Field<T>, t: Target<T>, states: seq<Rx<T>>, events: seq<Event<T>>, n: nat)
    requires n < |events| && Prompt(f, t, states, events, n + 1)
    ensures |states| == |events| + 1 && Sound(states[n]) && Step(f, states[n], events[n], states[n + 1])
    ensures 0 < KOf(events[n].skb.kp) && GenuineAt(f, t, events, n) && OnTimeAt(events, t.eid, n)
  {
    RunSound(f, states, events, n);
    assert RunAt(f, states, events, n);
  }

  lemma GatherStep<T(!new)>(f: Field<T>, t: Target<T>, states: seq<Rx<T>>, events: seq<Event<T>>, n: nat)
    requires n < |events| && Prompt(f, t, states, events, n + 1) && Gathering(t, states[n], events, n)
    requires |Arrived(events, t.eid, n + 1)| < t.K()
    ensures Gathering(t, states[n + 1], events, n + 1)
  {
    PromptStep(f, t, states, events, n);
    if events[n].skb.eid == t.eid {
      TargetGathers(f, t, states[n], states[n + 1], events, n);
    } else {
      OtherGathers(f, t, states[n], states[n + 1], events, n);
    }
  }

  lemma {:induction false} RunGathers<T(!new)>(f: Field<T>, t: Target<T>, states: seq<Rx<T>>, events: seq<Event<T>>,
          n: nat)
    requires Prompt(f, t, states, events, n) && |Arrived(events, t.eid, n)| < t.K()
    ensures Gathering(t, states[n], events, n)
  {
    if n > 0 {
      ArrivedGrows(events, t.eid, n - 1, n);
      PromptBefore(f, t, states, events, n - 1, n);
      RunGathers(f, t, states, events, n - 1);
      GatherStep(f, t, states, events, n - 1);
    }
  }

  /** An index has arrived in the clear exactly if a packet with it is among the arrivals. */
  lemma {:induction false} ClearIs<T>(f: Field<T>, t: Target<T>, events: seq<Event<T>>, n: nat, m: nat)
    requires t.Good() && n <= |events| && Genuine(f, t, events, n) && m < t.K()
    ensures ClearAfter(t, events, n)[m] <==> HasIndex(Arrived(events, t.eid, n), m)
  {
    if n > 0 {
      ClearIs(f, t, events, n - 1, m);
      var q, q', skb := Arrived(events, t.eid, n - 1), Arrived(events, t.eid, n), events[n - 1].skb;
      if skb.eid == t.eid {
        assert GenuineAt(f, t, events, n - 1);
        OneMoreIndex(q, skb, m);
      }
    }
  }

  lemma OneMoreIndex<T>(q: seq<Skb<T>>, s: Skb<T>, m: nat)
    ensures HasIndex(q + [s], m) <==> HasIndex(q, m) || (s.Systematic() && s.Index() == m)
  {
    var q' := q + [s];
    if HasIndex(q, m) {
      var i :| 0 <= i < |q| && q[i].Systematic() && q[i].Index() == m;
      assert q'[i] == q[i];
    }
    assert q'[|q|] == s;
  }

  /** Arrivals of this kind are what the delivery theorem calls fair. */
  lemma PromptIsFair<T(!new)>(f: Field<T>, t: Target<T>, states: seq<Rx<T>>, events: seq<Event<T>>, n: nat)
    requires Prompt(f, t, states, events, n) && NoDuplicates(Arrived(events, t.eid, n))
    requires n > 0 && |Arrived(events, t.eid, n - 1)| < t.K()
    ensures FairRun(f, t, states, events, n)
  {
    forall i | 0 <= i < n
      ensures FairAt(f, t, states, events, i)
    {
      PromptFairAt(f, t, states, events, i, n);
    }
  }

  lemma PromptFairAt<T(!new)>(f: Field<T>, t: Target<T>, states: seq<Rx<T>>, events: seq<Event<T>>, i: nat, n: nat)
    requires i < n && Prompt(f, t, states, events, n) && NoDuplicates(Arrived(events, t.eid, n))
    requires |Arrived(events, t.eid, n - 1)| < t.K()
    ensures FairAt(f, t, states, events, i)
  {
    ArrivedGrows(events, t.eid, i, n - 1);
    PromptBefore(f, t, states, events, i, n);
    PromptBefore(f, t, states, events, i + 1, n);
    RunGathers(f, t, states, events, i);
    PromptStep(f, t, states, events, i);
    NotStale(t, states[i], events, i);
    var skb := events[i].skb;
    if skb.eid == t.eid && skb.Systematic() {
      ClearIs(f, t, events, i, skb.Index());
      FirstOfIndex(events, t.eid, i, n);
    }
  }

  lemma FirstOfIndex<T>(events: seq<Event<T>>, eid: u8, i: nat, n: nat)
    requires i < n <= |events| && events[i].skb.eid == eid && events[i].skb.Systematic()
    requires NoDuplicates(Arrived(events, eid, n))
    ensures !HasIndex(Arrived(events, eid, i), events[i].skb.Index())
  {
    var q, q', all := Arrived(events, eid, i), Arrived(events, eid, i + 1), Arrived(events, eid, n);
    ArrivedGrows(events, eid, i + 1, n);
    assert q' == q + [events[i].skb];
    forall j | 0 <= j < |q|
      ensures q[j] == all[j] && all[|q|] == events[i].skb
    {
      assert all[..|q'|][j] == q'[j] && all[..|q'|][|q|] == q'[|q|];
    }
  }

  lemma NoEarlierCompletion<T(!new)>(f: Field<T>, t: Target<T>, states: seq<Rx<T>>, events: seq<Event<T>>, n: nat)
    requires 0 < n && Prompt(f, t, states, events, n) && |Arrived(events, t.eid, n - 1)| < t.K()
    ensures Recent(t, states, n)
  {
    forall a | 0 <= a <= n && CompletedAt(t, states, a)
      ensures Completions(states, a, n) < 3
    {
      if a < n {
        ArrivedGrows(events, t.eid, a, n - 1);
        PromptBefore(f, t, states, events, a, n);
        RunGathers(f, t, states, events, a);
      } else {
        assert Completions(states, a, n) == 0;
      }
    }
  }

  lemma {:induction false} ArrivedMade<T>(f: Field<T>, t: Target<T>, events: seq<Event<T>>, n: nat)
    requires t.Good() && n <= |events| && Genuine(f, t, events, n)
    ensures AllWellFormed(Arrived(events, t.eid, n), t.K(), t.P(), t.len)
  {
    if n > 0 {
      ArrivedMade(f, t, events, n - 1);
      assert GenuineAt(f, t, events, n - 1);
    }
  }

  /** The k-th packet completes the target at once if and only if the packets are decodable; if they are not, no
      generation completes. */
  lemma CompletesIff<T(!new)>(f: Field<T>, t: Target<T>, states: seq<Rx<T>>, events: seq<Event<T>>, n: nat)
    requires IsField(f) && 0 < n && Prompt(f, t, states, events, n)
    requires events[n - 1].skb.eid == t.eid && |Arrived(events, t.eid, n)| == t.K()
    requires NoDuplicates(Arrived(events, t.eid, n))
    ensures t.eid !in states[n - 1].lastDid && |states[n].lastDid| == 3
    ensures t.eid in states[n].lastDid <==> Decodable(f, Arrived(events, t.eid, n), t.K(), t.P(), t.len)
    ensures t.eid in states[n].lastDid <==> states[n].lastDid[0] == t.eid
    ensures t.eid !in states[n].lastDid ==> states[n].lastDid == states[n - 1].lastDid
  {
    PromptBefore(f, t, states, events, n - 1, n);
    RunGathers(f, t, states, events, n - 1);
    PromptStep(f, t, states, events, n - 1);
    ArrivedMade(f, t, events, n);
    TargetCompletes(f, t, states[n - 1], states[n], events, n - 1);
  }

  /** Progress. Take any run, and any generation that starts in it: if its first k packets to arrive come from its
      originals, have distinct systematic indices and determine the originals, and no packet of any kind comes more
      than ETIMEOUT after the first of them, then the k-th packet completes it at once, whatever else arrives in
      between; and by then each of its originals has been delivered exactly once. */
  lemma Completes<T(!new)>(f: Field<T>, t: Target<T>, states: seq<Rx<T>>, events: seq<Event<T>>, n: nat)
      returns (idx: seq<nat>)
    requires IsField(f) && 0 < n && Prompt(f, t, states, events, n)
    requires events[n - 1].skb.eid == t.eid && |Arrived(events, t.eid, n)| == t.K()
    requires NoDuplicates(Arrived(events, t.eid, n)) && Decodable(f, Arrived(events, t.eid, n), t.K(), t.P(), t.len)
    ensures t.eid !in states[n - 1].lastDid && |states[n].lastDid| == 3 && states[n].lastDid[0] == t.eid
    ensures |states[0].up| <= |states[n].up|
    ensures Attributed(Delivered(states[n].up[|states[0].up|..], t.eid), t.originals, idx)
    ensures forall m :: 0 <= m < t.K() ==> m in idx
  {
    CompletesIff(f, t, states, events, n);
    PromptIsFair(f, t, states, events, n);
    NoEarlierCompletion(f, t, states, events, n);
    assert CompletedAt(t, states, n);
    idx := DeliveredOnce(f, t, states, events, n);
  }

  /** In particular, any k systematic packets with distinct indices complete their generation. */
  lemma SystematicRunCompletes<T(!new)>(f: Field<T>, t: Target<T>, states: seq<Rx<T>>, events: seq<Event<T>>, n: nat)
      returns (idx: seq<nat>)
    requires IsField(f) && 0 < n && Prompt(f, t, states, events, n)
    requires events[n - 1].skb.eid == t.eid && |Arrived(events, t.eid, n)| == t.K()
    requires NoDuplicates(Arrived(events, t.eid, n)) && AllSystematic(Arrived(events, t.eid, n))
    ensures t.eid !in states[n - 1].lastDid && |states[n].lastDid| == 3 && states[n].lastDid[0] == t.eid
    ensures |states[0].up| <= |states[n].up|
    ensures Attributed(Delivered(states[n].up[|states[0].up|..], t.eid), t.originals, idx)
    ensures forall m :: 0 <= m < t.K() ==> m in idx
  {
    ArrivedMade(f, t, events, n);
    SystematicDecodable(f, Arrived(events, t.eid, n), t.K(), t.P(), t.len);
    idx := Completes(f, t, states, events, n);
  }
}
