/** A mesh interface with many peers: its peer links (mesh_plink.c, mesh.c, mesh.h) and the routes that
    run over them (mesh_hwmp.c, mesh_pathtbl.c). */
module MeshNode {
  import opened Wrappers
  import opened Plink

  type Addr = nat

  const MAX_AID := 2007
  const MAX_PLINKS := 256
  const MAX_METRIC := 0xffff_ffff
  const U32 := 0x1_0000_0000

  /** A route. Its destination is the key under which it is kept. */
  datatype Path = Path(active: bool, resolving: bool, resolved: bool, queued: bool, snValid: bool,
                       nextHop: Option<Addr>, sn: nat, metric: nat, expTime: nat, retries: nat)

  /** A route as mesh_path_add makes it. */
  function NewPath(now: nat): Path
  {
    Path(false, false, false, false, false, None, 0, 0, now, 0)
  }

  // ---------------------------------------------------------------- link ids

  ghost predicate Usable(draws: seq<nat>, stas: map<Addr, Sta>)
  {
    exists i :: 0 <= i < |draws| && !InUse(LlidOf(draws[i]), stas)
  }

  function LlidOf(draw: nat): nat
  {
    draw % MAX_AID + 1
  }

  ghost predicate InUse(llid: nat, stas: map<Addr, Sta>)
  {
    exists a :: a in stas && stas[a].llid == llid
  }

  /** The first draw that is not in use. */
  ghost function Pick(draws: seq<nat>, stas: map<Addr, Sta>): (llid: nat)
    requires Usable(draws, stas)
    ensures 1 <= llid <= MAX_AID && !InUse(llid, stas)
    decreases |draws|
  {
    if !InUse(LlidOf(draws[0]), stas) then LlidOf(draws[0])
    else
      assert forall i :: 1 <= i < |draws| ==> draws[i] == draws[1..][i - 1];
      Pick(draws[1..], stas)
  }

  /** The draws before it were all in use. */
  lemma {:induction false} PickIsFirst(draws: seq<nat>, stas: map<Addr, Sta>) returns (i: nat)
    requires Usable(draws, stas)
    ensures i < |draws| && Pick(draws, stas) == LlidOf(draws[i]) && !InUse(LlidOf(draws[i]), stas)
    ensures forall j :: 0 <= j < i ==> InUse(LlidOf(draws[j]), stas)
    decreases |draws|
  {
    i := 0;
    if InUse(LlidOf(draws[0]), stas) {
      assert forall j :: 1 <= j < |draws| ==> draws[j] == draws[1..][j - 1];
      i := PickIsFirst(draws[1..], stas);
      i := i + 1;
    }
  }

  /** Only the ids in use matter to the choice. */
  lemma {:induction false} PickSame(draws: seq<nat>, stas: map<Addr, Sta>, stas': map<Addr, Sta>)
    requires Usable(draws, stas) && forall llid :: llid != 0 ==> (InUse(llid, stas) <==> InUse(llid, stas'))
    ensures Usable(draws, stas') && Pick(draws, stas) == Pick(draws, stas')
    decreases |draws|
  {
    if InUse(LlidOf(draws[0]), stas) {
      assert forall i :: 1 <= i < |draws| ==> draws[i] == draws[1..][i - 1];
      PickSame(draws[1..], stas, stas');
    }
  }

  lemma InUseSame(stas: map<Addr, Sta>, a: Addr, s: Sta, llid: nat)
    requires s.llid == (if a in stas then stas[a].llid else 0) && llid != 0
    ensures InUse(llid, stas) <==> InUse(llid, stas[a := s])
  {
    if InUse(llid, stas) {
      var b :| b in stas && stas[b].llid == llid;
      assert b in stas[a := s] && stas[a := s][b].llid == llid;
    }
  }

  // ---------------------------------------------------------------- the invariant

  ghost function EstabSet(stas: map<Addr, Sta>): set<Addr>
  {
    set a | a in stas && stas[a].state == Estab
  }

  ghost predicate DistinctIds(stas: map<Addr, Sta>)
  {
    forall a, b :: a in stas && b in stas && a != b && stas[a].llid != 0 ==> stas[a].llid != stas[b].llid
  }

  ghost predicate ListenClear(stas: map<Addr, Sta>)
  {
    forall a :: a in stas && stas[a].state == Listen ==> stas[a].llid == 0
  }

  /** An active route has a next hop, and every next hop is an established peer. */
  ghost predicate Routed(paths: map<Addr, Path>, stas: map<Addr, Sta>)
  {
    forall d :: d in paths ==> RoutedAt(paths[d], stas)
  }

  ghost predicate RoutedAt(p: Path, stas: map<Addr, Sta>)
  {
    && (p.active ==> p.nextHop.Some?)
    && (p.nextHop.Some? ==> p.nextHop.value in stas && stas[p.nextHop.value].state == Estab)
  }

  /** The routes that do not go through this peer. */
  function Flushed(paths: map<Addr, Path>, hop: Addr): map<Addr, Path>
  {
    map d | d in paths && paths[d].nextHop != Some(hop) :: paths[d]
  }

  function To(a: Addr, frames: seq<Frame>): seq<(Addr, Frame)>
  {
    seq(|frames|, i requires 0 <= i < |frames| => (a, frames[i]))
  }

  lemma EstabUpdate(stas: map<Addr, Sta>, a: Addr, s: Sta)
    requires a in stas
    ensures |EstabSet(stas[a := s])| == |EstabSet(stas)| + (if s.state == Estab then 1
            else 0) - (if stas[a].state == Estab then 1 else 0)
  {
    var before, after := EstabSet(stas), EstabSet(stas[a := s]);
    if s.state == Estab {
      assert after == before + {a};
    } else {
      assert after == before - {a};
    }
  }

  lemma EstabInsert(stas: map<Addr, Sta>, a: Addr, s: Sta)
    requires a !in stas && s.state != Estab
    ensures EstabSet(stas[a := s]) == EstabSet(stas)
  {
  }

  lemma EstabRemove(stas: map<Addr, Sta>, a: Addr)
    requires a in stas
    ensures |EstabSet(stas - {a})| == |EstabSet(stas)| - (if stas[a].state == Estab then 1 else 0)
  {
    assert EstabSet(stas - {a}) == EstabSet(stas) - {a};
  }

  /** Routes stay sound when no established peer is touched. */
  lemma RoutedUpdate(paths: map<Addr, Path>, stas: map<Addr, Sta>, a: Addr, s: Sta)
    requires Routed(paths, stas) && (a in stas && stas[a].state == Estab ==> s.state == Estab)
    ensures Routed(paths, stas[a := s])
  {
  }

  /** Flushing a peer frees it to change. */
  lemma RoutedFlushed(paths: map<Addr, Path>, stas: map<Addr, Sta>, a: Addr, s: Sta)
    requires Routed(paths, stas)
    ensures Routed(Flushed(paths, a), stas) && Routed(Flushed(paths, a), stas[a := s])
            && Routed(Flushed(paths, a), stas - {a})
  {
  }

  /** An established link ends. */
  predicate Closes(before: Option<Sta>, after: Option<Sta>)
  {
    before.Some? && before.value.state == Estab && !(after.Some? && after.value.state == Estab)
  }

  // ---------------------------------------------------------------- routes

  /** SN_GT: sequence numbers wrap at 32 bits. */
  predicate SnGt(x: nat, y: nat)
  {
    (y - x) % U32 >= 0x8000_0000
  }

  /** Number x is newer than y if it is one of the 2^31 numbers that follow y, counted around. */
  lemma SnGtIff(x: nat, y: nat)
    requires x < U32 && y < U32
    ensures SnGt(x, y) <==> y < x <= y + 0x8000_0000 || y < x + U32 <= y + 0x8000_0000
  {
    var d := y - x;
    assert d % U32 == if d < 0 then d + U32 else d;
  }

  /** mpath_expired */
  predicate Expired(p: Path, now: nat)
  {
    p.active && now > p.expTime
  }

  function Aged(p: Path, now: nat): Path
  {
    if Expired(p, now) then p.(active := false) else p
  }

  lemma WrapIff(a: nat, b: nat)
    requires a < U32 && b < U32
    ensures (a + b) % U32 == if a + b < U32 then a + b else a + b - U32
  {
  }

  /** The metric through the last hop, which sticks at the largest value. */
  function Added(metric: nat, lastHop: nat): (m: nat)
    requires metric < U32 && lastHop < U32
    ensures m == if metric + lastHop < U32 then metric + lastHop else MAX_METRIC
  {
    WrapIff(metric, lastHop);
    if (metric + lastHop) % U32 < metric then MAX_METRIC else (metric + lastHop) % U32
  }

  /** What is known of the originator is at least as good as the news. */
  predicate Stale(p: Path, sn: nat, metric: nat)
  {
    p.active && p.snValid && (SnGt(p.sn, sn) || (p.sn == sn && metric >= p.metric))
  }

  /** Offers are taken by number and then by metric: against an active route with a valid number, news with an older
      number is stale, with a newer one it is not, and with the same one it is unless its metric is smaller. */
  lemma OfferOrder(p: Path, sn: nat, metric: nat)
    requires p.sn < U32 && sn < U32
    ensures !p.active || !p.snValid ==> !Stale(p, sn, metric)
    ensures p.active && p.snValid && p.sn == sn ==> (Stale(p, sn, metric) <==> p.metric <= metric)
    ensures p.active && p.snValid && (p.sn < sn < p.sn + 0x8000_0000 || p.sn < sn + U32 < p.sn + 0x8000_0000) ==>
              !Stale(p, sn, metric)
    ensures p.active && p.snValid && (sn < p.sn < sn + 0x8000_0000 || sn < p.sn + U32 < sn + 0x8000_0000) ==>
              Stale(p, sn, metric)
  {
    SnGtIff(p.sn, sn);
  }

  /** A route through a peer whose link broke. */
  function Broken(p: Path, hop: Addr): Path
  {
    if p.nextHop == Some(hop) && p.active then p.(active := false, sn := (p.sn + 1) % U32) else p
  }

  /** Whatever route is active is as it was, or leads to this peer. */
  predicate OnlyVia(before: map<Addr, Path>, after: map<Addr, Path>, hop: Addr)
  {
    forall d :: d in after && after[d].active ==> after[d].nextHop == Some(hop) || Carries(before, after, d)
  }

  /** The route was active before, over the same next hop. */
  predicate Carries(before: map<Addr, Path>, after: map<Addr, Path>, d: Addr)
    requires d in after
  {
    d in before && before[d].active && before[d].nextHop == after[d].nextHop
  }

  /** What mesh_path_timer makes of a route: a discovery that is over, by an answer or without one, is taken down;
      one that runs is tried again until the retries are used up, and then the route is given up. */
  function TimedOut(p: Path, maxRetries: nat, now: nat, requeued: bool): Path
  {
    if p.resolved || !p.resolving then p.(resolving := false, resolved := false)
    else if p.retries < maxRetries then p.(retries := p.retries + 1, queued := requeued)
    else p.(active := false, resolving := false, resolved := false, queued := false, snValid := false, expTime := now)
  }

  /** mesh_path_start_discovery, for an entry of the queue of requests; `start` begins a discovery, and without it
      the timer asks for one more try. */
  function Discovering(p: Path, start: bool): Path
  {
    var q := p.(queued := false);
    if start then (if p.resolving then q else q.(resolved := false, resolving := true, retries := 0))
    else if !p.resolving || p.resolved then q.(resolving := false)
    else q
  }

  /** A turn of the queue of requests, if there is one. */
  function Turned(p: Path, turn: Option<bool>): Path
  {
    if turn.None? then p else Discovering(p, turn.value)
  }

  /** The route after the timer has fired once for each of these times, with no answer between, and before each
      expiry perhaps a turn of the queue, to start or to go on. */
  function TimedOutTimes(p: Path, maxRetries: nat, nows: seq<nat>, requeued: seq<bool>, turns: seq<Option<bool>>): Path
    requires |nows| == |requeued| == |turns|
  {
    if nows == [] then p
    else
      var n := |nows| - 1;
      var q := TimedOutTimes(p, maxRetries, nows[..n], requeued[..n], turns[..n]);
      TimedOut(Turned(q, turns[n]), maxRetries, nows[n], requeued[n])
  }

  /** A discovery that nobody answers ends with the timer that comes after the last retry, and not before, however
      often it is asked for again meanwhile: until then the route is as it was, and then it is gone. */
  lemma {:induction false} DiscoveryEnds(p: Path, maxRetries: nat, nows: seq<nat>, requeued: seq<bool>,
                                         turns: seq<Option<bool>>)
    requires |nows| == |requeued| == |turns| <= maxRetries + 1 && !p.resolving
    ensures var q := TimedOutTimes(Discovering(p, true), maxRetries, nows, requeued, turns);
            && (q.resolving <==> |nows| <= maxRetries) && !q.resolved
            && (q.resolving ==> q.retries == |nows| && q.active == p.active)
            && (q.resolving ==> q.snValid == p.snValid && q.expTime == p.expTime)
            && (!q.resolving ==> !q.active && !q.queued && !q.snValid && q.expTime == nows[maxRetries])
            && q.nextHop == p.nextHop && q.sn == p.sn && q.metric == p.metric
    decreases |nows|
  {
    if nows != [] {
      var n := |nows| - 1;
      DiscoveryEnds(p, maxRetries, nows[..n], requeued[..n], turns[..n]);
    }
  }

  /** After an answer the timer asks for nothing more: however often it fires, and unless a discovery is started again,
      it takes this one down and leaves the route as it is. */
  lemma {:induction false} AnsweredIsQuiet(p: Path, maxRetries: nat, nows: seq<nat>, requeued: seq<bool>,
                                           turns: seq<Option<bool>>)
    requires |nows| == |requeued| == |turns| && nows != [] && p.resolved && Some(true) !in turns
    ensures var q := TimedOutTimes(p, maxRetries, nows, requeued, turns);
            q == p.(resolving := false, resolved := false, queued := q.queued) && (q.queued ==> p.queued)
    decreases |nows|
  {
    var n := |nows| - 1;
    assert turns[n] in turns;
    if n > 0 {
      assert forall t :: t in turns[..n] ==> t in turns;
      AnsweredIsQuiet(p, maxRetries, nows[..n], requeued[..n], turns[..n]);
    } else {
      assert nows[..0] == [];
    }
  }

  /** The route to an originator is the one that a frame from hop offered. */
  predicate Offered(paths: map<Addr, Path>, orig: Addr, hop: Addr, metric: nat, expTime: nat)
  {
    && orig in paths
    && var p := paths[orig];
       p.active && p.resolved && p.snValid && p.nextHop == Some(hop) && p.metric == metric && p.expTime >= expTime
  }

  /** The route to the sender of a frame: one that was active with a smaller metric stays, and otherwise it is now
      the direct one. */
  predicate Direct(before: map<Addr, Path>, after: map<Addr, Path>, sa: Addr, lastHop: nat, expTime: nat, now: nat)
  {
    && sa in after
    && if sa in before && before[sa].active && now <= before[sa].expTime && before[sa].metric < lastHop
         then after[sa] == before[sa]
       else
         var p := after[sa];
         p.active && p.resolved && p.nextHop == Some(sa) && p.metric == lastHop && p.expTime >= expTime
         && (sa in before ==> p.sn == before[sa].sn && p.snValid == before[sa].snValid)
  }

  /** The offer is taken: the originator is another node, there are or can be routes to it and to the sender, and
      what is known of it is not as good. */
  predicate Takes(paths: map<Addr, Path>, addr: Addr, sa: Addr, orig: Addr, sn: nat, metric: nat, now: nat,
                  room1: bool, room2: bool)
  {
    && orig != addr && (orig in paths || room1)
    && (orig in paths ==> !Stale(Aged(paths[orig], now), sn, metric))
    && (orig == sa || sa in paths || (sa != addr && room2))
  }

  /** The routes to the originator and to the sender can be kept. */
  predicate Reaches(paths: map<Addr, Path>, addr: Addr, sa: Addr, orig: Addr, room1: bool, room2: bool)
  {
    (orig == addr || orig in paths || room1) && (sa in paths || (sa != addr && room2))
  }

  /** Routes that were looked up: one that had expired may no longer be active, and the target's number is new. */
  ghost predicate LookedUp(before: map<Addr, Path>, after: map<Addr, Path>, target: Addr, now: nat)
  {
    after.Keys == before.Keys && forall d :: d in before ==> LookedUpAt(before[d], after[d], d == target, now)
  }

  predicate LookedUpAt(p: Path, q: Path, target: bool, now: nat)
  {
    var r := if target then q.(sn := p.sn, snValid := p.snValid) else q;
    r in {p, Aged(p, now)} && (p.snValid ==> q.snValid)
  }

  lemma OfferKept(before: map<Addr, Path>, after: map<Addr, Path>, target: Addr, now: nat, orig: Addr, hop: Addr,
                  metric: nat, expTime: nat)
    requires LookedUp(before, after, target, now) && Offered(before, orig, hop, metric, expTime) && now <= expTime
    ensures Offered(after, orig, hop, metric, expTime) && (target != orig ==> after[orig].sn == before[orig].sn)
  {
    assert LookedUpAt(before[orig], after[orig], orig == target, now);
  }

  lemma DirectKept(first: map<Addr, Path>, before: map<Addr, Path>, after: map<Addr, Path>, target: Addr, now: nat,
                   sa: Addr, lastHop: nat, expTime: nat)
    requires LookedUp(before, after, target, now) && Direct(first, before, sa, lastHop, expTime, now)
    requires now <= expTime && target != sa
    ensures Direct(first, after, sa, lastHop, expTime, now)
  {
    assert LookedUpAt(before[sa], after[sa], sa == target, now);
  }

  lemma LookedUpVia(first: map<Addr, Path>, before: map<Addr, Path>, after: map<Addr, Path>, target: Addr, now: nat,
                    hop: Addr)
    requires LookedUp(before, after, target, now) && OnlyVia(first, before, hop)
    ensures OnlyVia(first, after, hop)
  {
    forall d | d in after && after[d].active
      ensures after[d].nextHop == Some(hop) || Carries(first, after, d)
    {
      assert LookedUpAt(before[d], after[d], d == target, now);
    }
  }

  function Later(a: nat, b: nat): nat
  {
    if a > b then a else b
  }

  /** A path request or reply. `orig` is the node that it leads to, `target` the node that it asks for (a request)
      or goes on to (a reply, if it `forwards`); `proactive` a request to all; `sized` that the element has its one
      legal length. */
  datatype Request = Request(sized: bool, reply: bool, forwards: bool, proactive: bool, orig: Addr, sn: nat,
                             metric: nat,
                             expTime: nat, target: Addr, targetSn: nat)

  datatype PathErr = PathErr(sized: bool, ttl: nat, target: Addr, sn: nat)

  /** A root announcement; `better` compares its metric with that of the last one. */
  datatype Rann = Rann(orig: Addr, sn: nat, better: bool)

  datatype PathSelFrame = PathSelFrame(preq: Option<Request>, prep: Option<Request>, perr: Option<PathErr>,
                                       rann: Option<Rann>)

  /** Whether mesh_path_add succeeds for the originator, the sender and a root. */
  datatype Rooms = Rooms(orig: bool, sender: bool, root: bool)

  /** What a request or reply from sa leaves behind: the route it offered, if it is taken, with its number unless
      the request is for the originator itself; and the direct route to the sender. */
  ghost predicate Heeded(before: map<Addr, Path>, after: map<Addr, Path>, addr: Addr, sa: Addr, e: Request,
                         lastHop: nat, now: nat, rooms: Rooms)
    requires e.metric < U32 && lastHop < U32
  {
    && (now <= e.expTime
        && Takes(before, addr, sa, e.orig, e.sn, Added(e.metric, lastHop), now, rooms.orig, rooms.sender) ==>
          Offered(after, e.orig, sa, Added(e.metric, lastHop), e.expTime)
          && (e.target != e.orig ==> after[e.orig].sn == e.sn))
    && (now <= e.expTime && e.orig != sa && e.target != sa
        && Reaches(before, addr, sa, e.orig, rooms.orig, rooms.sender) ==>
          Direct(before, after, sa, lastHop, e.expTime, now))
  }

  lemma HeededStill(first: map<Addr, Path>, before: map<Addr, Path>, after: map<Addr, Path>, addr: Addr, sa: Addr,
                    e: Request, lastHop: nat, now: nat, rooms: Rooms)
    requires e.metric < U32 && lastHop < U32
    requires LookedUp(before, after, e.target, now) && Heeded(first, before, addr, sa, e, lastHop, now, rooms)
    ensures Heeded(first, after, addr, sa, e, lastHop, now, rooms)
  {
    if now <= e.expTime {
      if Takes(first, addr, sa, e.orig, e.sn, Added(e.metric, lastHop), now, rooms.orig, rooms.sender) {
        OfferKept(before, after, e.target, now, e.orig, sa, Added(e.metric, lastHop), e.expTime);
      }
      if e.orig != sa && e.target != sa && Reaches(first, addr, sa, e.orig, rooms.orig, rooms.sender) {
        DirectKept(first, before, after, e.target, now, sa, lastHop, e.expTime);
      }
    }
  }

  /** The frame has one element, a request or a reply of legal length. */
  predicate OneRequest(f: PathSelFrame)
  {
    && f.perr.None? && f.rann.None? && (f.preq.Some? <==> f.prep.None?)
    && (f.preq.Some? ==> f.preq.value.sized) && (f.prep.Some? ==> f.prep.value.sized)
  }

  predicate ProperMetrics(f: PathSelFrame)
  {
    (f.preq.Some? ==> f.preq.value.metric < U32) && (f.prep.Some? ==> f.prep.value.metric < U32)
  }

  class MeshIf {
    const addr: Addr
    const maxPeerLinks: nat
    const maxRetries: nat
    var stas: map<Addr, Sta>
    var estabPlinks: int
    var paths: map<Addr, Path>
    var sent: seq<(Addr, Frame)>

    ghost predicate Valid()
      reads this
    {
      && estabPlinks == |EstabSet(stas)| && estabPlinks <= maxPeerLinks
      && DistinctIds(stas) && ListenClear(stas)
      && Routed(paths, stas)
    }

    constructor (addr: Addr, maxPeerLinks: nat, maxRetries: nat)
      ensures Valid() && stas == map[] && paths == map[] && sent == []
    {
      this.addr, this.maxPeerLinks, this.maxRetries := addr, maxPeerLinks, maxRetries;
      stas, estabPlinks, paths, sent := map[], 0, map[], [];
    }

    function Peer(a: Addr): Option<Sta>
      reads this
    {
      if a in stas then Some(stas[a]) else None
    }

    /** llid_in_use */
    method LlidInUse(llid: nat) returns (used: bool)
      ensures used <==> InUse(llid, stas)
    {
      used := false;
      var rest := stas.Keys;
      while rest != {} && !used
        invariant rest <= stas.Keys
        invariant used ==> InUse(llid, stas)
        invariant !used ==> forall a :: a in stas && a !in rest ==> stas[a].llid != llid
        decreases |rest|, !used
      {
        var a :| a in rest;
        if stas[a].llid == llid {
          used := true;
        }
        rest := rest - {a};
      }
    }

    /** mesh_get_new_llid, on the random numbers that it draws. */
    method NewLlid(draws: seq<nat>) returns (llid: nat)
      requires Usable(draws, stas)
      ensures llid == Pick(draws, stas)
    {
      var i := 0;
      llid := LlidOf(draws[0]);
      var used := LlidInUse(llid);
      while used
        invariant 0 <= i < |draws| && llid == LlidOf(draws[i]) && (used <==> InUse(llid, stas))
        invariant Usable(draws[i..], stas) && Pick(draws[i..], stas) == Pick(draws, stas)
        decreases |draws| - i
      {
        assert draws[i..][1..] == draws[i + 1..];
        assert Pick(draws[i..], stas) == Pick(draws[i + 1..], stas);
        i := i + 1;
        llid := LlidOf(draws[i]);
        used := LlidInUse(llid);
      }
    }

    // -------------------------------------------------------------- peer links

    /** mesh_plink_fsm_restart */
    method Restart(a: Addr)
      requires Valid() && a in stas && stas[a].state != Estab
      modifies this`stas
      ensures Valid() && stas == old(stas)[a := NEW_STA]
    {
      EstabUpdate(stas, a, NEW_STA);
      RoutedUpdate(paths, stas, a, NEW_STA);
      stas := stas[a := NEW_STA];
    }

    /** Moves a peer among the states that are neither LISTEN nor ESTAB. */
    method Move(a: Addr, to: PlinkState)
      requires Valid() && a in stas && to !in {Listen, Estab} && stas[a].state != Estab
      modifies this`stas
      ensures Valid() && stas == old(stas)[a := old(stas)[a].(state := to)]
    {
      var s := stas[a].(state := to);
      EstabUpdate(stas, a, s);
      RoutedUpdate(paths, stas, a, s);
      stas := stas[a := s];
    }

    /** mesh_plink_establish: the estab count goes up with the state. */
    method Establish(a: Addr)
      requires Valid() && a in stas && stas[a].state != Estab && estabPlinks < maxPeerLinks
      modifies this`stas, this`estabPlinks
      ensures Valid() && stas == old(stas)[a := old(stas)[a].(state := Estab)]
    {
      var s := stas[a].(state := Estab);
      EstabUpdate(stas, a, s);
      RoutedUpdate(paths, stas, a, s);
      stas := stas[a := s];
      estabPlinks := estabPlinks + 1;
    }

    /** __mesh_plink_deactivate: the peer is blocked and no route goes through it any more. */
    method Deactivate(a: Addr)
      requires Valid() && a in stas
      modifies this`stas, this`estabPlinks, this`paths
      ensures Valid() && stas == old(stas)[a := old(stas)[a].(state := Blocked)] && paths == Flushed(old(paths), a)
      ensures forall d :: d in paths <==> d in old(paths) && old(paths)[d].nextHop != Some(a)
      ensures forall d :: d in paths ==> paths[d] == old(paths)[d]
    {
      var s := stas[a].(state := Blocked);
      EstabUpdate(stas, a, s);
      RoutedFlushed(paths, stas, a, s);
      if stas[a].state == Estab {
        estabPlinks := estabPlinks - 1;
      }
      stas := stas[a := s];
      paths := Flushed(paths, a);
    }

    /** A peer that listens gets a link id and starts to open. */
    method Begin(a: Addr, to: PlinkState, draws: seq<nat>)
      requires Valid() && a in stas && stas[a].state == Listen && to in {OpnSnt, OpnRcvd} && Usable(draws, stas)
      modifies this`stas
      ensures Valid() && stas == old(stas)[a := old(stas)[a].(state := to, llid := Pick(draws, old(stas)))]
    {
      var llid := NewLlid(draws);
      var s := stas[a].(state := to, llid := llid);
      EstabUpdate(stas, a, s);
      RoutedUpdate(paths, stas, a, s);
      stas := stas[a := s];
    }

    method Tx(a: Addr, frame: Frame)
      modifies this`sent
      ensures sent == old(sent) + To(a, [frame])
    {
      sent := sent + [(a, frame)];
    }

    method FsmListen(a: Addr, event: PlinkEvent, draws: seq<nat>)
      requires Valid() && a in stas && stas[a].state == Listen
      requires event == OpnAcpt ==> Usable(draws, stas)
      modifies this`stas, this`sent
      ensures Valid() && stas == old(stas)[a := Stepped(old(stas)[a], event, if event == OpnAcpt
              then Pick(draws, old(stas)) else 0)]
      ensures sent == old(sent) + To(a, Replies(Listen, event, stas[a]))
    {
      match event
      case ClsAcpt =>
        Restart(a);
      case OpnAcpt =>
        Begin(a, OpnRcvd, draws);
        Tx(a, Open(stas[a].llid));
        Tx(a, Confirm(stas[a].llid, stas[a].plid));
      case _ =>
    }

    method FsmOpening(a: Addr, event: PlinkEvent)
      requires Valid() && a in stas && stas[a].state in {OpnSnt, OpnRcvd, CnfRcvd}
      requires event in {OpnAcpt, CnfAcpt} ==> estabPlinks < maxPeerLinks
      modifies this`stas, this`sent, this`estabPlinks
      ensures Valid() && stas == old(stas)[a := Stepped(old(stas)[a], event, 0)]
      ensures sent == old(sent) + To(a, Replies(old(stas)[a].state, event, stas[a]))
    {
      match event
      case OpnRjct | CnfRjct | ClsAcpt =>
        Move(a, Holding);
        Tx(a, Close(stas[a].llid, stas[a].plid));
      case OpnAcpt =>
        if stas[a].state == CnfRcvd {
          Establish(a);
        } else {
          Move(a, OpnRcvd);
        }
        Tx(a, Confirm(stas[a].llid, stas[a].plid));
      case CnfAcpt =>
        if stas[a].state == OpnSnt {
          Move(a, CnfRcvd);
        } else if stas[a].state == OpnRcvd {
          Establish(a);
        }
      case _ =>
    }

    method FsmEstab(a: Addr, event: PlinkEvent)
      requires Valid() && a in stas && stas[a].state == Estab
      modifies this
      ensures Valid() && stas == old(stas)[a := Stepped(old(stas)[a], event, 0)]
      ensures sent == old(sent) + To(a, Replies(Estab, event, stas[a]))
      ensures paths == if event == ClsAcpt then Flushed(old(paths), a) else old(paths)
    {
      match event
      case ClsAcpt =>
        Deactivate(a);
        Move(a, Holding);
        Tx(a, Close(stas[a].llid, stas[a].plid));
      case OpnAcpt =>
        Tx(a, Confirm(stas[a].llid, stas[a].plid));
      case _ =>
    }

    method FsmHolding(a: Addr, event: PlinkEvent)
      requires Valid() && a in stas && stas[a].state == Holding
      modifies this`stas, this`sent
      ensures Valid() && stas == old(stas)[a := Stepped(old(stas)[a], event, 0)]
      ensures sent == old(sent) + To(a, Replies(Holding, event, stas[a]))
    {
      match event
      case ClsAcpt =>
        Restart(a);
      case OpnAcpt | CnfAcpt | OpnRjct | CnfRjct =>
        Tx(a, Close(stas[a].llid, stas[a].plid));
      case _ =>
    }

    /** mesh_plink_fsm: follows the table, and routes through a peer go when its link closes. */
    method Fsm(a: Addr, event: PlinkEvent, draws: seq<nat>)
      requires Valid() && a in stas && Usable(draws, stas)
      requires event in {OpnAcpt, CnfAcpt} ==> estabPlinks < maxPeerLinks
      modifies this
      ensures Valid() && stas == old(stas)[a := Stepped(old(stas)[a], event, Pick(draws, old(stas)))]
      ensures sent == old(sent) + To(a, Replies(old(stas)[a].state, event, stas[a]))
      ensures paths == if old(stas)[a].state == Estab && event == ClsAcpt then Flushed(old(paths), a) else old(paths)
    {
      match stas[a].state
      case Listen => FsmListen(a, event, draws);
      case OpnSnt | OpnRcvd | CnfRcvd => FsmOpening(a, event);
      case Estab => FsmEstab(a, event);
      case Holding => FsmHolding(a, event);
      case Blocked =>
    }

    /** Records the peer's link id, for an entry that may be new. */
    method SetPlid(a: Addr, plid: nat, ghost draws: seq<nat>)
      requires Valid() && Usable(draws, stas)
      modifies this`stas
      ensures Valid() && stas == old(stas)[a := (if a in old(stas) then old(stas)[a] else NEW_STA).(plid := plid)]
      ensures Usable(draws, stas) && Pick(draws, stas) == Pick(draws, old(stas))
    {
      var s := (if a in stas then stas[a] else NEW_STA).(plid := plid);
      if a in stas {
        EstabUpdate(stas, a, s);
      } else {
        EstabInsert(stas, a, s);
      }
      RoutedUpdate(paths, stas, a, s);
      forall llid: nat | llid != 0
        ensures InUse(llid, stas) <==> InUse(llid, stas[a := s])
      {
        InUseSame(stas, a, s, llid);
      }
      PickSame(draws, stas, stas[a := s]);
      stas := stas[a := s];
    }

    /** The end of mesh_process_plink_frame: a Confirm brings the peer's id if it is not known yet. */
    method Act(a: Addr, event: PlinkEvent, plid: nat, draws: seq<nat>, ghost env: Env)
      requires Valid() && a in stas && Usable(draws, stas) && env.freshLlid == Pick(draws, stas)
      requires event in {OpnAcpt, CnfAcpt} ==> estabPlinks < maxPeerLinks
      modifies this
      ensures Valid() && forall b :: b != a ==> Peer(b) == old(Peer(b))
      ensures var s := old(stas)[a];
              var r := Acted(if s.plid == 0 && event == CnfAcpt then s.(plid := plid) else s, event, env);
              Peer(a) == r.0 && sent == old(sent) + To(a, r.1)
      ensures paths == if Closes(old(Peer(a)), Peer(a)) then Flushed(old(paths), a) else old(paths)
    {
      if stas[a].plid == 0 && event == CnfAcpt {
        SetPlid(a, plid, draws);
      }
      Fsm(a, event, draws);
    }

    /** mesh_process_plink_frame, for a frame whose elements have the right form. */
    method ProcessFrame(sa: Addr, frame: Frame, matches: bool, rssiOk: bool, authed: bool, allocOk: bool,
                        draws: seq<nat>, ghost env: Env)
      requires Valid() && Usable(draws, stas)
      requires env == Env(matches, maxPeerLinks - estabPlinks, rssiOk, authed, allocOk
               && |stas| < MAX_PLINKS, Pick(draws, stas), maxRetries)
      modifies this
      ensures Valid() && forall b :: b != sa ==> Peer(b) == old(Peer(b))
      ensures Peer(sa) == Received(old(Peer(sa)), frame, env).0
      ensures sent == old(sent) + To(sa, Received(old(Peer(sa)), frame, env).1)
      ensures paths == if Closes(old(Peer(sa)), Peer(sa)) then Flushed(old(paths), sa) else old(paths)
    {
      if frame.Open? && !rssiOk {
        return;
      }
      var event := GetEvent(Peer(sa), frame, Env(matches, maxPeerLinks - estabPlinks, rssiOk, authed, allocOk, 0,
        maxRetries));
      assert event == GetEvent(Peer(sa), frame, env);
      if event == OpnAcpt {
        if sa !in stas && (!allocOk || |stas| >= MAX_PLINKS) {
          return;
        }
        SetPlid(sa, frame.llid, draws);
      } else if sa !in stas && event == OpnRjct {
        Tx(sa, Close(0, frame.llid));
        return;
      } else if sa !in stas || event == Undefined {
        return;
      }
      Act(sa, event, frame.llid, draws, env);
    }

    /** mesh_plink_timer, once the timer has expired. */
    method Timer(a: Addr, ghost env: Env)
      requires Valid() && a in stas && env.maxRetries == maxRetries
      modifies this`stas, this`sent
      ensures Valid() && stas == old(stas)[a := TimerFired(old(stas)[a], env).0]
      ensures sent == old(sent) + To(a, TimerFired(old(stas)[a], env).1)
    {
      var s := stas[a];
      match s.state
      case Listen | Estab | Blocked =>
      case OpnRcvd | OpnSnt =>
        if s.retries < maxRetries {
          Retry(a);
          Tx(a, Open(s.llid));
        } else {
          Move(a, Holding);
          Tx(a, Close(s.llid, s.plid));
        }
      case CnfRcvd =>
        Move(a, Holding);
        Tx(a, Close(s.llid, s.plid));
      case Holding =>
        Restart(a);
    }

    method Retry(a: Addr)
      requires Valid() && a in stas && stas[a].state != Estab
      modifies this`stas
      ensures Valid() && stas == old(stas)[a := old(stas)[a].(retries := old(stas)[a].retries + 1)]
    {
      var s := stas[a].(retries := stas[a].retries + 1);
      EstabUpdate(stas, a, s);
      RoutedUpdate(paths, stas, a, s);
      stas := stas[a := s];
    }

    /** mesh_neighbour_update */
    method NeighbourUpdate(a: Addr, opens: bool, authed: bool, allocOk: bool, draws: seq<nat>, ghost env: Env)
      requires Valid() && Usable(draws, stas)
      requires env.authed == authed && env.allocOk == (allocOk && |stas| < MAX_PLINKS)
               && env.freshLlid == Pick(draws, stas)
      modifies this`stas, this`sent
      ensures Valid() && forall b :: b != a ==> Peer(b) == old(Peer(b))
      ensures Peer(a) == Neighbour(old(Peer(a)), opens, env).0
      ensures sent == old(sent) + To(a, Neighbour(old(Peer(a)), opens, env).1)
    {
      if a !in stas {
        if !allocOk || |stas| >= MAX_PLINKS {
          return;
        }
        SetPlid(a, 0, draws);
      }
      if stas[a].state == Listen && opens && authed {
        Begin(a, OpnSnt, draws);
        Tx(a, Open(stas[a].llid));
      }
    }

    /** mesh_sta_cleanup, and the entry is gone. */
    method StaCleanup(a: Addr)
      requires Valid() && a in stas
      modifies this
      ensures Valid() && stas == old(stas) - {a} && paths == Flushed(old(paths), a)
      ensures sent == old(sent) + To(a, Cleaned(old(stas)[a]).1)
    {
      Deactivate(a);
      Tx(a, Close(stas[a].llid, stas[a].plid));
      EstabRemove(stas, a);
      RoutedFlushed(paths, stas, a, NEW_STA);
      assert Flushed(paths, a) == paths;
      stas := stas - {a};
    }

    // -------------------------------------------------------------- routes

    method SetPath(d: Addr, p: Path)
      requires Valid() && RoutedAt(p, stas)
      modifies this`paths
      ensures Valid() && paths == old(paths)[d := p]
    {
      paths := paths[d := p];
    }

    /** mesh_path_lookup */
    method LookupPath(d: Addr, now: nat) returns (found: bool)
      requires Valid()
      modifies this`paths
      ensures Valid() && found == (d in old(paths))
      ensures paths == if found then old(paths)[d := Aged(old(paths)[d], now)] else old(paths)
    {
      found := d in paths;
      if found {
        SetPath(d, if Expired(paths[d], now) then paths[d].(active := false) else paths[d]);
      }
    }

    /** Finds the route, or makes one (mesh_path_add) unless that fails. `room` covers the limit on
        routes, group addresses and memory. */
    method FindOrAdd(d: Addr, now: nat, room: bool) returns (ok: bool)
      requires Valid()
      modifies this`paths
      ensures Valid() && ok == (d in old(paths) || (d != addr && room)) && (ok ==> d in paths)
      ensures paths == if d in old(paths) then old(paths)[d := Aged(old(paths)[d], now)] else if ok
              then old(paths)[d := NewPath(now)] else old(paths)
    {
      ok := LookupPath(d, now);
      if !ok && d != addr && room {
        SetPath(d, NewPath(now));
        ok := true;
      }
    }

    /** The originator's part of hwmp_route_info_get. */
    method RouteToOriginator(sa: Addr, orig: Addr, sn: nat, metric: nat, expTime: nat, now: nat, room: bool)
        returns (ok: bool, process: bool)
      requires Valid() && sa in stas && stas[sa].state == Estab && orig != addr
      modifies this`paths
      ensures Valid() && ok == (orig in old(paths) || room)
      ensures process == (orig !in old(paths) || !Stale(Aged(old(paths)[orig], now), sn, metric))
      ensures forall d :: d != orig ==> (d in paths <==> d in old(paths)) && (d in paths ==> paths[d] == old(paths)[d])
      ensures ok && process ==> Offered(paths, orig, sa, metric, expTime) && paths[orig].sn == sn
      ensures !process ==> orig in paths && paths[orig] == Aged(old(paths)[orig], now)
      ensures OnlyVia(old(paths), paths, sa)
    {
      process := true;
      ok := FindOrAdd(orig, now, room);
      if !ok {
        return;
      }
      var p := paths[orig];
      if p.active && p.snValid && (SnGt(p.sn, sn) || (p.sn == sn && metric >= p.metric)) {
        process := false;
      } else {
        SetPath(orig, p.(nextHop := Some(sa), snValid := true, metric := metric, sn := sn,
          expTime := Later(p.expTime, expTime), active := true, resolved := true));
      }
    }

    /** The transmitter's part of hwmp_route_info_get. */
    method RouteToTransmitter(sa: Addr, lastHop: nat, expTime: nat, now: nat, room: bool) returns (ok: bool)
      requires Valid() && sa in stas && stas[sa].state == Estab
      modifies this`paths
      ensures Valid() && ok == (sa in old(paths) || (sa != addr && room))
      ensures forall d :: d != sa ==> (d in paths <==> d in old(paths)) && (d in paths ==> paths[d] == old(paths)[d])
      ensures ok ==> Direct(old(paths), paths, sa, lastHop, expTime, now)
      ensures OnlyVia(old(paths), paths, sa)
    {
      ok := FindOrAdd(sa, now, room);
      if !ok {
        return;
      }
      var p := paths[sa];
      if !(p.active && lastHop > p.metric) {
        SetPath(sa, p.(nextHop := Some(sa), metric := lastHop, expTime := Later(p.expTime, expTime), active := true,
          resolved := true));
      }
    }

    /** hwmp_route_info_get. The answer is the metric to the originator, which sticks at the largest value, if the
        offer is taken: the originator is another node, there are or can be routes to it and to the sender, and the
        route to it is not active with a newer number, or the same number and no larger metric. Then the route to the
        originator is the one offered. The route to the sender is brought up to date whenever there is or can be one. */
    method RouteInfoGet(sa: Addr, orig: Addr, sn: nat, origMetric: nat, lastHop: nat, expTime: nat, now: nat,
                        room1: bool, room2: bool) returns (m: nat)
      requires Valid() && sa in stas && stas[sa].state == Estab && origMetric < U32 && lastHop < U32
      modifies this`paths
      ensures Valid()
      ensures forall d :: d != sa && d != orig ==>
              (d in paths <==> d in old(paths)) && (d in paths ==> paths[d] == old(paths)[d])
      ensures var sum := if origMetric + lastHop < U32 then origMetric + lastHop else MAX_METRIC;
              if orig != addr && (orig in old(paths) || room1)
                 && (orig in old(paths) ==> !Stale(Aged(old(paths)[orig], now), sn, sum))
                 && (orig == sa || sa in old(paths) || (sa != addr && room2))
                then m == sum && Offered(paths, orig, sa, sum, expTime) && paths[orig].sn == sn
              else m == 0
      ensures m == if Takes(old(paths), addr, sa, orig, sn, Added(origMetric, lastHop), now, room1, room2)
                     then Added(origMetric, lastHop) else 0
      ensures orig != sa && Reaches(old(paths), addr, sa, orig, room1, room2) ==>
                Direct(old(paths), paths, sa, lastHop, expTime, now)
      ensures OnlyVia(old(paths), paths, sa)
      ensures orig != addr && orig != sa && orig in old(paths)
              && Stale(Aged(old(paths)[orig], now), sn, Added(origMetric, lastHop)) ==>
              m == 0 && orig in paths && paths[orig] == Aged(old(paths)[orig], now)
    {
      m := if (origMetric + lastHop) % U32 < origMetric then MAX_METRIC else (origMetric + lastHop) % U32;
      assert m == Added(origMetric, lastHop);
      var ok, process := true, false;
      if orig != addr {
        ok, process := RouteToOriginator(sa, orig, sn, m, expTime, now, room1);
        if !ok {
          return 0;
        }
      }
      if orig != sa {
        ok := RouteToTransmitter(sa, lastHop, expTime, now, room2);
        if !ok {
          return 0;
        }
      }
      m := if process then m else 0;
    }

    /** hwmp_perr_frame_process, for a frame that still has hops to go. */
    method PathError(ta: Addr, target: Addr, sn: nat, now: nat)
      requires Valid()
      modifies this`paths
      ensures Valid() && paths.Keys == old(paths).Keys
      ensures forall d :: d in paths && d != target ==> paths[d] == old(paths)[d]
      ensures target in paths ==>
                var p := old(paths)[target];
                paths[target] == if p.active && now <= p.expTime && p.nextHop == Some(ta)
                  && (!p.snValid || SnGt(sn, p.sn))
                                   then p.(active := false, sn := sn)
                                 else Aged(p, now)
    {
      var found := LookupPath(target, now);
      if found {
        var p := paths[target];
        if p.active && p.nextHop.value == ta && (!p.snValid || SnGt(sn, p.sn)) {
          SetPath(target, p.(active := false, sn := sn));
        }
      }
    }

    /** hwmp_preq_frame_process, for a target that is another node: only the sequence number may change. */
    method PathRequest(target: Addr, sn: nat, now: nat)
      requires Valid()
      modifies this`paths
      ensures Valid() && paths.Keys == old(paths).Keys
      ensures forall d :: d in paths && d != target ==> paths[d] == old(paths)[d]
      ensures target in paths ==> var p := Aged(old(paths)[target], now);
                                  paths[target] == if !p.snValid || SnGt(sn, p.sn) then p.(sn := sn, snValid := true)
                                    else p
    {
      var found := LookupPath(target, now);
      if found && (!paths[target].snValid || SnGt(sn, paths[target].sn)) {
        SetPath(target, paths[target].(sn := sn, snValid := true));
      }
    }

    /** hwmp_rann_frame_process: a root is noted, but no route is made active by it. */
    method RootAnnouncement(orig: Addr, sn: nat, better: bool, now: nat, room: bool)
      requires Valid() && orig != addr
      modifies this`paths
      ensures Valid() && forall d :: d != orig ==>
              (d in paths <==> d in old(paths)) && (d in paths ==> paths[d] == old(paths)[d])
      ensures orig in paths <==> orig in old(paths) || room
      ensures orig in paths ==> var p := if orig in old(paths) then Aged(old(paths)[orig], now) else NewPath(now);
                                paths[orig] == if SnGt(sn, p.sn) || (p.sn == sn && better) then p.(sn := sn) else p
    {
      var ok := FindOrAdd(orig, now, room);
      if ok && (SnGt(sn, paths[orig].sn) || (paths[orig].sn == sn && better)) {
        SetPath(orig, paths[orig].(sn := sn));
      }
    }

    /** mesh_queue_preq: a route is put on the queue of requests once. `room` covers memory and the length of the
        queue. */
    method QueuePreq(d: Addr, room: bool)
      requires Valid() && d in paths
      modifies this`paths
      ensures Valid() && paths == old(paths)[d := old(paths)[d].(queued := old(paths)[d].queued || room)]
    {
      if room && !paths[d].queued {
        SetPath(d, paths[d].(queued := true));
      }
      assert paths == old(paths)[d := paths[d]];
    }

    /** mesh_path_start_discovery, for a request that was taken off the queue. */
    method StartDiscovery(d: Addr, start: bool, now: nat)
      requires Valid()
      modifies this`paths
      ensures Valid()
      ensures paths == if d in old(paths) then old(paths)[d := Discovering(Aged(old(paths)[d], now), start)]
              else old(paths)
    {
      var found := LookupPath(d, now);
      if found {
        var p := paths[d].(queued := false);
        if start {
          if !p.resolving {
            p := p.(resolved := false, resolving := true, retries := 0);
          }
        } else if !p.resolving || p.resolved {
          p := p.(resolving := false);
        }
        SetPath(d, p);
      }
    }

    /** mesh_path_timer */
    method PathTimer(d: Addr, maxRetries: nat, now: nat, room: bool)
      requires Valid() && d in paths
      modifies this`paths
      ensures Valid() && paths == old(paths)[d := TimedOut(old(paths)[d], maxRetries, now, room)]
    {
      var p := paths[d];
      if p.resolved || !p.resolving {
        SetPath(d, p.(resolving := false, resolved := false));
      } else if p.retries < maxRetries {
        SetPath(d, p.(retries := p.retries + 1, queued := false));
        QueuePreq(d, room);
      } else {
        SetPath(d, p.(active := false, resolving := false, resolved := false, queued := false, snValid := false,
          expTime := now));
      }
    }

    /** mesh_plink_broken: the rate control gave up on a peer, and its routes are no longer active. */
    method PlinkBroken(a: Addr)
      requires Valid()
      modifies this`paths
      ensures Valid() && paths.Keys == old(paths).Keys
      ensures forall d :: d in paths ==>
                var p := old(paths)[d];
                paths[d] == if p.active && p.nextHop == Some(a) then p.(active := false, sn := (p.sn + 1) % U32) else p
    {
      var rest := paths.Keys;
      while rest != {}
        invariant Valid() && paths.Keys == old(paths).Keys && rest <= paths.Keys
        invariant forall d :: d in rest ==> paths[d] == old(paths)[d]
        invariant forall d :: d in paths && d !in rest ==> paths[d] == Broken(old(paths)[d], a)
        decreases |rest|
      {
        var d :| d in rest;
        if paths[d].nextHop == Some(a) && paths[d].active {
          SetPath(d, paths[d].(active := false, sn := (paths[d].sn + 1) % U32));
        } else {
          assert paths[d] == Broken(paths[d], a);
        }
        rest := rest - {d};
      }
    }

    /** mesh_path_del */
    method PathDel(d: Addr) returns (ok: bool)
      requires Valid()
      modifies this`paths
      ensures Valid() && ok == (d in old(paths)) && paths == old(paths) - {d}
    {
      ok := d in paths;
      paths := paths - {d};
    }

    /** mesh_nexthop_lookup: a frame only ever goes to an established peer. `refresh` says that the route is about
        to expire under a frame of this node's own. */
    method NexthopLookup(d: Addr, now: nat, refresh: bool, room: bool) returns (hop: Option<Addr>)
      requires Valid()
      modifies this`paths
      ensures Valid() && hop.Some? == (d in old(paths) && old(paths)[d].active && now <= old(paths)[d].expTime)
      ensures hop.Some? ==> hop == old(paths)[d].nextHop && hop.value in stas && stas[hop.value].state == Estab
      ensures paths.Keys == old(paths).Keys && forall e :: e in paths && e != d ==> paths[e] == old(paths)[e]
      ensures hop.None? && d in paths ==> paths[d] == old(paths)[d].(active := false)
    {
      hop := None;
      var found := LookupPath(d, now);
      if found && paths[d].active {
        if refresh && !paths[d].resolving {
          QueuePreq(d, room);
        }
        hop := paths[d].nextHop;
      }
    }

    /** mesh_nexthop_resolve: without a hop, a route is made or kept and a discovery asked for unless one runs.
        `room1` is for the route, `room2` for the request. */
    method NexthopResolve(d: Addr, now: nat, refresh: bool, room1: bool, room2: bool) returns (hop: Option<Addr>)
      requires Valid()
      modifies this`paths
      ensures Valid() && hop.Some? == (d in old(paths) && old(paths)[d].active && now <= old(paths)[d].expTime)
      ensures hop.Some? ==> hop == old(paths)[d].nextHop && hop.value in stas && stas[hop.value].state == Estab
      ensures hop.None? && (d in old(paths) || (d != addr && room1)) ==>
                d in paths && !paths[d].active && (paths[d].resolving || (room2 ==> paths[d].queued))
    {
      hop := NexthopLookup(d, now, refresh, room2);
      if hop.None? {
        var ok := FindOrAdd(d, now, room1);
        if ok && !paths[d].resolving {
          QueuePreq(d, room2);
        }
      }
    }

    /** What hwmp_preq_frame_process and hwmp_prep_frame_process do to the routes. */
    method FinishRequest(e: Request, now: nat)
      requires Valid()
      modifies this`paths
      ensures Valid() && LookedUp(old(paths), paths, e.target, now)
      ensures forall d :: d in paths && d !in {e.orig, e.target} ==> paths[d] == old(paths)[d]
      ensures e.target in paths && e.target != addr && !e.reply && !e.proactive ==>
                var p := old(paths)[e.target];
                paths[e.target].snValid && (!p.snValid || SnGt(e.targetSn, p.sn) ==> paths[e.target].sn == e.targetSn)
    {
      if e.target != addr {
        if e.reply {
          if e.forwards {
            var _ := LookupPath(e.target, now);
          }
        } else if e.proactive {
          var _ := LookupPath(e.orig, now);
        } else {
          PathRequest(e.target, e.targetSn, now);
        }
      }
    }

    /** A request or a reply: hwmp_route_info_get, and if the offer is taken, the rest of its processing. The route
        that was offered and the direct one to the sender are still there afterwards. */
    method TakeRequest(sa: Addr, e: Request, lastHop: nat, now: nat, rooms: Rooms) returns (m: nat)
      requires Valid() && sa in stas && stas[sa].state == Estab && e.metric < U32 && lastHop < U32
      modifies this`paths
      ensures Valid() && OnlyVia(old(paths), paths, sa)
      ensures Heeded(old(paths), paths, addr, sa, e, lastHop, now, rooms)
      ensures m == if Takes(old(paths), addr, sa, e.orig, e.sn, Added(e.metric, lastHop), now, rooms.orig, rooms.sender)
                     then Added(e.metric, lastHop) else 0
    {
      m := RouteInfoGet(sa, e.orig, e.sn, e.metric, lastHop, e.expTime, now, rooms.orig, rooms.sender);
      if m != 0 {
        ghost var mid := paths;
        FinishRequest(e, now);
        LookedUpVia(old(paths), mid, paths, e.target, now, sa);
        HeededStill(old(paths), mid, paths, addr, sa, e, lastHop, now, rooms);
      }
    }

    method TakeError(sa: Addr, e: PathErr, now: nat)
      requires Valid()
      modifies this`paths
      ensures Valid() && OnlyVia(old(paths), paths, sa)
      ensures e.ttl <= 1 ==> paths == old(paths)
      ensures e.ttl > 1 && e.target in old(paths) ==>
                var p := old(paths)[e.target];
                p.active && now <= p.expTime && p.nextHop == Some(sa) && (!p.snValid || SnGt(e.sn, p.sn)) ==>
                  e.target in paths && paths[e.target] == p.(active := false, sn := e.sn)
    {
      if e.ttl > 1 {
        PathError(sa, e.target, e.sn, now);
      }
    }

    method TakeRoot(sa: Addr, e: Rann, now: nat, room: bool)
      requires Valid()
      modifies this`paths
      ensures Valid() && OnlyVia(old(paths), paths, sa)
    {
      if e.orig != addr {
        RootAnnouncement(e.orig, e.sn, e.better, now, room);
      }
    }

    /** mesh_rx_path_sel_frame: a frame from anyone but an established peer changes nothing, and whatever elements
        a frame has, it makes no route active but over its sender. */
    method RxPathSel(sa: Addr, f: PathSelFrame, lastHop: nat, now: nat, rooms: Rooms)
      requires Valid() && lastHop < U32 && ProperMetrics(f)
      modifies this`paths
      ensures Valid()
      ensures !(sa in stas && stas[sa].state == Estab) ==> paths == old(paths)
      ensures OnlyVia(old(paths), paths, sa)
      ensures f.preq.Some? && !f.preq.value.sized ==> paths == old(paths)
      ensures sa in stas && stas[sa].state == Estab && OneRequest(f) ==>
                Heeded(old(paths), paths, addr, sa, if f.preq.Some? then f.preq.value else f.prep.value, lastHop, now,
                  rooms)
      ensures sa in stas && stas[sa].state == Estab && OneRequest(f) ==>
                var e := if f.preq.Some? then f.preq.value else f.prep.value;
                e.orig != addr && (if e.orig in old(paths) then !old(paths)[e.orig].active else rooms.orig)
                && (e.orig == sa || sa in old(paths) || (sa != addr && rooms.sender)) && now <= e.expTime ==>
                  e.orig in paths && paths[e.orig].active && paths[e.orig].nextHop == Some(sa)
                  && paths[e.orig].metric == if e.metric + lastHop < U32 then e.metric + lastHop else MAX_METRIC
      ensures sa in stas && stas[sa].state == Estab && f == PathSelFrame(None, None, f.perr, None) && f.perr.Some?
              && f.perr.value.sized && f.perr.value.ttl > 1 && f.perr.value.target in old(paths) ==>
                var e := f.perr.value;
                var p := old(paths)[e.target];
                p.active && now <= p.expTime && p.nextHop == Some(sa) && (!p.snValid || SnGt(e.sn, p.sn)) ==>
                  e.target in paths && paths[e.target] == p.(active := false, sn := e.sn)
    {
      if sa !in stas || stas[sa].state != Estab {
        return;
      }
      if f.preq.Some? {
        if !f.preq.value.sized {
          return;
        }
        var _ := TakeRequest(sa, f.preq.value, lastHop, now, rooms);
      }
      if f.prep.Some? {
        if !f.prep.value.sized {
          return;
        }
        var _ := TakeRequest(sa, f.prep.value, lastHop, now, rooms);
      }
      if f.perr.Some? {
        if !f.perr.value.sized {
          return;
        }
        TakeError(sa, f.perr.value, now);
      }
      if f.rann.Some? {
        TakeRoot(sa, f.rann.value, now, rooms.root);
      }
    }
  }
}
