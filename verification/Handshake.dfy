/** When a link is established: what an entry that waits for its peer makes of any frames, in any order. */
module Handshake {
  import opened Wrappers
  import opened Plink
  import opened Peering

  /** A frame from the peer, and what its handler found around it. */
  datatype Arrival = Arrival(frame: Frame, env: Env)

  /** The entry after these frames. */
  function Fed(sta: Option<Sta>, arrivals: seq<Arrival>): Option<Sta>
  {
    if arrivals == [] then sta
    else
      var n := |arrivals| - 1;
      Received(Fed(sta, arrivals[..n]), arrivals[n].frame, arrivals[n].env).0
  }

  /** Nothing stands against this frame: there is a free link, the peer is authenticated, and the signal of an Open
      will do. */
  predicate Attended(a: Arrival)
  {
    a.env.authed && a.env.free != 0 && (a.frame.Open? ==> a.env.rssiOk)
  }

  /** The peer's link id, for an entry with link id x: the one that the first Open, or the first Confirm of x,
      brings. */
  function PeerId(x: nat, arrivals: seq<Arrival>): nat
  {
    if arrivals == [] then 0
    else
      var n := |arrivals| - 1;
      var y, a := PeerId(x, arrivals[..n]), arrivals[n];
      if y == 0 && Attended(a) && (a.frame.Open? || (a.frame.Confirm? && a.frame.plid == x)) then a.frame.llid else y
  }

  predicate Heard(arrivals: seq<Arrival>, frame: Frame)
  {
    exists i :: 0 <= i < |arrivals| && Attended(arrivals[i]) && arrivals[i].frame == frame
  }

  /** Both halves of the handshake have been heard from the peer that the entry knows. */
  predicate BothHeard(x: nat, arrivals: seq<Arrival>)
  {
    var y := PeerId(x, arrivals);
    Heard(arrivals, Open(y)) && Heard(arrivals, Confirm(y, x))
  }

  /** A Close that ends the link: any from an authenticated peer once both halves were heard, and before that one with
      the right ids. */
  predicate Ends(x: nat, before: seq<Arrival>, a: Arrival)
  {
    && a.frame.Close? && a.env.authed
    && (BothHeard(x, before) || (a.frame.llid == PeerId(x, before) && a.frame.plid in {0, x}))
  }

  predicate Undisturbed(x: nat, arrivals: seq<Arrival>)
  {
    forall i :: 0 <= i < |arrivals| ==> UndisturbedAt(x, arrivals, i)
  }

  /** Link ids are never 0, and the arrival does not end the link. */
  predicate UndisturbedAt(x: nat, arrivals: seq<Arrival>, i: nat)
    requires i < |arrivals|
  {
    (!arrivals[i].frame.Close? ==> arrivals[i].frame.llid != 0) && !Ends(x, arrivals[..i], arrivals[i])
  }

  // ---------------------------------------------------------------- one more arrival

  lemma HeardMore(arrivals: seq<Arrival>, frame: Frame)
    requires arrivals != []
    ensures var n := |arrivals| - 1;
            Heard(arrivals, frame) <==>
              Heard(arrivals[..n], frame) || (Attended(arrivals[n]) && arrivals[n].frame == frame)
  {
    var n := |arrivals| - 1;
    var before := arrivals[..n];
    if Heard(before, frame) {
      var i :| 0 <= i < n && Attended(before[i]) && before[i].frame == frame;
      assert arrivals[i] == before[i];
    }
    if Heard(arrivals, frame) {
      var i :| 0 <= i < |arrivals| && Attended(arrivals[i]) && arrivals[i].frame == frame;
      assert i < n ==> before[i] == arrivals[i];
    }
  }

  /** Nothing of the peer has been heard as long as its id is unknown. */
  lemma {:induction false} UnknownUnheard(x: nat, arrivals: seq<Arrival>, llid: nat)
    requires Undisturbed(x, arrivals) && PeerId(x, arrivals) == 0
    ensures !Heard(arrivals, Open(llid)) && !Heard(arrivals, Confirm(llid, x))
    decreases |arrivals|
  {
    if arrivals != [] {
      var n := |arrivals| - 1;
      assert UndisturbedAt(x, arrivals, n);
      UndisturbedBefore(x, arrivals, n);
      UnknownUnheard(x, arrivals[..n], llid);
      HeardMore(arrivals, Open(llid));
      HeardMore(arrivals, Confirm(llid, x));
    }
  }

  lemma UndisturbedBefore(x: nat, arrivals: seq<Arrival>, n: nat)
    requires Undisturbed(x, arrivals) && n <= |arrivals|
    ensures Undisturbed(x, arrivals[..n])
  {
    forall i | 0 <= i < n
      ensures UndisturbedAt(x, arrivals[..n], i)
    {
      assert arrivals[..n][..i] == arrivals[..i] && UndisturbedAt(x, arrivals, i);
    }
  }

  /** The state that goes with what has been heard. */
  function StateOf(open: bool, confirm: bool): PlinkState
  {
    if open && confirm then Estab else if open then OpnRcvd else if confirm then CnfRcvd else OpnSnt
  }

  /** The entry that has heard this much. */
  function Waits(x: nat, retries: nat, arrivals: seq<Arrival>): Sta
  {
    var y := PeerId(x, arrivals);
    Sta(StateOf(Heard(arrivals, Open(y)), Heard(arrivals, Confirm(y, x))), x, y, retries)
  }

  /** What one arrival does to it, by what kind of frame it is. */
  lemma NextHeard(x: nat, arrivals: seq<Arrival>)
    requires arrivals != [] && Undisturbed(x, arrivals)
    ensures var n := |arrivals| - 1;
            var a, z, y := arrivals[n], PeerId(x, arrivals[..n]), PeerId(x, arrivals);
            var o, c := Heard(arrivals[..n], Open(z)), Heard(arrivals[..n], Confirm(z, x));
            && (z == 0 ==> !o && !c)
            && (Heard(arrivals, Open(y)) <==> o || (Attended(a) && a.frame == Open(y)))
            && (Heard(arrivals, Confirm(y, x)) <==> c || (Attended(a) && a.frame == Confirm(y, x)))
  {
    var n := |arrivals| - 1;
    var z, y := PeerId(x, arrivals[..n]), PeerId(x, arrivals);
    UndisturbedBefore(x, arrivals, n);
    HeardMore(arrivals, Open(y));
    HeardMore(arrivals, Confirm(y, x));
    if z == 0 {
      UnknownUnheard(x, arrivals[..n], 0);
      UnknownUnheard(x, arrivals[..n], y);
    }
  }

  /** One frame to an entry that knows peer id z and has heard the Open (o) or the Confirm (c): y is the peer's id
      afterwards. */
  lemma OneFrame(x: nat, retries: nat, z: nat, o: bool, c: bool, a: Arrival, y: nat)
    requires x != 0 && (z == 0 ==> !o && !c) && (!a.frame.Close? ==> a.frame.llid != 0)
    requires a.frame.Close? && a.env.authed ==> !(o && c) && !(a.frame.llid == z && a.frame.plid in {0, x})
    requires y == if z == 0 && Attended(a) && (a.frame.Open? || (a.frame.Confirm? && a.frame.plid == x))
             then a.frame.llid else z
    ensures var open, confirm := Attended(a) && a.frame == Open(y), Attended(a) && a.frame == Confirm(y, x);
            Received(Some(Sta(StateOf(o, c), x, z, retries)), a.frame, a.env)
            == (Some(Sta(StateOf(o || open, c || confirm), x, y, retries)), if open then [Confirm(x, y)] else [])
  {
  }

  lemma NextIs(x: nat, retries: nat, arrivals: seq<Arrival>)
    requires x != 0 && arrivals != [] && Undisturbed(x, arrivals)
    ensures var n := |arrivals| - 1;
            var a, y := arrivals[n], PeerId(x, arrivals);
            Received(Some(Waits(x, retries, arrivals[..n])), a.frame, a.env)
            == (Some(Waits(x, retries, arrivals)), if Attended(a) && a.frame == Open(y) then [Confirm(x, y)] else [])
  {
    var n := |arrivals| - 1;
    var z := PeerId(x, arrivals[..n]);
    assert UndisturbedAt(x, arrivals, n);
    NextHeard(x, arrivals);
    OneFrame(x, retries, z, Heard(arrivals[..n], Open(z)), Heard(arrivals[..n], Confirm(z, x)), arrivals[n],
      PeerId(x, arrivals));
  }

  // ---------------------------------------------------------------- any arrivals

  /** An entry in OPN_SNT with link id x, after any frames that do not end the link: it is established if and only if
      both an Open and the Confirm of x have been heard from its peer, in whatever order and however often; after one
      of them alone it is in OPN_RCVD or CNF_RCVD. */
  lemma {:induction false} EstabIffBoth(x: nat, retries: nat, arrivals: seq<Arrival>)
    requires x != 0 && Undisturbed(x, arrivals)
    ensures var y := PeerId(x, arrivals);
            var s := Fed(Some(Sta(OpnSnt, x, 0, retries)), arrivals);
            && s.Some? && s.value.llid == x && s.value.plid == y && s.value.retries == retries
            && (s.value.state == Estab <==> Heard(arrivals, Open(y)) && Heard(arrivals, Confirm(y, x)))
            && (s.value.state == OpnRcvd <==> Heard(arrivals, Open(y)) && !Heard(arrivals, Confirm(y, x)))
            && (s.value.state == CnfRcvd <==> !Heard(arrivals, Open(y)) && Heard(arrivals, Confirm(y, x)))
            && (s.value.state == OpnSnt <==> !Heard(arrivals, Open(y)) && !Heard(arrivals, Confirm(y, x)))
    decreases |arrivals|
  {
    if arrivals != [] {
      var n := |arrivals| - 1;
      UndisturbedBefore(x, arrivals, n);
      EstabIffBoth(x, retries, arrivals[..n]);
      var s := Fed(Some(Sta(OpnSnt, x, 0, retries)), arrivals[..n]);
      assert s == Some(Waits(x, retries, arrivals[..n]));
      NextIs(x, retries, arrivals);
    }
  }

  /** Meanwhile each Open that is heard from the peer is answered with a Confirm of both ids, and nothing else is
      answered. */
  lemma AnswersOpens(x: nat, retries: nat, arrivals: seq<Arrival>, i: nat)
    requires x != 0 && Undisturbed(x, arrivals) && i < |arrivals|
    ensures var a, y := arrivals[i], PeerId(x, arrivals[..i + 1]);
            Received(Fed(Some(Sta(OpnSnt, x, 0, retries)), arrivals[..i]), a.frame, a.env).1
            == if Attended(a) && a.frame == Open(y) then [Confirm(x, y)] else []
  {
    UndisturbedBefore(x, arrivals, i);
    UndisturbedBefore(x, arrivals, i + 1);
    EstabIffBoth(x, retries, arrivals[..i]);
    assert arrivals[..i + 1][..i] == arrivals[..i];
    NextIs(x, retries, arrivals[..i + 1]);
  }

  /** The peer has one link id and sends Opens and Confirms of it only: then one of each, heard in either order with
      any repetitions, establishes the link with its ids. */
  lemma PeerEstablishes(x: nat, y: nat, retries: nat, arrivals: seq<Arrival>)
    requires x != 0 && y != 0 && forall i :: 0 <= i < |arrivals| ==> arrivals[i].frame in {Open(y), Confirm(y, x)}
    ensures Fed(Some(Sta(OpnSnt, x, 0, retries)), arrivals) == Some(Sta(Estab, x, y, retries))
            <==> Heard(arrivals, Open(y)) && Heard(arrivals, Confirm(y, x))
  {
    assert forall i :: 0 <= i < |arrivals| ==> UndisturbedAt(x, arrivals, i);
    EstabIffBoth(x, retries, arrivals);
    PeerIdIs(x, y, arrivals);
  }

  lemma {:induction false} PeerIdIs(x: nat, y: nat, arrivals: seq<Arrival>)
    requires y != 0 && forall i :: 0 <= i < |arrivals| ==> arrivals[i].frame in {Open(y), Confirm(y, x)}
    ensures PeerId(x, arrivals) == if Heard(arrivals, Open(y)) || Heard(arrivals, Confirm(y, x)) then y else 0
    decreases |arrivals|
  {
    if arrivals != [] {
      PeerIdIs(x, y, arrivals[..|arrivals| - 1]);
      HeardMore(arrivals, Open(y));
      HeardMore(arrivals, Confirm(y, x));
    }
  }

  /** First contact: a stranger's Open gets an entry and an answer exactly if nothing stands against it; a beacon makes
      an entry if there is room for one, and opens a link exactly from an entry that listens or is new. */
  lemma FirstContact(y: nat, opens: bool, sta: Option<Sta>, env: Env)
    ensures var (peer, frames) := Received(None, Open(y), env);
            && (peer.Some? <==> env.rssiOk && env.matches && env.free != 0 && env.allocOk)
            && (peer.Some? ==> peer.value == Sta(OpnRcvd, env.freshLlid, y, 0))
            && (peer.Some? ==> frames == [Open(env.freshLlid), Confirm(env.freshLlid, y)])
            && (peer.None? && frames != [] ==> env.rssiOk && !env.matches && frames == [Close(0, y)])
    ensures var (peer, frames) := Neighbour(sta, opens, env);
            && (peer.Some? <==> sta.Some? || env.allocOk)
            && (frames != [] <==> opens && env.authed && (if sta.None? then env.allocOk else sta.value.state == Listen))
            && (frames != [] ==> frames == [Open(env.freshLlid)] && peer.Some? && peer.value.state == OpnSnt
                                 && peer.value.llid == env.freshLlid)
            && (sta.Some? && frames == [] ==> peer == sta)
  {
  }

  /** A node that hears an Open before it has opened is where one is that opened and then heard it. */
  lemma ResponderWaits(x: nat, y: nat, ey: Env)
    requires Willing(ey, y)
    ensures Received(None, Open(x), ey).0 == Fed(Some(Sta(OpnSnt, y, 0, 0)), [Arrival(Open(x), ey)])
  {
    var one := [Arrival(Open(x), ey)];
    assert one[..0] == [];
  }

  /** The Close that ends the link: the entry is held and the peer is told; while it is held, an Open or a Confirm is
      answered with a Close and changes nothing; the timer, or a Close with the right ids, clears it. */
  lemma EndedIsHeld(x: nat, retries: nat, arrivals: seq<Arrival>, a: Arrival, next: Frame, env: Env)
    requires x != 0 && Undisturbed(x, arrivals) && Ends(x, arrivals, a) && env.authed
    requires next.Open? ==> env.rssiOk && env.free != 0 && next.llid == PeerId(x, arrivals) != 0
    requires next.Confirm? ==> env.free != 0 && next.plid == x && next.llid == PeerId(x, arrivals) != 0
    requires next.Close? ==> next.llid == PeerId(x, arrivals) && next.plid == x
    ensures var y := PeerId(x, arrivals);
            var s := Fed(Some(Sta(OpnSnt, x, 0, retries)), arrivals);
            var held := Some(Sta(Holding, x, y, retries));
            && Received(s, a.frame, a.env) == (held, [Close(x, y)])
            && Received(held, next, env) == (if next.Close? then (Some(NEW_STA), []) else (held, [Close(x, y)]))
            && TimerFired(held.value, env) == (NEW_STA, [])
  {
    EstabIffBoth(x, retries, arrivals);
  }

  // ---------------------------------------------------------------- without an answer

  /** The entry after n expiries of its timer, with nothing heard between. */
  function Ticked(s: Sta, env: Env, n: nat): Sta
  {
    if n == 0 then s else TimerFired(Ticked(s, env, n - 1), env).0
  }

  /** A link that nobody answers is opened again maxRetries times and then given up: held, and then cleared. */
  lemma {:induction false} UnansweredEnds(s: Sta, env: Env, n: nat)
    requires s.state in {OpnSnt, OpnRcvd} && s.retries == 0 && n <= env.maxRetries + 1
    ensures n <= env.maxRetries ==> Ticked(s, env, n) == s.(retries := n)
    ensures n < env.maxRetries ==> TimerFired(Ticked(s, env, n), env).1 == [Open(s.llid)]
    ensures n == env.maxRetries ==> TimerFired(Ticked(s, env, n), env).1 == [Close(s.llid, s.plid)]
    ensures n == env.maxRetries + 1 ==> Ticked(s, env, n) == s.(state := Holding, retries := env.maxRetries)
    ensures n == env.maxRetries + 1 ==> TimerFired(Ticked(s, env, n), env) == (NEW_STA, [])
    decreases n
  {
    if n > 0 {
      UnansweredEnds(s, env, n - 1);
    }
  }

  // ---------------------------------------------------------------- the whole handshake

  /** Two idle nodes establish a link with agreeing ids whichever of the answerer's frames arrives first. */
  lemma EitherAnswerFirst(x: nat, y: nat, ex: Env, ey: Env, confirmFirst: bool)
    requires Willing(ex, x) && Willing(ey, y)
    ensures var (a1, s1) := Neighbour(None, true, ex);
            var (b1, s2) := Received(None, s1[0], ey);
            && s1 == [Open(x)] && s2 == [Open(y), Confirm(y, x)]
            && var (first, second) := if confirmFirst then (s2[1], s2[0]) else (s2[0], s2[1]);
               var (a2, s3) := Received(a1, first, ex);
               var (a3, s4) := Received(a2, second, ex);
               && s3 + s4 == [Confirm(x, y)]
               && var (b2, s5) := Received(b1, (s3 + s4)[0], ey);
                  a3 == Some(Sta(Estab, x, y, 0)) && b2 == Some(Sta(Estab, y, x, 0)) && s5 == []
  {
  }

  /** Two nodes that open at the same time establish one link with agreeing ids, also when the Confirm of the first to
      answer overtakes its Open. */
  lemma BothOpen(x: nat, y: nat, ex: Env, ey: Env, overtakes: bool)
    requires Willing(ex, x) && Willing(ey, y)
    ensures var (a1, s1) := Neighbour(None, true, ex);
            var (b1, t1) := Neighbour(None, true, ey);
            var (a2, s2) := Received(a1, t1[0], ex);
            && s1 == [Open(x)] && t1 == [Open(y)] && s2 == [Confirm(x, y)]
            && var (first, second) := if overtakes then (s2[0], s1[0]) else (s1[0], s2[0]);
               var (b2, t2) := Received(b1, first, ey);
               var (b3, t3) := Received(b2, second, ey);
               && t2 + t3 == [Confirm(y, x)]
               && var (a3, s3) := Received(a2, (t2 + t3)[0], ex);
                  a3 == Some(Sta(Estab, x, y, 0)) && b3 == Some(Sta(Estab, y, x, 0)) && s3 == []
  {
  }
}
