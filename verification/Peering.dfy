/** Two nodes peer with each other over a channel that may lose, repeat and reorder frames. */
module Peering {
  import opened Wrappers
  import opened Plink

  /** A node. `flight` holds the frames it sent that may still arrive. The last two fields are history: when it
      last drew each of its link ids, and the first peer id that it had beside the latest use of each. */
  datatype Node = Node(peer: Option<Sta>, flight: set<Frame>, born: map<nat, nat>, assoc: map<nat, nat>)

  datatype Net = Net(a: Node, b: Node, clock: nat)

  datatype Action =
    | Receive(frame: Frame, env: Env)
    | Timer(env: Env)
    | Beacon(opens: bool, env: Env)
    | Remove

  function Outcome(peer: Option<Sta>, act: Action): (Option<Sta>, seq<Frame>)
  {
    match act
    case Receive(frame, env) => Received(peer, frame, env)
    case Timer(env) => if peer.None? then (peer, []) else var r := TimerFired(peer.value, env); (Some(r.0), r.1)
    case Beacon(opens, env) => Neighbour(peer, opens, env)
    case Remove => if peer.None? then (peer, []) else Cleaned(peer.value)
  }

  /** The step gave the entry a link id that it did not have before. */
  predicate Draws(before: Option<Sta>, after: Option<Sta>)
  {
    after.Some? && after.value.llid != 0 && (before.None? || before.value.llid != after.value.llid)
  }

  /** Nothing is left in the channel that confirms an earlier use of this id: every Confirm of it that may still
      arrive belongs to the link that the other node has now. */
  predicate IdFree(other: Node, llid: nat)
  {
    forall f :: f in other.flight && f.Confirm? && f.plid == llid ==>
                  other.peer.Some? && other.peer.value.llid == f.llid && other.peer.value.plid == llid
  }

  /** Only frames that the other node has sent arrive, in any order, any number of times; and a link id may
      come back once it is free. */
  predicate Allowed(n: Node, other: Node, act: Action)
  {
    && Possible(other, act)
    && var peer := Outcome(n.peer, act).0;
       Draws(n.peer, peer) ==> IdFree(other, peer.value.llid)
  }

  predicate Possible(other: Node, act: Action)
  {
    && (act.Receive? ==> act.frame in other.flight)
    && (!act.Remove? ==> act.env.freshLlid != 0)
  }

  /** The node after it has acted. */
  function Recorded(n: Node, peer: Option<Sta>, frames: seq<Frame>, clock: nat): Node
  {
    var drawn := Draws(n.peer, peer);
    var born := if drawn then n.born[peer.value.llid := clock] else n.born;
    var assoc := if drawn then n.assoc - {peer.value.llid} else n.assoc;
    Node(peer, n.flight + (set f | f in frames), born,
         if peer.Some? && peer.value.plid != 0 && peer.value.llid !in assoc
           then assoc[peer.value.llid := peer.value.plid] else assoc)
  }

  /** The other node's history, once this node has acted: earlier links of it no longer count as made with an id
      that is drawn anew. */
  function Forgot(other: Node, before: Option<Sta>, after: Option<Sta>): Node
  {
    if !Draws(before, after) then other
    else other.(assoc := map i | i in other.assoc
      && (other.assoc[i] != after.value.llid || Current(other, i)) :: other.assoc[i])
  }

  predicate Current(n: Node, llid: nat)
  {
    n.peer.Some? && n.peer.value.llid == llid
  }

  function AActs(s: Net, act: Action): Net
  {
    var (peer, frames) := Outcome(s.a.peer, act);
    Net(Recorded(s.a, peer, frames, s.clock), Forgot(s.b, s.a.peer, peer), s.clock + 1)
  }

  function BActs(s: Net, act: Action): Net
  {
    var (peer, frames) := Outcome(s.b.peer, act);
    Net(Forgot(s.a, s.b.peer, peer), Recorded(s.b, peer, frames, s.clock), s.clock + 1)
  }

  /** Frames are lost for good. */
  predicate Loses(s: Net, s': Net)
  {
    && s'.a.flight <= s.a.flight && s'.b.flight <= s.b.flight
    && s' == Net(s.a.(flight := s'.a.flight), s.b.(flight := s'.b.flight), s.clock)
  }

  ghost predicate Step(s: Net, s': Net)
  {
    || (exists act :: Allowed(s.a, s.b, act) && s' == AActs(s, act))
    || (exists act :: Allowed(s.b, s.a, act) && s' == BActs(s, act))
    || Loses(s, s')
  }

  const IDLE := Node(None, {}, map[], map[])

  // ---------------------------------------------------------------- the invariant

  /** The entry for the peer. */
  ghost predicate PeerOk(n: Node, other: Node)
  {
    n.peer.Some? ==>
      var p := n.peer.value;
      && p.state != Blocked
      && (if p.state == Listen then p.llid == 0 && p.plid == 0 else Newest(n, p.llid))
      && (p.plid != 0 ==> p.llid in n.assoc && n.assoc[p.llid] == p.plid)
      && (p.plid == 0 ==> p.llid !in n.assoc)
      && (p.state in {OpnRcvd, CnfRcvd, Estab} ==> p.plid != 0)
      && (p.state in {CnfRcvd, Estab} ==> Confirmed(other, p.plid, n, p.llid))
  }

  /** Link llid of this node was made with plid of the other, or has been drawn anew since plid was. */
  ghost predicate Confirmed(n: Node, llid: nat, other: Node, plid: nat)
  {
    && llid in n.born && plid in other.born
    && ((llid in n.assoc && n.assoc[llid] == plid) || other.born[plid] < n.born[llid])
  }

  /** This is the id that the node drew last. */
  ghost predicate Newest(n: Node, llid: nat)
  {
    llid in n.born && forall i :: NewestAt(n, llid, i)
  }

  ghost predicate NewestAt(n: Node, llid: nat, i: nat)
    requires llid in n.born
  {
    i in n.born ==> n.born[i] <= n.born[llid]
  }

  /** No two ids were drawn at the same time. */
  ghost predicate BornOk(n: Node, clock: nat)
  {
    0 !in n.born && forall i, j :: BornAt(n, clock, i, j)
  }

  ghost predicate BornAt(n: Node, clock: nat, i: nat, j: nat)
  {
    i in n.born ==> n.born[i] < clock && (j in n.born && i != j ==> n.born[i] != n.born[j])
  }

  /** Every association was made with an id of the other node, and later ids of this node are younger
      than that id. */
  ghost predicate AssocOk(n: Node, other: Node)
  {
    forall i, j :: AssocAt(n, other, i, j)
  }

  ghost predicate AssocAt(n: Node, other: Node, i: nat, j: nat)
  {
    i in n.assoc ==>
      && i in n.born && n.assoc[i] in other.born
      && (j in n.born && n.born[i] < n.born[j] ==> other.born[n.assoc[i]] < n.born[j])
  }

  ghost predicate SentOk(n: Node, other: Node)
  {
    forall f :: SentAt(n, other, f)
  }

  ghost predicate SentAt(n: Node, other: Node, f: Frame)
  {
    f in n.flight ==> match f
                      case Open(llid) => llid in n.born
                      case Confirm(llid, plid) => Confirmed(n, llid, other, plid)
                      case Close(_, _) => true
  }

  ghost predicate NodeOk(n: Node, other: Node, clock: nat)
  {
    PeerOk(n, other) && BornOk(n, clock) && AssocOk(n, other) && SentOk(n, other)
  }

  ghost predicate Inv(s: Net)
  {
    NodeOk(s.a, s.b, s.clock) && NodeOk(s.b, s.a, s.clock)
  }

  // ---------------------------------------------------------------- one step

  /** How one step may change the entry for the peer: what the rest of the proof needs of the rules. */
  ghost predicate Moves(n: Node, other: Node, p: Option<Sta>, frames: seq<Frame>)
  {
    && (p.Some? ==> PeerMoves(n, other, p.value))
    && (forall f :: f in frames && f.Open? ==> p.Some? && f.llid == p.value.llid && p.value.state != Listen)
    && (forall f :: f in frames && f.Confirm? ==>
       p.Some? && f == Confirm(p.value.llid, p.value.plid) && p.value.plid != 0)
  }

  ghost predicate PeerMoves(n: Node, other: Node, p: Sta)
  {
    && p.state != Blocked
    && (p.state == Listen ==> p.llid == 0 && p.plid == 0)
    && (p.state != Listen ==> p.llid != 0)
    && (p.llid == 0 || Kept(n, p) || p.state in {OpnSnt, OpnRcvd})
    && (p.llid == 0 || Kept(n, p) || Draws(n.peer, Some(p)))
    && (p.state in {OpnRcvd, CnfRcvd, Estab} ==> p.plid != 0)
    && (p.state in {CnfRcvd, Estab} ==> Confirmed(other, p.plid, n, p.llid))
    && (p.plid != 0 ==> p.plid in other.born)
  }

  /** The link id stays, and so does the peer's id once there is one. */
  ghost predicate Kept(n: Node, p: Sta)
  {
    && n.peer.Some? && n.peer.value.state != Listen
    && p.llid == n.peer.value.llid
    && (n.peer.value.plid != 0 ==> p.plid == n.peer.value.plid)
  }

  lemma FrameIds(n: Node, other: Node, clock: nat, frame: Frame)
    requires NodeOk(n, other, clock) && NodeOk(other, n, clock) && frame in other.flight && !frame.Close?
    ensures frame.llid != 0 && frame.llid in other.born
    ensures frame.Confirm? ==> frame.plid != 0 && Confirmed(other, frame.llid, n, frame.plid)
  {
    assert SentAt(other, n, frame);
  }

  /** What a node knows before it acts. */
  ghost predicate Before(n: Node, other: Node, env: Env)
  {
    && PeerOk(n, other) && env.freshLlid != 0 && 0 !in n.born
    && (n.peer.Some? && n.peer.value.plid != 0 ==> n.peer.value.plid in other.born)
  }

  lemma OpenMoves(n: Node, other: Node, frame: Frame, env: Env)
    requires Before(n, other, env) && frame.Open? && frame.llid != 0 && frame.llid in other.born
    ensures var r := Received(n.peer, frame, env); Moves(n, other, r.0, r.1)
  {
    var r := Received(n.peer, frame, env);
    if r.0.Some? && r.0 != n.peer {
      assert r.0.value.plid == frame.llid;
    }
  }

  lemma ConfirmMoves(n: Node, other: Node, frame: Frame, env: Env)
    requires Before(n, other, env) && frame.Confirm? && frame.llid != 0 && frame.llid in other.born && frame.plid != 0
    requires Confirmed(other, frame.llid, n, frame.plid)
    ensures var r := Received(n.peer, frame, env); Moves(n, other, r.0, r.1)
  {
    if n.peer.Some? && GetEvent(n.peer, frame, env) == CnfAcpt {
      assert n.peer.value.llid == frame.plid;
    }
  }

  lemma CloseMoves(n: Node, other: Node, frame: Frame, env: Env)
    requires Before(n, other, env) && frame.Close?
    ensures var r := Received(n.peer, frame, env); Moves(n, other, r.0, r.1)
  {
  }

  lemma TimerMoves(n: Node, other: Node, env: Env)
    requires Before(n, other, env)
    ensures var r := Outcome(n.peer, Timer(env)); Moves(n, other, r.0, r.1)
  {
  }

  lemma BeaconMoves(n: Node, other: Node, opens: bool, env: Env)
    requires Before(n, other, env)
    ensures var r := Neighbour(n.peer, opens, env); Moves(n, other, r.0, r.1)
  {
  }

  lemma OutcomeMoves(n: Node, other: Node, clock: nat, act: Action)
    requires NodeOk(n, other, clock) && NodeOk(other, n, clock) && Possible(other, act)
    ensures var r := Outcome(n.peer, act); Moves(n, other, r.0, r.1)
  {
    if n.peer.Some? {
      assert AssocAt(n, other, n.peer.value.llid, 0);
    }
    match act
    case Receive(frame, env) =>
      assert Before(n, other, env);
      match frame {
        case Open(_) =>
          FrameIds(n, other, clock, frame);
          OpenMoves(n, other, frame, env);
        case Confirm(_, _) =>
          FrameIds(n, other, clock, frame);
          ConfirmMoves(n, other, frame, env);
        case Close(_, _) =>
          CloseMoves(n, other, frame, env);
      }
    case Timer(env) =>
      assert Before(n, other, env);
      TimerMoves(n, other, env);
    case Beacon(opens, env) =>
      assert Before(n, other, env);
      BeaconMoves(n, other, opens, env);
    case Remove =>
  }

  /** What both accounts look like before a step, and what the step may do. */
  ghost predicate Stepping(n: Node, other: Node, clock: nat, p: Option<Sta>, frames: seq<Frame>)
  {
    && NodeOk(n, other, clock) && NodeOk(other, n, clock) && Moves(n, other, p, frames)
    && (Draws(n.peer, p) ==> IdFree(other, p.value.llid))
  }

  lemma RecordedNewest(n: Node, other: Node, clock: nat, p: Option<Sta>, frames: seq<Frame>)
    requires Stepping(n, other, clock, p, frames) && p.Some? && p.value.llid != 0
    ensures Newest(Recorded(n, p, frames, clock), p.value.llid)
  {
    var n' := Recorded(n, p, frames, clock);
    forall i
      ensures p.value.llid in n'.born && NewestAt(n', p.value.llid, i)
    {
      assert BornAt(n, clock, i, i);
      assert Kept(n, p.value) ==> NewestAt(n, p.value.llid, i);
    }
  }

  lemma RecordedPeer(n: Node, other: Node, clock: nat, p: Option<Sta>, frames: seq<Frame>)
    requires Stepping(n, other, clock, p, frames)
    ensures PeerOk(Recorded(n, p, frames, clock), Forgot(other, n.peer, p))
  {
    assert AssocAt(n, other, 0, 0);
    if p.Some? && p.value.llid != 0 {
      RecordedNewest(n, other, clock, p, frames);
      if p.value.state in {CnfRcvd, Estab} {
        assert Kept(n, p.value) && !Draws(n.peer, p);
      }
    }
  }

  lemma RecordedBorn(n: Node, other: Node, clock: nat, p: Option<Sta>, frames: seq<Frame>)
    requires Stepping(n, other, clock, p, frames)
    ensures BornOk(Recorded(n, p, frames, clock), clock + 1)
  {
    var n', later := Recorded(n, p, frames, clock), clock + 1;
    forall i, j
      ensures BornAt(n', later, i, j)
    {
      assert BornAt(n, clock, i, j) && BornAt(n, clock, j, i);
    }
  }

  lemma RecordedAssoc(n: Node, other: Node, clock: nat, p: Option<Sta>, frames: seq<Frame>)
    requires Stepping(n, other, clock, p, frames)
    ensures AssocOk(Recorded(n, p, frames, clock), Forgot(other, n.peer, p))
  {
    var n' := Recorded(n, p, frames, clock);
    if p.Some? && p.value.llid != 0 {
      RecordedNewest(n, other, clock, p, frames);
    }
    forall i, j
      ensures AssocAt(n', Forgot(other, n.peer, p), i, j)
    {
      assert AssocAt(n, other, i, j);
      if i in n.assoc {
        assert BornAt(other, clock, n.assoc[i], 0);
      }
      if p.Some? && p.value.llid != 0 {
        assert NewestAt(n', p.value.llid, j);
      }
    }
  }

  lemma RecordedSent(n: Node, other: Node, clock: nat, p: Option<Sta>, frames: seq<Frame>)
    requires Stepping(n, other, clock, p, frames)
    ensures SentOk(Recorded(n, p, frames, clock), Forgot(other, n.peer, p))
  {
    var n' := Recorded(n, p, frames, clock);
    RecordedPeer(n, other, clock, p, frames);
    forall f
      ensures SentAt(n', Forgot(other, n.peer, p), f)
    {
      assert SentAt(n, other, f);
      if f in n.flight && f.Confirm? {
        assert BornAt(other, clock, f.plid, 0);
      }
    }
  }

  lemma RecordedOk(n: Node, other: Node, clock: nat, p: Option<Sta>, frames: seq<Frame>)
    requires Stepping(n, other, clock, p, frames)
    ensures NodeOk(Recorded(n, p, frames, clock), Forgot(other, n.peer, p), clock + 1)
  {
    RecordedPeer(n, other, clock, p, frames);
    RecordedBorn(n, other, clock, p, frames);
    RecordedAssoc(n, other, clock, p, frames);
    RecordedSent(n, other, clock, p, frames);
  }

  lemma OtherPeer(n: Node, other: Node, clock: nat, p: Option<Sta>, frames: seq<Frame>)
    requires Stepping(n, other, clock, p, frames)
    ensures PeerOk(Forgot(other, n.peer, p), Recorded(n, p, frames, clock))
  {
    var n', other' := Recorded(n, p, frames, clock), Forgot(other, n.peer, p);
    if other.peer.Some? && other.peer.value.llid != 0 {
      var o := other.peer.value;
      assert Newest(other', o.llid) by {
        forall i
          ensures NewestAt(other', o.llid, i)
        {
          assert NewestAt(other, o.llid, i);
        }
      }
      assert BornAt(other, clock, o.llid, 0);
    }
  }

  lemma OtherBorn(n: Node, other: Node, clock: nat, p: Option<Sta>)
    requires BornOk(other, clock)
    ensures BornOk(Forgot(other, n.peer, p), clock + 1)
  {
    var other', later := Forgot(other, n.peer, p), clock + 1;
    forall i, j
      ensures BornAt(other', later, i, j)
    {
      assert BornAt(other, clock, i, j);
    }
  }

  lemma OtherAssoc(n: Node, other: Node, clock: nat, p: Option<Sta>, frames: seq<Frame>)
    requires Stepping(n, other, clock, p, frames)
    ensures AssocOk(Forgot(other, n.peer, p), Recorded(n, p, frames, clock))
  {
    forall i, j
      ensures AssocAt(Forgot(other, n.peer, p), Recorded(n, p, frames, clock), i, j)
    {
      assert AssocAt(other, n, i, j);
      if i in other.assoc && Current(other, i) {
        assert NewestAt(other, i, j);
      }
    }
  }

  lemma OtherSent(n: Node, other: Node, clock: nat, p: Option<Sta>, frames: seq<Frame>)
    requires Stepping(n, other, clock, p, frames)
    ensures SentOk(Forgot(other, n.peer, p), Recorded(n, p, frames, clock))
  {
    forall f
      ensures SentAt(Forgot(other, n.peer, p), Recorded(n, p, frames, clock), f)
    {
      assert SentAt(other, n, f);
    }
  }

  /** What this node does keeps the other node's account. */
  lemma OtherOk(n: Node, other: Node, clock: nat, p: Option<Sta>, frames: seq<Frame>)
    requires Stepping(n, other, clock, p, frames)
    ensures NodeOk(Forgot(other, n.peer, p), Recorded(n, p, frames, clock), clock + 1)
  {
    OtherPeer(n, other, clock, p, frames);
    OtherBorn(n, other, clock, p);
    OtherAssoc(n, other, clock, p, frames);
    OtherSent(n, other, clock, p, frames);
  }

  /** Either node acts, in its own words. */
  lemma ActKeepsInv(n: Node, other: Node, clock: nat, act: Action)
    requires NodeOk(n, other, clock) && NodeOk(other, n, clock) && Allowed(n, other, act)
    ensures var (p, frames) := Outcome(n.peer, act);
            && NodeOk(Recorded(n, p, frames, clock), Forgot(other, n.peer, p), clock + 1)
            && NodeOk(Forgot(other, n.peer, p), Recorded(n, p, frames, clock), clock + 1)
  {
    OutcomeMoves(n, other, clock, act);
    var (p, frames) := Outcome(n.peer, act);
    RecordedOk(n, other, clock, p, frames);
    OtherOk(n, other, clock, p, frames);
  }

  lemma LossOk(n: Node, other: Node, n': Node, other': Node, clock: nat)
    requires NodeOk(n, other, clock)
    requires n'.flight <= n.flight && n' == n.(flight := n'.flight) && other' == other.(flight := other'.flight)
    ensures NodeOk(n', other', clock)
  {
    if n.peer.Some? && n.peer.value.state != Listen {
      forall i
        ensures NewestAt(n', n.peer.value.llid, i)
      {
        assert NewestAt(n, n.peer.value.llid, i);
      }
    }
    forall i, j
      ensures BornAt(n', clock, i, j) && AssocAt(n', other', i, j)
    {
      assert BornAt(n, clock, i, j) && AssocAt(n, other, i, j);
    }
    forall f
      ensures SentAt(n', other', f)
    {
      assert SentAt(n, other, f);
    }
  }

  lemma StepKeepsInv(s: Net, s': Net)
    requires Inv(s) && Step(s, s')
    ensures Inv(s')
  {
    if act :| Allowed(s.a, s.b, act) && s' == AActs(s, act) {
      ActKeepsInv(s.a, s.b, s.clock, act);
    } else if act :| Allowed(s.b, s.a, act) && s' == BActs(s, act) {
      ActKeepsInv(s.b, s.a, s.clock, act);
    } else {
      LossOk(s.a, s.b, s'.a, s'.b, s.clock);
      LossOk(s.b, s.a, s'.b, s'.a, s.clock);
    }
  }

  // ---------------------------------------------------------------- agreement

  ghost predicate Established(n: Node)
  {
    n.peer.Some? && n.peer.value.state == Estab
  }

  /** Where both nodes are established, each one's link id is the other's peer id. */
  ghost predicate Agrees(s: Net)
  {
    Established(s.a) && Established(s.b) ==>
      && s.a.peer.value.llid == s.b.peer.value.plid && s.b.peer.value.llid == s.a.peer.value.plid
      && s.a.peer.value.llid != 0 && s.b.peer.value.llid != 0
  }

  lemma InvAgrees(s: Net)
    requires Inv(s)
    ensures Agrees(s)
  {
    if Established(s.a) && Established(s.b) {
      var x, y := s.a.peer.value, s.b.peer.value;
      assert Confirmed(s.b, x.plid, s.a, x.llid) && Confirmed(s.a, y.plid, s.b, y.llid);
      assert s.a.assoc[x.llid] == x.plid && s.b.assoc[y.llid] == y.plid;
      assert NewestAt(s.a, x.llid, y.plid) && NewestAt(s.b, y.llid, x.plid);
      assert BornAt(s.a, s.clock, y.plid, x.llid) && BornAt(s.b, s.clock, x.plid, y.llid);
      assert AssocAt(s.a, s.b, y.plid, x.llid) && AssocAt(s.b, s.a, x.plid, y.llid);
    }
  }

  ghost predicate RunFrom(s: Net, states: seq<Net>)
  {
    && states != [] && states[0] == s
    && forall i :: 0 <= i < |states| - 1 ==> StepAt(states, i)
  }

  ghost predicate StepAt(states: seq<Net>, i: nat)
    requires i + 1 < |states|
  {
    Step(states[i], states[i + 1])
  }

  lemma {:induction false} RunInv(s: Net, states: seq<Net>, n: nat)
    requires Inv(s) && RunFrom(s, states) && n < |states|
    ensures Inv(states[n])
  {
    if n > 0 {
      RunInv(s, states, n - 1);
      assert StepAt(states, n - 1);
      StepKeepsInv(states[n - 1], states[n]);
    }
  }

  /** In every run, whenever both nodes are established their link ids agree. Ids may come back, as long as each
      is free when it is drawn. */
  lemma PeeringAgreement(states: seq<Net>, n: nat)
    requires RunFrom(Net(IDLE, IDLE, 0), states) && n < |states|
    ensures Agrees(states[n])
  {
    RunInv(Net(IDLE, IDLE, 0), states, n);
    InvAgrees(states[n]);
  }

  // ---------------------------------------------------------------- when an id may come back

  /** An id that the node has not used in the run is free, so a run without reuse draws free ids only. */
  lemma UnusedIsFree(n: Node, other: Node, clock: nat, llid: nat)
    requires NodeOk(other, n, clock) && llid !in n.born
    ensures IdFree(other, llid)
  {
    assert forall f :: f in other.flight ==> SentAt(other, n, f);
  }

  /** Every run from here on agrees. */
  ghost predicate Safe(s: Net)
  {
    forall states :: RunFrom(s, states) ==> Agrees(states[|states| - 1])
  }

  /** Node a, which has no entry, draws an id and opens a link. */
  function Opened(s: Net, env: Env): Net
  {
    AActs(s, Beacon(true, env))
  }

  /** A Confirm of the id for another link than the present one, and the Open of that link, take node a to a
      link that node b does not have. */
  lemma StaleConfirmBreaks(s: Net, llid: nat, env: Env, p: nat)
    requires Inv(s) && s.a.peer.None? && Established(s.b) && Willing(env, llid)
    requires Open(p) in s.b.flight && Confirm(p, llid) in s.b.flight
    requires !(s.b.peer.value.llid == p && s.b.peer.value.plid == llid)
    ensures !Safe(Opened(s, env))
  {
    FrameIds(s.a, s.b, s.clock, Open(p));
    var s0 := Opened(s, env);
    assert s0.a.peer == Some(Sta(OpnSnt, llid, 0, 0)) && s0.b.flight == s.b.flight && s0.b.peer == s.b.peer;
    var s1 := TakesIn(s0, Open(p), env, Sta(OpnRcvd, llid, p, 0));
    var s2 := TakesIn(s1, Confirm(p, llid), env, Sta(Estab, llid, p, 0));
    TwoStepsUnsafe(s0, s1, s2);
  }

  /** Node a takes in a frame without drawing an id. */
  lemma TakesIn(s: Net, frame: Frame, env: Env, p: Sta) returns (s': Net)
    requires frame in s.b.flight && env.freshLlid != 0 && s.a.peer.Some?
    requires Received(s.a.peer, frame, env).0 == Some(p) && p.llid == s.a.peer.value.llid
    ensures Step(s, s') && s'.a.peer == Some(p) && s'.b == s.b
  {
    var act := Receive(frame, env);
    s' := AActs(s, act);
    assert Allowed(s.a, s.b, act);
  }

  lemma TwoStepsUnsafe(s0: Net, s1: Net, s2: Net)
    requires Step(s0, s1) && Step(s1, s2) && !Agrees(s2)
    ensures !Safe(s0)
  {
    var states := [s0, s1, s2];
    assert StepAt(states, 0) && StepAt(states, 1);
    assert RunFrom(s0, states) && !Agrees(states[|states| - 1]);
  }

  /** The exact condition: in a state of any run in which node b is established, node a has no entry, and no Open
      was lost whose Confirm was not, drawing an id is safe for all that may follow if and only if it is free. */
  lemma DrawSafeIff(s: Net, llid: nat, env: Env)
    requires Inv(s) && s.a.peer.None? && Established(s.b) && Willing(env, llid)
    requires forall f :: f in s.b.flight && f.Confirm? ==> Open(f.llid) in s.b.flight
    ensures Safe(Opened(s, env)) <==> IdFree(s.b, llid)
  {
    var s0 := Opened(s, env);
    if IdFree(s.b, llid) {
      assert Allowed(s.a, s.b, Beacon(true, env));
      StepKeepsInv(s, s0);
      forall states | RunFrom(s0, states)
        ensures Agrees(states[|states| - 1])
      {
        RunInv(s0, states, |states| - 1);
        InvAgrees(states[|states| - 1]);
      }
    } else {
      var f :| f in s.b.flight && f.Confirm? && f.plid == llid
        && !(s.b.peer.value.llid == f.llid && s.b.peer.value.plid == llid);
      assert f == Confirm(f.llid, llid);
      StaleConfirmBreaks(s, llid, env, f.llid);
    }
  }

  lemma ThenA(states: seq<Net>, act: Action) returns (more: seq<Net>)
    requires Reached(states)
    requires var s := states[|states| - 1]; Allowed(s.a, s.b, act)
    ensures Reached(more) && more[|more| - 1] == AActs(states[|states| - 1], act)
  {
    more := states + [AActs(states[|states| - 1], act)];
    assert forall i :: 0 <= i < |states| - 1 ==> StepAt(states, i) == StepAt(more, i);
  }

  lemma ThenB(states: seq<Net>, act: Action) returns (more: seq<Net>)
    requires Reached(states)
    requires var s := states[|states| - 1]; Allowed(s.b, s.a, act)
    ensures Reached(more) && more[|more| - 1] == BActs(states[|states| - 1], act)
  {
    more := states + [BActs(states[|states| - 1], act)];
    assert forall i :: 0 <= i < |states| - 1 ==> StepAt(states, i) == StepAt(more, i);
  }

  ghost predicate Reached(states: seq<Net>)
  {
    RunFrom(Net(IDLE, IDLE, 0), states)
  }

  ghost predicate Looks(states: seq<Net>, a: Option<Sta>, b: Option<Sta>, af: set<Frame>, bf: set<Frame>)
  {
    && Reached(states)
    && var s := states[|states| - 1];
       s.a.peer == a && s.b.peer == b && s.a.flight == af && s.b.flight == bf
  }

  /** A link that both nodes drop before it is made leaves its frames behind. */
  lemma LeftBehind(x: nat, y: nat, ex: Env, ey: Env) returns (states: seq<Net>)
    requires Willing(ex, x) && Willing(ey, y)
    ensures Looks(states, None, None, {Open(x), Close(x, 0)}, {Open(y), Confirm(y, x), Close(y, x)})
  {
    states := ThenA([Net(IDLE, IDLE, 0)], Beacon(true, ex));
    assert Looks(states, Some(Sta(OpnSnt, x, 0, 0)), None, {Open(x)}, {});
    states := ThenB(states, Receive(Open(x), ey));
    assert Looks(states, Some(Sta(OpnSnt, x, 0, 0)), Some(Sta(OpnRcvd, y, x, 0)), {Open(x)}, {Open(y), Confirm(y, x)});
    states := ThenA(states, Remove);
    assert Looks(states, None, Some(Sta(OpnRcvd, y, x, 0)), {Open(x), Close(x, 0)}, {Open(y), Confirm(y, x)});
    states := ThenB(states, Remove);
  }

  /** A second link is opened, with ids of its own. */
  lemma SecondOpened(x: nat, y: nat, v: nat, w: nat, ev: Env, ew: Env, first: seq<Net>) returns (states: seq<Net>)
    requires Willing(ev, v) && Willing(ew, w) && x != v && y != w
    requires Looks(first, None, None, {Open(x), Close(x, 0)}, {Open(y), Confirm(y, x), Close(y, x)})
    ensures Waiting(states, x, y, v, w, OpnSnt, OpnRcvd)
  {
    var fa, fb := {Open(x), Close(x, 0)}, {Open(y), Confirm(y, x), Close(y, x)};
    states := ThenA(first, Beacon(true, ev));
    assert Looks(states, Some(Sta(OpnSnt, v, 0, 0)), None, fa + {Open(v)}, fb);
    states := ThenB(states, Receive(Open(v), ew));
  }

  ghost predicate Waiting(states: seq<Net>, x: nat, y: nat, v: nat, w: nat, a: PlinkState, b: PlinkState)
  {
    && Reached(states)
    && var s := states[|states| - 1];
       && s.a.peer == Some(Sta(a, v, if a == OpnSnt then 0 else w, 0)) && s.b.peer == Some(Sta(b, w, v, 0))
       && Open(y) in s.b.flight && Confirm(y, x) in s.b.flight && Open(w) in s.b.flight
  }

  /** The second link is made, and dropped by node a. */
  lemma SecondLink(x: nat, y: nat, v: nat, w: nat, ev: Env, ew: Env, first: seq<Net>) returns (states: seq<Net>)
    requires Willing(ev, v) && Willing(ew, w) && Waiting(first, x, y, v, w, OpnSnt, OpnRcvd)
    ensures Reached(states)
    ensures var s := states[|states| - 1];
            s.a.peer.None? && s.b.peer == Some(Sta(Estab, w, v, 0)) && Open(y) in s.b.flight
              && Confirm(y, x) in s.b.flight
  {
    states := ThenA(first, Receive(Open(w), ev));
    assert Waiting(states, x, y, v, w, OpnRcvd, OpnRcvd) && Confirm(v, w) in states[|states| - 1].a.flight;
    states := ThenB(states, Receive(Confirm(v, w), ew));
    assert Waiting(states, x, y, v, w, OpnRcvd, Estab);
    states := ThenA(states, Remove);
  }

  /** Such a state is reached, whatever the ids: node a can draw an id of its own a second time and be established
      on a link that node b does not have, while node b is established on another. */
  lemma ReuseDisagrees(x: nat, y: nat, v: nat, w: nat, ex: Env, ey: Env, ev: Env, ew: Env) returns (states: seq<Net>)
    requires Willing(ex, x) && Willing(ey, y) && Willing(ev, v) && Willing(ew, w) && x != v && y != w
    ensures RunFrom(Net(IDLE, IDLE, 0), states)
    ensures var s := states[|states| - 1]; s.a.peer.None? && Established(s.b) && !Safe(Opened(s, ex))
  {
    states := LeftBehind(x, y, ex, ey);
    states := SecondOpened(x, y, v, w, ev, ew, states);
    states := SecondLink(x, y, v, w, ev, ew, states);
    RunInv(Net(IDLE, IDLE, 0), states, |states| - 1);
    StaleConfirmBreaks(states[|states| - 1], x, ex, y);
  }

  // ---------------------------------------------------------------- agreement is reached, and ends

  /** An environment in which nothing stands against peering. */
  predicate Willing(env: Env, llid: nat)
  {
    env.matches && env.free > 0 && env.rssiOk && env.authed && env.allocOk && env.freshLlid == llid && llid != 0
  }

  /** Without loss, a beacon and four frames take two idle nodes to an established link, whatever the ids. */
  lemma HandshakeCompletes(x: nat, y: nat, ex: Env, ey: Env)
    requires Willing(ex, x) && Willing(ey, y)
    ensures var (a1, s1) := Neighbour(None, true, ex);
            var (b1, s2) := Received(None, s1[0], ey);
            var (a2, s3) := Received(a1, s2[0], ex);
            var (a3, _) := Received(a2, s2[1], ex);
            var (b2, _) := Received(b1, s3[0], ey);
            a3 == Some(Sta(Estab, x, y, 0)) && b2 == Some(Sta(Estab, y, x, 0))
  {
  }

  /** Recovery: when one node drops the peer, its Close ends the other's established link whatever the ids there;
      the answer needs no answer; the holding timer clears the entry; and a beacon and four frames establish a
      new link, with new ids. */
  lemma LinkRecovers(s: Sta, t: Sta, x: nat, y: nat, ex: Env, ey: Env)
    requires t.state == Estab && Willing(ex, x) && Willing(ey, y)
    ensures var (_, close) := Cleaned(s);
            var (t1, reply) := Received(Some(t), close[0], ey);
            && |close| == 1 && |reply| == 1 && t1.Some? && Received(None, reply[0], ex) == (None, [])
            && var (t2, _) := TimerFired(t1.value, ey);
               var (a1, s1) := Neighbour(None, true, ex);
               var (b1, s2) := Received(Some(t2), s1[0], ey);
               var (a2, s3) := Received(a1, s2[0], ex);
               var (a3, _) := Received(a2, s2[1], ex);
               var (b2, _) := Received(b1, s3[0], ey);
               a3 == Some(Sta(Estab, x, y, 0)) && b2 == Some(Sta(Estab, y, x, 0))
  {
    var (t1, _) := Received(Some(t), Cleaned(s).1[0], ey);
    assert t1 == Some(t.(state := Holding));
    assert TimerFired(t1.value, ey) == (NEW_STA, []);
  }

  /** A mismatch does not stand against peering with a known peer: two nodes that have entries for each other
      establish a link although neither accepts the other's configuration. */
  lemma MismatchEstablishes(x: nat, y: nat, ex: Env, ey: Env)
    requires Willing(ex.(matches := true), x) && Willing(ey.(matches := true), y) && !ex.matches && !ey.matches
    ensures var (a1, s1) := Neighbour(Some(NEW_STA), true, ex);
            var (b1, s2) := Received(Some(NEW_STA), s1[0], ey);
            var (a2, s3) := Received(a1, s2[0], ex);
            var (a3, _) := Received(a2, s2[1], ex);
            var (b2, _) := Received(b1, s3[0], ey);
            a3 == Some(Sta(Estab, x, y, 0)) && b2 == Some(Sta(Estab, y, x, 0))
  {
  }
}
