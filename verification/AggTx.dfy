/** The handlers of agg-tx.c and ht.c as they change a station's session objects in place. */
module AggTx {
  import opened Wrappers
  import opened BlockAck

  /** tid_ampdu_tx */
  class Session {
    var wantStart: bool
    var wantStop: bool
    var drvReady: bool
    var responded: bool
    var operational: bool
    var stopping: bool
    var bufSize: nat
    const token: nat
    var txStop: bool
    var peerStops: bool
    var pending: seq<nat>
    ghost var raised: nat

    constructor (token: nat)
      ensures View() == NewSession(token)
    {
      this.token := token;
      wantStart, wantStop, drvReady, responded, operational, stopping := true, false, false, false, false, false;
      bufSize, txStop, peerStops, pending, raised := 0, false, false, [], 0;
    }

    ghost function View(): TidTx
      reads this
    {
      TidTx(wantStart, wantStop, drvReady, responded, operational, stopping, bufSize, token, txStop, peerStops,
        pending, raised)
    }
  }

  ghost function Slot(t: Session?): Option<TidTx>
    reads t
  {
    if t == null then None else Some(t.View())
  }

  class AmpduTid {
    var startTx: Session?
    var tidTx: Session?
    var hw: seq<nat>
    var next: nat
    ghost var purged: set<nat>
    var requests: nat
    var driver: seq<DriverAction>

    /** The request and the live session are two objects. */
    ghost predicate Shape()
      reads this
    {
      startTx == null || startTx != tidTx
    }

    ghost function State(): Tid
      reads this, startTx, tidTx
    {
      Tid(Slot(startTx), Slot(tidTx), hw, next, purged, requests, driver)
    }

    /** The invariant of the protocol holds of the objects as they are: OPERATIONAL is honest, no request beside a
        live session, and no frame is lost, doubled or out of order. */
    ghost predicate Valid()
      reads this, startTx, tidTx
    {
      Shape() && Inv(State())
    }

    constructor ()
      ensures Valid() && State() == FRESH && startTx == null && tidTx == null
    {
      startTx, tidTx, hw, next, purged, requests, driver := null, null, [], 0, {}, 0, [];
    }

    method StartTxBaSession(early: bool, allocOk: bool, token: nat) returns (ok: bool)
      requires Valid()
      modifies this`startTx
      ensures Valid() && State() == StartRequested(old(State()), early, allocOk, token)
      ensures ok <==> old(startTx) == null && tidTx == null && allocOk && requests <= 15 && !(requests > 3 && early)
      ensures ok ==> startTx != null && fresh(startTx) && startTx.token == token
      ensures !ok ==> startTx == old(startTx)
    {
      HandledInv(State(), StartRequest(early, allocOk, token));
      if requests > MAX_RETRIES || (requests > BURST_RETRIES && early) || tidTx != null || startTx != null || !allocOk {
        return false;
      }
      startTx := new Session(token);
      ok := true;
    }

    method SplicePackets()
      requires Shape() && tidTx != null
      modifies this`hw, tidTx`pending
      ensures Shape() && State() == Spliced(old(State()))
    {
      if tidTx.pending != [] {
        hw := hw + tidTx.pending;
        tidTx.pending := [];
      }
    }

    /** ieee80211_tx_prep_agg */
    method PrepAgg() returns (queued: bool)
      requires Valid()
      modifies this`next, this`purged, tidTx
      ensures Valid() && State() == Transmitted(old(State()))
      ensures queued <==> tidTx != null && !old(tidTx.operational)
      ensures queued ==> tidTx.pending != [] && tidTx.pending[|tidTx.pending| - 1] == old(next) == next - 1
    {
      TransmittedInv(State());
      if tidTx == null || tidTx.operational || tidTx.wantStart {
        return false;
      }
      queued := true;
      tidTx.pending := tidTx.pending + [next];
      next := next + 1;
      if |tidTx.pending| > MAX_TX_BUFFER {
        purged := purged + {tidTx.pending[0]};
        tidTx.pending := tidTx.pending[1..];
      }
    }

    /** The TX path goes on while the driver decides. */
    method PrepMany(frames: nat)
      requires Valid()
      modifies this`next, this`purged, tidTx
      ensures Valid() && State() == TransmittedMany(old(State()), frames)
    {
      for i := 0 to frames
        invariant Valid() && State() == TransmittedMany(old(State()), i)
      {
        var _ := PrepAgg();
      }
    }

    /** A session that was taken up, or one that runs, is started; the frames that come while the driver decides
        are kept whatever it answers. */
    method HandleStart(frames: nat, driverOk: bool)
      requires Shape() && tidTx != null && startTx == null
      requires Inv(State().(live := Some(State().live.value.(wantStart := false))))
      modifies this, tidTx
      ensures Valid() && State() == Started(old(State()), frames, driverOk) && old(hw) <= hw
      ensures startTx == null && (tidTx == null || tidTx == old(tidTx)) && (driverOk ==> tidTx != null)
    {
      StartedInv(State(), frames, driverOk);
      tidTx.wantStart := false;
      PrepMany(frames);
      AskDriver(driverOk);
    }

    method AskDriver(driverOk: bool)
      requires Shape() && tidTx != null
      modifies this, tidTx
      ensures Shape() && State() == Answered(old(State()), driverOk)
      ensures startTx == old(startTx) && tidTx == if driverOk then old(tidTx) else null
    {
      driver := driver + [TxStart];
      if !driverOk {
        SplicePackets();
        tidTx := null;
        return;
      }
      requests := requests + 1;
    }

    method StopTxBaSession(reason: StopReason)
      requires Shape()
      modifies this`tidTx, this`driver, tidTx
      ensures Shape() && State() == Stopped(old(State()), reason) && (tidTx == null || tidTx == old(tidTx))
      ensures old(Valid()) ==> Valid() && tidTx == old(tidTx)
      ensures old(Valid()) && tidTx != null ==> tidTx.stopping && !tidTx.operational
    {
      if Valid() {
        StoppedInv(State(), reason);
      }
      if tidTx == null {
        return;
      }
      if tidTx.stopping {
        if reason == DestroySta {
          driver := driver + [TxStopFlushCont];
        }
        return;
      }
      if tidTx.wantStart {
        tidTx := null;
        return;
      }
      Halt(reason);
    }

    method Halt(reason: StopReason)
      requires Shape() && tidTx != null && !tidTx.stopping && !tidTx.wantStart
      modifies this`driver, tidTx
      ensures State() == Stopped(old(State()), reason) && tidTx.stopping && !tidTx.operational
    {
      tidTx.stopping := true;
      tidTx.operational := false;
      tidTx.peerStops := reason == PeerRequest;
      tidTx.txStop := reason == LocalRequest;
      driver := driver + [if reason == DestroySta then TxStopFlush else TxStopCont];
    }

    /** One turn of the loop of ieee80211_ba_session_work. */
    method SessionWork(blocked: bool, frames: nat, driverOk: bool)
      requires Valid()
      modifies this, startTx, tidTx
      ensures Valid() && State() == Worked(old(State()), blocked, frames, driverOk) && old(hw) <= hw
      ensures startTx == (if blocked then old(startTx) else null)
      ensures tidTx == null || tidTx == old(tidTx) || tidTx == old(startTx)
      ensures !blocked && old(startTx) == null && tidTx != null && old(tidTx.wantStop && !tidTx.stopping) ==>
                tidTx.stopping && !tidTx.operational && tidTx.txStop && driver == old(driver) + [TxStopCont]
    {
      ghost var s := State();
      WorkedInv(s, blocked, frames, driverOk);
      if blocked {
        return;
      }
      var t := startTx;
      if t != null {
        startTx := null;
        if tidTx == null {
          tidTx := t;
        }
        SameFrames(s, s.(start := None, live := Some(s.start.value.(wantStart := false))));
        HandleStart(frames, driverOk);
      } else if tidTx != null && tidTx.wantStop {
        SameFrames(s, s.(live := Some(s.live.value.(wantStop := false))));
        tidTx.wantStop := false;
        StopTxBaSession(LocalRequest);
      }
    }

    method Operational()
      requires Shape() && tidTx != null
      modifies this`hw, this`driver, tidTx
      ensures Shape() && State() == Raised(old(State()))
    {
      driver := driver + [TxOperational(tidTx.bufSize)];
      SplicePackets();
      tidTx.operational := true;
      tidTx.raised := tidTx.raised + 1;
    }

    /** Under the driver's contract the invariant stays; without it, the promise of OPERATIONAL holds afterwards
        unless this is the late callback that breaks it. */
    method StartTxBaCb()
      requires Valid()
      modifies this`hw, this`driver, tidTx
      ensures Shape() && State() == StartCalledBack(old(State()))
      ensures old(tidTx == null || !tidTx.stopping) ==> Valid() && old(hw) <= hw
      ensures tidTx != null ==> (Honest(tidTx.View()) <==> !old(tidTx.stopping && tidTx.responded && !tidTx.drvReady))
    {
      if tidTx != null {
        CallbackHonestIff(State());
      }
      if tidTx == null || !tidTx.stopping {
        StartCalledBackInv(State());
      }
      if tidTx == null || tidTx.drvReady {
        return;
      }
      tidTx.drvReady := true;
      if tidTx.responded {
        Operational();
      }
    }

    method RequestStop()
      requires Valid()
      modifies tidTx
      ensures Valid() && State() == StopRequested(old(State()))
    {
      HandledInv(State(), StopRequest);
      if tidTx != null && !tidTx.stopping {
        tidTx.wantStop := true;
      }
    }

    method StopTxBaCb() returns (sendDelba: bool)
      requires Valid()
      modifies this`hw, this`tidTx, tidTx
      ensures Valid() && State() == StopCalledBack(old(State())) && old(hw) <= hw
      ensures sendDelba <==> old(tidTx) != null && old(tidTx.stopping) && old(tidTx.txStop) && !old(tidTx.peerStops)
      ensures tidTx == if old(tidTx) == null || old(tidTx.stopping) then null else old(tidTx)
    {
      HandledInv(State(), StopCallback);
      if tidTx == null || !tidTx.stopping {
        return false;
      }
      sendDelba := !tidTx.peerStops && tidTx.txStop;
      SplicePackets();
      tidTx := null;
    }

    method ProcessAddbaResp(token: nat, success: bool, capab: nat)
      requires Valid()
      modifies this, tidTx
      ensures Valid() && State() == Responded(old(State()), token, success, capab) && old(hw) <= hw
      ensures startTx == old(startTx) && tidTx == old(tidTx)
    {
      RespondedInv(State(), token, success, capab);
      var bufSize := capab / 64 % 256;
      if tidTx == null || token != tidTx.token || tidTx.wantStop || tidTx.stopping {
        return;
      }
      if success && bufSize != 0 {
        if tidTx.responded {
          return;
        }
        tidTx.responded := true;
        tidTx.bufSize := bufSize;
        if tidTx.drvReady {
          Operational();
        }
        requests := 0;
      } else {
        StopTxBaSession(Declined);
      }
    }

    /** sta_addba_resp_timer_expired */
    method AddbaRespTimer()
      requires Valid()
      modifies tidTx
      ensures Valid() && State() == ResponseTimedOut(old(State()))
    {
      HandledInv(State(), ResponseTimer);
      if tidTx != null && !tidTx.responded {
        RequestStop();
      }
    }

    /** sta_tx_agg_session_timer_expired */
    method AggSessionTimer(idle: bool)
      requires Valid()
      modifies tidTx
      ensures Valid() && State() == SessionTimedOut(old(State()), idle)
    {
      HandledInv(State(), SessionTimer(idle));
      if tidTx != null && !tidTx.stopping && idle {
        RequestStop();
      }
    }

    /** The handler of an event. */
    method Handle(e: Event)
      requires Valid() && Contract(State(), e)
      modifies this, startTx, tidTx
      ensures Valid() && State() == Handled(old(State()), e) && old(hw) <= hw
      ensures startTx == null || startTx == old(startTx) || fresh(startTx)
      ensures tidTx == null || tidTx == old(tidTx) || tidTx == old(startTx)
    {
      HandledInv(State(), e);
      match e
      case StartRequest(early, allocOk, token) => var _ := StartTxBaSession(early, allocOk, token);
      case Work(blocked, frames, driverOk) => SessionWork(blocked, frames, driverOk);
      case StartCallback => StartTxBaCb();
      case StopRequest => RequestStop();
      case Stop(reason) => StopTxBaSession(reason);
      case StopCallback => var _ := StopTxBaCb();
      case AddbaResp(token, success, capab) => ProcessAddbaResp(token, success, capab);
      case ResponseTimer => AddbaRespTimer();
      case SessionTimer(idle) => AggSessionTimer(idle);
      case Transmit => var _ := PrepAgg();
    }
  }

  /** A TID driven through any events that respect the driver's contract is where the rules say, so that what holds
      of every run holds of the objects. */
  method Play(events: seq<Event>) returns (tid: AmpduTid)
    requires Respects(events)
    ensures fresh(tid) && tid.Valid() && tid.State() == After(events)
  {
    tid := new AmpduTid();
    assert events[..0] == [];
    for n := 0 to |events|
      invariant fresh(tid) && tid.Valid() && tid.State() == After(events[..n])
      invariant (tid.startTx == null || fresh(tid.startTx)) && (tid.tidTx == null || fresh(tid.tidTx))
    {
      AfterNext(events, n);
      tid.Handle(events[n]);
    }
    assert events[..|events|] == events;
  }
}
