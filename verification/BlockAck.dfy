/** The TX Block-Ack session of one TID: what each handler of agg-tx.c and ht.c does, and what every
    interleaving of handlers keeps. */
module BlockAck {
  import opened Wrappers

  const MAX_RETRIES := 15
  const BURST_RETRIES := 3
  const MAX_TX_BUFFER := 64

  datatype StopReason = Declined | LocalRequest | PeerRequest | DestroySta

  /** What the driver is told. */
  datatype DriverAction = TxStart | TxStopCont | TxStopFlush | TxStopFlushCont | TxOperational(bufSize: nat)

  /** tid_ampdu_tx. `raised` counts the operational actions of the session; frames on `pending` are named
      by the order in which the TX path queued them. */
  datatype TidTx = TidTx(wantStart: bool, wantStop: bool, drvReady: bool, responded: bool, operational: bool,
                         stopping: bool, bufSize: nat, token: nat, txStop: bool, peerStops: bool, pending: seq<nat>,
                         raised: nat)

  /** One TID of a station. `hw` is the part of the hardware queue's pending list that came from here,
      `next` the name of the next frame to be queued, `purged` those that an overfull queue gave up. */
  datatype Tid = Tid(start: Option<TidTx>, live: Option<TidTx>, hw: seq<nat>, next: nat, purged: set<nat>,
                     requests: nat, driver: seq<DriverAction>)

  const FRESH := Tid(None, None, [], 0, {}, 0, [])

  function NewSession(token: nat): TidTx
  {
    TidTx(true, false, false, false, false, false, 0, token, false, false, [], 0)
  }

  // ---------------------------------------------------------------- the handlers

  /** ieee80211_start_tx_ba_session, once the capability tests have passed. `early` says that the grace
      period since the last request is not over, and `token` is what the station's allocator gives. */
  function StartRequested(s: Tid, early: bool, allocOk: bool, token: nat): Tid
  {
    if s.requests > MAX_RETRIES || (s.requests > BURST_RETRIES && early) || s.live.Some? || s.start.Some?
      || !allocOk then s
    else s.(start := Some(NewSession(token)))
  }

  /** ieee80211_agg_splice_packets */
  function Spliced(s: Tid): Tid
    requires s.live.Some?
  {
    s.(hw := s.hw + s.live.value.pending, live := Some(s.live.value.(pending := [])))
  }

  /** A frame on the TX path (ieee80211_tx_prep_agg). */
  function Transmitted(s: Tid): Tid
  {
    if s.live.None? || s.live.value.operational || s.live.value.wantStart then s
    else
      var q := s.live.value.pending + [s.next];
      if |q| > MAX_TX_BUFFER then s.(next := s.next + 1, purged := s.purged + {q[0]},
        live := Some(s.live.value.(pending := q[1..])))
      else s.(next := s.next + 1, live := Some(s.live.value.(pending := q)))
  }

  function TransmittedMany(s: Tid, n: nat): Tid
  {
    if n == 0 then s else Transmitted(TransmittedMany(s, n - 1))
  }

  /** ieee80211_tx_ba_session_handle_start. The TX path queues `frames` frames before the driver answers. */
  function Started(s: Tid, frames: nat, driverOk: bool): Tid
    requires s.live.Some?
  {
    Answered(TransmittedMany(s.(live := Some(s.live.value.(wantStart := false))), frames), driverOk)
  }

  /** The driver's answer to the start action. */
  function Answered(s: Tid, driverOk: bool): Tid
  {
    var s1 := s.(driver := s.driver + [TxStart]);
    if s1.live.None? then s1
    else if driverOk then s1.(requests := s1.requests + 1)
    else Spliced(s1).(live := None)
  }

  /** ___ieee80211_stop_tx_ba_session */
  function Stopped(s: Tid, reason: StopReason): Tid
  {
    if s.live.None? then s
    else
      var t := s.live.value;
      if t.stopping then
        if reason == DestroySta then s.(driver := s.driver + [TxStopFlushCont]) else s
      else if t.wantStart then s.(live := None)
      else s.(live := Some(t.(stopping := true, operational := false,
                              peerStops := reason == PeerRequest, txStop := reason == LocalRequest)),
              driver := s.driver + [if reason == DestroySta then TxStopFlush else TxStopCont])
  }

  /** One TID of ieee80211_ba_session_work. */
  function Worked(s: Tid, blocked: bool, frames: nat, driverOk: bool): Tid
  {
    if blocked then s
    else if s.start.Some? then
      var live := if s.live.Some? then s.live else s.start;
      Started(s.(start := None, live := live), frames, driverOk)
    else if s.live.Some? && s.live.value.wantStop then
      Stopped(s.(live := Some(s.live.value.(wantStop := false))), LocalRequest)
    else s
  }

  /** ieee80211_agg_tx_operational */
  function Raised(s: Tid): Tid
    requires s.live.Some?
  {
    var s1 := Spliced(s.(driver := s.driver + [TxOperational(s.live.value.bufSize)]));
    s1.(live := Some(s1.live.value.(operational := true, raised := s1.live.value.raised + 1)))
  }

  /** ieee80211_start_tx_ba_cb */
  function StartCalledBack(s: Tid): Tid
  {
    if s.live.None? || s.live.value.drvReady then s
    else
      var s1 := s.(live := Some(s.live.value.(drvReady := true)));
      if s.live.value.responded then Raised(s1) else s1
  }

  /** ieee80211_stop_tx_ba_session */
  function StopRequested(s: Tid): Tid
  {
    if s.live.None? || s.live.value.stopping then s else s.(live := Some(s.live.value.(wantStop := true)))
  }

  /** ieee80211_stop_tx_ba_cb */
  function StopCalledBack(s: Tid): Tid
  {
    if s.live.None? || !s.live.value.stopping then s else Spliced(s).(live := None)
  }

  /** The buffer size that an ADDBA response carries, cut to the byte that holds it. */
  function BufSizeOf(capab: nat): nat
  {
    capab / 64 % 256
  }

  /** ieee80211_process_addba_resp */
  function Responded(s: Tid, token: nat, success: bool, capab: nat): Tid
  {
    if s.live.None? || token != s.live.value.token || s.live.value.wantStop || s.live.value.stopping then s
    else if success && BufSizeOf(capab) != 0 then
      if s.live.value.responded then s
      else
        var s1 := s.(live := Some(s.live.value.(responded := true, bufSize := BufSizeOf(capab))));
        (if s.live.value.drvReady then Raised(s1) else s1).(requests := 0)
    else Stopped(s, Declined)
  }

  /** sta_addba_resp_timer_expired */
  function ResponseTimedOut(s: Tid): Tid
  {
    if s.live.None? || s.live.value.responded then s else StopRequested(s)
  }

  /** sta_tx_agg_session_timer_expired, `idle` when no frame was sent for the whole timeout. */
  function SessionTimedOut(s: Tid, idle: bool): Tid
  {
    if s.live.None? || s.live.value.stopping || !idle then s else StopRequested(s)
  }

  datatype Event =
    | StartRequest(early: bool, allocOk: bool, token: nat)
    | Work(blocked: bool, frames: nat, driverOk: bool)
    | StartCallback
    | StopRequest
    | Stop(reason: StopReason)
    | StopCallback
    | AddbaResp(token: nat, success: bool, capab: nat)
    | ResponseTimer
    | SessionTimer(idle: bool)
    | Transmit

  function Handled(s: Tid, e: Event): Tid
  {
    match e
    case StartRequest(early, allocOk, token) => StartRequested(s, early, allocOk, token)
    case Work(blocked, frames, driverOk) => Worked(s, blocked, frames, driverOk)
    case StartCallback => StartCalledBack(s)
    case StopRequest => StopRequested(s)
    case Stop(reason) => Stopped(s, reason)
    case StopCallback => StopCalledBack(s)
    case AddbaResp(token, success, capab) => Responded(s, token, success, capab)
    case ResponseTimer => ResponseTimedOut(s)
    case SessionTimer(idle) => SessionTimedOut(s, idle)
    case Transmit => Transmitted(s)
  }

  // ---------------------------------------------------------------- the invariant

  /** What OPERATIONAL promises. */
  predicate Honest(t: TidTx)
  {
    t.operational ==> t.drvReady && t.responded && !t.stopping && t.bufSize > 0
  }

  predicate LiveOk(t: TidTx)
  {
    && !t.wantStart
    && (t.operational <==> t.drvReady && t.responded && !t.stopping)
    && (t.responded ==> t.bufSize > 0)
    && t.raised == (if t.drvReady && t.responded then 1 else 0)
    && (t.operational ==> t.pending == [])
    && |t.pending| <= MAX_TX_BUFFER
  }

  predicate SlotsOk(s: Tid)
  {
    && (s.start.Some? ==> s.live.None? && s.start.value == NewSession(s.start.value.token))
    && (s.live.Some? ==> LiveOk(s.live.value))
  }

  function Held(s: Tid): seq<nat>
  {
    if s.live.Some? then s.live.value.pending else []
  }

  predicate Increasing(q: seq<nat>)
  {
    forall i, j :: 0 <= i < j < |q| ==> q[i] < q[j]
  }

  /** Every frame that was queued is on the hardware queue's list, still held, or given up by an overfull
      queue, and in one of these places only; and the first two are in the order of arrival. */
  ghost predicate Conserved(s: Tid)
  {
    && Increasing(s.hw + Held(s))
    && (forall n :: n in s.hw + Held(s) ==> n < s.next && n !in s.purged)
    && (forall n :: n in s.purged ==> n < s.next)
    && (forall n: nat :: n < s.next ==> n in s.hw + Held(s) || n in s.purged)
  }

  ghost predicate Inv(s: Tid)
  {
    SlotsOk(s) && Conserved(s)
  }

  /** The driver's part: no start callback is processed once the session is stopping. */
  predicate Contract(s: Tid, e: Event)
  {
    e.StartCallback? && s.live.Some? ==> !s.live.value.stopping
  }

  // ---------------------------------------------------------------- every handler keeps it

  lemma SplicedInv(s: Tid)
    requires Conserved(s) && s.live.Some?
    ensures Conserved(Spliced(s)) && Conserved(Spliced(s).(live := None))
    ensures s.hw <= Spliced(s).hw
  {
    assert Spliced(s).hw + [] == s.hw + Held(s);
  }

  lemma QueuedConserved(s: Tid, s': Tid)
    requires Conserved(s) && s'.hw == s.hw && s'.purged == s.purged && s'.next == s.next + 1
             && Held(s') == Held(s) + [s.next]
    ensures Conserved(s')
  {
    var q, q' := s.hw + Held(s), s'.hw + Held(s');
    assert q' == q + [s.next];
    assert forall i :: 0 <= i < |q| ==> q'[i] == q[i] && q[i] in q;
  }

  lemma PurgedConserved(s: Tid, s': Tid)
    requires Conserved(s) && s'.hw == s.hw && s'.next == s.next && Held(s) != []
    requires Held(s') == Held(s)[1..] && s'.purged == s.purged + {Held(s)[0]}
    ensures Conserved(s')
  {
    var q, q' := s.hw + Held(s), s'.hw + Held(s');
    var h := |s.hw|;
    assert q == s.hw + [q[h]] + Held(s');
    forall i | 0 <= i < |q'|
      ensures q'[i] == q[if i < h then i else i + 1] && q'[i] in q && q'[i] != q[h]
    {
    }
    forall n | n in q && n != q[h]
      ensures n in q'
    {
      var i :| 0 <= i < |q| && q[i] == n;
      assert q'[if i < h then i else i - 1] == n;
    }
  }

  lemma TransmittedInv(s: Tid)
    requires Inv(s)
    ensures Inv(Transmitted(s)) && Transmitted(s).hw == s.hw
    ensures Transmitted(s).purged != s.purged <==>
            s.live.Some? && !s.live.value.operational && |Held(s)| == MAX_TX_BUFFER
    ensures Transmitted(s).purged != s.purged ==> Transmitted(s).purged == s.purged + {Held(s)[0]}
  {
    var s' := Transmitted(s);
    if s' != s {
      var q := Held(s) + [s.next];
      var s1 := s.(next := s.next + 1, live := Some(s.live.value.(pending := q)));
      QueuedConserved(s, s1);
      if |q| > MAX_TX_BUFFER {
        PurgedConserved(s1, s');
        assert q[0] in s.hw + Held(s);
      }
    }
  }

  lemma {:induction false} TransmittedManyInv(s: Tid, n: nat)
    requires Inv(s)
    ensures Inv(TransmittedMany(s, n)) && TransmittedMany(s, n).hw == s.hw
    ensures TransmittedMany(s, n).start == s.start && TransmittedMany(s, n).live.Some? == s.live.Some?
  {
    if n > 0 {
      TransmittedManyInv(s, n - 1);
      TransmittedInv(TransmittedMany(s, n - 1));
    }
  }

  /** A burst of n frames costs one exactly when a session that is not operational has no room for all n. */
  lemma {:induction false} TransmittedManyPurges(s: Tid, n: nat)
    requires Inv(s) && s.live.Some? && !s.live.value.operational
    ensures var s' := TransmittedMany(s, n);
            && s'.live.Some? && !s'.live.value.operational
            && |Held(s')| == (if |Held(s)| + n > MAX_TX_BUFFER then MAX_TX_BUFFER else |Held(s)| + n)
            && s.purged <= s'.purged
            && (s'.purged != s.purged <==> |Held(s)| + n > MAX_TX_BUFFER)
  {
    if n > 0 {
      var s1 := TransmittedMany(s, n - 1);
      TransmittedManyPurges(s, n - 1);
      TransmittedManyInv(s, n - 1);
      TransmittedPurges(s1);
    }
  }

  /** One more frame fills the queue, or costs the first one. */
  lemma TransmittedPurges(s: Tid)
    requires Inv(s) && s.live.Some? && !s.live.value.operational
    ensures var s' := Transmitted(s);
            && s'.live.Some? && !s'.live.value.operational
            && |Held(s')| == (if |Held(s)| == MAX_TX_BUFFER then MAX_TX_BUFFER else |Held(s)| + 1)
            && s'.purged == (if |Held(s)| == MAX_TX_BUFFER then s.purged + {Held(s)[0]} else s.purged)
            && (|Held(s)| == MAX_TX_BUFFER ==> Held(s)[0] in s'.purged && Held(s)[0] !in s.purged)
  {
    TransmittedInv(s);
    if |Held(s)| == MAX_TX_BUFFER {
      assert Held(s)[0] in s.hw + Held(s);
    }
  }

  /** Handlers that touch no queue keep the frames where they are. */
  lemma SameFrames(s: Tid, s': Tid)
    requires Conserved(s) && s'.hw == s.hw && s'.purged == s.purged && s'.next == s.next && Held(s') == Held(s)
    ensures Conserved(s')
  {
  }

  lemma StartedInv(s: Tid, frames: nat, driverOk: bool)
    requires s.live.Some? && s.start.None? && Inv(s.(live := Some(s.live.value.(wantStart := false))))
    ensures Inv(Started(s, frames, driverOk)) && s.hw <= Started(s, frames, driverOk).hw
    ensures !s.live.value.operational ==>
              && s.purged <= Started(s, frames, driverOk).purged
              && (Started(s, frames, driverOk).purged != s.purged <==> |Held(s)| + frames > MAX_TX_BUFFER)
  {
    var s0 := s.(live := Some(s.live.value.(wantStart := false)));
    TransmittedManyInv(s0, frames);
    if !s0.live.value.operational {
      TransmittedManyPurges(s0, frames);
    }
    var s1 := TransmittedMany(s0, frames);
    var s2 := s1.(driver := s1.driver + [TxStart]);
    SameFrames(s1, s2);
    if driverOk {
      SameFrames(s2, s2.(requests := s2.requests + 1));
    } else {
      SplicedInv(s2);
    }
  }

  lemma StoppedInv(s: Tid, reason: StopReason)
    requires Inv(s)
    ensures Inv(Stopped(s, reason)) && Stopped(s, reason).hw == s.hw && Stopped(s, reason).purged == s.purged
  {
    SameFrames(s, Stopped(s, reason));
  }

  lemma WorkedInv(s: Tid, blocked: bool, frames: nat, driverOk: bool)
    requires Inv(s)
    ensures Inv(Worked(s, blocked, frames, driverOk)) && s.hw <= Worked(s, blocked, frames, driverOk).hw
    ensures Worked(s, blocked, frames, driverOk).purged != s.purged <==>
            !blocked && s.start.Some? && frames > MAX_TX_BUFFER
    ensures s.purged <= Worked(s, blocked, frames, driverOk).purged
  {
    if !blocked {
      if s.start.Some? {
        var s1 := s.(start := None, live := s.start);
        SameFrames(s, s1.(live := Some(s1.live.value.(wantStart := false))));
        StartedInv(s1, frames, driverOk);
      } else if s.live.Some? && s.live.value.wantStop {
        var s1 := s.(live := Some(s.live.value.(wantStop := false)));
        SameFrames(s, s1);
        StoppedInv(s1, LocalRequest);
      }
    }
  }

  /** Going operational, for a session that has just heard from both parties. */
  lemma RaisedInv(s: Tid)
    requires s.start.None? && s.live.Some? && Conserved(s)
    requires var t := s.live.value;
             t.drvReady && t.responded && !t.stopping && !t.wantStart && t.bufSize > 0 && t.raised == 0
    ensures Inv(Raised(s)) && s.hw <= Raised(s).hw && Raised(s).purged == s.purged
  {
    var s1 := s.(driver := s.driver + [TxOperational(s.live.value.bufSize)]);
    SameFrames(s, s1);
    SplicedInv(s1);
    SameFrames(Spliced(s1), Raised(s));
  }

  lemma StartCalledBackInv(s: Tid)
    requires Inv(s) && Contract(s, StartCallback)
    ensures Inv(StartCalledBack(s)) && s.hw <= StartCalledBack(s).hw && StartCalledBack(s).purged == s.purged
  {
    if s.live.Some? && !s.live.value.drvReady {
      var s1 := s.(live := Some(s.live.value.(drvReady := true)));
      SameFrames(s, s1);
      if s.live.value.responded {
        RaisedInv(s1);
      }
    }
  }

  lemma RespondedInv(s: Tid, token: nat, success: bool, capab: nat)
    requires Inv(s)
    ensures Inv(Responded(s, token, success, capab)) && s.hw <= Responded(s, token, success, capab).hw
    ensures Responded(s, token, success, capab).purged == s.purged
  {
    if s.live.Some? && token == s.live.value.token && !s.live.value.wantStop && !s.live.value.stopping {
      if !success || BufSizeOf(capab) == 0 {
        StoppedInv(s, Declined);
      } else if !s.live.value.responded {
        var s1 := s.(live := Some(s.live.value.(responded := true, bufSize := BufSizeOf(capab))));
        SameFrames(s, s1);
        if s.live.value.drvReady {
          RaisedInv(s1);
          SameFrames(Raised(s1), Raised(s1).(requests := 0));
        } else {
          SameFrames(s1, s1.(requests := 0));
        }
      }
    }
  }

  /** The event makes an overfull queue give up a frame: the TX path queues one for a session that already
      holds as many as it may, or more than that while the driver decides on a start. */
  predicate Overflows(s: Tid, e: Event)
  {
    match e
    case Transmit => s.live.Some? && !s.live.value.operational && |Held(s)| == MAX_TX_BUFFER
    case Work(blocked, frames, _) => !blocked && s.start.Some? && frames > MAX_TX_BUFFER
    case _ => false
  }

  /** Every event keeps the invariant and only ever appends to the hardware queue's list, and a frame is
      given up if and only if the event overflows the queue. */
  lemma HandledInv(s: Tid, e: Event)
    requires Inv(s) && Contract(s, e)
    ensures Inv(Handled(s, e)) && s.hw <= Handled(s, e).hw
    ensures s.purged <= Handled(s, e).purged && (Handled(s, e).purged != s.purged <==> Overflows(s, e))
  {
    match e
    case StartRequest(early, allocOk, token) => SameFrames(s, StartRequested(s, early, allocOk, token));
    case Work(blocked, frames, driverOk) => WorkedInv(s, blocked, frames, driverOk);
    case StartCallback => StartCalledBackInv(s);
    case StopRequest => SameFrames(s, StopRequested(s));
    case Stop(reason) => StoppedInv(s, reason);
    case StopCallback =>
      if s.live.Some? {
        SplicedInv(s);
      }
    case AddbaResp(token, success, capab) => RespondedInv(s, token, success, capab);
    case ResponseTimer => SameFrames(s, ResponseTimedOut(s));
    case SessionTimer(idle) => SameFrames(s, SessionTimedOut(s, idle));
    case Transmit => TransmittedInv(s);
  }

  // ---------------------------------------------------------------- the size cut to a byte

  /** The ten bits of an ADDBA response that hold the buffer size. */
  function SizeField(capab: nat): (n: nat)
    ensures n < 1024
  {
    capab / 64 % 1024
  }

  /** The event ends the session that it finds: it was live and now stops. */
  predicate Declines(s: Tid, e: Event)
  {
    s.live.Some? && !s.live.value.stopping && Handled(s, e).live.Some? && Handled(s, e).live.value.stopping
  }

  /** A successful response that a live session listens to declines it if and only if the size it carries is
      a multiple of 256: none, or one of the sizes whose low byte is 0. */
  lemma SuccessDeclinesIff(s: Tid, capab: nat)
    requires Inv(s) && s.live.Some? && !s.live.value.wantStop && !s.live.value.stopping
    ensures Declines(s, AddbaResp(s.live.value.token, true, capab)) <==> SizeField(capab) % 256 == 0
  {
    LowByte(capab / 64);
  }

  lemma LowByte(n: nat)
    ensures n % 1024 % 256 == n % 256
  {
    var q, m := n / 1024, n % 1024;
    var a, b := m / 256, m % 256;
    assert n == 256 * (4 * q + a) + b;
  }

  /** A peer that offers a buffer of 256 frames is taken to refuse. */
  lemma Size256Declines(token: nat)
    ensures var s := After([StartRequest(false, true, token), Work(false, 0, true), AddbaResp(token, true, 256 * 64)]);
            s.live.Some? && s.live.value.stopping && !s.live.value.responded
  {
    var e := [StartRequest(false, true, token), Work(false, 0, true), AddbaResp(token, true, 256 * 64)];
    assert e[..2][..1] == e[..1] && e[..1][..0] == [] && After(e[..1][..0]) == FRESH;
    var s1 := After(e[..1]);
    assert s1 == FRESH.(start := Some(NewSession(token)));
    var s0 := s1.(start := None, live := Some(NewSession(token).(wantStart := false)));
    assert TransmittedMany(s0, 0) == s0;
    var s2 := After(e[..2]);
    assert s2 == Answered(s0, true);
  }

  // ---------------------------------------------------------------- whole runs

  /** The state after the events, in the order in which their handlers run. */
  function After(events: seq<Event>): Tid
  {
    if events == [] then FRESH else Handled(After(events[..|events| - 1]), events[|events| - 1])
  }

  lemma AfterNext(events: seq<Event>, n: nat)
    requires n < |events|
    ensures After(events[..n + 1]) == Handled(After(events[..n]), events[n])
  {
    assert events[..n + 1][..n] == events[..n];
  }

  predicate Respects(events: seq<Event>)
  {
    forall i :: 0 <= i < |events| ==> Contract(After(events[..i]), events[i])
  }

  /** No event of the run overflows the queue that it finds. */
  predicate LosesNothing(events: seq<Event>)
  {
    forall i :: 0 <= i < |events| ==> !Overflows(After(events[..i]), events[i])
  }

  /** What holds of a run holds of the run without its last event. */
  lemma ShorterRun(events: seq<Event>)
    requires events != [] && Respects(events)
    ensures Respects(events[..|events| - 1])
    ensures LosesNothing(events) <==>
            LosesNothing(events[..|events| - 1]) && !Overflows(After(events[..|events| - 1]), events[|events| - 1])
  {
    var n := |events| - 1;
    forall i | 0 <= i < n
      ensures events[..n][..i] == events[..i] && events[..n][i] == events[i]
    {
    }
  }

  lemma {:induction false} RunInv(events: seq<Event>)
    requires Respects(events)
    ensures Inv(After(events))
    ensures After(events).purged == {} <==> LosesNothing(events)
    decreases |events|
  {
    if events != [] {
      var n := |events| - 1;
      ShorterRun(events);
      RunInv(events[..n]);
      HandledInv(After(events[..n]), events[n]);
    }
  }

  /** In every run that respects the driver's contract: OPERATIONAL means that both parties agreed, that
      nobody is stopping and that there is a buffer; the driver is told at most once per session; and a
      start request never coexists with a live session. */
  lemma SessionSafety(events: seq<Event>)
    requires Respects(events)
    ensures var s := After(events);
            && (s.live.Some? ==> Honest(s.live.value) && s.live.value.raised <= 1)
            && !(s.start.Some? && s.live.Some?)
  {
    RunInv(events);
  }

  /** In every such run, when there is no session or it is operational, every frame that was queued is on
      the hardware queue's list in the order of arrival, save those that an overfull queue gave up. */
  lemma FramesReleased(events: seq<Event>, n: nat)
    requires Respects(events)
    requires var s := After(events); (s.live.None? || s.live.value.operational) && n < s.next
    ensures var s := After(events); Held(s) == [] && Increasing(s.hw) && (n in s.hw <==> n !in s.purged)
  {
    RunInv(events);
    var s := After(events);
    assert s.hw + Held(s) == s.hw;
  }

  /** Frames held on a session are never lost if and only if no event overflows the queue: exactly then every
      frame ever queued is held or on the hardware queue's list, once and in the order of arrival. */
  lemma NothingLostIff(events: seq<Event>)
    requires Respects(events)
    ensures var s := After(events);
            Increasing(s.hw + Held(s)) && ((forall n: nat :: n < s.next ==> n in s.hw + Held(s)) <==>
              LosesNothing(events))
  {
    RunInv(events);
    var s := After(events);
    if s.purged != {} {
      var n :| n in s.purged;
      assert n < s.next && n !in s.hw + Held(s);
    }
  }

  // ---------------------------------------------------------------- both orders of agreement

  /** A session that was started and waits for both parties, with these frames held back. */
  predicate Waiting(s: Tid)
  {
    && s.start.None? && s.live.Some?
    && var t := s.live.value;
       !t.wantStart && !t.wantStop && !t.drvReady && !t.responded && !t.operational && !t.stopping && t.raised == 0
  }

  /** Driver first or peer first, the session ends up operational, the driver is told the same once, and
      the frames held back are released in order. */
  lemma EitherOrder(s: Tid, capab: nat)
    requires Waiting(s) && BufSizeOf(capab) > 0
    ensures var token := s.live.value.token;
            var s1 := Handled(Handled(s, StartCallback), AddbaResp(token, true, capab));
            var s2 := Handled(Handled(s, AddbaResp(token, true, capab)), StartCallback);
            && s1 == s2 && s1.live.Some? && s1.live.value.operational && s1.live.value.raised == 1
            && s1.driver == s.driver + [TxOperational(BufSizeOf(capab))]
            && s1.hw == s.hw + Held(s) && Held(s1) == []
  {
  }

  /** Whatever its state, a live session that is stopped and then acknowledged by the driver is gone, and its
      frames are on the hardware queue's list. */
  lemma StopReleases(s: Tid, reason: StopReason)
    requires Inv(s) && s.live.Some?
    ensures var s' := Handled(Handled(s, Stop(reason)), StopCallback);
            s'.live.None? && s'.hw == s.hw + Held(s) && s'.purged == s.purged
  {
  }

  /** What a stop tells the driver and keeps for the callback, for a live session that is not stopping yet. */
  lemma StopTells(s: Tid, reason: StopReason)
    requires Inv(s) && s.live.Some? && !s.live.value.stopping
    ensures var s' := Handled(s, Stop(reason));
            && s'.live.Some? && s'.live.value.stopping && !s'.live.value.operational
            && (s'.live.value.txStop <==> reason == LocalRequest)
            && (s'.live.value.peerStops <==> reason == PeerRequest)
            && s'.driver == s.driver + [if reason == DestroySta then TxStopFlush else TxStopCont]
            && Held(s') == Held(s) && s'.hw == s.hw
  {
  }

  /** The events that ask for a live session to be stopped: a request, a timeout of an idle session, and a timeout of
      the peer's answer. */
  predicate Asks(s: Tid, e: Event)
    requires s.live.Some?
  {
    e == StopRequest || e == SessionTimer(true) || (e == ResponseTimer && !s.live.value.responded)
  }

  /** A stop that was asked for is carried out by the next turn of the work: the session stops for a local reason, and
      the driver is told to stop and nothing else. */
  lemma StopCarriedOut(s: Tid, ask: Event, frames: nat, driverOk: bool)
    requires Inv(s) && s.start.None? && s.live.Some? && !s.live.value.stopping && Asks(s, ask)
    ensures var s' := Handled(Handled(s, ask), Work(false, frames, driverOk));
            && Inv(s') && s'.live.Some? && s'.live.value.stopping && !s'.live.value.operational
            && !s'.live.value.wantStop && s'.live.value.txStop && !s'.live.value.peerStops
            && s'.driver == s.driver + [TxStopCont]
            && s'.hw == s.hw && Held(s') == Held(s) && s'.next == s.next && s'.purged == s.purged
  {
    HandledInv(s, ask);
    WorkedInv(Handled(s, ask), false, frames, driverOk);
  }

  /** Once the driver has called back, a stopping session is gone, and its frames, also those that came while it was
      stopping, are on the hardware queue's list in order. */
  lemma StopEnds(s: Tid, frames: nat)
    requires Inv(s) && s.live.Some? && s.live.value.stopping
    ensures var s1 := TransmittedMany(s, frames);
            var s2 := Handled(s1, StopCallback);
            && s2.live.None? && s2.hw == s.hw + Held(s1) && s2.driver == s.driver
            && |Held(s1)| == (if |Held(s)| + frames > MAX_TX_BUFFER then MAX_TX_BUFFER else |Held(s)| + frames)
  {
    TransmittedManyPurges(s, frames);
    ManyKeeps(s, frames);
  }

  /** Frames on the TX path change no more than the session's queue. */
  lemma {:induction false} ManyKeeps(s: Tid, n: nat)
    ensures var s' := TransmittedMany(s, n);
            && s'.start == s.start && s'.driver == s.driver && s'.requests == s.requests && s'.hw == s.hw
            && s'.live == (if s.live.None? then None else Some(s.live.value.(pending := Held(s'))))
  {
    if n > 0 {
      ManyKeeps(s, n - 1);
    }
  }

  /** Without a request there is nothing to do: the work, a timer of a session that is in use or was answered, and
      work that is blocked leave everything as it is. */
  lemma NothingAsked(s: Tid, frames: nat, driverOk: bool)
    requires Inv(s)
    ensures s.start.None? && (s.live.None? || !s.live.value.wantStop) ==> Handled(s, Work(false, frames, driverOk)) == s
    ensures Handled(s, Work(true, frames, driverOk)) == s && Handled(s, SessionTimer(false)) == s
    ensures s.live.Some? && s.live.value.responded ==> Handled(s, ResponseTimer) == s
  {
  }

  /** A request for a session is accepted by an idle slot unless it comes too soon or too often, and the next turn of
      the work starts it: the driver is asked once. If it agrees, the session waits for both parties and holds the
      frames that come; if it refuses, there is no session and the frames that came meanwhile are released. */
  lemma StartCarriedOut(s: Tid, early: bool, token: nat, frames: nat, driverOk: bool)
    requires Inv(s) && s.start.None? && s.live.None? && frames <= MAX_TX_BUFFER
    requires s.requests <= MAX_RETRIES && (early ==> s.requests <= BURST_RETRIES)
    ensures var s1 := Handled(Handled(s, StartRequest(early, true, token)), Work(false, frames, driverOk));
            && s1.start.None? && s1.driver == s.driver + [TxStart] && s1.next == s.next + frames
            && s1.purged == s.purged
            && (driverOk ==> Waiting(s1) && s1.live.value.token == token && |Held(s1)| == frames && s1.hw == s.hw)
            && (driverOk ==> s1.requests == s.requests + 1)
            && (!driverOk ==> s1.live.None? && |s1.hw| == |s.hw| + frames && s1.requests == s.requests)
  {
    var s0 := Handled(s, StartRequest(early, true, token));
    var t := s0.(start := None, live := Some(NewSession(token).(wantStart := false)));
    SameFrames(s, t);
    TransmittedManyPurges(t, frames);
    ManyKeeps(t, frames);
    ManyNamed(t, frames);
    HandledInv(s, StartRequest(early, true, token));
  }

  lemma {:induction false} ManyNamed(s: Tid, n: nat)
    requires s.live.Some? && !s.live.value.operational && !s.live.value.wantStart
    ensures TransmittedMany(s, n).next == s.next + n
  {
    if n > 0 {
      ManyKeeps(s, n - 1);
      ManyNamed(s, n - 1);
    }
  }

  /** In every run at most MAX_RETRIES + 1 requests go out without an answer: after that none is accepted until one
      is answered. */
  lemma {:induction false} RequestsBounded(events: seq<Event>)
    ensures var s := After(events); s.requests <= MAX_RETRIES + 1 && (s.start.Some? ==> s.requests <= MAX_RETRIES)
    ensures var s := After(events);
            s.requests == MAX_RETRIES + 1 ==> forall early, allocOk, token ::
              Handled(s, StartRequest(early, allocOk, token)) == s
    decreases |events|
  {
    if events != [] {
      var n := |events| - 1;
      RequestsBounded(events[..n]);
      RequestsStep(After(events[..n]), events[n]);
    }
  }

  lemma RequestsStep(s: Tid, e: Event)
    requires s.requests <= MAX_RETRIES + 1 && (s.start.Some? ==> s.requests <= MAX_RETRIES)
    ensures var s' := Handled(s, e);
            s'.requests <= MAX_RETRIES + 1 && (s'.start.Some? ==> s'.requests <= MAX_RETRIES)
  {
    match e
    case Work(blocked, frames, driverOk) =>
      if !blocked && s.start.Some? {
        var live := if s.live.Some? then s.live else s.start;
        ManyKeeps(s.(start := None, live := Some(live.value.(wantStart := false))), frames);
      }
    case _ =>
  }

  // ---------------------------------------------------------------- an overfull queue

  lemma {:induction false} FillsUp(s: Tid, n: nat)
    requires s.live.Some? && !s.live.value.operational && !s.live.value.wantStart && s.live.value.pending == []
             && s.next == 0 && n <= MAX_TX_BUFFER
    ensures var s' := TransmittedMany(s, n);
            s'.next == n && s'.live.Some? && !s'.live.value.operational && !s'.live.value.wantStart
              && |s'.live.value.pending| == n
            && (n > 0 ==> s'.live.value.pending[0] == 0)
  {
    if n > 0 {
      FillsUp(s, n - 1);
    }
  }

  /** Frames are not always kept: the 65th frame that a session holds back costs the first one. */
  lemma OverflowLosesFirst()
    ensures var s := After([StartRequest(false, true, 1), Work(false, 65, true)]);
            s.live.Some? && 0 in s.purged && 0 !in s.hw + Held(s)
  {
    var e := [StartRequest(false, true, 1), Work(false, 65, true)];
    assert e[..1][..0] == [] && After(e[..1][..0]) == FRESH;
    assert After(e[..1]) == FRESH.(start := Some(NewSession(1)));
    var s0 := FRESH.(live := Some(NewSession(1).(wantStart := false)));
    FillsUp(s0, 64);
    assert TransmittedMany(s0, 65) == Transmitted(TransmittedMany(s0, 64));
    assert After(e) == Answered(TransmittedMany(s0, 65), true);
    assert Respects(e);
    RunInv(e);
  }

  // ---------------------------------------------------------------- without the contract

  /** A start callback breaks the promise of OPERATIONAL exactly when the peer's answer was in, the driver
      was not ready, and the session was already stopping. */
  lemma CallbackHonestIff(s: Tid)
    requires Inv(s) && s.live.Some?
    ensures var t := s.live.value;
            StartCalledBack(s).live.Some? && (Honest(StartCalledBack(s).live.value) <==>
              !(t.stopping && t.responded && !t.drvReady))
  {
  }

  /** Such a state is reached: the peer answers, the session is stopped, then the driver reports ready. */
  lemma LateCallback()
    ensures var s := After([StartRequest(false, true, 1), Work(false, 0, true), AddbaResp(1, true, 64),
            Stop(LocalRequest), StartCallback]);
            s.live.Some? && s.live.value.operational && s.live.value.stopping
  {
    var e := [StartRequest(false, true, 1), Work(false, 0, true), AddbaResp(1, true, 64), Stop(LocalRequest),
      StartCallback];
    assert e[..4][..3] == e[..3] && e[..3][..2] == e[..2] && e[..2][..1] == e[..1] && e[..1][..0] == [];
    assert After(e[..1][..0]) == FRESH;
    var s1 := After(e[..1]);
    assert s1 == FRESH.(start := Some(NewSession(1)));
    var s2 := After(e[..2]);
    assert TransmittedMany(s1.(start := None, live := Some(NewSession(1).(wantStart := false))), 0).live.Some?;
    assert s2.live == Some(NewSession(1).(wantStart := false));
    var s3 := After(e[..3]);
    assert s3.live.Some? && s3.live.value.responded && !s3.live.value.stopping && !s3.live.value.drvReady
           && !s3.live.value.wantStart;
    var s4 := After(e[..4]);
    assert s4.live.Some? && s4.live.value.stopping && s4.live.value.responded && !s4.live.value.drvReady;
  }
}
