/** Mesh peer links: the decision and transition rules of mesh_plink.c, for one peer. */
module Plink {
  import opened Wrappers

  datatype PlinkState = Listen | OpnSnt | OpnRcvd | CnfRcvd | Estab | Holding | Blocked

  datatype PlinkEvent =
    | Undefined
    | OpnAcpt | OpnRjct | OpnIgnr
    | CnfAcpt | CnfRjct | CnfIgnr
    | ClsAcpt | ClsIgnr

  /** A peering frame; llid is the sender's own id. A Close leaves its plid out when that is 0. */
  datatype Frame = Open(llid: nat) | Confirm(llid: nat, plid: nat) | Close(llid: nat, plid: nat)

  datatype Sta = Sta(state: PlinkState, llid: nat, plid: nat, retries: nat)

  const NEW_STA := Sta(Listen, 0, 0, 0)

  /** What a handler reads of its surroundings: whether the mesh configuration matches, the number of
      free peer links, the signal test, the authentication flag, whether a station could be allocated,
      the link id that mesh_get_new_llid yields, and the retry limit. */
  datatype Env = Env(matches: bool, free: int, rssiOk: bool, authed: bool, allocOk: bool, freshLlid: nat,
                     maxRetries: nat)

  /** mesh_plink_get_event. As in the code, a mismatch found in an Open or a Confirm of a known peer is
      overwritten by the tests that follow it. */
  function GetEvent(sta: Option<Sta>, frame: Frame, env: Env): PlinkEvent
  {
    match sta
    case None =>
      if !frame.Close? && !env.matches then OpnRjct
      else if !frame.Open? || env.free == 0 then Undefined
      else OpnAcpt
    case Some(s) =>
      if !env.authed || s.state == Blocked then Undefined
      else match frame
        case Open(plid) =>
          if env.free == 0 || (s.plid != 0 && s.plid != plid) then OpnIgnr else OpnAcpt
        case Confirm(plid, llid) =>
          if env.free == 0 || s.llid != llid || (s.plid != 0 && s.plid != plid) then CnfIgnr else CnfAcpt
        case Close(plid, llid) =>
          if s.state == Estab then ClsAcpt
          else if s.plid != plid then ClsIgnr
          else if llid != 0 && s.llid != llid then ClsIgnr
          else ClsAcpt
  }

  /** The configuration is looked at for a stranger only: a frame is rejected if and only if it is an Open or a
      Confirm from an unknown peer whose configuration does not match. */
  lemma RejectedIff(sta: Option<Sta>, frame: Frame, env: Env)
    ensures GetEvent(sta, frame, env) in {OpnRjct, CnfRjct} <==> sta.None? && !frame.Close? && !env.matches
  {
  }

  /** The transition table of mesh_plink_fsm. */
  function NextState(s: PlinkState, e: PlinkEvent): PlinkState
  {
    match (s, e)
    case (Listen, OpnAcpt) => OpnRcvd
    case (OpnSnt, OpnAcpt) => OpnRcvd
    case (OpnSnt, CnfAcpt) => CnfRcvd
    case (OpnRcvd, CnfAcpt) => Estab
    case (CnfRcvd, OpnAcpt) => Estab
    case (Holding, ClsAcpt) => Listen
    case _ => if Refuses(s, e) then Holding else s
  }

  /** The link is closed and held. */
  predicate Refuses(s: PlinkState, e: PlinkEvent)
  {
    || (s in {OpnSnt, OpnRcvd, CnfRcvd} && e in {OpnRjct, CnfRjct, ClsAcpt})
    || (s == Estab && e == ClsAcpt)
  }

  function Stepped(sta: Sta, e: PlinkEvent, freshLlid: nat): Sta
  {
    if sta.state in {Listen, Holding} && e == ClsAcpt then NEW_STA
    else if sta.state == Listen && e == OpnAcpt then sta.(state := OpnRcvd, llid := freshLlid)
    else sta.(state := NextState(sta.state, e))
  }

  /** A link is established by the second of an accepted Open and an accepted Confirm, whichever it is, and only by
      these; and it stays so until a Close is accepted. */
  lemma EstablishedIff(sta: Sta, e: PlinkEvent, freshLlid: nat)
    ensures Stepped(sta, e, freshLlid).state == Estab <==>
              || (sta.state == OpnRcvd && e == CnfAcpt) || (sta.state == CnfRcvd && e == OpnAcpt)
              || (sta.state == Estab && e != ClsAcpt)
  {
  }

  /** What mesh_plink_fsm sends, from the ids after the step. */
  function Replies(s: PlinkState, e: PlinkEvent, after: Sta): seq<Frame>
  {
    if s == Listen && e == OpnAcpt then [Open(after.llid), Confirm(after.llid, after.plid)]
    else if s in {OpnSnt, OpnRcvd, CnfRcvd, Estab} && e == OpnAcpt then [Confirm(after.llid, after.plid)]
    else if Refuses(s, e) || (s == Holding && e in {OpnAcpt, CnfAcpt, OpnRjct, CnfRjct})
      then [Close(after.llid, after.plid)]
    else []
  }

  /** mesh_process_plink_frame: the peer's entry, and the frames sent to it. */
  function Received(sta: Option<Sta>, frame: Frame, env: Env): (Option<Sta>, seq<Frame>)
  {
    if frame.Open? && !env.rssiOk then (sta, [])
    else
      var event := GetEvent(sta, frame, env);
      if event == OpnAcpt then
        if sta.None? && !env.allocOk then (sta, [])
        else
          var s := (if sta.None? then NEW_STA else sta.value).(plid := frame.llid);
          Acted(s, event, env)
      else if sta.None? && event == OpnRjct then (sta, [Close(0, frame.llid)])
      else if sta.None? || event == Undefined then (sta, [])
      else if sta.value.plid == 0 && event == CnfAcpt then Acted(sta.value.(plid := frame.llid), event, env)
      else Acted(sta.value, event, env)
  }

  function Acted(s: Sta, event: PlinkEvent, env: Env): (Option<Sta>, seq<Frame>)
  {
    var after := Stepped(s, event, env.freshLlid);
    (Some(after), Replies(s.state, event, after))
  }

  /** What a known peer's frame does, to its entry and in answers, is the same for every configuration. */
  lemma KnownPeerMismatchIgnored(s: Sta, frame: Frame, env: Env, matches: bool)
    ensures GetEvent(Some(s), frame, env) == GetEvent(Some(s), frame, env.(matches := matches))
    ensures Received(Some(s), frame, env) == Received(Some(s), frame, env.(matches := matches))
  {
  }

  /** mesh_plink_timer, for a timer that has expired. */
  function TimerFired(s: Sta, env: Env): (Sta, seq<Frame>)
  {
    if s.state in {OpnSnt, OpnRcvd} && s.retries < env.maxRetries then (s.(retries := s.retries + 1), [Open(s.llid)])
    else if s.state in {OpnSnt, OpnRcvd, CnfRcvd} then (s.(state := Holding), [Close(s.llid, s.plid)])
    else if s.state == Holding then (NEW_STA, [])
    else (s, [])
  }

  /** mesh_neighbour_update: a beacon makes an entry for its sender, and opens a link when `opens`
      (both sides accept links, links open by themselves, the signal will do). */
  function Neighbour(sta: Option<Sta>, opens: bool, env: Env): (Option<Sta>, seq<Frame>)
  {
    if sta.None? && !env.allocOk then (sta, [])
    else
      var s := if sta.None? then NEW_STA else sta.value;
      if s.state == Listen && opens && env.authed
        then (Some(s.(state := OpnSnt, llid := env.freshLlid)), [Open(env.freshLlid)])
      else (Some(s), [])
  }

  /** mesh_sta_cleanup: the entry goes, and the peer is told. */
  function Cleaned(s: Sta): (Option<Sta>, seq<Frame>)
  {
    (None, [Close(s.llid, s.plid)])
  }
}
