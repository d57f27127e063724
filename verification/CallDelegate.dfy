/**
 The call registry and the call events of ios/Runner/ProviderDelegate.swift.  Linphone,
 CallKit and the Flutter channel appear as incoming events and recorded outgoing requests.
 A forced unwrap of nil ends the process: the outcome is Crashed.
 */
module CallDelegate {
  import opened Wrappers
  import opened CallUuid
  import PhoneFormat

  /**
   A linphone call.  Once the delegate sees it, its call-id no longer changes, and it has or
   lacks a call log (which holds the call-id) and a remote address for good.
   */
  datatype Call = Call(handle: nat, callId: string, hasLog: bool, hasAddress: bool)

  datatype CallState =
    | OutgoingInit | OutgoingProgress | OutgoingRinging | IncomingReceived | Connected | StreamsRunning
    | Pausing | Paused | PausedByRemote | Resuming | Updating | UpdatedByRemote | Released | Error | OtherState

  /** What arrives from linphone, from CallKit and over the Flutter channel. */
  datatype Event =
    // `found` is the key the dictionary scan happened to meet first, `random` what UUID() would return
    | CallStateChanged(call: Call, state: CallState, found: Option<string>, random: Uuid)
    | CallChanged(uuid: Uuid, hasConnected: bool)
    | RingTimer(uuid: Uuid)
    | Interruption(began: bool)
    | SetHold(text: string, onHold: bool)
    | MuteCall(text: string, muted: bool)
    | EndCall(text: string)
    | AnswerCall(text: string)
    | StopRinging(text: string)
    | ReportOutgoing(text: string, phoneNumber: string)
    | ReportConnecting(text: string)
    | ReportConnected(text: string)
    | LpAnswer(text: string)
    // `hasDevices`: the core has a default input and a default output device to report
    | LpSetHold(text: string, toHold: bool, live: CallState, hasDevices: bool)
    | EchoSettings(hasDevices: bool)

  datatype Action =
    | SetHeld(uuid: Uuid, onHold: bool)
    | SetMuted(uuid: Uuid, muted: bool)
    | End(uuid: Uuid)
    | Answer(uuid: Uuid)
    | StartCall(uuid: Uuid, handle: string)

  datatype Output =
    | Notify(name: string, about: Option<string>)
    | Request(action: Action)
    | EndedUnanswered(uuid: Uuid)
    | PauseCall(call: Call)
    | ResumeCall(call: Call)
    | AcceptCall(call: Call)
    | StartedConnecting(uuid: Uuid)
    | NowConnected(uuid: Uuid)
    | DevicesSent

  datatype State = State(
    uuidCalls: map<string, Call>,
    answeredUuids: map<string, bool>,
    unpausePauseState: int,
    unpausePauseUuid: string,
    wasAudioInterrupted: bool)

  const INITIAL := State(map[], map[], 0, "", false)

  datatype Outcome = Crashed | Next(state: State, out: seq<Output>)

  // ---- one event ---------------------------------------------------------------------

  /** `findUuidByCall`: some key whose call has the same call-id, or nil if there is none. */
  ghost predicate IsLookup(calls: map<string, Call>, call: Call, found: Option<string>) {
    match found
    case None => forall k :: k in calls ==> calls[k].callId != call.callId
    case Some(k) => k in calls && calls[k].callId == call.callId
  }

  /** `findUuidByCall` can read the call-ids it compares; with no call stored it compares none. */
  predicate ScanReads(calls: map<string, Call>, call: Call) {
    calls != map[] ==> call.hasLog && AllLogged(calls)
  }

  predicate AllLogged(calls: map<string, Call>) {
    forall k :: k in calls ==> calls[k].hasLog
  }

  /** The states whose handlers unwrap the call log once more. */
  predicate ReadsLog(state: CallState) {
    state == OutgoingProgress || state == OutgoingRinging || state == StreamsRunning || state == IncomingReceived
  }

  /** `uuidFromString(str: call.callLog!.callId).uuidString`. */
  function KeyOf(md5: Hash, call: Call, random: Uuid): string {
    PrintUuid(UuidOf(md5, call.callId, random))
  }

  function RequestHeld(s: State, out: seq<Output>, text: string, onHold: bool): Outcome {
    match ParseUuid(text)
    case None => Crashed
    case Some(u) => Next(s, out + [Request(SetHeld(u, onHold))])
  }

  function RingingDidTimeout(s: State, text: string): Outcome {
    if text in s.answeredUuids && s.answeredUuids[text] != true then
      match ParseUuid(text)
      case None => Crashed
      case Some(u) => Next(s.(answeredUuids := s.answeredUuids - {text}), [EndedUnanswered(u)])
    else Next(s, [])
  }

  function OnPaused(s: State, found: Option<string>): Outcome {
    var out := [Notify("lnCallPaused", found)];
    if s.unpausePauseState == 2 && found == Some(s.unpausePauseUuid) then
      RequestHeld(s.(unpausePauseState := 0, unpausePauseUuid := ""), out, s.unpausePauseUuid, false)
    else Next(s, out)
  }

  function OnReleased(s: State, found: Option<string>): Outcome {
    match RingingDidTimeout(s, if found.Some? then found.value else "")
    case Crashed => Crashed
    case Next(s1, ringing) =>
      var out := ringing + [Notify("lnCallReleased", found)];
      if s1.unpausePauseState == 1 && found == Some(s1.unpausePauseUuid) then
        RequestHeld(s1.(unpausePauseState := 2), out, s1.unpausePauseUuid, true)
      else Next(s1, out)
  }

  /** The closure unwraps the address first, then the logs for the scan, then handles the state. */
  function OnCallStateChanged(md5: Hash, s: State, call: Call, state: CallState, found: Option<string>, random: Uuid): Outcome {
    if !call.hasAddress || !ScanReads(s.uuidCalls, call) || (ReadsLog(state) && !call.hasLog) then Crashed
    else OnCallState(md5, s, call, state, found, random)
  }

  function OnCallState(md5: Hash, s: State, call: Call, state: CallState, found: Option<string>, random: Uuid): Outcome {
    var key := KeyOf(md5, call, random);
    match state
    case OutgoingProgress =>
      Next(s.(uuidCalls := s.uuidCalls[key := call]),
           [Notify("lnOutgoingInit", Some(key)), Notify("lnOutgoingProgress", Some(key))])
    case IncomingReceived =>
      Next(s.(uuidCalls := s.uuidCalls[key := call]), [Notify("lnIncomingReceived", Some(key))])
    case OutgoingRinging => Next(s, [Notify("lnOutgoingRinging", found)])
    case Connected => Next(s, [Notify("lnCallConnected", found)])
    case StreamsRunning => Next(s, [Notify("lnCallStreamsRunning", found)])
    case Paused => OnPaused(s, found)
    case PausedByRemote => Next(s, [Notify("lnCallPausedByRemote", found)])
    case Updating => Next(s, [Notify("lnCallUpdating", found)])
    case UpdatedByRemote => Next(s, [Notify("lnCallUpdatedByRemote", found)])
    case Released => OnReleased(s, found)
    case Error => Next(s, [Notify("lnCallError", found)])
    case _ => Next(s, [])
  }

  predicate Holdable(live: CallState) {
    live != Paused && live != PausedByRemote && live != OutgoingInit && live != OutgoingProgress
    && live != OutgoingRinging && live != IncomingReceived && live != Error
  }

  /** `sendDevices`, which unwraps the default devices. */
  function ThenSendDevices(r: Outcome, hasDevices: bool): Outcome {
    if r.Crashed? || !hasDevices then Crashed else Next(r.state, r.out + [DevicesSent])
  }

  function OnLpSetHold(s: State, text: string, toHold: bool, live: CallState): Outcome {
    if text !in s.uuidCalls then Crashed
    else if toHold then
      Next(s, if Holdable(live) then [PauseCall(s.uuidCalls[text])] else [])
    else if live == Paused || live == PausedByRemote || live == Pausing then
      // the source announces state 1 in its log line here, but assigns 0
      var s1 := if s.wasAudioInterrupted
        then s.(wasAudioInterrupted := false, unpausePauseState := 0, unpausePauseUuid := text) else s;
      Next(s1, [ResumeCall(s.uuidCalls[text])])
    else if live == Resuming then Next(s, [Notify("lnCallConnected", Some(text))])
    else Next(s, [])
  }

  /** A request guarded by `answeredUuids.keys.contains`. */
  function IfAnswered(s: State, text: string, action: Uuid -> Action): Outcome {
    if text in s.answeredUuids then Unwrapped(s, text, (u: Uuid) => Request(action(u))) else Next(s, [])
  }

  function Unwrapped(s: State, text: string, output: Uuid -> Output): Outcome {
    match ParseUuid(text)
    case None => Crashed
    case Some(u) => Next(s, [output(u)])
  }

  /** `reportOutgoingCall` hands the same transaction to the controller twice. */
  function OnReportOutgoing(s: State, text: string, phoneNumber: string): Outcome {
    match ParseUuid(text)
    case None => Crashed
    case Some(u) =>
      var start := Request(StartCall(u, PhoneFormat.FormatHandle(phoneNumber)));
      Next(s, [start, start])
  }

  function Apply(md5: Hash, s: State, e: Event): Outcome {
    match e
    case CallStateChanged(call, state, found, random) => OnCallStateChanged(md5, s, call, state, found, random)
    case CallChanged(uuid, hasConnected) =>
      Next(if hasConnected then s.(answeredUuids := s.answeredUuids[PrintUuid(uuid) := true]) else s, [])
    case RingTimer(uuid) => RingingDidTimeout(s, PrintUuid(uuid))
    case Interruption(began) => Next(if began then s.(wasAudioInterrupted := true) else s, [])
    case SetHold(text, onHold) => IfAnswered(s, text, (u: Uuid) => SetHeld(u, onHold))
    case MuteCall(text, muted) => IfAnswered(s, text, (u: Uuid) => SetMuted(u, muted))
    case EndCall(text) => Unwrapped(s, text, (u: Uuid) => Request(End(u)))
    case AnswerCall(text) => Unwrapped(s, text, (u: Uuid) => Request(Answer(u)))
    case StopRinging(text) => Unwrapped(s, text, (u: Uuid) => EndedUnanswered(u))
    case ReportOutgoing(text, phoneNumber) => OnReportOutgoing(s, text, phoneNumber)
    case ReportConnecting(text) => Unwrapped(s, text, (u: Uuid) => StartedConnecting(u))
    case ReportConnected(text) => Unwrapped(s, text, (u: Uuid) => NowConnected(u))
    case LpAnswer(text) => if text in s.uuidCalls then Next(s, [AcceptCall(s.uuidCalls[text])]) else Crashed
    case LpSetHold(text, toHold, live, hasDevices) => ThenSendDevices(OnLpSetHold(s, text, toHold, live), hasDevices)
    case EchoSettings(hasDevices) => ThenSendDevices(Next(s, []), hasDevices)
  }
}
