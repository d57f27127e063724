/**
 The delegate object itself: the mutable fields of ios/Runner/ProviderDelegate.swift and the
 handlers that update them.  `Valid` ties the object to the run of all it has handled, so
 that each handler promises what the runs of CallRuns prove about it.
 */
module DelegateObject {
  import opened Wrappers
  import opened CallUuid
  import opened CallDelegate
  import opened CallRuns
  import PhoneFormat

  class ProviderDelegate {
    const md5: Hash
    var uuidCalls: map<string, Call>
    var answeredUuids: map<string, bool>
    var unpausePauseState: int
    var unpausePauseUuid: string
    var wasAudioInterrupted: bool
    // everything handled so far, and everything handed to CallKit, linphone and the Flutter channel
    ghost var events: seq<Event>
    ghost var sent: seq<Output>

    constructor (md5: Hash)
      ensures this.md5 == md5 && Valid() && events == []
    {
      this.md5 := md5;
      uuidCalls, answeredUuids := map[], map[];
      unpausePauseState, unpausePauseUuid := 0, "";
      wasAudioInterrupted := false;
      events, sent := [], [];
    }

    ghost function Model(): State
      reads this
    {
      State(uuidCalls, answeredUuids, unpausePauseState, unpausePauseUuid, wasAudioInterrupted)
    }

    /** The fields and the record are those of the run of everything handled so far. */
    ghost predicate Valid()
      reads this
    {
      && Feasible(md5, INITIAL, events)
      && After(md5, INITIAL, events) == Some(Model())
      && sent == Sent(md5, INITIAL, events)
    }

    /** The object has made the step `r` from the state and the record it had before. */
    ghost predicate Made(r: Outcome, before: seq<Output>, ok: bool)
      reads this
    {
      && ok == r.Next?
      && (ok ==> Model() == r.state && sent == before + r.out)
    }

    /** Closes the handling of e, which started in state `s`. */
    ghost method Handled(e: Event, s: State, before: seq<Output>)
      requires Feasible(md5, INITIAL, events) && After(md5, INITIAL, events) == Some(s)
      requires before == Sent(md5, INITIAL, events)
      requires e.CallStateChanged? ==> IsLookup(s.uuidCalls, e.call, e.found)
      requires Made(Apply(md5, s, e), before, true)
      modifies this`events
      ensures Valid() && events == old(events) + [e]
    {
      hide Feasible, After, Sent, Apply, IsLookup;
      RunExtends(md5, INITIAL, events, e);
      events := events + [e];
    }

    // ---- parts of handlers ---------------------------------------------------------------

    /** The scan over the dictionary's keys, in whatever order the dictionary yields them. */
    method FindUuidByCall(call: Call) returns (found: Option<string>, ok: bool)
      ensures ok ==> IsLookup(uuidCalls, call, found)
      ensures AllLogged(uuidCalls) ==> (ok <==> uuidCalls == map[] || call.hasLog)
    {
      found, ok := None, true;
      var keys := uuidCalls.Keys;
      while keys != {}
        invariant keys <= uuidCalls.Keys && found == None && ok
        invariant keys != uuidCalls.Keys ==> call.hasLog
        invariant forall k :: k in uuidCalls && k !in keys ==> uuidCalls[k].callId != call.callId
        decreases |keys|
      {
        var key :| key in keys;
        var compCall := uuidCalls[key];
        if !call.hasLog || !compCall.hasLog {
          return None, false;
        }
        if call.callId == compCall.callId {
          return Some(key), true;
        }
        keys := keys - {key};
      }
    }

    /** `UUID(uuidString:)!` around a hold request. */
    method RequestHeldTransaction(text: string, onHold: bool) returns (ok: bool)
      modifies this`sent
      ensures Made(RequestHeld(old(Model()), [], text, onHold), old(sent), ok)
    {
      var uuid := ParseUuid(text);
      ok := uuid.Some?;
      if ok {
        sent := sent + [Request(SetHeld(uuid.value, onHold))];
      }
    }

    method RingingTimedOut(text: string) returns (ok: bool)
      modifies this`sent, this`answeredUuids
      ensures Made(RingingDidTimeout(old(Model()), text), old(sent), ok)
    {
      ok := true;
      if text in answeredUuids && answeredUuids[text] != true {
        var uuid := ParseUuid(text);
        if uuid.None? {
          return false;
        }
        sent := sent + [EndedUnanswered(uuid.value)];
        answeredUuids := answeredUuids - {text};
      }
    }

    method Register(call: Call, random: Uuid) returns (key: string)
      modifies this`uuidCalls
      ensures key == KeyOf(md5, call, random) && uuidCalls == old(uuidCalls)[key := call]
    {
      var uuid := UuidFromString(md5, call.callId, random);
      key := PrintUuid(uuid.value);
      uuidCalls := uuidCalls[key := call];
    }

    method Tell(name: string, about: Option<string>)
      modifies this`sent
      ensures sent == old(sent) + [Notify(name, about)]
    {
      sent := sent + [Notify(name, about)];
    }

    method HandlePaused(found: Option<string>) returns (ok: bool)
      modifies this`sent, this`unpausePauseState, this`unpausePauseUuid
      ensures Made(OnPaused(old(Model()), found), old(sent), ok)
    {
      hide ParseUuid;
      Tell("lnCallPaused", found);
      ok := true;
      if unpausePauseState == 2 && found == Some(unpausePauseUuid) {
        unpausePauseState := 0;
        unpausePauseUuid := "";
        ok := RequestHeldTransaction(found.value, false);
      }
    }

    method HandleReleased(found: Option<string>) returns (ok: bool)
      modifies this`sent, this`answeredUuids, this`unpausePauseState
      ensures Made(OnReleased(old(Model()), found), old(sent), ok)
    {
      hide ParseUuid;
      ok := RingingTimedOut(if found.Some? then found.value else "");
      if !ok {
        return;
      }
      Tell("lnCallReleased", found);
      if unpausePauseState == 1 && found == Some(unpausePauseUuid) {
        unpausePauseState := 2;
        ok := RequestHeldTransaction(if found.Some? then found.value else "", true);
      }
    }

    method HandleRegistration(call: Call, state: CallState, found: Option<string>, random: Uuid)
      requires state in {OutgoingProgress, IncomingReceived}
      modifies this`sent, this`uuidCalls
      ensures Made(OnCallState(md5, old(Model()), call, state, found, random), old(sent), true)
    {
      hide KeyOf;
      var uuid := Register(call, random);
      if state == OutgoingProgress {
        Tell("lnOutgoingInit", Some(uuid));
        Tell("lnOutgoingProgress", Some(uuid));
      } else {
        Tell("lnIncomingReceived", Some(uuid));
      }
    }

    /** The states whose handlers only tell the Flutter side. */
    method HandlePlainState(call: Call, state: CallState, found: Option<string>, ghost random: Uuid)
      requires state !in {OutgoingProgress, IncomingReceived} && state != Paused && state != Released
      modifies this`sent
      ensures Made(OnCallState(md5, old(Model()), call, state, found, random), old(sent), true)
    {
      hide KeyOf, OnPaused, OnReleased;
      if state == OutgoingRinging {
        sent := sent + [Notify("lnOutgoingRinging", found)];
      } else if state == Connected {
        sent := sent + [Notify("lnCallConnected", found)];
      } else if state == StreamsRunning {
        sent := sent + [Notify("lnCallStreamsRunning", found)];
      } else if state == PausedByRemote {
        sent := sent + [Notify("lnCallPausedByRemote", found)];
      } else if state == Updating {
        sent := sent + [Notify("lnCallUpdating", found)];
      } else if state == UpdatedByRemote {
        sent := sent + [Notify("lnCallUpdatedByRemote", found)];
      } else if state == Error {
        sent := sent + [Notify("lnCallError", found)];
      }
    }

    /** The closure's chain of states, once the uuid has been looked up. */
    method HandleState(call: Call, state: CallState, found: Option<string>, random: Uuid) returns (ok: bool)
      modifies this
      ensures events == old(events)
      ensures Made(OnCallState(md5, old(Model()), call, state, found, random), old(sent), ok)
    {
      hide KeyOf, OnPaused, OnReleased;
      ok := true;
      if state in {OutgoingProgress, IncomingReceived} {
        HandleRegistration(call, state, found, random);
      } else if state == Paused {
        ok := HandlePaused(found);
      } else if state == Released {
        ok := HandleReleased(found);
      } else {
        HandlePlainState(call, state, found, random);
      }
    }

    /** What `lpSetHold` does with the call it found; `live` is the state of that call. */
    method PauseOrResume(call: Call, text: string, toHold: bool, live: CallState)
      requires text in uuidCalls && uuidCalls[text] == call
      modifies this`sent, this`unpausePauseState, this`unpausePauseUuid, this`wasAudioInterrupted
      ensures Made(OnLpSetHold(old(Model()), text, toHold, live), old(sent), true)
    {
      if toHold {
        if live != Paused && live != PausedByRemote && live != OutgoingInit && live != OutgoingProgress
          && live != OutgoingRinging && live != IncomingReceived && live != Error {
          sent := sent + [PauseCall(call)];
        }
      } else if live == Paused || live == PausedByRemote || live == Pausing {
        if wasAudioInterrupted {
          wasAudioInterrupted := false;
          unpausePauseState := 0;
          unpausePauseUuid := text;
        }
        sent := sent + [ResumeCall(call)];
      } else if live == Resuming {
        sent := sent + [Notify("lnCallConnected", Some(text))];
      }
    }

    // ---- handlers ------------------------------------------------------------------------

    /**
     The `onCallStateChanged` closure.  It fails only where linphone has no address or log
     for the call.  Otherwise it sends exactly the notifications of the state, and for a call
     with a call-id they name the uuid that the history of registrations determines.
     */
    method OnCallStateChanged(call: Call, state: CallState, random: Uuid) returns (found: Option<string>, ok: bool)
      requires Valid()
      modifies this
      ensures ok <==> call.hasAddress && (call.hasLog || (old(uuidCalls) == map[] && state !in {OutgoingProgress, OutgoingRinging, StreamsRunning, IncomingReceived}))
      ensures ok ==> Valid() && events == old(events) + [CallStateChanged(call, state, found, random)]
      ensures ok ==> unpausePauseState == 0 && answeredUuids == old(answeredUuids)
      ensures ok ==> IsLookup(old(uuidCalls), call, found)
      ensures ok ==>
        sent == old(sent) + Notices(NoticeNames(state), ToldAbout(md5, old(events), CallStateChanged(call, state, found, random)))
    {
      hide Feasible, After, Sent, IsLookup, ToldAbout, Notices, NoticeNames, RegistryInv, Stored;
      RegistryIsHistory(md5, events);
      LogsAreThere(md5, uuidCalls);
      found, ok := None, false;
      if !call.hasAddress {
        return;
      }
      found, ok := FindUuidByCall(call);
      if !ok {
        return;
      }
      // the handlers of these states unwrap the log once more
      if ReadsLog(state) && !call.hasLog {
        return found, false;
      }
      HandleFound(call, state, found, random);
    }

    /** The closure from the lookup on, for a call with everything that is unwrapped. */
    method HandleFound(call: Call, state: CallState, found: Option<string>, random: Uuid)
      requires Valid() && IsLookup(uuidCalls, call, found)
      requires !Misuse(Model(), CallStateChanged(call, state, found, random))
      modifies this
      ensures Valid() && events == old(events) + [CallStateChanged(call, state, found, random)]
      ensures unpausePauseState == 0 && answeredUuids == old(answeredUuids)
      ensures
        sent == old(sent) + Notices(NoticeNames(state), ToldAbout(md5, old(events), CallStateChanged(call, state, found, random)))
    {
      hide Feasible, After, Sent, IsLookup, OnCallState, Apply, Misuse, ToldAbout, Notices, NoticeNames;
      ghost var s, before, e := Model(), sent, CallStateChanged(call, state, found, random);
      CallStateRuns(md5, events, call, state, found, random);
      var ok := HandleState(call, state, found, random);
      CallStateStep(md5, events, e);
      Handled(e, s, before);
    }

    /** `callObserver(_:callChanged:)`: the table has exactly the uuids reported connected. */
    method CallObserver(uuid: Uuid, hasConnected: bool)
      requires Valid()
      modifies this`answeredUuids, this`events
      ensures Valid() && events == old(events) + [CallChanged(uuid, hasConnected)]
      ensures answeredUuids.Keys == ConnectedIn(events)
    {
      hide Feasible, After, Sent;
      ghost var s, before := Model(), sent;
      if hasConnected {
        answeredUuids := answeredUuids[PrintUuid(uuid) := true];
      }
      Handled(CallChanged(uuid, hasConnected), s, before);
      AnsweredIsConnected(md5, events);
    }

    /** The timer that `startRingingTimer` sets: whatever happened before, it does nothing. */
    method RingingTimer(uuid: Uuid) returns (ok: bool)
      requires Valid()
      modifies this
      ensures ok && Valid() && events == old(events) + [RingTimer(uuid)]
      ensures sent == old(sent) && Model() == old(Model())
    {
      hide Feasible, After, Sent, PrintUuid, ParseUuid;
      ghost var s, before := Model(), sent;
      AnsweredIsConnected(md5, events);
      ok := RingingTimedOut(PrintUuid(uuid));
      Handled(RingTimer(uuid), s, before);
    }

    method HandleInterruption(began: bool)
      requires Valid()
      modifies this`wasAudioInterrupted, this`events
      ensures Valid() && events == old(events) + [Interruption(began)]
      ensures wasAudioInterrupted == (began || old(wasAudioInterrupted)) == InterruptedSince(events)
    {
      hide Feasible, After, Sent, PrintUuid, ParseUuid, InterruptedSince;
      ghost var s, before := Model(), sent;
      if began {
        wasAudioInterrupted := true;
      }
      Handled(Interruption(began), s, before);
      InterruptionIsHistory(md5, events);
    }

    /**
     The channel method `lpSetHold`: it fails exactly for a text nothing was stored under, or
     without devices to report.  Otherwise it pauses or resumes, as asked and as the state of
     that call allows, the call last stored under the text, and leaves the bounce disarmed.
     */
    method LinphoneSetHold(text: string, toHold: bool, live: CallState, hasDevices: bool) returns (ok: bool)
      requires Valid()
      modifies this
      ensures ok <==> hasDevices && exists call :: Stored(md5, old(events), text, call)
      ensures ok ==> Valid() && events == old(events) + [LpSetHold(text, toHold, live, hasDevices)]
      ensures ok ==> unpausePauseState == 0 && exists call ::
        Stored(md5, old(events), text, call) && sent == old(sent) + HoldActions(call, text, toHold, live) + [DevicesSent]
    {
      hide Feasible, After, Sent, Stored, Owns, OnLpSetHold, HoldActions;
      ghost var s, before, e := Model(), sent, LpSetHold(text, toHold, live, hasDevices);
      KeyInUse(md5, events, text);
      if text !in uuidCalls {
        return false;
      }
      ghost var call := uuidCalls[text];
      PauseOrResume(uuidCalls[text], text, toHold, live);
      ok := hasDevices;
      if ok {
        sent := sent + [DevicesSent];
        LpSetHoldStep(md5, events, e, call);
        Handled(e, s, before);
        NeverArmed(md5, events);
        assert sent == before + HoldActions(call, text, toHold, live) + [DevicesSent];
      }
    }

    /** The channel methods for echo settings that report the devices again. */
    method ReportDevices(hasDevices: bool) returns (ok: bool)
      requires Valid()
      modifies this`sent, this`events
      ensures ok == hasDevices
      ensures ok ==> Valid() && events == old(events) + [EchoSettings(hasDevices)] && sent == old(sent) + [DevicesSent]
    {
      hide Feasible, After, Sent;
      ghost var s, before := Model(), sent;
      ok := hasDevices;
      if ok {
        sent := sent + [DevicesSent];
        Handled(EchoSettings(hasDevices), s, before);
      }
    }

    /** The channel method `lpAnswer`, which unwraps the call it looks up. */
    method LinphoneAnswer(text: string) returns (ok: bool)
      requires Valid()
      modifies this`sent, this`events
      ensures ok <==> exists call :: Stored(md5, old(events), text, call)
      ensures ok ==> Valid() && events == old(events) + [LpAnswer(text)]
      ensures ok ==> exists call :: Stored(md5, old(events), text, call) && sent == old(sent) + [AcceptCall(call)]
    {
      hide Feasible, After, Sent, Stored, Owns;
      ghost var s, before := Model(), sent;
      KeyInUse(md5, events, text);
      ok := text in uuidCalls;
      if ok {
        sent := sent + [AcceptCall(uuidCalls[text])];
        Handled(LpAnswer(text), s, before);
      }
    }

    /** The channel methods `setHold` and `setUnhold`: one request for a uuid that connected, else nothing. */
    method ChannelSetHold(text: string, onHold: bool) returns (ok: bool)
      requires Valid()
      modifies this`sent, this`events
      ensures ok && Valid() && events == old(events) + [SetHold(text, onHold)]
      ensures if text in ConnectedIn(old(events))
        then ParseUuid(text).Some? && sent == old(sent) + [Request(SetHeld(ParseUuid(text).value, onHold))]
        else sent == old(sent)
    {
      hide Feasible, After, Sent, IsUuidText;
      ghost var s, before := Model(), sent;
      AnsweredIsConnected(md5, events);
      ok := true;
      if text in answeredUuids {
        ok := RequestHeldTransaction(text, onHold);
      }
      Handled(SetHold(text, onHold), s, before);
    }

    /** The channel methods `muteCall` and `unMuteCall`, likewise. */
    method ChannelMute(text: string, muted: bool) returns (ok: bool)
      requires Valid()
      modifies this`sent, this`events
      ensures ok && Valid() && events == old(events) + [MuteCall(text, muted)]
      ensures if text in ConnectedIn(old(events))
        then ParseUuid(text).Some? && sent == old(sent) + [Request(SetMuted(ParseUuid(text).value, muted))]
        else sent == old(sent)
    {
      hide Feasible, After, Sent, IsUuidText;
      ghost var s, before := Model(), sent;
      AnsweredIsConnected(md5, events);
      ok := true;
      if text in answeredUuids {
        var uuid := ParseUuid(text);
        ok := uuid.Some?;
        if ok {
          sent := sent + [Request(SetMuted(uuid.value, muted))];
        }
      }
      Handled(MuteCall(text, muted), s, before);
    }

    /** The channel methods `endCall` and `answerCall`, which unwrap the uuid they are given. */
    method ChannelEndOrAnswer(text: string, answer: bool) returns (ok: bool)
      requires Valid()
      modifies this`sent, this`events
      ensures ok <==> IsUuidText(text)
      ensures ok ==> Valid() && events == old(events) + [if answer then AnswerCall(text) else EndCall(text)]
      ensures ok ==> exists uuid ::
        ParseUuid(text) == Some(uuid) && sent == old(sent) + [Request(if answer then Answer(uuid) else End(uuid))]
    {
      hide Feasible, After, Sent, IsUuidText;
      ghost var s, before := Model(), sent;
      var uuid := ParseUuid(text);
      ok := uuid.Some?;
      if ok {
        sent := sent + [Request(if answer then Answer(uuid.value) else End(uuid.value))];
        Handled(if answer then AnswerCall(text) else EndCall(text), s, before);
      }
    }

    /** The channel method `stopRinging`, the only one that ends a call as unanswered. */
    method StopRingingOf(text: string) returns (ok: bool)
      requires Valid()
      modifies this`sent, this`events
      ensures ok <==> IsUuidText(text)
      ensures ok ==> Valid() && events == old(events) + [StopRinging(text)]
      ensures ok ==> exists uuid :: ParseUuid(text) == Some(uuid) && sent == old(sent) + [EndedUnanswered(uuid)]
    {
      hide Feasible, After, Sent, IsUuidText;
      ghost var s, before := Model(), sent;
      var uuid := ParseUuid(text);
      ok := uuid.Some?;
      if ok {
        sent := sent + [EndedUnanswered(uuid.value)];
        Handled(StopRinging(text), s, before);
      }
    }

    /**
     The channel method `reportOutgoingCall`, which asks for the same transaction twice; its
     handle has the digits of the number.
     */
    method ReportOutgoingCall(text: string, phoneNumber: string) returns (ok: bool)
      requires Valid()
      modifies this`sent, this`events
      ensures ok <==> IsUuidText(text)
      ensures ok ==> Valid() && events == old(events) + [ReportOutgoing(text, phoneNumber)]
      ensures ok ==> exists uuid, handle ::
        && ParseUuid(text) == Some(uuid)
        && handle == PhoneFormat.FormatHandle(phoneNumber) && PhoneFormat.SameDigits(handle, phoneNumber)
        && sent == old(sent) + [Request(StartCall(uuid, handle)), Request(StartCall(uuid, handle))]
    {
      hide Feasible, After, Sent, IsUuidText, PhoneFormat.Merge, PhoneFormat.OnlyDigits, PhoneFormat.SameDigits;
      ghost var s, before := Model(), sent;
      var uuid := ParseUuid(text);
      ok := uuid.Some?;
      if ok {
        var handle := PhoneFormat.ApplyPatternOnNumbers(
          phoneNumber, if |phoneNumber| > 10 then PhoneFormat.LONG_PATTERN else PhoneFormat.SHORT_PATTERN, '#');
        PhoneFormat.HandleKeepsDigits(phoneNumber);
        var transaction := Request(StartCall(uuid.value, handle));
        sent := sent + [transaction];
        sent := sent + [transaction];
        Handled(ReportOutgoing(text, phoneNumber), s, before);
      }
    }

    /** The channel methods `reportConnectingOutgoingCall` and `reportConnectedOutgoingCall`. */
    method ReportProgress(text: string, connected: bool) returns (ok: bool)
      requires Valid()
      modifies this`sent, this`events
      ensures ok <==> IsUuidText(text)
      ensures ok ==> Valid() && events == old(events) + [if connected then ReportConnected(text) else ReportConnecting(text)]
      ensures ok ==> exists uuid ::
        ParseUuid(text) == Some(uuid) && sent == old(sent) + [if connected then NowConnected(uuid) else StartedConnecting(uuid)]
    {
      hide Feasible, After, Sent, IsUuidText;
      ghost var s, before := Model(), sent;
      var uuid := ParseUuid(text);
      ok := uuid.Some?;
      if ok {
        sent := sent + [if connected then NowConnected(uuid.value) else StartedConnecting(uuid.value)];
        Handled(if connected then ReportConnected(text) else ReportConnecting(text), s, before);
      }
    }
  }
}
