/**
 What every run of the call delegate keeps: theorems about arbitrary event sequences over
 the transition function of CallDelegate.
 */
module CallRuns {
  import opened Wrappers
  import opened CallUuid
  import opened CallDelegate

  // ---- runs ---------------------------------------------------------------------------

  /** The state a run ends in, None once something crashed. */
  function After(md5: Hash, start: State, es: seq<Event>): Option<State> {
    if es == [] then Some(start)
    else
      var before :- After(md5, start, es[..|es| - 1]);
      match Apply(md5, before, es[|es| - 1])
      case Crashed => None
      case Next(s, _) => Some(s)
  }

  /** The scans behind the events met keys that were really there; nothing crashed before the last event. */
  ghost predicate Feasible(md5: Hash, start: State, es: seq<Event>) {
    && (es != [] ==> After(md5, start, es[..|es| - 1]).Some?)
    && forall i :: 0 <= i < |es| ==> LookupAt(md5, start, es, i)
  }

  ghost predicate LookupAt(md5: Hash, start: State, es: seq<Event>, i: nat)
    requires i < |es|
  {
    es[i].CallStateChanged? && After(md5, start, es[..i]).Some? ==>
      IsLookup(After(md5, start, es[..i]).value.uuidCalls, es[i].call, es[i].found)
  }

  /** Everything a run sent out, in order. */
  function Sent(md5: Hash, start: State, es: seq<Event>): seq<Output>
    requires After(md5, start, es).Some?
  {
    if es == [] then []
    else
      Sent(md5, start, es[..|es| - 1])
        + Apply(md5, After(md5, start, es[..|es| - 1]).value, es[|es| - 1]).out
  }

  /** A run goes on with an event that did not crash. */
  lemma RunExtends(md5: Hash, start: State, es: seq<Event>, e: Event)
    requires After(md5, start, es).Some? && Feasible(md5, start, es) && Apply(md5, After(md5, start, es).value, e).Next?
    requires e.CallStateChanged? ==> IsLookup(After(md5, start, es).value.uuidCalls, e.call, e.found)
    ensures var r := Apply(md5, After(md5, start, es).value, e);
      && Feasible(md5, start, es + [e]) && After(md5, start, es + [e]) == Some(r.state)
      && Sent(md5, start, es + [e]) == Sent(md5, start, es) + r.out
  {
    hide Apply, IsLookup, After, Sent, LookupAt;
    OneMore(md5, start, es, e);
    forall i | 0 <= i < |es + [e]| ensures LookupAt(md5, start, es + [e], i) {
      LookupsKept(md5, start, es, e, i);
    }
    assert (es + [e])[..|es|] == es;
  }

  lemma OneMore(md5: Hash, start: State, es: seq<Event>, e: Event)
    requires After(md5, start, es).Some? && Apply(md5, After(md5, start, es).value, e).Next?
    ensures var r := Apply(md5, After(md5, start, es).value, e);
      && After(md5, start, es + [e]) == Some(r.state)
      && Sent(md5, start, es + [e]) == Sent(md5, start, es) + r.out
  {
    hide Apply;
    assert (es + [e])[..|es|] == es;
  }

  lemma LookupsKept(md5: Hash, start: State, es: seq<Event>, e: Event, i: nat)
    requires After(md5, start, es).Some? && i <= |es| && (i < |es| ==> LookupAt(md5, start, es, i))
    requires e.CallStateChanged? ==> IsLookup(After(md5, start, es).value.uuidCalls, e.call, e.found)
    ensures LookupAt(md5, start, es + [e], i)
  {
    hide After, IsLookup;
    assert (es + [e])[..i] == es[..i];
    if i == |es| { assert es[..i] == es; }
  }

  // ---- the registry ----------------------------------------------------------------------

  /** Event e stores a call under key k. */
  predicate Stores(md5: Hash, e: Event, k: string) {
    e.CallStateChanged? && e.state in {OutgoingProgress, IncomingReceived} && KeyOf(md5, e.call, e.random) == k
  }

  /** The last event to store anything under k stored exactly this call. */
  ghost predicate Stored(md5: Hash, es: seq<Event>, k: string, call: Call) {
    exists j :: LastStore(md5, es, k, call, j)
  }

  /** Position j witnesses `Stored`. */
  ghost predicate LastStore(md5: Hash, es: seq<Event>, k: string, call: Call, j: nat) {
    j < |es| && Stores(md5, es[j], k) && es[j].call == call
      && forall m :: j < m < |es| ==> !Stores(md5, es[m], k)
  }

  /** The call last stored under k has this call-id. */
  ghost predicate Owns(md5: Hash, es: seq<Event>, k: string, callId: string) {
    exists call :: Stored(md5, es, k, call) && call.callId == callId
  }

  /** Every stored call has a log, and every key is one derived from the call it stands for. */
  ghost predicate RegistryInv(md5: Hash, calls: map<string, Call>) {
    forall k :: k in calls ==> IsKeyFor(md5, k, calls[k])
  }

  ghost predicate IsKeyFor(md5: Hash, k: string, call: Call) {
    call.hasLog && exists random :: k == KeyOf(md5, call, random)
  }

  lemma LastStoreStep(md5: Hash, es: seq<Event>, k: string, call: Call, j: nat)
    requires es != [] && !Stores(md5, es[|es| - 1], k)
    ensures LastStore(md5, es, k, call, j) <==> LastStore(md5, es[..|es| - 1], k, call, j)
  {
    hide KeyOf;
    var front := es[..|es| - 1];
    assert forall m :: 0 <= m < |front| ==> front[m] == es[m];
  }

  lemma StoredStep(md5: Hash, es: seq<Event>, k: string, call: Call)
    requires es != []
    ensures var e := es[|es| - 1];
      Stored(md5, es, k, call) <==>
        if Stores(md5, e, k) then e.call == call else Stored(md5, es[..|es| - 1], k, call)
  {
    hide KeyOf;
    var n := |es| - 1;
    if Stores(md5, es[n], k) {
      if es[n].call == call { assert LastStore(md5, es, k, call, n); }
    } else {
      forall j: nat ensures LastStore(md5, es, k, call, j) <==> LastStore(md5, es[..n], k, call, j) {
        LastStoreStep(md5, es, k, call, j);
      }
    }
  }

  /** In every reachable state the dictionary holds exactly the call last stored under each key. */
  lemma {:induction false} RegistryIsHistory(md5: Hash, es: seq<Event>)
    requires After(md5, INITIAL, es).Some?
    ensures var calls := After(md5, INITIAL, es).value.uuidCalls;
      && RegistryInv(md5, calls)
      && forall k, call :: (k in calls && calls[k] == call) <==> Stored(md5, es, k, call)
    decreases |es|
  {
    if es != [] {
      var n := |es| - 1;
      RegistryIsHistory(md5, es[..n]);
      var before, s := After(md5, INITIAL, es[..n]).value, After(md5, INITIAL, es).value;
      RegistryStep(md5, before, es[n]);
      forall k, call ensures (k in s.uuidCalls && s.uuidCalls[k] == call) <==> Stored(md5, es, k, call) {
        StoredStep(md5, es, k, call);
      }
    }
  }

  /** So a key is in use exactly if something was stored under it, and its call is the last one stored. */
  lemma KeyInUse(md5: Hash, es: seq<Event>, k: string)
    requires After(md5, INITIAL, es).Some?
    ensures var calls := After(md5, INITIAL, es).value.uuidCalls;
      && (k in calls <==> exists call :: Stored(md5, es, k, call))
      && (k in calls ==> Stored(md5, es, k, calls[k]))
      && (forall callId :: (k in calls && calls[k].callId == callId) <==> Owns(md5, es, k, callId))
  {
    hide Stored, RegistryInv;
    RegistryIsHistory(md5, es);
    var calls := After(md5, INITIAL, es).value.uuidCalls;
    assert k in calls ==> Stored(md5, es, k, calls[k]);
  }

  /** Only registering events touch the dictionary. */
  lemma RegistryStep(md5: Hash, s: State, e: Event)
    requires Apply(md5, s, e).Next?
    ensures var calls := Apply(md5, s, e).state.uuidCalls;
      calls == if e.CallStateChanged? && e.state in {OutgoingProgress, IncomingReceived}
               then s.uuidCalls[KeyOf(md5, e.call, e.random) := e.call] else s.uuidCalls
    ensures e.CallStateChanged? && e.state in {OutgoingProgress, IncomingReceived} ==> e.call.hasLog
  {
    hide PrintUuid, ParseUuid, UuidOf;
  }

  /** With a call-id, whatever order the dictionary is scanned in, the scan meets the same key. */
  lemma LookupIsUnique(md5: Hash, calls: map<string, Call>, call: Call, found: Option<string>)
    requires RegistryInv(md5, calls) && call.callId != "" && IsLookup(calls, call, found)
    ensures var key := PrintUuid(DerivedUuid(md5(call.callId), |call.callId|));
      found == if key in calls && calls[key].callId == call.callId then Some(key) else None
  {
    hide PrintUuid, DerivedUuid;
    if found.Some? {
      var k := found.value;
      assert IsKeyFor(md5, k, calls[k]);
    }
  }

  /** Looking up the call stored under a key, and then its key, leads back to the key. */
  lemma KeyOfStoredCall(md5: Hash, calls: map<string, Call>, k: string, found: Option<string>)
    requires RegistryInv(md5, calls) && k in calls && calls[k].callId != ""
    requires IsLookup(calls, calls[k], found)
    ensures found == Some(k)
  {
    assert IsKeyFor(md5, k, calls[k]);
    LookupIsUnique(md5, calls, calls[k], found);
  }

  /** All scans for the call give the same answer, whatever order they meet the keys in. */
  ghost predicate OrderFree(calls: map<string, Call>, call: Call) {
    forall f1, f2 :: IsLookup(calls, call, f1) && IsLookup(calls, call, f2) ==> f1 == f2
  }

  /**
   The scan does not depend on dictionary order exactly when the call has a call-id, or at
   most one key holds a call without one.
   */
  lemma LookupOrder(md5: Hash, es: seq<Event>, call: Call)
    requires After(md5, INITIAL, es).Some?
    ensures OrderFree(After(md5, INITIAL, es).value.uuidCalls, call)
       <==> call.callId != ""
            || forall k1, k2 :: Owns(md5, es, k1, "") && Owns(md5, es, k2, "") ==> k1 == k2
  {
    hide Owns, After, Stored, RegistryInv;
    RegistryIsHistory(md5, es);
    var calls := After(md5, INITIAL, es).value.uuidCalls;
    forall k ensures Owns(md5, es, k, "") <==> k in calls && calls[k].callId == "" { KeyInUse(md5, es, k); }
    if call.callId != "" {
      forall f1, f2 | IsLookup(calls, call, f1) && IsLookup(calls, call, f2) ensures f1 == f2 {
        LookupIsUnique(md5, calls, call, f1);
        LookupIsUnique(md5, calls, call, f2);
      }
    } else {
      assert forall k :: Owns(md5, es, k, "") <==> IsLookup(calls, call, Some(k));
      if OrderFree(calls, call) {
        forall k1, k2 | Owns(md5, es, k1, "") && Owns(md5, es, k2, "") ensures k1 == k2 {
          assert Some(k1) == Some(k2);
        }
      }
    }
  }

  /** And a run gets there: two calls without a call-id, stored under two random keys. */
  lemma EmptyCallIdIsAmbiguous(md5: Hash, u1: Uuid, u2: Uuid, call: Call)
    requires u1 != u2 && call.callId == "" && call.hasLog && call.hasAddress
    ensures var es := [CallStateChanged(call, IncomingReceived, None, u1),
                       CallStateChanged(call, IncomingReceived, Some(PrintUuid(u1)), u2)];
      && Feasible(md5, INITIAL, es) && After(md5, INITIAL, es).Some?
      && var calls := After(md5, INITIAL, es).value.uuidCalls;
        IsLookup(calls, call, Some(PrintUuid(u1))) && IsLookup(calls, call, Some(PrintUuid(u2)))
        && PrintUuid(u1) != PrintUuid(u2)
  {
    hide PrintUuid;
    var e1 := CallStateChanged(call, IncomingReceived, None, u1);
    var e2 := CallStateChanged(call, IncomingReceived, Some(PrintUuid(u1)), u2);
    var es := [e1, e2];
    assert es[..1] == [e1] && es[..0] == [] && [e1][..0] == [];
    var s1 := INITIAL.(uuidCalls := map[PrintUuid(u1) := call]);
    assert After(md5, INITIAL, [e1]) == Some(s1);
    assert After(md5, INITIAL, es) == Some(s1.(uuidCalls := s1.uuidCalls[PrintUuid(u2) := call]));
    ParsePrint(u1);
    ParsePrint(u2);
  }

  /** The uuid an event of a call with a call-id is told under, after the run es. */
  ghost function KeyToldFor(md5: Hash, es: seq<Event>, call: Call, state: CallState): Option<string> {
    var key := PrintUuid(DerivedUuid(md5(call.callId), |call.callId|));
    if state in {OutgoingProgress, IncomingReceived} || Owns(md5, es, key, call.callId) then Some(key) else None
  }

  /** The uuid a handler works with: the one it just derived, or the one the scan found. */
  function AboutOf(md5: Hash, e: Event): Option<string>
    requires e.CallStateChanged?
  {
    if e.state in {OutgoingProgress, IncomingReceived} then Some(KeyOf(md5, e.call, e.random)) else e.found
  }

  /** For a call with a call-id that is decided by the history of registrations. */
  lemma AboutIsHistory(md5: Hash, es: seq<Event>, e: Event)
    requires After(md5, INITIAL, es).Some? && e.CallStateChanged? && e.call.callId != ""
    requires IsLookup(After(md5, INITIAL, es).value.uuidCalls, e.call, e.found)
    ensures AboutOf(md5, e) == KeyToldFor(md5, es, e.call, e.state)
  {
    hide PrintUuid, DerivedUuid, Owns, RegistryInv, Stored, After;
    RegistryIsHistory(md5, es);
    KeyInUse(md5, es, PrintUuid(DerivedUuid(md5(e.call.callId), |e.call.callId|)));
    LookupIsUnique(md5, After(md5, INITIAL, es).value.uuidCalls, e.call, e.found);
  }

  /**
   The uuid a call is notified under.  For a call with a call-id, at any point of any run:
   an event that registers the call reports the key derived from the call-id; any other
   event reports that key exactly if the last call stored under it has this call-id, and
   nil otherwise.
   */
  lemma NotifiedUuid(md5: Hash, es: seq<Event>, o: Output)
    requires es != [] && Feasible(md5, INITIAL, es)
    requires var e := es[|es| - 1]; e.CallStateChanged? && e.call.callId != ""
    requires var r := Apply(md5, After(md5, INITIAL, es[..|es| - 1]).value, es[|es| - 1]);
      r.Next? && o in r.out && o.Notify?
    ensures var e := es[|es| - 1]; o.about == KeyToldFor(md5, es[..|es| - 1], e.call, e.state)
  {
    hide Apply, After, AboutOf, KeyToldFor, IsLookup;
    var e, past := es[|es| - 1], es[..|es| - 1];
    assert LookupAt(md5, INITIAL, es, |es| - 1);
    AboutIsHistory(md5, past, e);
    NotifyCarries(md5, After(md5, INITIAL, past).value, e, o);
  }

  /** A notification is about the key just derived, or else about the key the scan found. */
  lemma NotifyCarries(md5: Hash, s: State, e: Event, o: Output)
    requires e.CallStateChanged? && Apply(md5, s, e).Next? && o in Apply(md5, s, e).out && o.Notify?
    ensures o.about == AboutOf(md5, e)
  {
    hide PrintUuid, ParseUuid;
  }

  /**
   Once registered, a call keeps its uuid for the rest of the run, as long as no call with
   another call-id is stored under the same key.
   */
  lemma UuidIsStable(md5: Hash, es: seq<Event>, j: nat, o: Output)
    requires es != [] && Feasible(md5, INITIAL, es)
    requires var e := es[|es| - 1]; e.CallStateChanged? && e.call.callId != ""
    requires var r := Apply(md5, After(md5, INITIAL, es[..|es| - 1]).value, es[|es| - 1]);
      r.Next? && o in r.out && o.Notify?
    requires var e := es[|es| - 1];
      && j < |es| - 1 && es[j].CallStateChanged? && es[j].state in {OutgoingProgress, IncomingReceived} && es[j].call.callId == e.call.callId
      && forall m :: j < m < |es| - 1 && Stores(md5, es[m], KeyOf(md5, es[j].call, es[j].random)) ==>
           es[m].call.callId == e.call.callId
    ensures o.about == Some(KeyOf(md5, es[j].call, es[j].random))
  {
    hide PrintUuid, DerivedUuid;
    NotifiedUuid(md5, es, o);
    OwnsFrom(md5, es[..|es| - 1], j, KeyOf(md5, es[j].call, es[j].random), es[j].call.callId);
  }

  lemma {:induction false} OwnsFrom(md5: Hash, es: seq<Event>, j: nat, k: string, callId: string)
    requires j < |es| && Stores(md5, es[j], k) && es[j].call.callId == callId
    requires forall m :: j < m < |es| && Stores(md5, es[m], k) ==> es[m].call.callId == callId
    ensures Owns(md5, es, k, callId)
    decreases |es|
  {
    hide Stored, KeyOf;
    var n := |es| - 1;
    if Stores(md5, es[n], k) {
      StoredStep(md5, es, k, es[n].call);
    } else {
      OwnsFrom(md5, es[..n], j, k, callId);
      var call :| Stored(md5, es[..n], k, call) && call.callId == callId;
      StoredStep(md5, es, k, call);
    }
  }

  // ---- answered calls -----------------------------------------------------------------

  /** The uuids CallKit has reported connected. */
  function ConnectedIn(es: seq<Event>): set<string> {
    if es == [] then {}
    else
      var e := es[|es| - 1];
      ConnectedIn(es[..|es| - 1]) + (if e.CallChanged? && e.hasConnected then {PrintUuid(e.uuid)} else {})
  }

  /** Nothing but `true` is ever stored, under exactly the uuids that connected; no entry is ever removed. */
  lemma {:induction false} AnsweredIsConnected(md5: Hash, es: seq<Event>)
    requires After(md5, INITIAL, es).Some?
    ensures var answered := After(md5, INITIAL, es).value.answeredUuids;
      answered.Keys == ConnectedIn(es) && forall k :: k in answered ==> answered[k] == true && IsUuidText(k)
    decreases |es|
  {
    if es != [] {
      var n := |es| - 1;
      AnsweredIsConnected(md5, es[..n]);
      if es[n].CallChanged? { PrintIsText(es[n].uuid); }
      AnsweredStep(md5, After(md5, INITIAL, es[..n]).value, es[n]);
    }
  }

  lemma AnsweredStep(md5: Hash, s: State, e: Event)
    requires Apply(md5, s, e).Next? && forall k :: k in s.answeredUuids ==> s.answeredUuids[k] == true
    ensures Apply(md5, s, e).state.answeredUuids ==
      if e.CallChanged? && e.hasConnected then s.answeredUuids[PrintUuid(e.uuid) := true] else s.answeredUuids
  {
    hide PrintUuid, ParseUuid, KeyOf;
  }

  /**
   The ringing timer and the Released handler never end a call as unanswered, in any run:
   their test asks for an entry that is not `true`, and there is none.
   */
  lemma NeverTimedOut(md5: Hash, es: seq<Event>, e: Event)
    requires After(md5, INITIAL, es).Some? && (e.RingTimer? || e.CallStateChanged?) && Apply(md5, After(md5, INITIAL, es).value, e).Next?
    ensures forall o :: o in Apply(md5, After(md5, INITIAL, es).value, e).out ==> !o.EndedUnanswered?
  {
    hide PrintUuid, ParseUuid, KeyOf, After;
    AnsweredIsConnected(md5, es);
  }

  /**
   setHold, setUnhold, muteCall and unMuteCall reach CallKit exactly for uuids that connected
   earlier in the run, and for nothing else; they never crash.
   */
  lemma GuardedRequests(md5: Hash, es: seq<Event>, e: Event)
    requires After(md5, INITIAL, es).Some? && (e.SetHold? || e.MuteCall?)
    ensures Apply(md5, After(md5, INITIAL, es).value, e).Next?
    ensures var out := Apply(md5, After(md5, INITIAL, es).value, e).out;
      if e.text in ConnectedIn(es)
      then ParseUuid(e.text).Some? && var u := ParseUuid(e.text).value;
        out == [Request(if e.SetHold? then SetHeld(u, e.onHold) else SetMuted(u, e.muted))]
      else out == []
  {
    AnsweredIsConnected(md5, es);
  }

  // ---- crashes ---------------------------------------------------------------------------

  /** What makes a forced unwrap fail: a bad text from the channel, or something linphone does not have. */
  predicate Misuse(s: State, e: Event) {
    match e
    case CallStateChanged(call, state, _, _) =>
      !call.hasAddress || (!call.hasLog && (s.uuidCalls != map[] || state in {OutgoingProgress, OutgoingRinging, StreamsRunning, IncomingReceived}))
    case EndCall(text) => !IsUuidText(text)
    case AnswerCall(text) => !IsUuidText(text)
    case StopRinging(text) => !IsUuidText(text)
    case ReportOutgoing(text, _) => !IsUuidText(text)
    case ReportConnecting(text) => !IsUuidText(text)
    case ReportConnected(text) => !IsUuidText(text)
    case LpAnswer(text) => text !in s.uuidCalls
    case LpSetHold(text, _, _, hasDevices) => text !in s.uuidCalls || !hasDevices
    case EchoSettings(hasDevices) => !hasDevices
    case _ => false
  }

  /**
   In a reachable state these are the only events that crash: the unwrapped uuids of the
   handlers themselves, the keys, the answered texts and the logs of stored calls, never do.
   */
  lemma CrashesExactlyOnMisuse(md5: Hash, es: seq<Event>, e: Event)
    requires After(md5, INITIAL, es).Some?
    requires e.CallStateChanged? ==> IsLookup(After(md5, INITIAL, es).value.uuidCalls, e.call, e.found)
    ensures Apply(md5, After(md5, INITIAL, es).value, e).Crashed? <==> Misuse(After(md5, INITIAL, es).value, e)
  {
    hide PrintUuid, IsUuidText, After, KeyOf, Owns, OnPaused, OnReleased;
    RegistryIsHistory(md5, es);
    AnsweredIsConnected(md5, es);
    var s := After(md5, INITIAL, es).value;
    LogsAreThere(md5, s.uuidCalls);
    if e.CallStateChanged? {
      if e.found.Some? { KeysAreTexts(md5, s.uuidCalls, e.found.value); }
      HandlersUnwrap(s, e.found);
    }
  }

  /** Where linphone has what the closure unwraps, the closure gets to the handlers, and they never crash. */
  lemma CallStateRuns(md5: Hash, es: seq<Event>, call: Call, state: CallState, found: Option<string>, random: Uuid)
    requires After(md5, INITIAL, es).Some? && IsLookup(After(md5, INITIAL, es).value.uuidCalls, call, found)
    requires !Misuse(After(md5, INITIAL, es).value, CallStateChanged(call, state, found, random))
    ensures var s := After(md5, INITIAL, es).value;
      Apply(md5, s, CallStateChanged(call, state, found, random)) == OnCallState(md5, s, call, state, found, random)
    ensures Apply(md5, After(md5, INITIAL, es).value, CallStateChanged(call, state, found, random)).Next?
  {
    hide After, OnCallState, IsLookup, RegistryInv, Owns;
    CrashesExactlyOnMisuse(md5, es, CallStateChanged(call, state, found, random));
  }

  lemma LogsAreThere(md5: Hash, calls: map<string, Call>)
    requires RegistryInv(md5, calls)
    ensures AllLogged(calls)
  {
    hide KeyOf;
    assert forall k :: k in calls ==> IsKeyFor(md5, k, calls[k]);
  }

  /** The closure's own unwraps are of the key it found, when they are reached. */
  lemma HandlersUnwrap(s: State, found: Option<string>)
    requires found.Some? ==> IsUuidText(found.value)
    requires forall k :: k in s.answeredUuids ==> s.answeredUuids[k] == true
    ensures OnPaused(s, found).Next? && OnReleased(s, found).Next?
  {
    hide IsUuidText;
  }

  lemma KeysAreTexts(md5: Hash, calls: map<string, Call>, k: string)
    requires RegistryInv(md5, calls) && k in calls
    ensures IsUuidText(k)
  {
    hide IsUuidText, UuidOf, PrintUuid;
    assert IsKeyFor(md5, k, calls[k]);
    var random :| k == KeyOf(md5, calls[k], random);
    PrintIsText(UuidOf(md5, calls[k].callId, random));
  }

  // ---- the hold bounce -------------------------------------------------------------------

  /** The transactions the bounce machine still has in store. */
  function Pending(s: State): seq<Action> {
    match ParseUuid(s.unpausePauseUuid)
    case None => []
    case Some(u) =>
      if s.unpausePauseState == 1 then [SetHeld(u, true), SetHeld(u, false)]
      else if s.unpausePauseState == 2 then [SetHeld(u, false)]
      else []
  }

  function Requests(out: seq<Output>): seq<Action> {
    if out == [] then []
    else Requests(out[..|out| - 1]) + (if out[|out| - 1].Request? then [out[|out| - 1].action] else [])
  }

  /** The transactions requested by call-state handlers, in order. */
  function BounceLog(md5: Hash, start: State, es: seq<Event>): seq<Action>
    requires After(md5, start, es).Some?
  {
    if es == [] then []
    else
      var before := After(md5, start, es[..|es| - 1]).value;
      var e := es[|es| - 1];
      BounceLog(md5, start, es[..|es| - 1])
        + (if e.CallStateChanged? then Requests(Apply(md5, before, e).out) else [])
  }

  lemma {:induction false} RequestsConcat(a: seq<Output>, b: seq<Output>)
    ensures Requests(a + b) == Requests(a) + Requests(b)
    decreases |b|
  {
    if b == [] {
      assert a + b == a;
    } else {
      RequestsConcat(a, b[..|b| - 1]);
      assert (a + b)[..|a + b| - 1] == a + b[..|b| - 1];
    }
  }

  lemma RequestsOne(o: Output)
    ensures Requests([o]) == if o.Request? then [o.action] else []
  {
    assert [o][..0] == [];
  }

  /** The event an armed delegate waits for: its call released in state 1, paused in state 2. */
  predicate Awaited(s: State, e: Event) {
    e.CallStateChanged? && e.found == Some(s.unpausePauseUuid)
    && ((e.state == Released && s.unpausePauseState == 1) || (e.state == Paused && s.unpausePauseState == 2))
  }

  /** Resuming a call after an audio interruption. */
  predicate Disarms(s: State, e: Event) {
    e.LpSetHold? && !e.toHold && (e.live == Paused || e.live == PausedByRemote || e.live == Pausing)
    && e.text in s.uuidCalls && s.wasAudioInterrupted
  }

  lemma PausedRequests(s: State, found: Option<string>)
    requires OnPaused(s, found).Next?
    ensures var r := OnPaused(s, found);
      if s.unpausePauseState == 2 && found == Some(s.unpausePauseUuid)
      then Pending(s) != [] && Requests(r.out) == Pending(s)[..1] && Pending(r.state) == Pending(s)[1..]
      else Requests(r.out) == [] && Pending(r.state) == Pending(s)
  {
    hide ParseUuid, Requests;
    var o := Notify("lnCallPaused", found);
    RequestsOne(o);
    if s.unpausePauseState == 2 && found == Some(s.unpausePauseUuid) {
      var a := Request(SetHeld(ParseUuid(s.unpausePauseUuid).value, false));
      RequestsOne(a);
      RequestsConcat([o], [a]);
    }
  }

  lemma RingingRequestsNothing(s: State, text: string)
    requires RingingDidTimeout(s, text).Next?
    ensures var r := RingingDidTimeout(s, text);
      Requests(r.out) == [] && r.state.unpausePauseState == s.unpausePauseState
      && r.state.unpausePauseUuid == s.unpausePauseUuid
  {
    hide ParseUuid;
    var out := RingingDidTimeout(s, text).out;
    if out != [] { RequestsOne(out[0]); }
  }

  lemma ReleasedRequests(s: State, found: Option<string>)
    requires OnReleased(s, found).Next?
    ensures var r := OnReleased(s, found);
      if s.unpausePauseState == 1 && found == Some(s.unpausePauseUuid)
      then Pending(s) != [] && Requests(r.out) == Pending(s)[..1] && Pending(r.state) == Pending(s)[1..]
      else Requests(r.out) == [] && Pending(r.state) == Pending(s)
  {
    hide ParseUuid, Requests, RingingDidTimeout;
    var text := if found.Some? then found.value else "";
    RingingRequestsNothing(s, text);
    var ringing := RingingDidTimeout(s, text).out;
    var o := Notify("lnCallReleased", found);
    RequestsOne(o);
    RequestsConcat(ringing, [o]);
    if s.unpausePauseState == 1 && found == Some(s.unpausePauseUuid) {
      var a := Request(SetHeld(ParseUuid(s.unpausePauseUuid).value, true));
      RequestsOne(a);
      RequestsConcat(ringing + [o], [a]);
    }
  }

  /**
   One event: the awaited one requests the next transaction in store and takes it out; a
   resume after an interruption empties the store; every other event leaves it alone, and no
   other call-state event requests anything.
   */
  lemma BounceFires(md5: Hash, s: State, e: Event)
    requires Apply(md5, s, e).Next?
    ensures var r := Apply(md5, s, e);
      if Awaited(s, e)
      then Pending(s) != [] && Requests(r.out) == Pending(s)[..1] && Pending(r.state) == Pending(s)[1..]
      else Pending(r.state) == (if Disarms(s, e) then [] else Pending(s)) && (e.CallStateChanged? ==> Requests(r.out) == [])
  {
    hide PrintUuid, KeyOf, ParseUuid, OnPaused, OnReleased, Requests;
    if e.CallStateChanged? {
      if e.state == Paused {
        PausedRequests(s, e.found);
      } else if e.state == Released {
        ReleasedRequests(s, e.found);
      } else {
        PlainHandlers(md5, s, e);
      }
    }
  }

  lemma PlainHandlers(md5: Hash, s: State, e: Event)
    requires e.CallStateChanged? && e.state != Paused && e.state != Released && Apply(md5, s, e).Next?
    ensures Requests(Apply(md5, s, e).out) == []
    ensures Pending(Apply(md5, s, e).state) == Pending(s)
  {
    hide PrintUuid, KeyOf, ParseUuid, OnPaused, OnReleased;
    var out := Apply(md5, s, e).out;
    if |out| == 1 {
      RequestsOne(out[0]);
    } else if |out| == 2 {
      RequestsOne(out[0]);
      RequestsOne(out[1]);
      RequestsConcat([out[0]], [out[1]]);
    }
  }

  /**
   From any state, over any run: what the bounce has requested so far, followed by what it
   still has in store, never goes beyond what was in store at the start.  So an armed
   delegate bounces one call once, hold first, unhold second.
   */
  lemma {:induction false} BounceBound(md5: Hash, start: State, es: seq<Event>)
    requires After(md5, start, es).Some?
    ensures BounceLog(md5, start, es) + Pending(After(md5, start, es).value) <= Pending(start)
    decreases |es|
  {
    if es != [] {
      var n := |es| - 1;
      BounceBound(md5, start, es[..n]);
      var before := After(md5, start, es[..n]).value;
      BounceFires(md5, before, es[n]);
    }
  }

  /** And since no event ever arms it, a delegate that starts in its initial state never bounces. */
  lemma {:induction false} NeverArmed(md5: Hash, es: seq<Event>)
    requires After(md5, INITIAL, es).Some?
    ensures After(md5, INITIAL, es).value.unpausePauseState == 0 && BounceLog(md5, INITIAL, es) == []
    decreases |es|
  {
    hide PrintUuid, KeyOf, ParseUuid, Requests, BounceLog;
    BounceBound(md5, INITIAL, es);
    if es != [] {
      NeverArmed(md5, es[..|es| - 1]);
      StaysDisarmed(md5, After(md5, INITIAL, es[..|es| - 1]).value, es[|es| - 1]);
    }
  }

  /** What the Flutter side is told in each state. */
  function NoticeNames(state: CallState): seq<string> {
    match state
    case OutgoingProgress => ["lnOutgoingInit", "lnOutgoingProgress"]
    case IncomingReceived => ["lnIncomingReceived"]
    case OutgoingRinging => ["lnOutgoingRinging"]
    case Connected => ["lnCallConnected"]
    case StreamsRunning => ["lnCallStreamsRunning"]
    case Paused => ["lnCallPaused"]
    case PausedByRemote => ["lnCallPausedByRemote"]
    case Updating => ["lnCallUpdating"]
    case UpdatedByRemote => ["lnCallUpdatedByRemote"]
    case Released => ["lnCallReleased"]
    case Error => ["lnCallError"]
    case _ => []
  }

  function Notices(names: seq<string>, about: Option<string>): seq<Output> {
    seq(|names|, i requires 0 <= i < |names| => Notify(names[i], about))
  }

  /**
   So call-state events tell the Flutter side, once each, what their state calls for, and do
   nothing else: no run makes them request a transaction or end a call.
   */
  lemma OnlyNotifies(md5: Hash, es: seq<Event>, e: Event)
    requires After(md5, INITIAL, es).Some? && e.CallStateChanged? && Apply(md5, After(md5, INITIAL, es).value, e).Next?
    ensures Apply(md5, After(md5, INITIAL, es).value, e).out == Notices(NoticeNames(e.state), AboutOf(md5, e))
  {
    hide PrintUuid, ParseUuid, KeyOf, After;
    AnsweredIsConnected(md5, es);
    NeverArmed(md5, es);
  }

  /** The uuid a notification carries: decided by the history, unless the call lacks a call-id. */
  ghost function ToldAbout(md5: Hash, es: seq<Event>, e: Event): Option<string>
    requires e.CallStateChanged?
  {
    if e.call.callId != "" then KeyToldFor(md5, es, e.call, e.state) else AboutOf(md5, e)
  }

  /** What one more call-state event makes of a run. */
  lemma CallStateStep(md5: Hash, es: seq<Event>, e: Event)
    requires After(md5, INITIAL, es).Some? && Feasible(md5, INITIAL, es) && e.CallStateChanged?
    requires IsLookup(After(md5, INITIAL, es).value.uuidCalls, e.call, e.found)
    requires Apply(md5, After(md5, INITIAL, es).value, e).Next?
    ensures var r := Apply(md5, After(md5, INITIAL, es).value, e);
      && r.state.unpausePauseState == 0 && r.state.answeredUuids == After(md5, INITIAL, es).value.answeredUuids
      && r.out == Notices(NoticeNames(e.state), ToldAbout(md5, es, e))
  {
    hide Apply, After, Feasible, IsLookup, KeyToldFor, AboutOf, Notices, NoticeNames, Sent;
    RunExtends(md5, INITIAL, es, e);
    NeverArmed(md5, es + [e]);
    AnsweredIsConnected(md5, es);
    AnsweredStep(md5, After(md5, INITIAL, es).value, e);
    OnlyNotifies(md5, es, e);
    if e.call.callId != "" {
      AboutIsHistory(md5, es, e);
    }
  }

  /** What `lpSetHold` asks of the call it found: a pause where that makes sense, a resume where it does. */
  function HoldActions(call: Call, text: string, toHold: bool, live: CallState): seq<Output> {
    if toHold then
      if live in {Paused, PausedByRemote, OutgoingInit, OutgoingProgress, OutgoingRinging, IncomingReceived, Error}
      then [] else [PauseCall(call)]
    else if live in {Paused, PausedByRemote, Pausing} then [ResumeCall(call)]
    else if live == Resuming then [Notify("lnCallConnected", Some(text))]
    else []
  }

  /** A resume asked for a call that is paused, or about to be. */
  predicate ResumesPaused(e: Event) {
    e.LpSetHold? && !e.toHold && e.live in {Paused, PausedByRemote, Pausing}
  }

  /**
   In any run it asks that of exactly the call last stored under the text, then reports the
   devices; a resume after an interruption also spends the interruption and notes the text.
   */
  lemma LpSetHoldStep(md5: Hash, es: seq<Event>, e: Event, call: Call)
    requires After(md5, INITIAL, es).Some? && e.LpSetHold? && e.hasDevices && Stored(md5, es, e.text, call)
    ensures var s := After(md5, INITIAL, es).value;
      var r := Apply(md5, s, e);
      && r.Next? && r.out == HoldActions(call, e.text, e.toHold, e.live) + [DevicesSent]
      && r.state == (if ResumesPaused(e) && s.wasAudioInterrupted
           then State(s.uuidCalls, s.answeredUuids, 0, e.text, false) else s)
  {
    hide After, Stored, RegistryInv;
    RegistryIsHistory(md5, es);
  }

  /** Position j witnesses `InterruptedSince`. */
  ghost predicate UnspentAt(es: seq<Event>, j: nat) {
    j < |es| && es[j].Interruption? && es[j].began && forall m :: j < m < |es| ==> !ResumesPaused(es[m])
  }

  /** An interruption has begun and no resume of a paused call has come after it. */
  ghost predicate InterruptedSince(es: seq<Event>) {
    exists j :: UnspentAt(es, j)
  }

  lemma InterruptedStep(es: seq<Event>)
    requires es != []
    ensures var e := es[|es| - 1];
      InterruptedSince(es) <==>
        (e.Interruption? && e.began) || (!ResumesPaused(e) && InterruptedSince(es[..|es| - 1]))
  {
    hide ResumesPaused;
    var n := |es| - 1;
    var front := es[..n];
    assert forall m :: 0 <= m < n ==> front[m] == es[m];
    if es[n].Interruption? && es[n].began {
      assert UnspentAt(es, n);
    } else if !ResumesPaused(es[n]) {
      forall j: nat ensures UnspentAt(es, j) <==> UnspentAt(front, j) { }
    }
  }

  /** The interruption flag of a reachable state is decided by the history of interruptions and resumes. */
  lemma {:induction false} InterruptionIsHistory(md5: Hash, es: seq<Event>)
    requires After(md5, INITIAL, es).Some?
    ensures After(md5, INITIAL, es).value.wasAudioInterrupted <==> InterruptedSince(es)
    decreases |es|
  {
    hide InterruptedSince;
    if es == [] {
      NothingYet();
    } else {
      InterruptionIsHistory(md5, es[..|es| - 1]);
      InterruptedStep(es);
      FlagStep(md5, After(md5, INITIAL, es[..|es| - 1]).value, es[|es| - 1]);
    }
  }

  lemma NothingYet()
    ensures !InterruptedSince([])
  {
  }

  lemma FlagStep(md5: Hash, s: State, e: Event)
    requires Apply(md5, s, e).Next?
    ensures Apply(md5, s, e).state.wasAudioInterrupted <==>
      (e.Interruption? && e.began) || (!ResumesPaused(e) && s.wasAudioInterrupted)
  {
    hide PrintUuid, KeyOf, ParseUuid;
  }

  /**
   The ringing handler from any state at all: it ends a call exactly for an entry that is not
   `true`, forgets that entry and no other, and so never ends the same call twice.
   */
  lemma TimeoutEndsOnce(s: State, text: string)
    requires text in s.answeredUuids ==> IsUuidText(text)
    ensures var r := RingingDidTimeout(s, text);
      && r.Next? && r.state.uuidCalls == s.uuidCalls
      && (if text in s.answeredUuids && !s.answeredUuids[text]
          then ParseUuid(text).Some? && r.out == [EndedUnanswered(ParseUuid(text).value)]
            && r.state.answeredUuids.Keys == s.answeredUuids.Keys - {text}
          else r == Next(s, []))
      && (forall k :: k in r.state.answeredUuids ==> k in s.answeredUuids && r.state.answeredUuids[k] == s.answeredUuids[k])
      && RingingDidTimeout(r.state, text) == Next(r.state, [])
  {
  }

  lemma StaysDisarmed(md5: Hash, s: State, e: Event)
    requires s.unpausePauseState == 0 && Apply(md5, s, e).Next?
    ensures Apply(md5, s, e).state.unpausePauseState == 0
  {
    hide PrintUuid, KeyOf, ParseUuid;
  }
}
