# A verified model of the softphone's visible logic

The repository is a Flutter softphone whose iOS side is Swift on top of prebuilt C and C++
libraries. Four parts of it carry logic that can be read in full, and each is modelled here
in Dafny and proved against properties of all its inputs and all its runs.

- **Ownership of hybrid objects** (`object++.hh`). An object lives under an intrusive count
  held by C code and, at the same time, under C++ shared pointers that together stand for one
  unit of that count. `HybridObjects` gives the value of one object and its operations,
  `HybridHeap` the classes, methods and list loops on mutable objects, `HybridRuns` a heap of
  objects with a ledger of owners and every sequence of steps such owners can take.
- **The fixed-point kernel** (`dsptools.h`). `FixedPoint` says exactly what the split and the
  rounding macros compute, `FixedPointError` bounds the error of whole accumulations and
  relates the fixed-point build to the float build over the reals.
- **Calls and their uuids** (`ProviderDelegate.swift`). `CallUuid` covers the derivation of a
  uuid from a call-id and the textual form of uuids, `CallDelegate` one step of the delegate
  for one event, `CallRuns` theorems about every event sequence, `DelegateObject` the delegate
  as a class that is always in the state of the run of all it has handled, so that its handlers
  promise what those theorems say, `AudioDevices` the device-selection loops.
- **The phone-number formatter** (`Utils.swift`), in `PhoneFormat`.

A forced unwrap of nil, a use of a destroyed object, the library's fatal error and a 32-bit
overflow are outcomes of the model, not preconditions, so that the theorems say when they
occur. Swift's dictionary order is an input of every scan: `found` is whatever key the scan
met first.

## What the code does that its names or comments do not say

- `lpSetHold` logs that it arms the hold bounce (state 1) but assigns 0, so from the initial
  state the bounce never happens: `CallRuns.NeverArmed`.
- The ringing timer ends a call only if its entry in `answeredUuids` is not `true`, and only
  `true` is ever stored: `CallRuns.NeverTimedOut`.
- The reverse lookup depends on dictionary order exactly when two calls with an empty
  call-id stand under different keys: `CallRuns.LookupOrder`, reached in
  `CallRuns.EmptyCallIdIsAmbiguous`.
- `lpAnswer` guards the call's `accept` with `do` and `catch` but unwraps a missing call first;
  it crashes like `lpSetHold`: `CallRuns.CrashesExactlyOnMisuse`.
- `reportOutgoingCall` requests its transaction twice:
  `DelegateObject.ProviderDelegate.ReportOutgoingCall`.
- `PDIV32` takes its half of a 16-bit cast of the divisor, so it stops rounding at 32768; for
  negative numerators C's division rounds the wrong way: `FixedPoint.PDivDivisorRange`,
  `FixedPoint.PDivShortDivisor`, `FixedPoint.PDivNegativeFails`; the exact condition for every
  divisor is `FixedPoint.PDivRounds`.
- `QCONST16` and `QCONST32` add one half and truncate toward zero, which misses the nearest
  value for negative constants: `FixedPointError.QConstRounds`,
  `FixedPointError.QConstNegativeFails`.
- The CallKit handle of a plain ten-digit number is not stable under formatting, because the
  pattern is chosen by the raw length: `PhoneFormat.HandleStable`,
  `PhoneFormat.TenDigitsUnstable`.
- The Dart copy of the uuid loop indexes the call-id itself and runs off its end for lengths 1
  to 15: `CallUuid.DartCodeUnits`.

## Model

| member | source | states |
|---|---|---|
| HybridRuns.StepSafe | ios/belle-sip.framework/Headers/object++.hh:102-219 | a step by a legal owner keeps every count equal to the ledger and never touches a destroyed object; it ends in the fatal error exactly for a transfer while shared pointers are alive |
| HybridRuns.StepAccounts | ios/belle-sip.framework/Headers/object++.hh:102-219 | each step changes the owners exactly as its event says: an unref gives up one C reference, a ref adds one, a copied or dropped pointer is one pointer more or less, a request adds one pointer, a transfer trades a C reference for a pointer, the list conversions add one owner per element |
| HybridRuns.DestroyedIsUntouchable | ios/belle-sip.framework/Headers/object++.hh:102-219 | in any world, a step on a destroyed object, or a conversion of a list that holds one, is a use after free |
| HybridRuns.RunSafe | ios/belle-sip.framework/Headers/object++.hh:203-219 | conservation over every run: refs = outstanding C references plus one iff a shared pointer is alive, at most one live control block, no use after destruction |
| HybridRuns.AliveIffOwned | ios/belle-sip.framework/Headers/object++.hh:203-219 | under the invariant an object is undestroyed iff somebody owns it, and the weak pointer locks iff a shared pointer is alive |
| HybridRuns.OneLiveBlock | ios/belle-sip.framework/Headers/object++.hh:203-219 | all shared pointers to one object count in the one control block the weak pointer refers to |
| HybridRuns.DestroyedOnce | ios/belle-sip.framework/Headers/object.h:236-250 | over every run the destructor has run once iff the object has no owner, and an object without owners never gets one again |
| HybridRuns.NoLeak | ios/belle-sip.framework/Headers/object++.hh:100-109 | when all C references are released and no shared pointer is left, every object created in the run is destroyed |
| HybridRuns.SecondBlock | ios/belle-sip.framework/Headers/object++.hh:203-212 | after the weak pointer expired under live C references the next request makes a new control block and takes one reference |
| HybridRuns.OldBlocksStayDead | ios/belle-sip.framework/Headers/object++.hh:203-219 | over the rest of any run no shared pointer ever counts again in a control block the object had when its last shared pointer was gone |
| HybridRuns.CppListConserves | ios/belle-sip.framework/Headers/object++.hh:154-159 | C list to C++ list keeps the objects in order, counts every pointer, and adds one reference to an object that had no live shared pointer however often it occurs, none otherwise |
| HybridRuns.CListConserves | ios/belle-sip.framework/Headers/object++.hh:170-191 | C++ list to C list keeps the objects in order and adds one reference per occurrence, touching nothing else |
| HybridRuns.ListRoundTrip | ios/belle-sip.framework/Headers/object++.hh:154-191 | C to C++ and back yields the same object sequence |
| HybridObjects.GetSharedPaysOnce | ios/belle-sip.framework/Headers/object++.hh:203-212 | n requests for a pointer add n uses but at most one reference, and only if none was alive |
| HybridHeap.HybridObject.SharedFrom | ios/belle-sip.framework/Headers/object++.hh:203-219 | the method on mutable objects makes exactly the change `SharedFromThis` describes |
| HybridHeap.HybridObject.Unref | ios/belle-sip.framework/Headers/object.h:242-250 | the count drops by one and the destructor runs exactly when it reaches zero |
| HybridHeap.ControlBlock.Release | ios/belle-sip.framework/Headers/object++.hh:206-207 | dropping a shared pointer gives its reference back exactly when it was the last one |
| HybridHeap.Create | ios/belle-sip.framework/Headers/object++.hh:100-104 | the new object's only reference belongs to the returned shared pointer |
| HybridHeap.CppListFromCList | ios/belle-sip.framework/Headers/object++.hh:154-159 | the loop returns, in order, pointers that count in the block each object's own weak pointer refers to, the old block where one was in use, and changes each object as many times as it occurs |
| HybridHeap.CListFromCppList | ios/belle-sip.framework/Headers/object++.hh:170-179 | the loop returns the same objects in order and adds one reference per occurrence |
| FixedPoint.SplitProduct | ios/mediastreamer2.framework/Headers/dsptools.h:102-110 | for every 16-bit a and 32-bit b the split multiply is defined and equals the shifted product minus 2^16*a per wrap of the high half |
| FixedPoint.SplitProductExact | ios/mediastreamer2.framework/Headers/dsptools.h:102-110 | MULT16_32_Qq(a,b) = floor(a*b / 2^q) iff a = 0 or -2^(15+q) <= b < 2^(15+q), for q = 11 to 15 |
| FixedPoint.PresplitProduct | ios/mediastreamer2.framework/Headers/dsptools.h:127 | MUL_16_32_R15 on any 16-bit high word and 15 low bits is the shifted product of the number they make up |
| FixedPoint.PresplitAgrees | ios/mediastreamer2.framework/Headers/dsptools.h:110-127 | on the two halves of b it is floor(a*b / 2^15) iff a = 0 or -2^30 <= b < 2^30, the range of MULT16_32_Q15 |
| FixedPoint.MaskIsRemainder | ios/mediastreamer2.framework/Headers/dsptools.h:102-110 | each mask literal keeps, bit by bit, the remainder modulo 2^q, for negative b too |
| FixedPoint.PshrRounds | ios/mediastreamer2.framework/Headers/dsptools.h:77-85 | PSHR16, PSHR32 and PSHR round to nearest for shifts 1 to 30, and are defined exactly until the added half overflows, so for every 16-bit operand |
| FixedPoint.ShortProductRounds | ios/mediastreamer2.framework/Headers/dsptools.h:123-125 | MULT16_16_P13, P14 and P15 never overflow and round to nearest |
| FixedPoint.RoundedSplitProduct | ios/mediastreamer2.framework/Headers/dsptools.h:109 | what MULT16_32_P15 computes on every input |
| FixedPoint.RoundedSplitProductExact | ios/mediastreamer2.framework/Headers/dsptools.h:109 | MULT16_32_P15 rounds the whole product to nearest iff a = 0 or -2^30 <= b < 2^30 |
| FixedPoint.PDivRounds | ios/mediastreamer2.framework/Headers/dsptools.h:132 | for every divisor, of either sign, PDIV32 is the nearest quotient iff the remainder C leaves fits the half it really added |
| FixedPoint.PDivShortDivisor | ios/mediastreamer2.framework/Headers/dsptools.h:132 | for 0 < b < 2^15 that means: iff a + b/2 is not negative or b divides it |
| FixedPoint.PDivNegativeFails | ios/mediastreamer2.framework/Headers/dsptools.h:132 | an input that fails: -5 by 3 gives -1, and -2 is nearest |
| FixedPoint.PDiv16Rounds | ios/mediastreamer2.framework/Headers/dsptools.h:130 | PDIV32_16 is the nearest quotient iff PDIV32 is and the biased numerator is in the range whose quotient fits 16 bits |
| FixedPoint.PDivValue | ios/mediastreamer2.framework/Headers/dsptools.h:132 | what PDIV32 computes on every input and exactly when it is defined: (a + h) / b cut off toward zero, with h the lower half of the divisor's 16-bit cast |
| FixedPoint.PDiv16Value | ios/mediastreamer2.framework/Headers/dsptools.h:130 | PDIV32_16 is PDIV32 by the cast divisor, wrapped to 16 bits |
| FixedPoint.PDivDivisorRange | ios/mediastreamer2.framework/Headers/dsptools.h:132 | PDIV32 rounds all non-negative numerators iff the divisor fits 16 bits |
| FixedPointError.MacRunErrorAll | ios/mediastreamer2.framework/Headers/dsptools.h:101-116 | over any 16-bit and 32-bit operands a run of n multiply-accumulates is within n single-step errors of the exact scaled sum less 2^16*a for each wrap of a high half |
| FixedPointError.MacRunIsSum | ios/mediastreamer2.framework/Headers/dsptools.h:101-116 | a run is defined exactly when every partial sum fits 32 bits, and then it is the sum of its terms |
| FixedPointError.MacRunError | ios/mediastreamer2.framework/Headers/dsptools.h:101-116 | over operands in range nothing wraps: the run is below the exact scaled sum by less than n units, or within n/2 for the rounding forms |
| FixedPointError.MacRunDefined | ios/mediastreamer2.framework/Headers/dsptools.h:101-116 | a run never overflows, and stays within its headroom, when the start value leaves room for the sum of its terms' magnitudes |
| FixedPointError.HeadroomBounded | ios/mediastreamer2.framework/Headers/dsptools.h:101-116 | n suitable steps need at most n times 2^(30-q) of headroom for 16-bit operands, n times 2^30 for 32-bit ones |
| FixedPointError.QConstRounds | ios/mediastreamer2.framework/Headers/dsptools.h:66-67 | a constant is within half a unit iff the biased value is non-negative or integral, and always within one and a half |
| FixedPointError.QConstValue | ios/mediastreamer2.framework/Headers/dsptools.h:66-67 | QCONST16 and QCONST32 are 0.5 + x * 2^bits cut off toward zero, exactly when that is in range |
| FixedPointError.QConstNegativeFails | ios/mediastreamer2.framework/Headers/dsptools.h:66-67 | an input that fails: -0.75 with no fraction bits gives 0 |
| FixedPointError.MultRefinesFloat | ios/mediastreamer2.framework/Headers/dsptools.h:333-351 | every kernel product represents the float build's product within one unit (half when rounding) plus what the operands' errors contribute |
| FixedPointError.MacRefinesFloat | ios/mediastreamer2.framework/Headers/dsptools.h:339-344 | the accumulating macros represent c + a*b with the errors added |
| FixedPointError.TwoStages | ios/mediastreamer2.framework/Headers/dsptools.h:102-110 | a product of exact operands followed by a Q15 gain stays within two units |
| FixedPointError.MacRunRefinesFloat | ios/mediastreamer2.framework/Headers/dsptools.h:339-344 | a whole run over approximate operands represents the float build's run; its error is that of the start value plus what each step rounds off and inherits |
| FixedPointError.ExactRunRefinesFloat | ios/mediastreamer2.framework/Headers/dsptools.h:339-344 | over n exactly represented operands and an exact start value it is within n units, n/2 for the rounding forms |
| CallUuid.UuidFromString | ios/Runner/ProviderDelegate.swift:1184-1217 | the loop stays in bounds and the assembled text always parses; byte i of the uuid is the ASCII code of the lower-case digit of half-byte i mod (n+1) of the digest, and the empty string gets the random uuid |
| CallUuid.DigestText | ios/Runner/ProviderDelegate.swift:1221-1230 | the digest text shows the high half of each byte and then the low half, as the digits 0-9 and a-f |
| CallUuid.HexTables | ios/Runner/ProviderDelegate.swift:1202-1230 | the sixteen digits in both cases, their values, and the change of case, as a table |
| CallUuid.AssemblePrints | ios/Runner/ProviderDelegate.swift:1208-1213 | the concatenation of the sixteen groups is the printed form of the uuid with those bytes |
| CallUuid.PrintIsText | ios/Runner/ProviderDelegate.swift:1208-1215 | a printed uuid is a well-formed 36-character text |
| CallUuid.PrintedText | ios/Runner/ProviderDelegate.swift:1208-1213 | a printed uuid has dashes at 8, 13, 18 and 23 and shows each byte as two upper-case digits at its place |
| CallUuid.UuidTextMeans | ios/Runner/ProviderDelegate.swift:1215 | what parses is exactly a text of 36 characters with those dashes and digits of either case elsewhere |
| CallUuid.ParsePrint | ios/Runner/ProviderDelegate.swift:1215 | parsing a printed uuid gives it back |
| CallUuid.PrintParse | ios/Runner/ProviderDelegate.swift:137 | printing a parsed text gives it back in upper case |
| CallUuid.DerivedEqual | ios/Runner/ProviderDelegate.swift:1190-1206 | two derived uuids are equal iff the two loops read equal characters |
| CallUuid.LongCallIds | ios/Runner/ProviderDelegate.swift:1190-1230 | for call-ids of length 15 or more, iff the first 8 digest bytes are equal |
| CallUuid.ShortCallIds | ios/Runner/ProviderDelegate.swift:1190-1230 | for call-ids of equal length n below 15, iff the first n+1 hexadecimal characters are equal |
| CallUuid.DerivedTextIsDecimal | ios/Runner/ProviderDelegate.swift:1202-1204 | the text of a derived uuid has decimal digits only, so letter case cannot break a lookup |
| CallUuid.NeverVersion4 | ios/Runner/ProviderDelegate.swift:1202-1215 | a derived uuid never has the version and variant bits of a random one |
| CallUuid.DartCodeUnits | lib/src/utils.dart:15-30 | the Dart loop fails iff the string has 1 to 15 characters, and otherwise reads the first 16 |
| CallRuns.RegistryIsHistory | ios/Runner/ProviderDelegate.swift:128-139 | in every reachable state the dictionary holds exactly the call last stored under each key, where calls are stored in the states OutgoingProgress and IncomingReceived and each key is the one derived from its call |
| CallRuns.LookupIsUnique | ios/Runner/ProviderDelegate.swift:400-408 | for a call with a call-id the scan's answer does not depend on dictionary order |
| CallRuns.KeyOfStoredCall | ios/Runner/ProviderDelegate.swift:396-408 | looking up a stored call by key and then its key leads back to the key |
| CallRuns.LookupOrder | ios/Runner/ProviderDelegate.swift:400-408 | in every reachable state the scan for a call is independent of dictionary order iff the call has a call-id or at most one key holds a call without one |
| CallRuns.EmptyCallIdIsAmbiguous | ios/Runner/ProviderDelegate.swift:400-408 | a reachable state in which two scans for a call without a call-id may give different keys |
| CallRuns.NotifiedUuid | ios/Runner/ProviderDelegate.swift:128-237 | at any point of any run a notification names the derived key iff the event registers the call or the last call stored under that key has its call-id, and nil otherwise |
| CallRuns.UuidIsStable | ios/Runner/ProviderDelegate.swift:128-237 | once registered a call is notified under the same uuid for the rest of the run unless another call-id takes the key |
| CallRuns.AnsweredIsConnected | ios/Runner/ProviderDelegate.swift:1016-1024 | over every run the keys of answeredUuids are exactly the uuids reported connected, all with value true |
| CallRuns.NeverTimedOut | ios/Runner/ProviderDelegate.swift:1089-1098 | neither the ringing timer nor a call-state handler ever ends a call as unanswered |
| CallRuns.TimeoutEndsOnce | ios/Runner/ProviderDelegate.swift:1089-1098 | from any state the ringing handler ends a call iff its entry is not true, drops that entry and no other, and never ends the same call twice |
| CallRuns.GuardedRequests | ios/Runner/ProviderDelegate.swift:953-1007 | hold and mute requests reach CallKit exactly for uuids that connected earlier, with the right action, and never crash |
| CallRuns.CrashesExactlyOnMisuse | ios/Runner/ProviderDelegate.swift:114-1024 | in a reachable state a modelled event fails a forced unwrap iff lpSetHold or lpAnswer names no stored call, endCall, answerCall, stopRinging or a report method gets no UUID text, the core has no default devices to report, or the call lacks an address or a log that is read |
| CallRuns.OnlyNotifies | ios/Runner/ProviderDelegate.swift:114-239 | over every run a call-state event sends exactly the notifications of its state, all about the one uuid, and nothing else |
| CallRuns.LpSetHoldStep | ios/Runner/ProviderDelegate.swift:628-663 | over every run lpSetHold pauses, resumes or reports connected, as asked and as the call's state allows, exactly the call last stored under the text, then reports the devices; a resume after an interruption spends it and notes the text |
| CallRuns.InterruptionIsHistory | ios/Runner/ProviderDelegate.swift:49-66 | in every reachable state the interruption flag is set iff an interruption has begun and no resume of a paused call has come after it |
| CallRuns.BounceFires | ios/Runner/ProviderDelegate.swift:183-223 | the awaited event requests the next transaction of the bounce, a resume after an interruption drops the rest, every other event leaves it alone |
| CallRuns.BounceBound | ios/Runner/ProviderDelegate.swift:185-223 | from any state and over any run the bounce requests at most one hold and then one unhold, for the armed uuid |
| CallRuns.NeverArmed | ios/Runner/ProviderDelegate.swift:640-648 | a delegate that starts in its initial state is never armed and never bounces |
| DelegateObject.ProviderDelegate.FindUuidByCall | ios/Runner/ProviderDelegate.swift:400-408 | the loop over the keys, in any order, returns a key whose call has the call-id, or nil if there is none; with logs on all stored calls it fails iff there is something to compare and the call has no log |
| DelegateObject.ProviderDelegate.OnCallStateChanged | ios/Runner/ProviderDelegate.swift:114-239 | the object stays the state of the run of all it has handled; the closure fails iff linphone lacks what it unwraps, else sends exactly the notifications of the state, about the uuid the registration history determines, and leaves the bounce disarmed |
| DelegateObject.ProviderDelegate.LinphoneSetHold | ios/Runner/ProviderDelegate.swift:628-663 | fails iff nothing was ever stored under the text or no default devices exist; else it pauses or resumes, exactly where the state allows, the very call last stored there, and never arms the bounce |
| DelegateObject.ProviderDelegate.LinphoneAnswer | ios/Runner/ProviderDelegate.swift:610-618 | fails iff nothing was ever stored under the text, else accepts the very call last stored there |
| DelegateObject.ProviderDelegate.RingingTimer | ios/Runner/ProviderDelegate.swift:1076-1098 | whatever was handled before, the ringing timer never fails, sends nothing and changes nothing |
| DelegateObject.ProviderDelegate.CallObserver | ios/Runner/ProviderDelegate.swift:1016-1024 | after it the keys of answeredUuids are exactly the uuids reported connected so far |
| DelegateObject.ProviderDelegate.ChannelSetHold | ios/Runner/ProviderDelegate.swift:953-975 | never fails; requests exactly one hold transaction for a text reported connected earlier, nothing for any other |
| DelegateObject.ProviderDelegate.ChannelMute | ios/Runner/ProviderDelegate.swift:989-1007 | never fails; requests exactly one mute transaction for a text reported connected earlier, nothing for any other |
| DelegateObject.ProviderDelegate.ReportOutgoingCall | ios/Runner/ProviderDelegate.swift:571-609 | fails iff the text is no UUID, else requests the same start transaction twice, with the formatted number, in which each digit occurs as often as in the number |
| AudioDevices.LastMatchIsLast | ios/Runner/ProviderDelegate.swift:669-692 | the specification of the loops picks the wanted device with the greatest index |
| AudioDevices.Core.SetDefaultOutput | ios/Runner/ProviderDelegate.swift:681-692 | a known id leaves the default and every call on the last device with that id, an unknown one changes nothing |
| AudioDevices.Core.SetDefaultInput | ios/Runner/ProviderDelegate.swift:669-680 | the same for the input side |
| AudioDevices.Core.ToggleSpeaker | ios/Runner/ProviderDelegate.swift:440-476 | the output ends on the last device that fits the mode; fails exactly when the session lists no inputs at all, or a microphone is chosen and none of them is built in |
| AudioDevices.Core.ToggleBluetooth | ios/Runner/ProviderDelegate.swift:478-485 | the output ends on the last Bluetooth device, and the flag is set iff there is one or it was set |
| PhoneFormat.ApplyPatternOnNumbers | ios/Runner/Utils.swift:11-21 | the in-place insertion loop computes the recursive merge of pattern and digits |
| PhoneFormat.OnlyDigitsOfOne | ios/Runner/Utils.swift:12 | a single character survives the replacement iff it is one of 0-9 |
| PhoneFormat.OnlyDigitsOfBoth | ios/Runner/Utils.swift:12 | the replacement works character by character: on a concatenation it is the concatenation |
| PhoneFormat.MergeIsTheLayout | ios/Runner/Utils.swift:11-21 | the merge is the unique string with the literals in place, the digits at the other places, and no trailing literal |
| PhoneFormat.MergeLength | ios/Runner/Utils.swift:13-19 | its length is the digit count plus the literals used |
| PhoneFormat.DigitsConserved | ios/Runner/Utils.swift:12-20 | formatting conserves the digits, each as often as it occurs, iff no literal it used is a digit, and then in order |
| PhoneFormat.MergeInjective | ios/Runner/Utils.swift:11-21 | the digits can be read off a formatted string: no two digit sequences are formatted alike |
| PhoneFormat.Idempotent | ios/Runner/Utils.swift:11-21 | formatting twice is formatting once iff no literal it used is a digit |
| PhoneFormat.EndsInTheLastDigit | ios/Runner/Utils.swift:14 | the result ends in the last digit, never in a literal |
| PhoneFormat.SurplusIsAppended | ios/Runner/Utils.swift:13-20 | digits beyond the holes follow the completely filled pattern |
| PhoneFormat.HandleKeepsDigits | ios/Runner/ProviderDelegate.swift:577-585 | both handle patterns keep every digit, as often as it occurs and in order |
| PhoneFormat.HandleText | ios/Runner/ProviderDelegate.swift:577-585 | the handle of a full number spelled out: area code in parentheses, space, three digits, dash, the rest, and beyond ten characters a plus and the first digit before it |
| PhoneFormat.HandleStable | ios/Runner/ProviderDelegate.swift:577-585 | the handle is stable under formatting iff it has no digits, or at most 6 for a raw length up to 10, or at least 6 for a longer one |
| PhoneFormat.TenDigitsUnstable | ios/Runner/ProviderDelegate.swift:577-585 | every plain ten-digit number fails that |

## Left out

- HybridRuns.Step: the bodies of the constructor and of `unref` are not part of the repository; a new object starts with one reference owned by its creator, as the comment at `object++.hh:105` says, and `unref` is taken as documented at `object.h:242-250`.
- HybridHeap.CppListFromCList: the overload that takes a conversion function, the const overloads, `clone` and `nullifyEmptyString` are not modelled; C++ lists and C lists are sequences.
- FixedPoint.PshrRounds: a shift of 31 is left out because `1 << 31` is undefined in C.
- FixedPointError.QConstRounds: the product in the macro is taken over the reals, not in floating point.
- FixedPointError.MultRefinesFloat: float rounding is left out; MULT16_32_Q12 and MUL_16_32_R15 have no float counterpart in the header.
- FixedPoint: the SATURATE, NEG, VSHR32, DIV32, DIV32_16 and plain shift macros, which round nothing, and the Blackfin assembly.
- CallUuid.UuidFromString: MD5 is an arbitrary function to 16 bytes, the random uuid for an empty string is a parameter, and the length of a string is its number of characters without grapheme clusters.
- CallUuid.DartCodeUnits: what the uuid package does with the 16 numbers is not part of this model.
- CallDelegate.Apply: whether linphone has an address and a log for a call, and default devices to report, are inputs; a call is taken to keep or lack its log and address for good. The unwraps of the core itself (`mCore!`), of the parameters in `outgoingCall` (line 389) and of what `setupLinphone` creates at start are left out.
- CallDelegate.Apply: the flags isCallRunning, isCallIncoming, canChangeCamera and remoteAddress, the Bluetooth route notice, audio-session calls, argument casts and log output are not part of the state; the arguments of notifications other than the uuid are dropped; the state of a call found by lpSetHold is an input; the follow-up of a granted start transaction (lines 592-606) is asynchronous and not modelled.
- CallDelegate: registration, TURN, transfer, DTMF, ending and muting a linphone call, echo tests and microphone settings, which only pass values on to a call that exists.
- PhoneFormat.ApplyPatternOnNumbers: strings are sequences of characters that take one UTF-16 unit each.
- The headers that only declare functions, AppDelegate, the contact and call-info streams and the Android side.
