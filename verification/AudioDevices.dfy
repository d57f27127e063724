/**
 The loops of ios/Runner/ProviderDelegate.swift that choose an audio device: each scans a
 device list, acts on every match, and so leaves the last match in force.
 */
module AudioDevices {
  import opened Wrappers

  datatype Kind = Microphone | Speaker | Bluetooth | OtherKind

  datatype Device = Device(id: string, kind: Kind)

  /** What a loop looks for. */
  datatype Wish = WithId(id: string) | OfKind(kind: Kind) | ForMode(speakerOn: bool, bluetoothOn: bool)

  /** In `toggleSpeaker`'s mode with both flags set, speakers and Bluetooth devices compete. */
  predicate Wanted(w: Wish, d: Device) {
    match w
    case WithId(id) => d.id == id
    case OfKind(kind) => d.kind == kind
    case ForMode(speakerOn, bluetoothOn) =>
      || (!speakerOn && !bluetoothOn && d.kind == Microphone)
      || (speakerOn && d.kind == Speaker)
      || (bluetoothOn && d.kind == Bluetooth)
  }

  function LastMatch(devices: seq<Device>, w: Wish): Option<Device> {
    if devices == [] then None
    else if Wanted(w, devices[|devices| - 1]) then Some(devices[|devices| - 1])
    else LastMatch(devices[..|devices| - 1], w)
  }

  ghost predicate LastAt(devices: seq<Device>, w: Wish, d: Device, i: nat) {
    i < |devices| && devices[i] == d && Wanted(w, d) && forall j :: i < j < |devices| ==> !Wanted(w, devices[j])
  }

  /** The device with the greatest index among those wanted, or none if there is none. */
  lemma {:induction false} LastMatchIsLast(devices: seq<Device>, w: Wish, d: Device)
    ensures LastMatch(devices, w) == Some(d) <==> exists i :: LastAt(devices, w, d, i)
    decreases |devices|
  {
    if devices != [] {
      var n := |devices| - 1;
      var front := devices[..n];
      assert forall j :: 0 <= j < n ==> front[j] == devices[j];
      if Wanted(w, devices[n]) {
        assert devices[n] == d ==> LastAt(devices, w, d, n);
      } else {
        LastMatchIsLast(front, w, d);
        assert forall i: nat :: LastAt(devices, w, d, i) <==> LastAt(front, w, d, i);
      }
    }
  }

  lemma {:induction false} Found(devices: seq<Device>, i: nat, w: Wish)
    requires i < |devices| && Wanted(w, devices[i])
    ensures LastMatch(devices, w).Some?
    decreases |devices|
  {
    if i < |devices| - 1 {
      Found(devices[..|devices| - 1], i, w);
    }
  }

  // ---- the same without the loops' own tests -----------------------------------------

  /** d is the device with this id that comes last. */
  ghost predicate LastWithId(devices: seq<Device>, id: string, d: Device) {
    exists i :: 0 <= i < |devices| && devices[i] == d && d.id == id
      && forall j :: i < j < |devices| ==> devices[j].id != id
  }

  ghost predicate UnknownId(devices: seq<Device>, id: string) {
    forall i :: 0 <= i < |devices| ==> devices[i].id != id
  }

  /** d is the device of one of these kinds that comes last. */
  ghost predicate LastOfKinds(devices: seq<Device>, kinds: set<Kind>, d: Device) {
    exists i :: 0 <= i < |devices| && devices[i] == d && d.kind in kinds
      && forall j :: i < j < |devices| ==> devices[j].kind !in kinds
  }

  ghost predicate NoneOfKinds(devices: seq<Device>, kinds: set<Kind>) {
    forall i :: 0 <= i < |devices| ==> devices[i].kind !in kinds
  }

  /** Without flags the microphone stands for the earpiece; with both, speakers and Bluetooth devices compete. */
  function KindsFor(speakerOn: bool, bluetoothOn: bool): set<Kind> {
    if !speakerOn && !bluetoothOn then {Microphone}
    else (if speakerOn then {Speaker} else {}) + (if bluetoothOn then {Bluetooth} else {})
  }

  lemma {:induction false} NoMatch(devices: seq<Device>, w: Wish)
    ensures LastMatch(devices, w).None? <==> forall i :: 0 <= i < |devices| ==> !Wanted(w, devices[i])
    decreases |devices|
  {
    if devices != [] {
      var front := devices[..|devices| - 1];
      NoMatch(front, w);
      assert forall i :: 0 <= i < |front| ==> front[i] == devices[i];
    }
  }

  lemma LastMatchById(devices: seq<Device>, id: string)
    ensures forall d :: LastWithId(devices, id, d) <==> LastMatch(devices, WithId(id)) == Some(d)
    ensures UnknownId(devices, id) <==> LastMatch(devices, WithId(id)).None?
  {
    var w := WithId(id);
    NoMatch(devices, w);
    forall d ensures LastWithId(devices, id, d) <==> LastMatch(devices, w) == Some(d) {
      LastMatchIsLast(devices, w, d);
      if LastWithId(devices, id, d) {
        var i :| 0 <= i < |devices| && devices[i] == d && d.id == id && forall j :: i < j < |devices| ==> devices[j].id != id;
        assert LastAt(devices, w, d, i);
      }
    }
  }

  lemma LastMatchByKind(devices: seq<Device>, w: Wish, kinds: set<Kind>)
    requires forall d :: Wanted(w, d) <==> d.kind in kinds
    ensures forall d :: LastOfKinds(devices, kinds, d) <==> LastMatch(devices, w) == Some(d)
    ensures NoneOfKinds(devices, kinds) <==> LastMatch(devices, w).None?
  {
    hide Wanted, LastMatch;
    NoMatch(devices, w);
    forall d ensures LastOfKinds(devices, kinds, d) <==> LastMatch(devices, w) == Some(d) {
      LastMatchIsLast(devices, w, d);
      if LastOfKinds(devices, kinds, d) {
        var i :| 0 <= i < |devices| && devices[i] == d && d.kind in kinds
          && forall j :: i < j < |devices| ==> devices[j].kind !in kinds;
        assert LastAt(devices, w, d, i);
      }
    }
  }

  lemma ModeMatches(devices: seq<Device>, speakerOn: bool, bluetoothOn: bool)
    ensures var w, kinds := ForMode(speakerOn, bluetoothOn), KindsFor(speakerOn, bluetoothOn);
      && (forall d :: LastOfKinds(devices, kinds, d) <==> LastMatch(devices, w) == Some(d))
      && (NoneOfKinds(devices, kinds) <==> LastMatch(devices, w).None?)
    ensures NoneOfKinds(devices, {Microphone}) <==> LastMatch(devices, OfKind(Microphone)).None?
    ensures NoneOfKinds(devices, {Speaker}) <==> LastMatch(devices, OfKind(Speaker)).None?
  {
    hide LastMatch, LastOfKinds, NoneOfKinds;
    LastMatchByKind(devices, ForMode(speakerOn, bluetoothOn), KindsFor(speakerOn, bluetoothOn));
    LastMatchByKind(devices, OfKind(Microphone), {Microphone});
    LastMatchByKind(devices, OfKind(Speaker), {Speaker});
  }

  class AudioCall {
    var inputDevice: Option<Device>
    var outputDevice: Option<Device>
  }

  class Core {
    var audioDevices: seq<Device>
    var extendedAudioDevices: seq<Device>
    var calls: seq<AudioCall>
    var currentCall: AudioCall?
    var defaultInput: Option<Device>
    var defaultOutput: Option<Device>
    // the delegate's own flags
    var isSpeakerEnabled: bool
    var isBluetoothOn: bool

    /** `lpSetDefaultOutput`: the default and every call end up on the same device. */
    method SetDefaultOutput(deviceId: string)
      modifies this`defaultOutput, calls`outputDevice
      ensures forall d :: LastWithId(extendedAudioDevices, deviceId, d) ==>
        defaultOutput == Some(d) && forall c :: c in calls ==> c.outputDevice == Some(d)
      ensures UnknownId(extendedAudioDevices, deviceId) ==>
        defaultOutput == old(defaultOutput) && forall c :: c in calls ==> c.outputDevice == old(c.outputDevice)
    {
      LastMatchById(extendedAudioDevices, deviceId);
      for i := 0 to |extendedAudioDevices|
        invariant var chosen := LastMatch(extendedAudioDevices[..i], WithId(deviceId));
          if chosen.Some?
          then defaultOutput == chosen && forall c :: c in calls ==> c.outputDevice == chosen
          else defaultOutput == old(defaultOutput) && forall c :: c in calls ==> c.outputDevice == old(c.outputDevice)
      {
        var device := extendedAudioDevices[i];
        assert extendedAudioDevices[..i + 1][..i] == extendedAudioDevices[..i];
        if device.id == deviceId {
          defaultOutput := Some(device);
          for j := 0 to |calls|
            invariant defaultOutput == Some(device)
            invariant forall k :: 0 <= k < j ==> calls[k].outputDevice == Some(device)
          {
            calls[j].outputDevice := Some(device);
          }
        }
      }
      assert extendedAudioDevices[..|extendedAudioDevices|] == extendedAudioDevices;
    }

    /** `lpSetDefaultInput`, its twin for the input side. */
    method SetDefaultInput(deviceId: string)
      modifies this`defaultInput, calls`inputDevice
      ensures forall d :: LastWithId(extendedAudioDevices, deviceId, d) ==>
        defaultInput == Some(d) && forall c :: c in calls ==> c.inputDevice == Some(d)
      ensures UnknownId(extendedAudioDevices, deviceId) ==>
        defaultInput == old(defaultInput) && forall c :: c in calls ==> c.inputDevice == old(c.inputDevice)
    {
      LastMatchById(extendedAudioDevices, deviceId);
      for i := 0 to |extendedAudioDevices|
        invariant var chosen := LastMatch(extendedAudioDevices[..i], WithId(deviceId));
          if chosen.Some?
          then defaultInput == chosen && forall c :: c in calls ==> c.inputDevice == chosen
          else defaultInput == old(defaultInput) && forall c :: c in calls ==> c.inputDevice == old(c.inputDevice)
      {
        var device := extendedAudioDevices[i];
        assert extendedAudioDevices[..i + 1][..i] == extendedAudioDevices[..i];
        if device.id == deviceId {
          defaultInput := Some(device);
          for j := 0 to |calls|
            invariant defaultInput == Some(device)
            invariant forall k :: 0 <= k < j ==> calls[k].inputDevice == Some(device)
          {
            calls[j].inputDevice := Some(device);
          }
        }
      }
      assert extendedAudioDevices[..|extendedAudioDevices|] == extendedAudioDevices;
    }

    /**
     `toggleSpeaker`.  The session's inputs are unwrapped first (None is nil, else the number
     of built-in microphones among them); choosing the microphone also takes element 0 of
     those, which fails when there is none.
     */
    method ToggleSpeaker(speakerOn: bool, bluetoothOn: bool, builtInMics: Option<nat>) returns (ok: bool)
      modifies this`isSpeakerEnabled, if currentCall == null then {} else {currentCall}
      ensures ok <==>
        builtInMics.Some? && (speakerOn || bluetoothOn || builtInMics.value > 0 || NoneOfKinds(audioDevices, {Microphone}))
      ensures ok && currentCall != null ==>
        && (forall d :: LastOfKinds(audioDevices, KindsFor(speakerOn, bluetoothOn), d) ==> currentCall.outputDevice == Some(d))
        && (NoneOfKinds(audioDevices, KindsFor(speakerOn, bluetoothOn)) ==>
             currentCall.outputDevice == old(currentCall.outputDevice))
        && currentCall.inputDevice == old(currentCall.inputDevice)
      ensures ok && speakerOn ==>
        isSpeakerEnabled == (old(isSpeakerEnabled) || !NoneOfKinds(audioDevices, {Speaker}))
      ensures ok && !speakerOn ==>
        isSpeakerEnabled == (old(isSpeakerEnabled) && (bluetoothOn || NoneOfKinds(audioDevices, {Microphone})))
    {
      hide LastMatch, Wanted, LastOfKinds, NoneOfKinds, KindsFor;
      ModeMatches(audioDevices, speakerOn, bluetoothOn);
      if builtInMics.None? {
        return false;
      }
      ok := SwitchDevices(speakerOn, bluetoothOn, builtInMics.value);
    }

    /** The loop of `toggleSpeaker` over the core's devices. */
    method SwitchDevices(speakerOn: bool, bluetoothOn: bool, builtInMics: nat) returns (ok: bool)
      modifies this`isSpeakerEnabled, if currentCall == null then {} else {currentCall}
      ensures ok <==> (speakerOn || bluetoothOn || builtInMics > 0 || LastMatch(audioDevices, OfKind(Microphone)).None?)
      ensures ok && currentCall != null ==>
        var chosen := LastMatch(audioDevices, ForMode(speakerOn, bluetoothOn));
        currentCall.outputDevice == (if chosen.Some? then chosen else old(currentCall.outputDevice))
        && currentCall.inputDevice == old(currentCall.inputDevice)
      ensures ok && speakerOn ==>
        isSpeakerEnabled == (old(isSpeakerEnabled) || LastMatch(audioDevices, OfKind(Speaker)).Some?)
      ensures ok && !speakerOn ==>
        isSpeakerEnabled == (old(isSpeakerEnabled) && (bluetoothOn || LastMatch(audioDevices, OfKind(Microphone)).None?))
    {
      for i := 0 to |audioDevices|
        invariant !speakerOn && !bluetoothOn && builtInMics == 0 ==>
          LastMatch(audioDevices[..i], OfKind(Microphone)).None?
        invariant currentCall != null ==>
          var chosen := LastMatch(audioDevices[..i], ForMode(speakerOn, bluetoothOn));
          currentCall.outputDevice == (if chosen.Some? then chosen else old(currentCall.outputDevice))
          && currentCall.inputDevice == old(currentCall.inputDevice)
        invariant speakerOn ==>
          isSpeakerEnabled == (old(isSpeakerEnabled) || LastMatch(audioDevices[..i], OfKind(Speaker)).Some?)
        invariant !speakerOn ==>
          isSpeakerEnabled == (old(isSpeakerEnabled) && (bluetoothOn || LastMatch(audioDevices[..i], OfKind(Microphone)).None?))
      {
        var audioDevice := audioDevices[i];
        assert audioDevices[..i + 1][..i] == audioDevices[..i];
        if !speakerOn && !bluetoothOn && audioDevice.kind == Microphone {
          if currentCall != null { currentCall.outputDevice := Some(audioDevice); }
          if builtInMics == 0 {
            Found(audioDevices, i, OfKind(Microphone));
            return false;
          }
          isSpeakerEnabled := false;
        } else if speakerOn && audioDevice.kind == Speaker {
          if currentCall != null { currentCall.outputDevice := Some(audioDevice); }
          isSpeakerEnabled := true;
        } else if bluetoothOn && audioDevice.kind == Bluetooth {
          if currentCall != null { currentCall.outputDevice := Some(audioDevice); }
        }
      }
      assert audioDevices[..|audioDevices|] == audioDevices;
      ok := true;
    }

    /** `toggleBluetooth`: the flag is only ever set. */
    method ToggleBluetooth()
      modifies this`isBluetoothOn, if currentCall == null then {} else {currentCall}
      ensures isBluetoothOn == (old(isBluetoothOn) || !NoneOfKinds(audioDevices, {Bluetooth}))
      ensures currentCall != null ==>
        && (forall d :: LastOfKinds(audioDevices, {Bluetooth}, d) ==> currentCall.outputDevice == Some(d))
        && (NoneOfKinds(audioDevices, {Bluetooth}) ==> currentCall.outputDevice == old(currentCall.outputDevice))
        && currentCall.inputDevice == old(currentCall.inputDevice)
    {
      LastMatchByKind(audioDevices, OfKind(Bluetooth), {Bluetooth});
      for i := 0 to |audioDevices|
        invariant var chosen := LastMatch(audioDevices[..i], OfKind(Bluetooth));
          && isBluetoothOn == (old(isBluetoothOn) || chosen.Some?)
          && (currentCall != null ==>
               currentCall.outputDevice == (if chosen.Some? then chosen else old(currentCall.outputDevice))
               && currentCall.inputDevice == old(currentCall.inputDevice))
      {
        assert audioDevices[..i + 1][..i] == audioDevices[..i];
        if audioDevices[i].kind == Bluetooth {
          if currentCall != null { currentCall.outputDevice := Some(audioDevices[i]); }
          isBluetoothOn := true;
        }
      }
      assert audioDevices[..|audioDevices|] == audioDevices;
    }
  }
}
