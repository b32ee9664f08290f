/** A listener of a publication: it holds back video until a key frame, sends codec settings first,
    and puts successive publishers on one timeline. */
module Listening {

  import opened MediaLog

  /** What a listener needs to know of its publication. */
  datatype Stage = Stage(present: bool, keyed: bool, audioCodec: Packet, videoCodec: Packet) {
    function CodecOf(kind: Kind): Packet {
      if kind == Audio then audioCodec else videoCodec
    }

    // The publication keeps the settings that come, before it passes them on.
    function Keeping(kind: Kind, packet: Packet): Stage {
      if !IsCodecInfos(kind, packet) then this
      else if kind == Audio then this.(audioCodec := packet)
      else this.(videoCodec := packet)
    }

    predicate Valid() {
      && (audioCodec == [] || (present && IsCodecInfos(Audio, audioCodec)))
      && (videoCodec == [] || (present && IsCodecInfos(Video, videoCodec)))
    }
  }

  datatype Listening = Listening(
    receiveAudio: bool, receiveVideo: bool, firstKeyFrame: bool, firstAudio: bool, firstVideo: bool,
    ready: bool, clock: Clock, stamp: int, dropped: nat, log: Log)
  {
    predicate First(kind: Kind) {
      if kind == Audio then firstAudio else firstVideo
    }

    function Logs(e: Event): Listening {
      this.(log := log + [e])
    }

    function Asking(audio: bool, video: bool): Listening {
      this.(receiveAudio := audio, receiveVideo := video).Logs(Asked(audio, video))
    }

    function Started(now: int): Listening {
      this.(firstKeyFrame := false, stamp := now).Logs(Start)
    }

    function Stopped(): Listening {
      this.(clock := After(clock, Stop), dropped := 0).Logs(Stop)
    }

    function Opened(now: int): Listening {
      if ready then this else this.(ready := true, clock := After(clock, Init), stamp := now).Logs(Init)
    }

    // The time a frame counts for: its own, or else the time since the start.
    function Input(time: nat, now: int): nat {
      if time == 0 then (now - stamp) % 0x1_0000_0000 else time
    }

    function Gave(kind: Kind, packet: Packet, input: nat): Listening {
      var clock' := Tick(clock, input);
      this.(clock := clock', firstAudio := firstAudio && kind != Audio, firstVideo := firstVideo && kind != Video)
          .Logs(Sent(kind, input, clock'.time, packet))
    }

    // A frame is written, after the codec settings when it is the first of its kind.
    function Wrote(kind: Kind, packet: Packet, input: nat, codec: Packet): Listening {
      if First(kind) && !IsCodecInfos(kind, packet) && codec != []
      then Gave(kind, codec, input).Gave(kind, packet, input)
      else Gave(kind, packet, input)
    }

    function PushedAudio(packet: Packet, time: nat, now: int, codec: Packet): Listening {
      if !receiveAudio then this.(firstAudio := true).Logs(Withheld(Audio))
      else Opened(now).Wrote(Audio, packet, Opened(now).Input(time, now), codec)
    }

    predicate Admits(packet: Packet) {
      receiveVideo && (firstKeyFrame || IsKeyFrame(packet))
    }

    // Nothing passes before a key frame.
    function Gate(packet: Packet, now: int): Listening {
      if !receiveVideo then this.(firstKeyFrame := false, firstVideo := true).Logs(Withheld(Video))
      else if Admits(packet) then Opened(now).(firstKeyFrame := true)
      else Opened(now).(dropped := dropped + 1)
    }

    function PushedVideo(packet: Packet, time: nat, now: int, codec: Packet): Listening {
      var gated := Gate(packet, now);
      if Admits(packet) then gated.Wrote(Video, packet, gated.Input(time, now), codec) else gated
    }
  }

  const NEW_LISTENER := Listening(true, true, false, true, true, false, Clock(0, 0, 0, true), 0, 0, [])

  // ----- what always holds of a listener -----

  ghost predicate Notified(l: Listening, s: Stage) {
    Bracketed(l.log) && (Playing(l.log) <==> s.present)
  }

  ghost predicate Guarded(l: Listening, s: Stage) {
    Gated(l.log) && (l.firstKeyFrame && s.keyed ==> KeySince(l.log))
  }

  ghost predicate Clocked(l: Listening) {
    Timed(l.log) && l.clock == Replay(l.log)
  }

  // Once it has sent a frame, the settings it sent are the publication's.
  ghost predicate Configured(l: Listening, s: Stage) {
    && (forall kind: Kind :: !l.First(kind) && s.CodecOf(kind) != [] ==> Settings(l.log, kind) == s.CodecOf(kind))
    && (l.log != [] && Last(l.log).Sent? ==> !l.First(Last(l.log).kind))
  }

  ghost predicate Sound(l: Listening, s: Stage) {
    Notified(l, s) && Guarded(l, s) && Clocked(l) && Configured(l, s)
  }

  lemma NewIsSound(s: Stage)
    requires s.Valid() && !s.present
    ensures Sound(NEW_LISTENER, s)
  {
  }

  // One that comes while someone publishes.
  lemma NewcomerIsSound(now: int, s: Stage)
    requires s.present
    ensures Sound(NEW_LISTENER.Started(now), s)
  {
    AddedLast([], Start);
  }

  lemma StartedIsSound(l: Listening, now: int, s: Stage)
    requires Sound(l, s) && s.Valid() && !s.present
    ensures Sound(l.Started(now), s.(present := true, keyed := false))
  {
    AddedLast(l.log, Start);
  }

  lemma StoppedIsSound(l: Listening, s: Stage)
    requires Sound(l, s) && s.Valid() && s.present
    ensures Sound(l.Stopped(), s.(present := false, audioCodec := [], videoCodec := []))
  {
    AddedLast(l.log, Stop);
  }

  lemma AskingIsSound(l: Listening, audio: bool, video: bool, s: Stage)
    requires Sound(l, s)
    ensures Sound(l.Asking(audio, video), s)
  {
    AddedLast(l.log, Asked(audio, video));
  }

  lemma LostIsSound(l: Listening, s: Stage)
    requires Sound(l, s) && s.Valid()
    ensures Sound(l.Logs(Loss), s.(keyed := false))
  {
    AddedLast(l.log, Loss);
  }

  lemma OpenedIsSound(l: Listening, now: int, s: Stage)
    requires Sound(l, s)
    ensures Sound(l.Opened(now), s)
  {
    AddedLast(l.log, Init);
  }

  // All that holds of a listener, and a key frame on the way for a video frame to be written.
  ghost predicate Ready(l: Listening, kind: Kind, packet: Packet, s: Stage) {
    && s.present && Notified(l, s) && Clocked(l) && Configured(l, s) && Gated(l.log)
    && (if kind == Video then IsKeyFrame(packet) || KeySince(l.log) else Guarded(l, s))
  }

  lemma GaveIsSound(l: Listening, kind: Kind, packet: Packet, input: nat, s: Stage)
    requires Ready(l, kind, packet, s)
    requires IsCodecInfos(kind, packet) || !l.First(kind) || s.CodecOf(kind) == []
    ensures var l' := l.Gave(kind, packet, input);
            Sound(l', s.Keeping(kind, packet)) && !l'.First(kind) && (kind == Video ==> KeySince(l'.log))
  {
    AddedLast(l.log, Sent(kind, input, Tick(l.clock, input).time, packet));
  }

  lemma WroteIsSound(l: Listening, kind: Kind, packet: Packet, input: nat, s: Stage)
    requires s.Valid() && Ready(l, kind, packet, s)
    ensures var l' := l.Wrote(kind, packet, input, s.Keeping(kind, packet).CodecOf(kind));
            Sound(l', s.Keeping(kind, packet)) && (kind == Video ==> KeySince(l'.log))
  {
    var codec := s.CodecOf(kind);
    if l.First(kind) && !IsCodecInfos(kind, packet) && codec != [] {
      GaveIsSound(l, kind, codec, input, s);
      GaveIsSound(l.Gave(kind, codec, input), kind, packet, input, s);
    } else {
      GaveIsSound(l, kind, packet, input, s);
    }
  }

  lemma WithheldIsSound(l: Listening, kind: Kind, packet: Packet, s: Stage)
    requires Sound(l, s)
    ensures var l' := if kind == Audio then l.(firstAudio := true) else l.(firstKeyFrame := false, firstVideo := true);
            Sound(l'.Logs(Withheld(kind)), s.Keeping(kind, packet))
  {
    AddedLast(l.log, Withheld(kind));
  }

  lemma PushedAudioIsSound(l: Listening, packet: Packet, time: nat, now: int, s: Stage)
    requires Sound(l, s) && s.Valid() && s.present
    ensures var s' := s.Keeping(Audio, packet); Sound(l.PushedAudio(packet, time, now, s'.audioCodec), s')
  {
    if l.receiveAudio {
      OpenedIsSound(l, now, s);
      WroteIsSound(l.Opened(now), Audio, packet, l.Opened(now).Input(time, now), s);
    } else {
      WithheldIsSound(l, Audio, packet, s);
    }
  }

  lemma GateIsSound(l: Listening, packet: Packet, now: int, s: Stage)
    requires Sound(l, s) && s.present && (s.keyed || IsKeyFrame(packet))
    ensures var l' := l.Gate(packet, now);
            if l.Admits(packet) then Ready(l', Video, packet, s)
            else Sound(l', s.Keeping(Video, packet)) && !l'.firstKeyFrame
  {
    if l.receiveVideo {
      OpenedIsSound(l, now, s);
    } else {
      WithheldIsSound(l, Video, packet, s);
    }
  }

  lemma PushedVideoIsSound(l: Listening, packet: Packet, time: nat, now: int, s: Stage)
    requires Sound(l, s) && s.Valid() && s.present && (s.keyed || IsKeyFrame(packet))
    ensures var s' := s.Keeping(Video, packet);
            Sound(l.PushedVideo(packet, time, now, s'.videoCodec), s'.(keyed := true))
  {
    GateIsSound(l, packet, now, s);
    var gated := l.Gate(packet, now);
    if l.Admits(packet) {
      WroteIsSound(gated, Video, packet, gated.Input(time, now), s);
      KeyedIsSound(l.PushedVideo(packet, time, now, s.Keeping(Video, packet).videoCodec), s.Keeping(Video, packet));
    } else {
      KeyedIsSound(gated, s.Keeping(Video, packet));
    }
  }

  lemma KeyedIsSound(l: Listening, s: Stage)
    requires Sound(l, s) && (l.firstKeyFrame ==> KeySince(l.log))
    ensures Sound(l, s.(keyed := true))
  {
    assert forall kind: Kind :: s.(keyed := true).CodecOf(kind) == s.CodecOf(kind);
  }

  // ----- the program -----

  class Listener {
    var receiveAudio: bool
    var receiveVideo: bool
    var firstKeyFrame: bool
    var firstAudio: bool
    var firstVideo: bool
    var firstTime: bool
    // The audio, video and data writers exist.
    var ready: bool
    var deltaTime: nat
    var addingTime: nat
    var time: nat
    var stamp: int
    var droppedFrames: nat
    var log: Log

    ghost function Ticking(): Clock
      reads this
    {
      Clock(deltaTime, addingTime, time, firstTime)
    }

    ghost function State(): Listening
      reads this
    {
      Listening(receiveAudio, receiveVideo, firstKeyFrame, firstAudio, firstVideo, ready, Ticking(), stamp,
                droppedFrames, log)
    }

    constructor ()
      ensures State() == NEW_LISTENER
    {
      receiveAudio, receiveVideo, firstKeyFrame := true, true, false;
      firstAudio, firstVideo, firstTime, ready := true, true, true, false;
      deltaTime, addingTime, time, stamp, droppedFrames, log := 0, 0, 0, 0, 0, [];
    }

    method WriteMedia(e: Event)
      modifies this`log
      ensures log == old(log) + [e]
    {
      log := log + [e];
    }

    method Initialise(now: int)
      requires !ready
      modifies this
      ensures State() == old(State()).Opened(now)
    {
      WriteMedia(Init);
      ready := true;
      time := 0;
      addingTime := 0;
      stamp := now;
      firstTime := true;
    }

    method ComputeTime(given: nat, now: int) returns (input: nat)
      requires given < 0x1_0000_0000
      modifies this`firstTime, this`deltaTime, this`time
      ensures input == old(State()).Input(given, now) && Ticking() == Tick(old(Ticking()), input)
    {
      input := if given == 0 then (now - stamp) % 0x1_0000_0000 else given;
      if firstTime {
        deltaTime := input;
        firstTime := false;
      }
      if deltaTime > input {
        deltaTime := input;
      }
      time := (input - deltaTime + addingTime) % 0x1_0000_0000;
    }

    // What the peer wants to receive.
    method Ask(audio: bool, video: bool)
      modifies this
      ensures State() == old(State()).Asking(audio, video)
    {
      receiveAudio, receiveVideo := audio, video;
      WriteMedia(Asked(audio, video));
    }

    method StartPublishing(now: int)
      modifies this
      ensures State() == old(State()).Started(now)
    {
      WriteMedia(Start);
      firstKeyFrame := false;
      stamp := now;
    }

    method StopPublishing()
      modifies this
      ensures State() == old(State()).Stopped()
    {
      deltaTime := 0;
      addingTime := time;
      droppedFrames := 0;
      WriteMedia(Stop);
    }

    // The frame goes out, after the settings when it is the first.
    method WriteAudio(packet: Packet, given: nat, now: int, codec: Packet)
      requires given < 0x1_0000_0000
      modifies this
      ensures State() == old(State()).Wrote(Audio, packet, old(State()).Input(given, now), codec)
    {
      var input := ComputeTime(given, now);
      if firstAudio {
        firstAudio := false;
        if !IsCodecInfos(Audio, packet) && codec != [] {
          WriteMedia(Sent(Audio, input, time, codec));
        }
      }
      WriteMedia(Sent(Audio, input, time, packet));
    }

    // `codec` is the publication's buffer of audio settings.
    method PushAudioPacket(packet: Packet, given: nat, now: int, codec: Packet)
      requires given < 0x1_0000_0000
      modifies this
      ensures State() == old(State()).PushedAudio(packet, given, now, codec)
    {
      if !receiveAudio {
        firstAudio := true;
        WriteMedia(Withheld(Audio));
        return;
      }
      if !ready {
        Initialise(now);
      }
      WriteAudio(packet, given, now, codec);
    }

    // The frame goes out, after the settings when it is the first.
    method WriteVideo(packet: Packet, given: nat, now: int, codec: Packet)
      requires given < 0x1_0000_0000
      modifies this
      ensures State() == old(State()).Wrote(Video, packet, old(State()).Input(given, now), codec)
    {
      var input := ComputeTime(given, now);
      if firstVideo {
        firstVideo := false;
        if !IsCodecInfos(Video, packet) && codec != [] {
          WriteMedia(Sent(Video, input, time, codec));
        }
      }
      WriteMedia(Sent(Video, input, time, packet));
    }

    // Whether a video frame may pass.
    method PassGate(packet: Packet, now: int) returns (admitted: bool)
      modifies this
      ensures admitted == old(State()).Admits(packet) && State() == old(State()).Gate(packet, now)
    {
      if !receiveVideo {
        firstKeyFrame := false;
        firstVideo := true;
        WriteMedia(Withheld(Video));
        return false;
      }
      if !ready {
        Initialise(now);
      }
      if IsKeyFrame(packet) {
        firstKeyFrame := true;
      }
      if !firstKeyFrame {
        droppedFrames := droppedFrames + 1;
        return false;
      }
      return true;
    }

    // `codec` is the publication's buffer of video settings.
    method PushVideoPacket(packet: Packet, given: nat, now: int, codec: Packet)
      requires given < 0x1_0000_0000
      modifies this
      ensures State() == old(State()).PushedVideo(packet, given, now, codec)
    {
      var admitted := PassGate(packet, now);
      if admitted {
        WriteVideo(packet, given, now, codec);
      }
    }
  }
}
