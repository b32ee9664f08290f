/** What a listener of a publication gives to its writer, as a log, and what makes a log good to
    play: notifications in turn, no video before a key frame, codec settings before the frames that
    need them, and times that never go back. */
module MediaLog {

  import Codec

  type Packet = seq<Codec.byte>

  datatype Kind = Audio | Video

  predicate IsKeyFrame(packet: Packet) {
    |packet| > 0 && packet[0] as int / 16 == 1
  }

  predicate IsCodecInfos(kind: Kind, packet: Packet) {
    |packet| > 1 && packet[1] == 0 && (if kind == Video then packet[0] == 0x17 else packet[0] as int / 16 == 10)
  }

  // The messages given to the writer, and marks for what did not reach it: a loss reported by the
  // publisher, a frame withheld because its kind was not asked for, what the peer asks for.
  // `input` is the time the frame came with, `time` the one it was given.
  datatype Event =
    | Init
    | Start
    | Stop
    | Loss
    | Withheld(kind: Kind)
    | Asked(audio: bool, video: bool)
    | Sent(kind: Kind, input: nat, time: nat, packet: Packet)

  type Log = seq<Event>

  function Before(log: Log): Log
    requires log != []
  {
    log[..|log| - 1]
  }

  function Last(log: Log): Event
    requires log != []
  {
    log[|log| - 1]
  }

  lemma AddedLast(log: Log, e: Event)
    ensures Before(log + [e]) == log && Last(log + [e]) == e
  {
  }

  // ----- notifications -----

  ghost predicate Playing(log: Log) {
    log != [] && (Last(log).Start? || (!Last(log).Stop? && Playing(Before(log))))
  }

  // START and STOP alternate, and frames come only between them.
  ghost predicate Bracketed(log: Log) {
    log == [] ||
    (Bracketed(Before(log))
     && (Last(log).Start? ==> !Playing(Before(log)))
     && (Last(log).Stop? || Last(log).Sent? ==> Playing(Before(log))))
  }

  // ----- key frames -----

  // A key frame was written since the latest start, loss or withheld video frame.
  ghost predicate KeySince(log: Log) {
    log != [] &&
    match Last(log)
    case Start => false
    case Loss => false
    case Withheld(kind) => kind == Audio && KeySince(Before(log))
    case Sent(kind, _, _, packet) => (kind == Video && IsKeyFrame(packet)) || KeySince(Before(log))
    case _ => KeySince(Before(log))
  }

  ghost predicate Gated(log: Log) {
    log == [] ||
    (Gated(Before(log))
     && (Last(log).Sent? && Last(log).kind == Video ==> IsKeyFrame(Last(log).packet) || KeySince(Before(log))))
  }

  // The same, but for a key frame that was written before the video was last turned off.
  ghost predicate KeySinceOff(log: Log) {
    log != [] &&
    match Last(log)
    case Start => false
    case Loss => false
    case Withheld(kind) => kind == Audio && KeySinceOff(Before(log))
    case Asked(_, video) => video && KeySinceOff(Before(log))
    case Sent(kind, _, _, packet) => (kind == Video && IsKeyFrame(packet)) || KeySinceOff(Before(log))
    case _ => KeySinceOff(Before(log))
  }

  // Whoever turns video off and on again gets no video before a key frame.
  ghost predicate GatedSinceOff(log: Log) {
    log == [] ||
    (GatedSinceOff(Before(log)) && (IsInterFrame(Last(log)) ==> KeySinceOff(Before(log))))
  }

  predicate IsInterFrame(e: Event) {
    e.Sent? && e.kind == Video && !IsKeyFrame(e.packet)
  }

  // What closes the gate, or opens it.
  predicate MovesGate(e: Event) {
    e.Start? || e.Loss? || e == Withheld(Video) || (e.Sent? && e.kind == Video && IsKeyFrame(e.packet))
  }

  // Video was turned off, and nothing has moved the gate since: no frame came while it was off.
  ghost predicate OffUnnoticed(log: Log) {
    exists i :: 0 <= i < |log| && log[i].Asked? && !log[i].video && forall j :: i < j < |log| ==> !MovesGate(log[j])
  }

  lemma OffUnnoticedStep(log: Log)
    requires log != []
    ensures OffUnnoticed(log)
       <==> (Last(log).Asked? && !Last(log).video) || (!MovesGate(Last(log)) && OffUnnoticed(Before(log)))
  {
    if OffUnnoticed(log) {
      var i :| 0 <= i < |log| && log[i].Asked? && !log[i].video && forall j :: i < j < |log| ==> !MovesGate(log[j]);
      if i < |log| - 1 {
        assert Before(log)[i] == log[i];
        assert forall j :: i < j < |log| - 1 ==> Before(log)[j] == log[j];
      }
    }
    if Last(log).Asked? && !Last(log).video {
      assert log[|log| - 1].Asked?;
    } else if !MovesGate(Last(log)) && OffUnnoticed(Before(log)) {
      OffStaysUnnoticed(log);
    }
  }

  lemma OffStaysUnnoticed(log: Log)
    requires log != [] && !MovesGate(Last(log)) && OffUnnoticed(Before(log))
    ensures OffUnnoticed(log)
  {
    var before := Before(log);
    var i :| 0 <= i < |before| && before[i].Asked? && !before[i].video
             && forall j :: i < j < |before| ==> !MovesGate(before[j]);
    assert log[i] == before[i];
    forall j | i < j < |log| ensures !MovesGate(log[j]) {
      if j < |log| - 1 {
        assert log[j] == before[j];
      }
    }
  }

  lemma {:induction false} KeySinceOffExactly(log: Log)
    ensures KeySinceOff(log) <==> KeySince(log) && !OffUnnoticed(log)
  {
    if log != [] {
      KeySinceOffExactly(Before(log));
      OffUnnoticedStep(log);
    }
  }

  // No frame but a key one is written after video was turned off unnoticed.
  ghost predicate OffsNoticed(log: Log) {
    forall k :: 0 <= k < |log| && IsInterFrame(log[k]) ==> !OffUnnoticed(log[..k])
  }

  lemma OffsNoticedStep(log: Log)
    requires log != []
    ensures OffsNoticed(log) <==> OffsNoticed(Before(log)) && (IsInterFrame(Last(log)) ==> !OffUnnoticed(Before(log)))
  {
    var before := Before(log);
    assert forall k :: 0 <= k < |before| ==> before[k] == log[k] && before[..k] == log[..k];
    assert log[|log| - 1] == Last(log) && log[..|log| - 1] == before;
  }

  /** After video was turned off and on again nothing but a key frame comes first, if and only if each
      time something moved the gate before the next frame that is not one: a frame that was withheld,
      a start, a loss or a key frame. */
  lemma {:induction false} GatedSinceOffExactly(log: Log)
    requires Gated(log)
    ensures GatedSinceOff(log) <==> OffsNoticed(log)
  {
    if log != [] {
      GatedSinceOffExactly(Before(log));
      OffsNoticedStep(log);
      KeySinceOffExactly(Before(log));
    }
  }

  // ----- codec settings -----

  // The latest codec settings written since the latest start, if any.
  ghost function Settings(log: Log, kind: Kind): Packet {
    if log == [] || Last(log).Start? then []
    else if Last(log).Sent? && Last(log).kind == kind && IsCodecInfos(kind, Last(log).packet) then Last(log).packet
    else Settings(Before(log), kind)
  }

  // ----- times -----

  /** The clock of a listener, which makes the times of successive publishers one timeline. */
  datatype Clock = Clock(delta: nat, adding: nat, time: nat, first: bool)

  function ExactTime(c: Clock, input: nat): nat {
    if c.first || c.delta > input then c.adding else input - c.delta + c.adding
  }

  function Tick(c: Clock, input: nat): Clock {
    Clock(if c.first || c.delta > input then input else c.delta, c.adding, ExactTime(c, input) % 0x1_0000_0000, false)
  }

  function After(c: Clock, e: Event): Clock {
    match e
    case Init => c.(adding := 0, time := 0, first := true)
    case Stop => c.(delta := 0, adding := c.time)
    case Sent(_, input, _, _) => Tick(c, input)
    case _ => c
  }

  ghost function Replay(log: Log): Clock {
    if log == [] then Clock(0, 0, 0, true) else After(Replay(Before(log)), Last(log))
  }

  // Every frame has the time the clock gives for the one it came with.
  ghost predicate Timed(log: Log) {
    log == [] ||
    (Timed(Before(log)) && (Last(log).Sent? ==> Last(log).time == Tick(Replay(Before(log)), Last(log).input).time))
  }

  // No time needs more than 32 bits.
  ghost predicate Fits(log: Log) {
    log == [] ||
    (Fits(Before(log)) && (Last(log).Sent? ==> ExactTime(Replay(Before(log)), Last(log).input) < 0x1_0000_0000))
  }

  // The time of the latest frame since the latest initialisation.
  ghost function Latest(log: Log): nat {
    if log == [] || Last(log).Init? then 0
    else if Last(log).Sent? then Last(log).time
    else Latest(Before(log))
  }

  // Between initialisations, times never go back.
  ghost predicate Ascending(log: Log) {
    log == [] || (Ascending(Before(log)) && (Last(log).Sent? ==> Last(log).time >= Latest(Before(log))))
  }

  // A frame came since the latest initialisation.
  ghost predicate Begun(log: Log) {
    log != [] && !Last(log).Init? && (Last(log).Sent? || Begun(Before(log)))
  }

  // The time the latest frame of this publisher came with, or -1 before the first.
  ghost function Previous(log: Log): int {
    if log == [] || Last(log).Init? || Last(log).Stop? then -1
    else if Last(log).Sent? then Last(log).input
    else Previous(Before(log))
  }

  // The lowest time that came from the first publisher heard since the latest initialisation; 0
  // for the later ones.
  ghost function Base(log: Log): nat {
    if log == [] || Last(log).Init? || Last(log).Stop? then 0
    else if Last(log).Sent? then
      if Begun(Before(log)) && Base(Before(log)) <= Last(log).input then Base(Before(log)) else Last(log).input
    else Base(Before(log))
  }

  // The times of one publisher do not go back, unless its latest is still the lowest.
  ghost predicate Orderly(log: Log) {
    log == [] ||
    (Orderly(Before(log))
     && (Last(log).Sent? ==> Last(log).input >= Previous(Before(log)) || Previous(Before(log)) == Base(Before(log))))
  }

  // What the clock knows, said of the log.
  ghost predicate ClockReads(log: Log, c: Clock) {
    && c.first == !Begun(log) && c.time == Latest(log)
    && (Begun(log) ==>
          && c.delta == Base(log)
          && c.time == c.adding + if Previous(log) < 0 then 0 else Previous(log) - Base(log))
    && (!Begun(log) ==> c.time == 0 && c.adding == 0 && Previous(log) < 0)
    && (Previous(log) < 0 || Previous(log) >= Base(log))
  }

  lemma {:induction false} ClockReadsLog(log: Log)
    requires Timed(log) && Fits(log)
    ensures ClockReads(log, Replay(log))
  {
    if log != [] {
      ClockReadsLog(Before(log));
    }
  }

  /** Times ascend exactly when each publisher's do, whatever publishers come and go. */
  lemma {:induction false} TimesAscendExactly(log: Log)
    requires Timed(log) && Fits(log)
    ensures Ascending(log) <==> Orderly(log)
  {
    if log != [] {
      ClockReadsLog(Before(log));
      TimesAscendExactly(Before(log));
    }
  }
}
