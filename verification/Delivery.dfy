/** What a frame that is published comes to for each listener, over whole runs. */
module Delivery {
  import opened MediaLog
  import opened Listening
  import opened Publishing
  import opened Invoking

  // ----- what becomes of a frame in a log -----

  // The frame is written at once, with its own time if it has one; all that may come before is a
  // loss, the opening of the writers, and settings of its kind at the same time.
  ghost predicate GoesOut(log: Log, log': Log, kind: Kind, packet: Packet, time: nat) {
    && |log| < |log'| && log'[..|log|] == log
    && Last(log').Sent? && Last(log').kind == kind && Last(log').packet == packet
    && (time != 0 ==> Last(log').input == time)
    && forall i :: |log| <= i < |log'| - 1 ==> Precedes(log'[i], kind, Last(log').input)
  }

  predicate Precedes(e: Event, kind: Kind, input: nat) {
    e.Init? || e.Loss? || (e.Sent? && e.kind == kind && IsCodecInfos(kind, e.packet) && e.input == input)
  }

  // Nothing is written.
  ghost predicate StaysBack(log: Log, log': Log) {
    |log| <= |log'| && log'[..|log|] == log && forall i :: |log| <= i < |log'| ==> !log'[i].Sent?
  }

  lemma WroteGoesOut(l: Listening, kind: Kind, packet: Packet, input: nat, codec: Packet)
    requires codec == [] || IsCodecInfos(kind, codec)
    ensures var l' := l.Wrote(kind, packet, input, codec);
            GoesOut(l.log, l'.log, kind, packet, input) && Last(l'.log).input == input
  {
    var l' := l.Wrote(kind, packet, input, codec);
    assert l'.log[..|l.log|] == l.log;
  }

  lemma GoesOutLater(log0: Log, e: Event, log': Log, kind: Kind, packet: Packet, input: nat, time: nat)
    requires GoesOut(log0 + [e], log', kind, packet, input) && (e.Init? || e.Loss?)
    requires Last(log').input == input && (time != 0 ==> input == time)
    ensures GoesOut(log0, log', kind, packet, time)
  {
    assert log'[..|log0| + 1] == log0 + [e];
    assert log'[|log0|] == e;
    assert log'[..|log0|] == log'[..|log0| + 1][..|log0|];
  }

  lemma OpenedGoesOut(l: Listening, now: int, kind: Kind, packet: Packet, time: nat, codec: Packet, gated: Listening)
    requires codec == [] || IsCodecInfos(kind, codec)
    requires gated.log == l.Opened(now).log
    ensures GoesOut(l.log, gated.Wrote(kind, packet, gated.Input(time, now), codec).log, kind, packet, time)
  {
    var input := gated.Input(time, now);
    WroteGoesOut(gated, kind, packet, input, codec);
    if !l.ready {
      GoesOutLater(l.log, Init, gated.Wrote(kind, packet, input, codec).log, kind, packet, input, time);
    }
  }

  lemma AudioPushed(l: Listening, packet: Packet, time: nat, now: int, codec: Packet)
    requires codec == [] || IsCodecInfos(Audio, codec)
    ensures var log' := l.PushedAudio(packet, time, now, codec).log;
            if l.receiveAudio then GoesOut(l.log, log', Audio, packet, time) else log' == l.log + [Withheld(Audio)]
  {
    if l.receiveAudio {
      OpenedGoesOut(l, now, Audio, packet, time, codec, l.Opened(now));
    }
  }

  lemma VideoPushed(l: Listening, packet: Packet, time: nat, now: int, codec: Packet)
    requires codec == [] || IsCodecInfos(Video, codec)
    ensures var log' := l.PushedVideo(packet, time, now, codec).log;
            if l.Admits(packet) then GoesOut(l.log, log', Video, packet, time) else StaysBack(l.log, log')
  {
    if l.Admits(packet) {
      OpenedGoesOut(l, now, Video, packet, time, codec, l.Gate(packet, now));
    } else {
      var log' := l.Gate(packet, now).log;
      assert log'[..|l.log|] == l.log;
    }
  }

  // ----- what a listener asks for, as the requests say -----

  // The latest wish of a peer since it subscribed: audio and video, both at first.
  function Wants(run: seq<Request>, name: Name, peer: Peer): (bool, bool) {
    if run == [] then (true, true)
    else
      var before, op := run[..|run| - 1], run[|run| - 1].op;
      if op.Ask? && op.name == name && op.peer == peer then (op.audio, op.video)
      else if op.Subscribe? && op.name == name && op.peer == peer && (name, peer) !in RollAfter(before).subscribers
      then (true, true)
      else Wants(before, name, peer)
  }

  function Wishes(l: Listening): (bool, bool) {
    (l.receiveAudio, l.receiveVideo)
  }

  // The same listeners, with the wishes they had.
  ghost predicate SameWishes(p: Publishing, p': Publishing) {
    && p'.listeners.Keys == p.listeners.Keys
    && forall q :: q in p.listeners ==> Wishes(p'.listeners[q]) == Wishes(p.listeners[q])
  }

  lemma NotifyingKeepsWishes(p: Publishing, peer: Peer, allowed: bool, now: int)
    ensures SameWishes(p, p.Begin(peer, allowed, now)) && SameWishes(p, p.End(peer))
  {
  }

  lemma HeardKeepsWishes(p: Publishing, packet: Packet, time: nat, now: int)
    ensures SameWishes(p, p.Heard(packet, time, now))
  {
    var codec := p.AsStage().Keeping(Audio, packet).audioCodec;
    forall q | q in p.listeners
      ensures Wishes(p.listeners[q].PushedAudio(packet, time, now, codec)) == Wishes(p.listeners[q]) {
      HearingKeepsWishes(p.listeners[q], packet, time, now, codec);
    }
  }

  lemma HearingKeepsWishes(l: Listening, packet: Packet, time: nat, now: int, codec: Packet)
    ensures Wishes(l.PushedAudio(packet, time, now, codec)) == Wishes(l)
  {
  }

  lemma LossyKeepsWishes(p: Publishing, lost: nat)
    ensures SameWishes(p, p.Lossy(lost))
  {
  }

  lemma SeenKeepsWishes(p: Publishing, packet: Packet, time: nat, now: int)
    ensures SameWishes(p, p.Seen(packet, time, now))
  {
    var codec := p.AsStage().Keeping(Video, packet).videoCodec;
    forall q | q in p.listeners
      ensures Wishes(p.listeners[q].PushedVideo(packet, time, now, codec)) == Wishes(p.listeners[q]) {
      PushKeepsWishes(p.listeners[q], packet, time, now, codec);
    }
  }

  lemma PushKeepsWishes(l: Listening, packet: Packet, time: nat, now: int, codec: Packet)
    ensures Wishes(l.PushedVideo(packet, time, now, codec)) == Wishes(l)
  {
  }

  lemma OthersKeepWishes(r: Registry, op: Operation, now: int)
    requires !op.Subscribe? && !op.Unsubscribe? && !op.Ask?
    ensures SameWishes(Find(r, op.name), Made(r, op, now))
  {
    var p := Find(r, op.name);
    match op
    case Publish(_, peer, allowed) => NotifyingKeepsWishes(p, peer, allowed, now);
    case Unpublish(_, peer) => NotifyingKeepsWishes(p, peer, true, now);
    case SendAudio(_, packet, time) => HeardKeepsWishes(p, packet, time, now);
    case SendVideo(_, packet, time, lost) =>
      LossyKeepsWishes(p, lost);
      SeenKeepsWishes(p.Lossy(lost), packet, time, now);
  }

  // The wishes of a listener change as it asks, and only then.
  lemma WishesChange(r: Registry, op: Operation, now: int, peer: Peer)
    requires peer in Made(r, op, now).listeners
    ensures var p := Find(r, op.name);
            && (peer !in p.listeners ==> op.Subscribe? && op.peer == peer)
            && Wishes(Made(r, op, now).listeners[peer])
               == if op.Ask? && op.peer == peer then (op.audio, op.video)
                  else if peer in p.listeners then Wishes(p.listeners[peer])
                  else (true, true)
  {
    if !op.Subscribe? && !op.Unsubscribe? && !op.Ask? {
      OthersKeepWishes(r, op, now);
    }
  }

  lemma {:induction false} WantsAreWishes(run: seq<Request>, name: Name, peer: Peer)
    requires Listens(run, name, peer)
    ensures Wants(run, name, peer) == Wishes(RegistryAfter(run)[name].listeners[peer])
    decreases |run|
  {
    var before, last := run[..|run| - 1], run[|run| - 1];
    var r, r' := RegistryAfter(before), RegistryAfter(run);
    RegistryAgrees(before);
    assert Tells(r, RollAfter(before), name);
    if last.op.name != name {
      assert r'[name] == r[name];
      WantsAreWishes(before, name, peer);
    } else {
      assert r'[name] == Made(r, last.op, last.now);
      WishesChange(r, last.op, last.now, peer);
      if peer in Find(r, name).listeners {
        WantsAreWishes(before, name, peer);
      }
    }
  }

  // ----- the gates -----

  // Where a key frame was written, both gates are open.
  ghost predicate Gates(p: Publishing) {
    forall q :: q in p.listeners && KeySince(p.listeners[q].log) ==> p.listeners[q].firstKeyFrame && p.firstKeyFrame
  }

  lemma GaveKeepsKey(l: Listening, kind: Kind, packet: Packet, input: nat)
    ensures var l' := l.Gave(kind, packet, input);
            && l'.firstKeyFrame == l.firstKeyFrame
            && (KeySince(l'.log) <==> KeySince(l.log) || (kind == Video && IsKeyFrame(packet)))
  {
    AddedLast(l.log, Sent(kind, input, Tick(l.clock, input).time, packet));
  }

  lemma OpenedKeepsKey(l: Listening, now: int)
    ensures l.Opened(now).firstKeyFrame == l.firstKeyFrame && (KeySince(l.Opened(now).log) <==> KeySince(l.log))
  {
    AddedLast(l.log, Init);
  }

  lemma AudioKeepsKey(l: Listening, packet: Packet, time: nat, now: int, codec: Packet)
    ensures var l' := l.PushedAudio(packet, time, now, codec);
            l'.firstKeyFrame == l.firstKeyFrame && (KeySince(l'.log) <==> KeySince(l.log))
  {
    if l.receiveAudio {
      var gated := l.Opened(now);
      var input := gated.Input(time, now);
      OpenedKeepsKey(l, now);
      GaveKeepsKey(gated, Audio, codec, input);
      GaveKeepsKey(gated.Gave(Audio, codec, input), Audio, packet, input);
      GaveKeepsKey(gated, Audio, packet, input);
    } else {
      AddedLast(l.log, Withheld(Audio));
    }
  }

  lemma VideoKeepsGate(l: Listening, packet: Packet, time: nat, now: int, codec: Packet)
    requires KeySince(l.log) ==> l.firstKeyFrame
    ensures var l' := l.PushedVideo(packet, time, now, codec); KeySince(l'.log) ==> l'.firstKeyFrame
  {
    if l.Admits(packet) {
      WroteKeepsGate(l.Gate(packet, now), packet, l.Gate(packet, now).Input(time, now), codec);
    } else {
      OpenedKeepsKey(l, now);
      AddedLast(l.log, Withheld(Video));
    }
  }

  lemma WroteKeepsGate(l: Listening, packet: Packet, input: nat, codec: Packet)
    ensures l.Wrote(Video, packet, input, codec).firstKeyFrame == l.firstKeyFrame
  {
  }

  lemma LogKeepsGate(l: Listening, now: int, audio: bool, video: bool)
    ensures !KeySince(l.Started(now).log) && !KeySince(l.Logs(Loss).log)
    ensures KeySince(l.Stopped().log) <==> KeySince(l.log)
    ensures KeySince(l.Asking(audio, video).log) <==> KeySince(l.log)
  {
    AddedLast(l.log, Start);
    AddedLast(l.log, Loss);
    AddedLast(l.log, Stop);
    AddedLast(l.log, Asked(audio, video));
  }

  lemma MadeKeepsGates(r: Registry, op: Operation, now: int)
    requires Gates(Find(r, op.name))
    ensures Gates(Made(r, op, now))
  {
    var p := Find(r, op.name);
    match op
    case SendVideo(_, packet, time, lost) => VideoKeepsGates(p, packet, time, lost, now);
    case SendAudio(_, packet, time) => AudioKeepsGates(p, packet, time, now);
    case _ => OthersKeepGates(r, op, now);
  }

  lemma OthersKeepGates(r: Registry, op: Operation, now: int)
    requires Gates(Find(r, op.name)) && !op.SendVideo? && !op.SendAudio?
    ensures Gates(Made(r, op, now))
  {
    var p := Find(r, op.name);
    match op
    case Publish(_, peer, allowed) => BeginKeepsGates(p, peer, allowed, now);
    case Unpublish(_, peer) => EndKeepsGates(p, peer);
    case Subscribe(_, peer, allowed) => JoinedKeepsGates(p, peer, allowed, now);
    case Unsubscribe(_, peer) => LeftKeepsGates(p, peer);
    case Ask(_, peer, audio, video) => AskedKeepsGates(p, peer, audio, video);
  }

  lemma JoinedKeepsGates(p: Publishing, peer: Peer, allowed: bool, now: int)
    requires Gates(p)
    ensures Gates(p.Joined(peer, allowed, now))
  {
    LogKeepsGate(NEW_LISTENER, now, true, true);
  }

  lemma LeftKeepsGates(p: Publishing, peer: Peer)
    requires Gates(p)
    ensures Gates(p.Left(peer))
  {
  }

  lemma AskedKeepsGates(p: Publishing, peer: Peer, audio: bool, video: bool)
    requires Gates(p)
    ensures Gates(p.Asked(peer, audio, video))
  {
    if peer in p.listeners {
      LogKeepsGate(p.listeners[peer], 0, audio, video);
    }
  }

  lemma BeginKeepsGates(p: Publishing, peer: Peer, allowed: bool, now: int)
    requires Gates(p)
    ensures Gates(p.Begin(peer, allowed, now))
  {
    forall q | q in p.listeners ensures !KeySince(p.listeners[q].Started(now).log) {
      LogKeepsGate(p.listeners[q], now, true, true);
    }
  }

  lemma EndKeepsGates(p: Publishing, peer: Peer)
    requires Gates(p)
    ensures Gates(p.End(peer))
  {
    forall q | q in p.listeners ensures KeySince(p.listeners[q].Stopped().log) <==> KeySince(p.listeners[q].log) {
      LogKeepsGate(p.listeners[q], 0, true, true);
    }
  }

  lemma AudioKeepsGates(p: Publishing, packet: Packet, time: nat, now: int)
    requires Gates(p)
    ensures Gates(p.Heard(packet, time, now))
  {
    var codec := p.AsStage().Keeping(Audio, packet).audioCodec;
    forall q | q in p.listeners
      ensures var l, l' := p.listeners[q], p.listeners[q].PushedAudio(packet, time, now, codec);
              l'.firstKeyFrame == l.firstKeyFrame && (KeySince(l'.log) <==> KeySince(l.log)) {
      AudioKeepsKey(p.listeners[q], packet, time, now, codec);
    }
  }

  lemma VideoKeepsGates(p: Publishing, packet: Packet, time: nat, lost: nat, now: int)
    requires Gates(p)
    ensures Gates(p.Lossy(lost)) && Gates(p.Lossy(lost).Seen(packet, time, now))
  {
    forall q | q in p.listeners ensures !KeySince(p.listeners[q].Logs(Loss).log) {
      LogKeepsGate(p.listeners[q], now, true, true);
    }
    SeenKeepsGates(p.Lossy(lost), packet, time, now);
  }

  lemma SeenKeepsGates(p: Publishing, packet: Packet, time: nat, now: int)
    requires Gates(p)
    ensures Gates(p.Seen(packet, time, now))
  {
    var codec := p.AsStage().Keeping(Video, packet).videoCodec;
    forall q | q in p.listeners
      ensures var l' := p.listeners[q].PushedVideo(packet, time, now, codec); KeySince(l'.log) ==> l'.firstKeyFrame {
      VideoKeepsGate(p.listeners[q], packet, time, now, codec);
    }
  }

  lemma {:induction false} RunKeepsGates(run: seq<Request>)
    ensures forall name :: name in RegistryAfter(run) ==> Gates(RegistryAfter(run)[name])
  {
    if run != [] {
      var before, last := run[..|run| - 1], run[|run| - 1];
      RunKeepsGates(before);
      MadeKeepsGates(RegistryAfter(before), last.op, last.now);
    }
  }

  // ----- every run -----

  lemma OneMore(run: seq<Request>, op: Operation, now: int)
    ensures var run' := run + [Request(op, now)];
            RegistryAfter(run') == Apply(RegistryAfter(run), op, now) && RollAfter(run') == RollAfter(run).Noting(op)
  {
    var run' := run + [Request(op, now)];
    assert run'[..|run'| - 1] == run;
  }

  /** After an audio frame of whoever publishes, the log of each listener that asks for audio ends with
      it, at its own time; the others are given nothing. */
  lemma AudioGoesOut(run: seq<Request>, name: Name, packet: Packet, time: nat, now: int, peer: Peer)
    requires Listens(run, name, peer)
    ensures var run' := run + [Request(SendAudio(name, packet, time), now)];
            && Listens(run', name, peer)
            && (var log, log' := LogOf(run, name, peer), LogOf(run', name, peer);
                if name !in RollAfter(run).publishers then log' == log
                else if Wants(run, name, peer).0 then GoesOut(log, log', Audio, packet, time)
                else log' == log + [Withheld(Audio)])
  {
    var p := RegistryAfter(run)[name];
    OneMore(run, SendAudio(name, packet, time), now);
    WantsAreWishes(run, name, peer);
    RegistryAgrees(run);
    assert Tells(RegistryAfter(run), RollAfter(run), name);
    RegistryIsGood(run);
    assert AllSound(p);
    AudioPushed(p.listeners[peer], packet, time, now, p.AsStage().Keeping(Audio, packet).audioCodec);
  }

  /** After a video frame, the log of a listener ends with it if and only if someone publishes, the
      listener asks for video, and it is a key frame, or one was written since the latest start, loss
      or withheld frame, and no loss came with it; else nothing is written. */
  lemma VideoGoesOut(run: seq<Request>, name: Name, packet: Packet, time: nat, lost: nat, now: int, peer: Peer)
    requires Listens(run, name, peer)
    ensures var run' := run + [Request(SendVideo(name, packet, time, lost), now)];
            && Listens(run', name, peer)
            && (var log, log' := LogOf(run, name, peer), LogOf(run', name, peer);
                if && name in RollAfter(run).publishers && Wants(run, name, peer).1
                   && (IsKeyFrame(packet) || (lost == 0 && KeySince(log)))
                then GoesOut(log, log', Video, packet, time)
                else StaysBack(log, log'))
  {
    var p := RegistryAfter(run)[name];
    OneMore(run, SendVideo(name, packet, time, lost), now);
    WantsAreWishes(run, name, peer);
    RegistryAgrees(run);
    assert Tells(RegistryAfter(run), RollAfter(run), name);
    RegistryIsGood(run);
    RunKeepsGates(run);
    assert AllSound(p) && Gates(p);
    if p.publisher.By? {
      PublishedVideo(p, packet, time, lost, now, peer);
    }
  }

  lemma PublishedVideo(p: Publishing, packet: Packet, time: nat, lost: nat, now: int, peer: Peer)
    requires p.publisher.By? && peer in p.listeners && AllSound(p) && Gates(p)
    ensures peer in p.Lossy(lost).Seen(packet, time, now).listeners
    ensures var l, log' := p.listeners[peer], p.Lossy(lost).Seen(packet, time, now).listeners[peer].log;
            if l.receiveVideo && (IsKeyFrame(packet) || (lost == 0 && KeySince(l.log)))
            then GoesOut(l.log, log', Video, packet, time)
            else StaysBack(l.log, log')
  {
    var l, p1 := p.listeners[peer], p.Lossy(lost);
    var l1 := if lost > 0 then l.Logs(Loss) else l;
    LostListener(p, lost, peer);
    SeenListener(p1, packet, time, now, peer);
    GatesDecide(p, packet, lost, peer, l1);
    var log' := p1.Seen(packet, time, now).listeners[peer].log;
    if p1.firstKeyFrame || IsKeyFrame(packet) {
      CodecIsInfos(p1, packet);
      VideoPushed(l1, packet, time, now, p1.AsStage().Keeping(Video, packet).videoCodec);
    }
    AfterLoss(l, l1, lost, log', packet, time);
  }

  lemma CodecIsInfos(p: Publishing, packet: Packet)
    requires p.publisher.By? && p.AsStage().Valid()
    ensures var codec := p.AsStage().Keeping(Video, packet).videoCodec; codec == [] || IsCodecInfos(Video, codec)
  {
  }

  // The two gates together let pass what follows a key frame.
  lemma GatesDecide(p: Publishing, packet: Packet, lost: nat, peer: Peer, l1: Listening)
    requires peer in p.listeners && AllSound(p) && Gates(p)
    requires l1 == if lost > 0 then p.listeners[peer].Logs(Loss) else p.listeners[peer]
    ensures var l, keyed := p.listeners[peer], lost == 0 && p.firstKeyFrame;
            (keyed || IsKeyFrame(packet)) && l1.Admits(packet)
            <==> l.receiveVideo && (IsKeyFrame(packet) || (lost == 0 && KeySince(l.log)))
  {
    assert Sound(p.listeners[peer], p.AsStage());
  }

  lemma LostListener(p: Publishing, lost: nat, peer: Peer)
    requires p.publisher.By? && peer in p.listeners
    ensures var p1 := p.Lossy(lost);
            && p1.publisher == p.publisher && p1.firstKeyFrame == (lost == 0 && p.firstKeyFrame)
            && p1.audioCodec == p.audioCodec && p1.videoCodec == p.videoCodec && peer in p1.listeners
            && p1.listeners[peer] == if lost > 0 then p.listeners[peer].Logs(Loss) else p.listeners[peer]
  {
  }

  lemma SeenListener(p: Publishing, packet: Packet, time: nat, now: int, peer: Peer)
    requires p.publisher.By? && peer in p.listeners
    ensures var p', l := p.Seen(packet, time, now), p.listeners[peer];
            && peer in p'.listeners
            && p'.listeners[peer]
               == if p.firstKeyFrame || IsKeyFrame(packet)
                  then l.PushedVideo(packet, time, now, p.AsStage().Keeping(Video, packet).videoCodec)
                  else l
  {
  }

  // A loss noted first makes no difference.
  lemma AfterLoss(l: Listening, l1: Listening, lost: nat, log': Log, packet: Packet, time: nat)
    requires l1 == if lost > 0 then l.Logs(Loss) else l
    ensures GoesOut(l1.log, log', Video, packet, time) ==> GoesOut(l.log, log', Video, packet, time)
    ensures StaysBack(l1.log, log') ==> StaysBack(l.log, log')
  {
    if lost > 0 {
      if GoesOut(l1.log, log', Video, packet, time) || StaysBack(l1.log, log') {
        assert log'[|l.log|] == l1.log[|l.log|] == Loss;
        assert log'[..|l.log|] == log'[..|l1.log|][..|l.log|];
      }
    }
  }

  // ----- the writers -----

  ghost predicate HasInit(log: Log) {
    log != [] && (Last(log).Init? || HasInit(Before(log)))
  }

  // The writers are opened once, before the first frame.
  ghost predicate Introduced(log: Log) {
    log == [] ||
    (Introduced(Before(log))
     && (Last(log).Sent? ==> HasInit(Before(log))) && (Last(log).Init? ==> !HasInit(Before(log))))
  }

  ghost predicate Ready(l: Listening) {
    Introduced(l.log) && (l.ready <==> HasInit(l.log))
  }

  ghost predicate AllReady(p: Publishing) {
    forall q :: q in p.listeners ==> Ready(p.listeners[q])
  }

  lemma LogsReady(l: Listening, e: Event)
    requires Ready(l) && !e.Init? && (e.Sent? ==> l.ready)
    ensures Ready(l.Logs(e))
  {
    AddedLast(l.log, e);
  }

  lemma OpenedIsReady(l: Listening, now: int)
    requires Ready(l)
    ensures Ready(l.Opened(now)) && l.Opened(now).ready
  {
    AddedLast(l.log, Init);
  }

  lemma GaveIsReady(l: Listening, kind: Kind, packet: Packet, input: nat)
    requires Ready(l) && l.ready
    ensures Ready(l.Gave(kind, packet, input)) && l.Gave(kind, packet, input).ready
  {
    LogsReady(l, Sent(kind, input, Tick(l.clock, input).time, packet));
  }

  lemma WroteIsReady(l: Listening, kind: Kind, packet: Packet, input: nat, codec: Packet)
    requires Ready(l) && l.ready
    ensures Ready(l.Wrote(kind, packet, input, codec))
  {
    GaveIsReady(l, kind, codec, input);
    GaveIsReady(l.Gave(kind, codec, input), kind, packet, input);
    GaveIsReady(l, kind, packet, input);
  }

  lemma HearingIsReady(l: Listening, packet: Packet, time: nat, now: int, codec: Packet)
    requires Ready(l)
    ensures Ready(l.PushedAudio(packet, time, now, codec))
  {
    if l.receiveAudio {
      OpenedIsReady(l, now);
      WroteIsReady(l.Opened(now), Audio, packet, l.Opened(now).Input(time, now), codec);
    } else {
      LogsReady(l, Withheld(Audio));
    }
  }

  lemma SeeingIsReady(l: Listening, packet: Packet, time: nat, now: int, codec: Packet)
    requires Ready(l)
    ensures Ready(l.PushedVideo(packet, time, now, codec))
  {
    OpenedIsReady(l, now);
    LogsReady(l, Withheld(Video));
    if l.Admits(packet) {
      var gated := l.Gate(packet, now);
      WroteIsReady(gated, Video, packet, gated.Input(time, now), codec);
    }
  }

  lemma NotesAreReady(l: Listening, now: int, audio: bool, video: bool)
    requires Ready(l)
    ensures Ready(l.Started(now)) && Ready(l.Stopped()) && Ready(l.Asking(audio, video)) && Ready(l.Logs(Loss))
  {
    LogsReady(l, Start);
    LogsReady(l, Stop);
    LogsReady(l, Asked(audio, video));
    LogsReady(l, Loss);
  }

  lemma HeardIsReady(p: Publishing, packet: Packet, time: nat, now: int)
    requires AllReady(p)
    ensures AllReady(p.Heard(packet, time, now))
  {
    var codec := p.AsStage().Keeping(Audio, packet).audioCodec;
    forall q | q in p.listeners ensures Ready(p.listeners[q].PushedAudio(packet, time, now, codec)) {
      HearingIsReady(p.listeners[q], packet, time, now, codec);
    }
  }

  lemma LossyIsReady(p: Publishing, lost: nat)
    requires AllReady(p)
    ensures AllReady(p.Lossy(lost))
  {
    forall q | q in p.listeners ensures Ready(p.listeners[q].Logs(Loss)) {
      LogsReady(p.listeners[q], Loss);
    }
  }

  lemma SeenIsReady(p: Publishing, packet: Packet, time: nat, now: int)
    requires AllReady(p)
    ensures AllReady(p.Seen(packet, time, now))
  {
    var codec := p.AsStage().Keeping(Video, packet).videoCodec;
    forall q | q in p.listeners ensures Ready(p.listeners[q].PushedVideo(packet, time, now, codec)) {
      SeeingIsReady(p.listeners[q], packet, time, now, codec);
    }
  }

  lemma NotifiedIsReady(p: Publishing, peer: Peer, allowed: bool, now: int)
    requires AllReady(p)
    ensures AllReady(p.Begin(peer, allowed, now)) && AllReady(p.End(peer))
  {
    forall q | q in p.listeners ensures Ready(p.listeners[q].Started(now)) && Ready(p.listeners[q].Stopped()) {
      NotesAreReady(p.listeners[q], now, true, true);
    }
  }

  lemma JoinedIsReady(p: Publishing, peer: Peer, allowed: bool, now: int)
    requires AllReady(p)
    ensures AllReady(p.Joined(peer, allowed, now)) && AllReady(p.Left(peer))
  {
    NotesAreReady(NEW_LISTENER, now, true, true);
  }

  lemma AskedIsReady(p: Publishing, peer: Peer, audio: bool, video: bool)
    requires AllReady(p)
    ensures AllReady(p.Asked(peer, audio, video))
  {
    if peer in p.listeners {
      NotesAreReady(p.listeners[peer], 0, audio, video);
    }
  }

  lemma MadeIsReady(r: Registry, op: Operation, now: int)
    requires AllReady(Find(r, op.name))
    ensures AllReady(Made(r, op, now))
  {
    var p := Find(r, op.name);
    match op
    case Publish(_, peer, allowed) => NotifiedIsReady(p, peer, allowed, now);
    case Unpublish(_, peer) => NotifiedIsReady(p, peer, true, now);
    case Subscribe(_, peer, allowed) => JoinedIsReady(p, peer, allowed, now);
    case Unsubscribe(_, peer) => JoinedIsReady(p, peer, true, now);
    case Ask(_, peer, audio, video) => AskedIsReady(p, peer, audio, video);
    case SendAudio(_, packet, time) => HeardIsReady(p, packet, time, now);
    case SendVideo(_, packet, time, lost) =>
      LossyIsReady(p, lost);
      SeenIsReady(p.Lossy(lost), packet, time, now);
  }

  lemma {:induction false} RunIsReady(run: seq<Request>)
    ensures forall name :: name in RegistryAfter(run) ==> AllReady(RegistryAfter(run)[name])
  {
    if run != [] {
      var before, last := run[..|run| - 1], run[|run| - 1];
      RunIsReady(before);
      MadeIsReady(RegistryAfter(before), last.op, last.now);
    }
  }

  /** Over every run, a listener's writers are opened once, before its first frame. */
  lemma WritersOpenOnce(run: seq<Request>, name: Name, peer: Peer)
    requires Listens(run, name, peer)
    ensures Introduced(LogOf(run, name, peer))
  {
    RunIsReady(run);
    assert AllReady(RegistryAfter(run)[name]);
  }
}
