/** A publication: one publisher at most, its listeners, and what it passes from one to the others. */
module Publishing {

  import opened MediaLog
  import opened Listening

  type Peer = nat

  datatype Publisher = Nobody | By(peer: Peer)

  type Listeners = map<Peer, Listening>

  // What happens to all listeners at once.

  function AllStarted(listeners: Listeners, now: int): Listeners {
    map q | q in listeners :: listeners[q].Started(now)
  }

  function AllStopped(listeners: Listeners): Listeners {
    map q | q in listeners :: listeners[q].Stopped()
  }

  function AllHeard(listeners: Listeners, packet: Packet, time: nat, now: int, codec: Packet): Listeners {
    map q | q in listeners :: listeners[q].PushedAudio(packet, time, now, codec)
  }

  function AllLost(listeners: Listeners): Listeners {
    map q | q in listeners :: listeners[q].Logs(Loss)
  }

  function AllSeen(listeners: Listeners, packet: Packet, time: nat, now: int, codec: Packet): Listeners {
    map q | q in listeners :: listeners[q].PushedVideo(packet, time, now, codec)
  }

  datatype Publishing = Publishing(
    publisher: Publisher, firstKeyFrame: bool, audioCodec: Packet, videoCodec: Packet, dropped: nat,
    listeners: Listeners)
  {
    function AsStage(): Stage {
      Stage(publisher.By?, firstKeyFrame, audioCodec, videoCodec)
    }

    predicate Deserted() {
      publisher.Nobody? && listeners == map[]
    }

    predicate Accepts(allowed: bool) {
      publisher.Nobody? && allowed
    }

    function Begin(peer: Peer, allowed: bool, now: int): Publishing {
      if !Accepts(allowed) then this
      else this.(publisher := By(peer), firstKeyFrame := false,
                 listeners := AllStarted(listeners, now))
    }

    function End(peer: Peer): Publishing {
      if publisher != By(peer) then this
      else this.(publisher := Nobody, audioCodec := [], videoCodec := [], dropped := 0,
                 listeners := AllStopped(listeners))
    }

    function Joined(peer: Peer, allowed: bool, now: int): Publishing {
      if peer in listeners || !allowed then this
      else this.(listeners := listeners[peer := if publisher.By? then NEW_LISTENER.Started(now) else NEW_LISTENER])
    }

    function Left(peer: Peer): Publishing {
      this.(listeners := listeners - {peer})
    }

    function Asked(peer: Peer, audio: bool, video: bool): Publishing {
      if peer !in listeners then this
      else this.(listeners := listeners[peer := listeners[peer].Asking(audio, video)])
    }

    function Heard(packet: Packet, time: nat, now: int): Publishing {
      if publisher.Nobody? then this
      else
        var codec := AsStage().Keeping(Audio, packet).audioCodec;
        this.(audioCodec := codec,
              listeners := AllHeard(listeners, packet, time, now, codec))
    }

    function Lossy(lost: nat): Publishing {
      if publisher.Nobody? || lost == 0 then this
      else this.(firstKeyFrame := false, listeners := AllLost(listeners))
    }

    function Seen(packet: Packet, time: nat, now: int): Publishing {
      if publisher.Nobody? then this
      else if !firstKeyFrame && !IsKeyFrame(packet) then this.(dropped := dropped + 1)
      else
        var codec := AsStage().Keeping(Video, packet).videoCodec;
        this.(firstKeyFrame := true, videoCodec := codec,
              listeners := AllSeen(listeners, packet, time, now, codec))
    }
  }

  const NEW_PUBLICATION := Publishing(Nobody, false, [], [], 0, map[])

  // ----- what always holds of a publication and its listeners -----

  ghost predicate AllSound(p: Publishing) {
    p.AsStage().Valid() && forall q :: q in p.listeners ==> Sound(p.listeners[q], p.AsStage())
  }

  lemma BeginIsSound(p: Publishing, peer: Peer, allowed: bool, now: int)
    requires AllSound(p)
    ensures AllSound(p.Begin(peer, allowed, now))
  {
    if p.Accepts(allowed) {
      var s := p.AsStage();
      forall q | q in p.listeners { StartedIsSound(p.listeners[q], now, s); }
      assert p.Begin(peer, allowed, now).AsStage() == s.(present := true, keyed := false);
    }
  }

  lemma EndIsSound(p: Publishing, peer: Peer)
    requires AllSound(p)
    ensures AllSound(p.End(peer))
  {
    if p.publisher == By(peer) {
      var s := p.AsStage();
      forall q | q in p.listeners { StoppedIsSound(p.listeners[q], s); }
      assert p.End(peer).AsStage() == s.(present := false, audioCodec := [], videoCodec := []);
    }
  }

  lemma JoinedIsSound(p: Publishing, peer: Peer, allowed: bool, now: int)
    requires AllSound(p)
    ensures AllSound(p.Joined(peer, allowed, now))
  {
    if p.publisher.By? {
      NewcomerIsSound(now, p.AsStage());
    } else {
      NewIsSound(p.AsStage());
    }
  }

  lemma LeftIsSound(p: Publishing, peer: Peer)
    requires AllSound(p)
    ensures AllSound(p.Left(peer))
  {
    assert p.Left(peer).AsStage() == p.AsStage();
  }

  lemma AskedIsSound(p: Publishing, peer: Peer, audio: bool, video: bool)
    requires AllSound(p)
    ensures AllSound(p.Asked(peer, audio, video))
  {
    if peer in p.listeners {
      AskingIsSound(p.listeners[peer], audio, video, p.AsStage());
    }
    assert p.Asked(peer, audio, video).AsStage() == p.AsStage();
  }

  lemma HeardIsSound(p: Publishing, packet: Packet, time: nat, now: int)
    requires AllSound(p)
    ensures AllSound(p.Heard(packet, time, now))
  {
    if p.publisher.By? {
      var s := p.AsStage();
      forall q | q in p.listeners { PushedAudioIsSound(p.listeners[q], packet, time, now, s); }
      assert p.Heard(packet, time, now).AsStage() == s.Keeping(Audio, packet);
    }
  }

  lemma LossyIsSound(p: Publishing, lost: nat)
    requires AllSound(p)
    ensures AllSound(p.Lossy(lost))
  {
    if p.publisher.By? && lost > 0 {
      var s := p.AsStage();
      forall q | q in p.listeners { LostIsSound(p.listeners[q], s); }
      assert p.Lossy(lost).AsStage() == s.(keyed := false);
    }
  }

  lemma SeenIsSound(p: Publishing, packet: Packet, time: nat, now: int)
    requires AllSound(p)
    ensures AllSound(p.Seen(packet, time, now))
  {
    if p.publisher.By? && (p.firstKeyFrame || IsKeyFrame(packet)) {
      var s := p.AsStage();
      forall q | q in p.listeners { PushedVideoIsSound(p.listeners[q], packet, time, now, s); }
      assert p.Seen(packet, time, now).AsStage() == s.Keeping(Video, packet).(keyed := true);
    }
  }

  // ----- the program -----

  lemma BegunAs(p: Publishing, p': Publishing, peer: Peer, now: int)
    requires p.publisher.Nobody? && p'.publisher == By(peer) && !p'.firstKeyFrame
    requires p'.audioCodec == p.audioCodec && p'.videoCodec == p.videoCodec && p'.dropped == p.dropped
    requires p'.listeners == AllStarted(p.listeners, now)
    ensures p' == p.Begin(peer, true, now)
  {
  }

  lemma EndedAs(p: Publishing, p': Publishing, peer: Peer)
    requires p.publisher == By(peer) && p'.publisher == Nobody && p'.firstKeyFrame == p.firstKeyFrame
    requires p'.audioCodec == [] && p'.videoCodec == [] && p'.dropped == 0
    requires p'.listeners == AllStopped(p.listeners)
    ensures p' == p.End(peer)
  {
  }

  lemma HeardInSteps(p: Publishing, packet: Packet, time: nat, now: int)
    requires p.publisher.By?
    ensures var codec := p.AsStage().Keeping(Audio, packet).audioCodec;
            p.Heard(packet, time, now)
            == p.(audioCodec := codec).(listeners := AllHeard(p.listeners, packet, time, now, codec))
  {
  }

  // The settings of a packet kept, or the packet dropped.
  function Noted(p: Publishing, packet: Packet): Publishing {
    var passes := p.firstKeyFrame || IsKeyFrame(packet);
    p.(firstKeyFrame := passes, videoCodec := p.AsStage().Keeping(Video, packet).videoCodec,
       dropped := p.dropped + if passes then 0 else 1)
  }

  lemma SeenInSteps(p: Publishing, packet: Packet, time: nat, now: int)
    requires p.publisher.By?
    ensures var p' := Noted(p, packet);
            p.Seen(packet, time, now)
            == if p'.firstKeyFrame then p'.(listeners := AllSeen(p.listeners, packet, time, now, p'.videoCodec)) else p'
  {
  }

  class Publication {
    var publisher: Publisher
    var firstKeyFrame: bool
    var audioCodec: Packet
    var videoCodec: Packet
    var droppedFrames: nat
    var listeners: map<Peer, Listener>

    // Each listener is an object of its own.
    ghost predicate Valid()
      reads this`listeners
    {
      forall p, q :: p in listeners && q in listeners && p != q ==> listeners[p] != listeners[q]
    }

    ghost function Audience(): Listeners
      reads this`listeners, listeners.Values
    {
      map q | q in listeners :: listeners[q].State()
    }

    ghost function View(): Publishing
      reads this, listeners.Values
    {
      Publishing(publisher, firstKeyFrame, audioCodec, videoCodec, droppedFrames, Audience())
    }

    constructor ()
      ensures Valid() && View() == NEW_PUBLICATION && listeners == map[]
    {
      publisher, firstKeyFrame, audioCodec, videoCodec, droppedFrames, listeners := Nobody, false, [], [], 0, map[];
    }

    // The listeners hear that someone publishes.
    method StartAll(now: int)
      requires Valid()
      modifies listeners.Values
      ensures Audience() == AllStarted(old(Audience()), now)
    {
      var left := listeners.Keys;
      while left != {}
        invariant left <= listeners.Keys
        invariant forall q :: q in listeners ==>
                    if q in left then unchanged(listeners[q])
                    else listeners[q].State() == old(listeners[q].State()).Started(now)
        decreases left
      {
        var q :| q in left;
        left := left - {q};
        listeners[q].StartPublishing(now);
      }
    }

    // The listeners hear that nobody does any more.
    method StopAll()
      requires Valid()
      modifies listeners.Values
      ensures Audience() == AllStopped(old(Audience()))
    {
      var left := listeners.Keys;
      while left != {}
        invariant left <= listeners.Keys
        invariant forall q :: q in listeners ==>
                    if q in left then unchanged(listeners[q])
                    else listeners[q].State() == old(listeners[q].State()).Stopped()
        decreases left
      {
        var q :| q in left;
        left := left - {q};
        listeners[q].StopPublishing();
      }
    }

    // The log of each listener shows where a loss was reported.
    method MarkLoss()
      requires Valid()
      modifies listeners.Values
      ensures Audience() == AllLost(old(Audience()))
    {
      var left := listeners.Keys;
      while left != {}
        invariant left <= listeners.Keys
        invariant forall q :: q in listeners ==>
                    if q in left then unchanged(listeners[q])
                    else listeners[q].State() == old(listeners[q].State()).Logs(Loss)
        decreases left
      {
        var q :| q in left;
        left := left - {q};
        listeners[q].WriteMedia(Loss);
      }
    }

    // A packet goes to every listener.
    method EachHears(packet: Packet, time: nat, now: int)
      requires Valid() && time < 0x1_0000_0000
      modifies listeners.Values
      ensures Audience() == AllHeard(old(Audience()), packet, time, now, audioCodec)
    {
      var left := listeners.Keys;
      while left != {}
        invariant left <= listeners.Keys
        invariant forall q :: q in listeners ==>
                    if q in left then unchanged(listeners[q])
                    else listeners[q].State() == old(listeners[q].State()).PushedAudio(packet, time, now, audioCodec)
        decreases left
      {
        var q :| q in left;
        left := left - {q};
        listeners[q].PushAudioPacket(packet, time, now, audioCodec);
      }
    }

    method PassAudio(packet: Packet, time: nat, now: int)
      requires Valid() && time < 0x1_0000_0000
      modifies listeners.Values
      ensures View() == old(View()).(listeners := AllHeard(old(Audience()), packet, time, now, audioCodec))
    {
      EachHears(packet, time, now);
    }

    // A packet goes to every listener.
    method EachSees(packet: Packet, time: nat, now: int)
      requires Valid() && time < 0x1_0000_0000
      modifies listeners.Values
      ensures Audience() == AllSeen(old(Audience()), packet, time, now, videoCodec)
    {
      var left := listeners.Keys;
      while left != {}
        invariant left <= listeners.Keys
        invariant forall q :: q in listeners ==>
                    if q in left then unchanged(listeners[q])
                    else listeners[q].State() == old(listeners[q].State()).PushedVideo(packet, time, now, videoCodec)
        decreases left
      {
        var q :| q in left;
        left := left - {q};
        listeners[q].PushVideoPacket(packet, time, now, videoCodec);
      }
    }

    method PassVideo(packet: Packet, time: nat, now: int)
      requires Valid() && time < 0x1_0000_0000
      modifies listeners.Values
      ensures View() == old(View()).(listeners := AllSeen(old(Audience()), packet, time, now, videoCodec))
    {
      EachSees(packet, time, now);
    }

    method Announce(now: int)
      requires Valid()
      modifies this`firstKeyFrame, listeners.Values
      ensures !firstKeyFrame && Audience() == AllStarted(old(Audience()), now)
    {
      firstKeyFrame := false;
      StartAll(now);
    }

    // `allowed` is what the publisher's handler answers.
    method Start(peer: Peer, allowed: bool, now: int) returns (accepted: bool)
      requires Valid()
      modifies this, listeners.Values
      ensures listeners == old(listeners) && accepted == old(View()).Accepts(allowed)
      ensures View() == old(View()).Begin(peer, allowed, now)
    {
      if publisher.By? {
        return false;
      }
      publisher := By(peer);
      if !allowed {
        publisher := Nobody;
        return false;
      }
      Announce(now);
      BegunAs(old(View()), View(), peer, now);
      return true;
    }

    method Clear()
      modifies this`publisher, this`audioCodec, this`videoCodec, this`droppedFrames
      ensures publisher == Nobody && audioCodec == [] && videoCodec == [] && droppedFrames == 0
    {
      videoCodec := [];
      audioCodec := [];
      droppedFrames := 0;
      publisher := Nobody;
    }

    method Silence()
      requires Valid()
      modifies this`publisher, this`audioCodec, this`videoCodec, this`droppedFrames, listeners.Values
      ensures publisher == Nobody && audioCodec == [] && videoCodec == [] && droppedFrames == 0
      ensures Audience() == AllStopped(old(Audience()))
    {
      StopAll();
      Clear();
    }

    method Stop(peer: Peer)
      requires Valid()
      modifies this, listeners.Values
      ensures listeners == old(listeners)
      ensures View() == old(View()).End(peer)
    {
      if publisher.Nobody? || publisher.peer != peer {
        return;
      }
      Silence();
      EndedAs(old(View()), View(), peer);
    }

    // `allowed` is what the subscriber's handler answers.
    method AddListener(peer: Peer, allowed: bool, now: int) returns (accepted: bool)
      requires Valid()
      modifies this`listeners
      ensures Valid() && accepted == (peer in old(listeners) || allowed)
      ensures listeners.Keys == old(listeners).Keys + if accepted then {peer} else {}
      ensures forall q :: q in listeners && q in old(listeners) ==> listeners[q] == old(listeners)[q]
      ensures accepted && peer !in old(listeners) ==> fresh(listeners[peer])
      ensures View() == old(View()).Joined(peer, allowed, now)
    {
      if peer in listeners {
        return true;
      }
      var listener := new Listener();
      if !allowed {
        return false;
      }
      listeners := listeners[peer := listener];
      if publisher.By? {
        listener.StartPublishing(now);
      }
      return true;
    }

    method RemoveListener(peer: Peer)
      requires Valid()
      modifies this`listeners
      ensures Valid() && listeners == old(listeners) - {peer}
      ensures View() == old(View()).Left(peer)
    {
      listeners := listeners - {peer};
    }

    // A peer that listens says what it wants.
    method Ask(peer: Peer, audio: bool, video: bool)
      requires Valid() && peer in listeners
      modifies listeners.Values
      ensures View() == old(View()).Asked(peer, audio, video)
    {
      listeners[peer].Ask(audio, video);
    }

    method PushAudio(packet: Packet, time: nat, now: int)
      requires Valid() && time < 0x1_0000_0000
      modifies this, listeners.Values
      ensures listeners == old(listeners)
      ensures View() == old(View()).Heard(packet, time, now)
    {
      if publisher.Nobody? {
        return;
      }
      HeardInSteps(View(), packet, time, now);
      KeepAudioSettings(packet);
      PassAudio(packet, time, now);
    }

    method KeepAudioSettings(packet: Packet)
      requires publisher.By?
      modifies this`audioCodec
      ensures View() == old(View()).(audioCodec := old(View()).AsStage().Keeping(Audio, packet).audioCodec)
    {
      if IsCodecInfos(Audio, packet) {
        audioCodec := packet;
      }
    }

    method NoteLoss(lost: nat)
      requires Valid()
      modifies this, listeners.Values
      ensures listeners == old(listeners)
      ensures View() == old(View()).Lossy(lost)
    {
      if publisher.By? && lost > 0 {
        firstKeyFrame := false;
        MarkLoss();
      }
    }

    // The settings a packet may carry are kept; it may pass if a key frame came.
    method KeepSettings(packet: Packet) returns (passes: bool)
      requires publisher.By?
      modifies this`firstKeyFrame, this`videoCodec, this`droppedFrames
      ensures passes == firstKeyFrame && View() == Noted(old(View()), packet)
    {
      if IsKeyFrame(packet) {
        firstKeyFrame := true;
        if IsCodecInfos(Video, packet) {
          videoCodec := packet;
        }
      }
      passes := firstKeyFrame;
      if !passes {
        droppedFrames := droppedFrames + 1;
      }
    }

    method PassOn(packet: Packet, time: nat, now: int)
      requires Valid() && time < 0x1_0000_0000 && publisher.By?
      modifies this, listeners.Values
      ensures listeners == old(listeners)
      ensures View() == old(View()).Seen(packet, time, now)
    {
      SeenInSteps(View(), packet, time, now);
      var passes := KeepSettings(packet);
      if passes {
        PassVideo(packet, time, now);
      }
    }

    method PushVideo(packet: Packet, time: nat, now: int, lost: nat)
      requires Valid() && time < 0x1_0000_0000
      modifies this, listeners.Values
      ensures listeners == old(listeners)
      ensures View() == old(View()).Lossy(lost).Seen(packet, time, now)
    {
      if publisher.By? {
        NoteLoss(lost);
        PassOn(packet, time, now);
      }
    }
  }
}
