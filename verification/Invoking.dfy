/** The publications of a server: made by the first to publish or subscribe, kept as long as someone
    publishes or listens. */
module Invoking {

  import opened MediaLog
  import opened Listening
  import opened Publishing

  type Name = string

  type Registry = map<Name, Publishing>

  datatype Operation =
    | Publish(name: Name, peer: Peer, allowed: bool)
    | Unpublish(name: Name, peer: Peer)
    | Subscribe(name: Name, peer: Peer, allowed: bool)
    | Unsubscribe(name: Name, peer: Peer)
    | Ask(name: Name, peer: Peer, audio: bool, video: bool)
    | SendAudio(name: Name, packet: Packet, time: nat)
    | SendVideo(name: Name, packet: Packet, time: nat, lost: nat)

  function Find(r: Registry, name: Name): Publishing {
    if name in r then r[name] else NEW_PUBLICATION
  }

  // A publication nobody uses goes.
  function Settle(r: Registry, name: Name, p: Publishing): Registry {
    if p.Deserted() then r - {name} else r[name := p]
  }

  // What becomes of the publication the operation names.
  function Made(r: Registry, op: Operation, now: int): Publishing {
    var p := Find(r, op.name);
    match op
    case Publish(_, peer, allowed) => p.Begin(peer, allowed, now)
    case Subscribe(_, peer, allowed) => p.Joined(peer, allowed, now)
    case Unpublish(_, peer) => p.End(peer)
    case Unsubscribe(_, peer) => p.Left(peer)
    case Ask(_, peer, audio, video) => p.Asked(peer, audio, video)
    case SendAudio(_, packet, time) => p.Heard(packet, time, now)
    case SendVideo(_, packet, time, lost) => p.Lossy(lost).Seen(packet, time, now)
  }

  predicate Enters(op: Operation) {
    op.Publish? || op.Subscribe?
  }

  predicate Leaves(op: Operation) {
    op.Unpublish? || op.Unsubscribe?
  }

  function Apply(r: Registry, op: Operation, now: int): Registry {
    var p := Made(r, op, now);
    if Enters(op) then Settle(r, op.name, p)
    else if op.name !in r then r
    else if Leaves(op) then Settle(r, op.name, p)
    else r[op.name := p]
  }

  /** Who publishes and who listens, as the answers given to each request say. */
  datatype Roll = Roll(publishers: map<Name, Peer>, subscribers: set<(Name, Peer)>) {
    function Noting(op: Operation): Roll {
      match op
      case Publish(name, peer, allowed) =>
        if name !in publishers && allowed then this.(publishers := publishers[name := peer]) else this
      case Unpublish(name, peer) =>
        if name in publishers && publishers[name] == peer then this.(publishers := publishers - {name}) else this
      case Subscribe(name, peer, allowed) =>
        if allowed then this.(subscribers := subscribers + {(name, peer)}) else this
      case Unsubscribe(name, peer) => this.(subscribers := subscribers - {(name, peer)})
      case _ => this
    }

    ghost predicate Uses(name: Name) {
      name in publishers || exists peer :: (name, peer) in subscribers
    }
  }

  ghost predicate Matches(p: Publishing, roll: Roll, name: Name) {
    && p.publisher == (if name in roll.publishers then By(roll.publishers[name]) else Nobody)
    && forall peer :: peer in p.listeners <==> (name, peer) in roll.subscribers
  }

  // What the registry must know of one name.
  ghost predicate Tells(r: Registry, roll: Roll, name: Name) {
    (name in r <==> roll.Uses(name)) && Matches(Find(r, name), roll, name)
  }

  ghost predicate Agrees(r: Registry, roll: Roll) {
    forall name: Name :: Tells(r, roll, name)
  }

  ghost predicate AllGood(r: Registry) {
    forall name :: name in r ==> AllSound(r[name])
  }

  // ----- every step -----

  lemma UsesOthers(roll: Roll, op: Operation, name: Name)
    requires name != op.name
    ensures roll.Noting(op).Uses(name) == roll.Uses(name)
  {
    var roll' := roll.Noting(op);
    forall peer ensures (name, peer) in roll'.subscribers <==> (name, peer) in roll.subscribers {
    }
  }

  lemma OthersAgree(r: Registry, roll: Roll, op: Operation, now: int, name: Name)
    requires Tells(r, roll, name) && name != op.name
    ensures Tells(Apply(r, op, now), roll.Noting(op), name)
  {
    UsesOthers(roll, op, name);
    var r' := Apply(r, op, now);
    assert Find(r', name) == Find(r, name);
  }

  lemma UsedIfNotDeserted(p: Publishing, roll: Roll, name: Name)
    requires Matches(p, roll, name)
    ensures p.Deserted() <==> !roll.Uses(name)
  {
    if p.listeners != map[] {
      var peer :| peer in p.listeners;
      assert (name, peer) in roll.subscribers;
    }
  }

  lemma SettledTells(r: Registry, name: Name, p: Publishing, roll: Roll)
    requires Matches(p, roll, name)
    ensures Tells(Settle(r, name, p), roll, name)
    ensures !p.Deserted() ==> Tells(r[name := p], roll, name)
    ensures p.Deserted() && name !in r ==> Tells(r, roll, name)
  {
    UsedIfNotDeserted(p, roll, name);
  }

  lemma MadeMatches(r: Registry, roll: Roll, op: Operation, now: int)
    requires Tells(r, roll, op.name)
    ensures Matches(Made(r, op, now), roll.Noting(op), op.name)
  {
  }

  lemma OwnAgrees(r: Registry, roll: Roll, op: Operation, now: int)
    requires Tells(r, roll, op.name)
    ensures Tells(Apply(r, op, now), roll.Noting(op), op.name)
  {
    MadeMatches(r, roll, op, now);
    UsedIfNotDeserted(Made(r, op, now), roll.Noting(op), op.name);
    SettledTells(r, op.name, Made(r, op, now), roll.Noting(op));
  }

  lemma StepAgrees(r: Registry, roll: Roll, op: Operation, now: int)
    requires Agrees(r, roll)
    ensures Agrees(Apply(r, op, now), roll.Noting(op))
  {
    forall name: Name ensures Tells(Apply(r, op, now), roll.Noting(op), name) {
      assert Tells(r, roll, name);
      if name == op.name {
        OwnAgrees(r, roll, op, now);
      } else {
        OthersAgree(r, roll, op, now, name);
      }
    }
  }

  lemma MadeIsSound(r: Registry, op: Operation, now: int)
    requires AllSound(Find(r, op.name))
    ensures AllSound(Made(r, op, now))
  {
    var p := Find(r, op.name);
    match op
    case Publish(_, peer, allowed) => BeginIsSound(p, peer, allowed, now);
    case Subscribe(_, peer, allowed) => JoinedIsSound(p, peer, allowed, now);
    case Unpublish(_, peer) => EndIsSound(p, peer);
    case Unsubscribe(_, peer) => LeftIsSound(p, peer);
    case Ask(_, peer, audio, video) => AskedIsSound(p, peer, audio, video);
    case SendAudio(_, packet, time) => HeardIsSound(p, packet, time, now);
    case SendVideo(_, packet, time, lost) => LossyIsSound(p, lost); SeenIsSound(p.Lossy(lost), packet, time, now);
  }

  lemma StepIsGood(r: Registry, op: Operation, now: int)
    requires AllGood(r)
    ensures AllGood(Apply(r, op, now))
  {
    MadeIsSound(r, op, now);
  }

  // ----- every run -----

  // An operation and the time it comes at.
  datatype Request = Request(op: Operation, now: int)

  function RegistryAfter(run: seq<Request>): Registry {
    if run == [] then map[]
    else var last := run[|run| - 1]; Apply(RegistryAfter(run[..|run| - 1]), last.op, last.now)
  }

  function RollAfter(run: seq<Request>): Roll {
    if run == [] then Roll(map[], {})
    else RollAfter(run[..|run| - 1]).Noting(run[|run| - 1].op)
  }

  /** A publication is registered if and only if someone publishes it or listens to it, and it knows
      exactly who. */
  lemma {:induction false} RegistryAgrees(run: seq<Request>)
    ensures Agrees(RegistryAfter(run), RollAfter(run))
  {
    if run != [] {
      RegistryAgrees(run[..|run| - 1]);
      StepAgrees(RegistryAfter(run[..|run| - 1]), RollAfter(run[..|run| - 1]), run[|run| - 1].op, run[|run| - 1].now);
    }
  }

  lemma {:induction false} RegistryIsGood(run: seq<Request>)
    ensures AllGood(RegistryAfter(run))
  {
    if run != [] {
      RegistryIsGood(run[..|run| - 1]);
      StepIsGood(RegistryAfter(run[..|run| - 1]), run[|run| - 1].op, run[|run| - 1].now);
    }
  }

  ghost predicate Listens(run: seq<Request>, name: Name, peer: Peer) {
    name in RegistryAfter(run) && peer in RegistryAfter(run)[name].listeners
  }

  ghost function LogOf(run: seq<Request>, name: Name, peer: Peer): Log
    requires Listens(run, name, peer)
  {
    RegistryAfter(run)[name].listeners[peer].log
  }

  /** Whatever happened, what a listener was given is good to play: notifications in turn, the last
      saying whether someone publishes; no video before a key frame, turning video off included if
      and only if that was noticed; times that ascend if and only if the publishers' do. */
  lemma LogsAreGood(run: seq<Request>, name: Name, peer: Peer)
    requires Listens(run, name, peer)
    ensures var log := LogOf(run, name, peer);
            && Bracketed(log) && (Playing(log) <==> name in RollAfter(run).publishers)
            && Gated(log) && (GatedSinceOff(log) <==> OffsNoticed(log))
            && (Fits(log) ==> (Ascending(log) <==> Orderly(log)))
  {
    var log := LogOf(run, name, peer);
    RegistryIsGood(run);
    RegistryAgrees(run);
    assert Tells(RegistryAfter(run), RollAfter(run), name);
    assert Sound(RegistryAfter(run)[name].listeners[peer], RegistryAfter(run)[name].AsStage());
    GatedSinceOffExactly(log);
    if Fits(log) {
      TimesAscendExactly(log);
    }
  }

  /** When a frame has just been written, the settings its listener has are the publication's. */
  lemma FramesHaveTheirSettings(run: seq<Request>, name: Name, peer: Peer, kind: Kind)
    requires Listens(run, name, peer) && LogOf(run, name, peer) != []
    requires Last(LogOf(run, name, peer)).Sent? && Last(LogOf(run, name, peer)).kind == kind
    ensures var codec := RegistryAfter(run)[name].AsStage().CodecOf(kind);
            codec == [] || Settings(LogOf(run, name, peer), kind) == codec
  {
    RegistryIsGood(run);
    assert Sound(RegistryAfter(run)[name].listeners[peer], RegistryAfter(run)[name].AsStage());
  }

  // ----- the program -----

  lemma PublishInSteps(r: Registry, name: Name, peer: Peer, allowed: bool, now: int)
    ensures var p := Find(r, name);
            var r' := r[name := p][name := p.Begin(peer, allowed, now)];
            Apply(r, Publish(name, peer, allowed), now)
            == if !p.Accepts(allowed) && r'[name].Deserted() then r' - {name} else r'
  {
  }

  lemma SubscribeInSteps(r: Registry, name: Name, peer: Peer, allowed: bool, now: int)
    ensures var p := Find(r, name);
            var r' := r[name := p][name := p.Joined(peer, allowed, now)];
            Apply(r, Subscribe(name, peer, allowed), now)
            == if peer !in p.listeners && !allowed && r'[name].Deserted() then r' - {name} else r'
  {
    var p := Find(r, name);
    assert peer in p.listeners || allowed ==> peer in p.Joined(peer, allowed, now).listeners;
  }

  class Invoker {
    var publications: map<Name, Publication>

    // Each publication is an object of its own, with listeners of its own.
    ghost predicate Valid()
      reads this, publications.Values
    {
      && (forall n :: n in publications ==> publications[n].Valid())
      && forall m, n :: m in publications && n in publications && m != n ==>
           publications[m] != publications[n] && publications[m].listeners.Values !! publications[n].listeners.Values
    }

    // The objects of one publication.
    ghost function Reach(name: Name): set<object>
      reads this, publications.Values
    {
      if name in publications then {publications[name]} + publications[name].listeners.Values else {}
    }

    ghost function Objects(): set<object>
      reads this, publications.Values
    {
      set n, o | n in publications && o in Reach(n) :: o
    }

    ghost function ViewOf(name: Name): Publishing
      requires name in publications
      reads this, publications.Values, Objects()
    {
      assert forall o :: o in Reach(name) ==> o in Objects();
      publications[name].View()
    }

    ghost function View(): Registry
      reads this, publications.Values, Objects()
    {
      map n | n in publications :: ViewOf(n)
    }

    constructor ()
      ensures Valid() && View() == map[]
    {
      publications := map[];
    }

    // publications.emplace
    method Enter(name: Name)
      requires Valid()
      modifies this
      ensures Valid() && name in publications
      ensures View() == old(View())[name := Find(old(View()), name)]
      ensures if name in old(publications) then Reach(name) == old(Reach(name)) else fresh(Reach(name))
    {
      if name !in publications {
        Emplace(name);
      }
    }

    twostate lemma OneMore(name: Name)
      requires old(Valid()) && name !in old(publications) && name in publications
      requires publications == old(publications)[name := publications[name]]
      requires publications[name].listeners == map[] && fresh(publications[name])
      requires forall n :: n in old(publications) ==>
                 unchanged(old(publications)[n]) && unchanged(old(publications[n].listeners).Values)
      ensures Valid()
      ensures View() == old(View())[name := publications[name].View()]
    {
      assert forall n :: n in old(publications) ==> n != name && publications[n] == old(publications)[n];
    }

    method Emplace(name: Name)
      requires Valid() && name !in publications
      modifies this
      ensures Valid() && name in publications && fresh(Reach(name))
      ensures View() == old(View())[name := NEW_PUBLICATION]
    {
      var publication := new Publication();
      publications := publications[name := publication];
      OneMore(name);
    }

    // A publication nobody uses is erased.
    method EraseIfDeserted(name: Name)
      requires Valid() && name in publications
      modifies this
      ensures Valid()
      ensures View() == if old(View())[name].Deserted() then old(View()) - {name} else old(View())
    {
      var publication := publications[name];
      if publication.publisher.Nobody? && publication.listeners == map[] {
        publications := publications - {name};
      }
    }

    twostate lemma OthersKept(name: Name)
      requires old(Valid()) && name in old(publications) && publications == old(publications)
      requires publications[name].Valid()
      requires forall l :: l in publications[name].listeners.Values ==>
                 fresh(l) || l in old(publications[name].listeners.Values)
      requires forall n :: n in publications && n != name ==>
                 unchanged(publications[n]) && unchanged(publications[n].listeners.Values)
      ensures Valid()
      ensures View() == old(View())[name := publications[name].View()]
    {
    }

    method StartAt(name: Name, peer: Peer, allowed: bool, now: int) returns (accepted: bool)
      requires Valid() && name in publications
      modifies Reach(name)
      ensures Valid() && accepted == old(View())[name].Accepts(allowed)
      ensures View() == old(View())[name := old(View())[name].Begin(peer, allowed, now)]
    {
      accepted := publications[name].Start(peer, allowed, now);
      OthersKept(name);
    }

    method StopAt(name: Name, peer: Peer)
      requires Valid() && name in publications
      modifies Reach(name)
      ensures Valid()
      ensures View() == old(View())[name := old(View())[name].End(peer)]
    {
      publications[name].Stop(peer);
      OthersKept(name);
    }

    method AddAt(name: Name, peer: Peer, allowed: bool, now: int) returns (accepted: bool)
      requires Valid() && name in publications
      modifies Reach(name)
      ensures Valid() && accepted == (peer in old(View())[name].listeners || allowed)
      ensures View() == old(View())[name := old(View())[name].Joined(peer, allowed, now)]
    {
      accepted := publications[name].AddListener(peer, allowed, now);
      OthersKept(name);
    }

    method RemoveAt(name: Name, peer: Peer)
      requires Valid() && name in publications
      modifies Reach(name)
      ensures Valid()
      ensures View() == old(View())[name := old(View())[name].Left(peer)]
    {
      publications[name].RemoveListener(peer);
      OthersKept(name);
    }

    method AskAt(name: Name, peer: Peer, audio: bool, video: bool)
      requires Valid() && name in publications && peer in publications[name].listeners
      modifies Reach(name)
      ensures Valid()
      ensures View() == old(View())[name := old(View())[name].Asked(peer, audio, video)]
    {
      publications[name].Ask(peer, audio, video);
      OthersKept(name);
    }

    method Publish(peer: Peer, name: Name, allowed: bool, now: int) returns (accepted: bool)
      requires Valid()
      modifies this, Reach(name)
      ensures Valid() && accepted == Find(old(View()), name).Accepts(allowed)
      ensures View() == Apply(old(View()), Operation.Publish(name, peer, allowed), now)
    {
      PublishInSteps(View(), name, peer, allowed, now);
      Enter(name);
      accepted := StartAt(name, peer, allowed, now);
      if !accepted {
        EraseIfDeserted(name);
      }
    }

    method Unpublish(peer: Peer, name: Name, now: int)
      requires Valid()
      modifies this, Reach(name)
      ensures Valid()
      ensures View() == Apply(old(View()), Operation.Unpublish(name, peer), now)
    {
      if name !in publications {
        return;
      }
      StopAt(name, peer);
      EraseIfDeserted(name);
    }

    method Subscribe(peer: Peer, name: Name, allowed: bool, now: int) returns (accepted: bool)
      requires Valid()
      modifies this, Reach(name)
      ensures Valid() && accepted == (peer in Find(old(View()), name).listeners || allowed)
      ensures View() == Apply(old(View()), Operation.Subscribe(name, peer, allowed), now)
    {
      SubscribeInSteps(View(), name, peer, allowed, now);
      Enter(name);
      accepted := AddAt(name, peer, allowed, now);
      if !accepted {
        EraseIfDeserted(name);
      }
    }

    method Unsubscribe(peer: Peer, name: Name, now: int)
      requires Valid()
      modifies this, Reach(name)
      ensures Valid()
      ensures View() == Apply(old(View()), Operation.Unsubscribe(name, peer), now)
    {
      if name !in publications {
        return;
      }
      RemoveAt(name, peer);
      EraseIfDeserted(name);
    }

    // What a peer that listens to one of these publications wants.
    method Ask(peer: Peer, name: Name, audio: bool, video: bool, now: int)
      requires Valid() && name in publications && peer in publications[name].listeners
      modifies Reach(name)
      ensures Valid()
      ensures View() == Apply(old(View()), Operation.Ask(name, peer, audio, video), now)
    {
      AskAt(name, peer, audio, video);
    }

    // Publication::pushAudio, on one of these publications
    method PushAudio(name: Name, packet: Packet, time: nat, now: int)
      requires Valid() && time < 0x1_0000_0000 && name in publications
      modifies Reach(name)
      ensures Valid()
      ensures View() == Apply(old(View()), SendAudio(name, packet, time), now)
    {
      publications[name].PushAudio(packet, time, now);
      OthersKept(name);
    }

    // Publication::pushVideo, on one of these publications
    method PushVideo(name: Name, packet: Packet, time: nat, now: int, lost: nat)
      requires Valid() && time < 0x1_0000_0000 && name in publications
      modifies Reach(name)
      ensures Valid()
      ensures View() == Apply(old(View()), SendVideo(name, packet, time, lost), now)
    {
      publications[name].PushVideo(packet, time, now, lost);
      OthersKept(name);
    }
  }
}
