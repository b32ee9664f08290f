/** The relay server: which two addresses exchange packets on which port, found again by relay,
    by peer and by socket. */
module Relay {

  type Peer = nat
  type Address = nat
  type Port = nat

  datatype Relay = Relay(peer1: Peer, address1: Address, peer2: Peer, address2: Address, port: Port, timeout: int) {
    predicate Joins(peer: Peer) {
      peer == peer1 || peer == peer2
    }

    predicate Uses(address: Address) {
      address == address1 || address == address2
    }
  }

  type Addresses = map<Address, Relay>

  // ----- what the indexes say of a set of relays -----

  ghost predicate Proper(live: set<Relay>) {
    forall r :: r in live ==> r.peer1 != r.peer2 && r.address1 != r.address2
  }

  // Each peer with a relay has the set of its relays.
  ghost predicate PeersIndexed(peers: map<Peer, set<Relay>>, live: set<Relay>) {
    && (forall p :: p in peers ==> peers[p] != {})
    && (forall p, r :: p in peers && r in peers[p] ==> r in live && r.Joins(p))
    && (forall p, r :: r in live && r.Joins(p) ==> p in peers && r in peers[p])
  }

  // Each port with a relay has a socket; its addresses are those of its relays, each for one relay.
  ghost predicate SocketsIndexed(sockets: map<Port, Addresses>, live: set<Relay>) {
    && (forall port :: port in sockets ==> sockets[port] != map[])
    && (forall port, a :: port in sockets && a in sockets[port] ==>
          sockets[port][a] in live && sockets[port][a].port == port && sockets[port][a].Uses(a))
    && (forall r :: r in live ==> Registered(sockets, r))
  }

  ghost predicate Registered(sockets: map<Port, Addresses>, r: Relay) {
    && r.port in sockets && r.address1 in sockets[r.port] && r.address2 in sockets[r.port]
    && sockets[r.port][r.address1] == r && sockets[r.port][r.address2] == r
  }

  // A peer is indexed, with exactly its relays, if and only if it has one.
  lemma PeersAgree(peers: map<Peer, set<Relay>>, live: set<Relay>, p: Peer)
    requires PeersIndexed(peers, live)
    ensures p in peers <==> exists r :: r in live && r.Joins(p)
    ensures p in peers ==> peers[p] == set r | r in live && r.Joins(p)
  {
    if p in peers {
      var r :| r in peers[p];
      assert r in live && r.Joins(p);
    }
  }

  // A socket exists if and only if it carries a relay.
  lemma SocketsAgree(sockets: map<Port, Addresses>, live: set<Relay>, port: Port)
    requires SocketsIndexed(sockets, live)
    ensures port in sockets <==> exists r :: r in live && r.port == port
  {
    if port in sockets {
      var a :| a in sockets[port];
      assert sockets[port][a] in live;
    }
    forall r | r in live && r.port == port ensures port in sockets {
      assert Registered(sockets, r);
    }
  }

  // Its addresses are the disjoint pairs of the relays it carries.
  lemma AddressesAgree(sockets: map<Port, Addresses>, live: set<Relay>, port: Port, a: Address, r: Relay)
    requires SocketsIndexed(sockets, live) && port in sockets
    ensures a in sockets[port] && sockets[port][a] == r <==> r in live && r.port == port && r.Uses(a)
  {
    if r in live {
      assert Registered(sockets, r);
    }
  }

  // ----- taking a relay out -----

  function WithoutRelay(peers: map<Peer, set<Relay>>, peer: Peer, relay: Relay): map<Peer, set<Relay>> {
    if peer !in peers then peers
    else if peers[peer] - {relay} == {} then peers - {peer}
    else peers[peer := peers[peer] - {relay}]
  }

  function WithoutAddresses(sockets: map<Port, Addresses>, relay: Relay): map<Port, Addresses> {
    if relay.port !in sockets then sockets
    else
      var addresses := sockets[relay.port] - {relay.address1, relay.address2};
      if addresses == map[] then sockets - {relay.port} else sockets[relay.port := addresses]
  }

  lemma TakeFromPeers(peers: map<Peer, set<Relay>>, live: set<Relay>, r: Relay)
    requires r.peer1 != r.peer2 && r in live && PeersIndexed(peers, live)
    ensures PeersIndexed(WithoutRelay(WithoutRelay(peers, r.peer1, r), r.peer2, r), live - {r})
  {
  }

  lemma TakeFromSockets(sockets: map<Port, Addresses>, live: set<Relay>, r: Relay)
    requires r in live && SocketsIndexed(sockets, live)
    ensures SocketsIndexed(WithoutAddresses(sockets, r), live - {r})
    ensures WithoutAddresses(sockets, r).Keys <= sockets.Keys
  {
    var sockets' := WithoutAddresses(sockets, r);
    assert Registered(sockets, r);
    forall s | s in live - {r} ensures Registered(sockets', s) {
      assert Registered(sockets, s);
      assert s.port == r.port ==> s.address1 !in {r.address1, r.address2} && s.address2 !in {r.address1, r.address2};
      assert s.port == r.port ==> s.address1 in sockets[r.port] - {r.address1, r.address2};
    }
  }

  // The peers are indexed but for one, whose set of relays is being emptied.
  ghost predicate PeersIndexedBut(peers: map<Peer, set<Relay>>, peer: Peer, live: set<Relay>) {
    && (forall p :: p in peers && p != peer ==> peers[p] != {})
    && (forall p, r :: p in peers && p != peer && r in peers[p] ==> r in live && r.Joins(p))
    && (forall p, r :: r in live && r.Joins(p) && p != peer ==> p in peers && r in peers[p])
  }

  lemma TakeFromPeersBut(peers: map<Peer, set<Relay>>, peer: Peer, other: Peer, live: set<Relay>, r: Relay)
    requires r in live && r.Joins(peer) && r.Joins(other) && peer != other && PeersIndexedBut(peers, peer, live)
    ensures PeersIndexedBut(WithoutRelay(peers, other, r), peer, live - {r})
  {
  }

  lemma TakeLastFromPeers(peers: map<Peer, set<Relay>>, peer: Peer, live: set<Relay>)
    requires PeersIndexedBut(peers, peer, live) && forall r :: r in live ==> !r.Joins(peer)
    ensures PeersIndexed(peers - {peer}, live)
  {
  }

  // ----- putting a relay in -----

  function WithRelay(peers: map<Peer, set<Relay>>, peer: Peer, relay: Relay): map<Peer, set<Relay>> {
    peers[peer := (if peer in peers then peers[peer] else {}) + {relay}]
  }

  lemma PutInPeers(peers: map<Peer, set<Relay>>, live: set<Relay>, r: Relay)
    requires PeersIndexed(peers, live)
    ensures var peers' := WithRelay(WithRelay(peers, r.peer1, r), r.peer2, r);
            PeersIndexed(peers', live + {r}) && peers'.Keys == peers.Keys + {r.peer1, r.peer2}
  {
  }

  function WithAddresses(sockets: map<Port, Addresses>, relay: Relay): map<Port, Addresses> {
    var addresses := if relay.port in sockets then sockets[relay.port] else map[];
    sockets[relay.port := addresses[relay.address1 := relay][relay.address2 := relay]]
  }

  predicate IsFree(addresses: Addresses, a: Address, b: Address) {
    a !in addresses && b !in addresses
  }

  lemma PutInSockets(sockets: map<Port, Addresses>, live: set<Relay>, r: Relay)
    requires SocketsIndexed(sockets, live)
    requires r.port in sockets ==> IsFree(sockets[r.port], r.address1, r.address2)
    ensures SocketsIndexed(WithAddresses(sockets, r), live + {r}) && r !in live
    ensures WithAddresses(sockets, r).Keys == sockets.Keys + {r.port}
  {
    var sockets' := WithAddresses(sockets, r);
    assert r in live ==> Registered(sockets, r);
    forall s | s in live + {r} ensures Registered(sockets', s) {
      assert s != r ==> Registered(sockets, s);
    }
    assert r.address1 in sockets'[r.port];
  }

  // ----- where a new relay goes -----

  // The socket carries this very pair already.
  predicate CarriesPair(addresses: Addresses, a: Address, b: Address) {
    a in addresses &&
    var r := addresses[a];
    (r.address1 == a && r.address2 == b) || (r.address1 == b && r.address2 == a)
  }

  predicate Settles(addresses: Addresses, a: Address, b: Address) {
    CarriesPair(addresses, a, b) || IsFree(addresses, a, b)
  }

  // The first port, in their order, whose socket settles the question.
  ghost predicate FirstToSettle(sockets: map<Port, Addresses>, port: Port, a: Address, b: Address) {
    && port in sockets && Settles(sockets[port], a, b)
    && forall q :: q in sockets && q < port ==> !Settles(sockets[q], a, b)
  }

  ghost predicate NoneSettles(sockets: map<Port, Addresses>, a: Address, b: Address) {
    forall q :: q in sockets ==> !Settles(sockets[q], a, b)
  }

  // The port a new socket is bound to: the first that can be, above all those in use.
  ghost predicate FirstToBind(sockets: map<Port, Addresses>, canBind: set<Port>, port: Port) {
    && 59999 < port <= 0xFFFF && port in canBind && (forall q :: q in sockets ==> q < port)
    && forall q :: q in canBind && 59999 < q < port ==> exists p :: p in sockets && p >= q
  }

  lemma LeastPort(ports: set<Port>) returns (least: Port)
    requires ports != {}
    ensures least in ports && forall q :: q in ports ==> least <= q
  {
    var first :| first in ports;
    var rest := ports - {first};
    least := first;
    if rest != {} {
      var other := LeastPort(rest);
      least := if other < first then other else first;
    }
    forall q | q in ports ensures least <= q {
      assert q == first || q in rest;
    }
  }

  ghost predicate InPortRange(sockets: map<Port, Addresses>) {
    forall port :: port in sockets ==> 59999 < port <= 0xFFFF
  }

  // ----- routing -----

  datatype Destination = Nowhere | To(address: Address)

  function Route(addresses: Addresses, from: Address): Destination {
    if from !in addresses then Nowhere
    else To(if addresses[from].address1 == from then addresses[from].address2 else addresses[from].address1)
  }

  // Routing goes back and forth between two addresses, and never to the sender.
  lemma RouteIsAnInvolution(sockets: map<Port, Addresses>, live: set<Relay>, port: Port, from: Address)
    requires Proper(live) && SocketsIndexed(sockets, live) && port in sockets && from in sockets[port]
    ensures var to := Route(sockets[port], from);
            to.To? && to.address != from && to.address in sockets[port]
            && Route(sockets[port], to.address) == To(from)
            && sockets[port][to.address] == sockets[port][from]
  {
    assert Registered(sockets, sockets[port][from]);
  }

  // ----- how long relays live -----

  // What happens to relays: they are made, they forward a packet, and those that are silent for
  // too long, those of a peer, or all of them, go.
  datatype Event =
    | Created(relay: Relay, now: int)
    | Forwarded(relay: Relay, now: int)
    | Managed(now: int)
    | Removed(peer: Peer)
    | Stopped

  type Stamps = map<Relay, int>

  function StampsOf(relays: set<Relay>, lastTime: map<Relay, int>): Stamps {
    map r | r in relays && r in lastTime :: lastTime[r]
  }

  lemma StampCreated(relays: set<Relay>, lastTime: map<Relay, int>, relay: Relay, now: int)
    ensures StampsOf(relays + {relay}, lastTime[relay := now])
         == Next(StampsOf(relays, lastTime), Created(relay, now))
  {
  }

  lemma StampForwarded(relays: set<Relay>, lastTime: map<Relay, int>, relay: Relay, now: int)
    requires relay in relays && relay in lastTime
    ensures StampsOf(relays, lastTime[relay := now]) == Next(StampsOf(relays, lastTime), Forwarded(relay, now))
  {
  }

  lemma StampManaged(relays: set<Relay>, lastTime: map<Relay, int>, left: set<Relay>, now: int)
    requires relays <= lastTime.Keys && left == set r | r in relays && now - lastTime[r] <= r.timeout
    ensures StampsOf(left, lastTime) == Next(StampsOf(relays, lastTime), Managed(now))
  {
  }

  lemma StampRemoved(relays: set<Relay>, lastTime: map<Relay, int>, left: set<Relay>, peer: Peer)
    requires left == set r | r in relays && !r.Joins(peer)
    ensures StampsOf(left, lastTime) == Next(StampsOf(relays, lastTime), Removed(peer))
  {
  }

  // The relays there are, with the time each was used last.
  function Next(stamps: Stamps, e: Event): Stamps {
    match e
    case Created(relay, now) => stamps[relay := now]
    case Forwarded(relay, now) => if relay in stamps then stamps[relay := now] else stamps
    case Managed(now) => map r | r in stamps && now - stamps[r] <= r.timeout :: stamps[r]
    case Removed(peer) => map r | r in stamps && !r.Joins(peer) :: stamps[r]
    case Stopped => map[]
  }

  function After(events: seq<Event>): Stamps {
    if events == [] then map[] else Next(After(events[..|events| - 1]), events[|events| - 1])
  }

  // The latest time a relay was made or forwarded a packet.
  function LastUse(events: seq<Event>, relay: Relay): int {
    if events == [] then 0
    else
      var last := events[|events| - 1];
      if (last.Created? || last.Forwarded?) && last.relay == relay then last.now
      else LastUse(events[..|events| - 1], relay)
  }

  lemma {:induction false} StampsAreLastUses(events: seq<Event>, relay: Relay)
    requires relay in After(events)
    ensures After(events)[relay] == LastUse(events, relay)
  {
    var before, last := events[..|events| - 1], events[|events| - 1];
    if !((last.Created? || last.Forwarded?) && last.relay == relay) {
      StampsAreLastUses(before, relay);
    }
  }

  /** Over every run, managing keeps a relay if and only if it was made, or forwarded its last packet,
      at most its timeout ago. */
  lemma ManagedExactly(events: seq<Event>, now: int, relay: Relay)
    requires relay in After(events)
    ensures relay in After(events + [Managed(now)]) <==> now - LastUse(events, relay) <= relay.timeout
  {
    assert (events + [Managed(now)])[..|events|] == events;
    StampsAreLastUses(events, relay);
  }

  // ----- the program -----

  class RelayServer {
    var relays: set<Relay>
    var peers: map<Peer, set<Relay>>
    var sockets: map<Port, Addresses>
    // The relayable flags of the peers, and the marks the relays carry.
    var relayable: set<Peer>
    var received: set<Relay>
    var lastTime: map<Relay, int>

    ghost predicate Valid()
      reads this
    {
      PeersValid() && SocketsValid()
    }

    ghost predicate PeersValid()
      reads this`peers, this`relays, this`relayable
    {
      PeersIndexed(peers, relays) && relayable == peers.Keys
    }

    ghost predicate SocketsValid()
      reads this`relays, this`sockets, this`received, this`lastTime
    {
      && Proper(relays) && SocketsIndexed(sockets, relays) && InPortRange(sockets)
      && received <= relays && relays <= lastTime.Keys
    }

    ghost function Uses(): Stamps
      reads this`relays, this`lastTime
    {
      StampsOf(relays, lastTime)
    }

    constructor ()
      ensures Valid() && relays == {} && Uses() == map[]
    {
      relays, peers, sockets, relayable, received, lastTime := {}, map[], map[], {}, {}, map[];
    }

    method RemovePeerRelay(peer: Peer, relay: Relay)
      requires relayable == peers.Keys
      modifies this`peers, this`relayable
      ensures peers == WithoutRelay(old(peers), peer, relay) && relayable == peers.Keys
    {
      if peer in peers {
        var left := peers[peer] - {relay};
        if left == {} {
          relayable := relayable - {peer};
          peers := peers - {peer};
        } else {
          peers := peers[peer := left];
        }
      }
    }

    // RelayServer::releaseRelay and RelaySocket::releaseRelay
    method ReleaseRelay(relay: Relay)
      modifies this`sockets, this`received
      ensures sockets == WithoutAddresses(old(sockets), relay) && received == old(received) - {relay}
    {
      received := received - {relay};
      if relay.port in sockets {
        var addresses := sockets[relay.port] - {relay.address1, relay.address2};
        if addresses == map[] {
          sockets := sockets - {relay.port};
        } else {
          sockets := sockets[relay.port := addresses];
        }
      }
    }

    // One relay out of the relays and the sockets.
    method Forget(relay: Relay)
      requires SocketsValid() && relay in relays
      modifies this`relays, this`sockets, this`received
      ensures SocketsValid() && relays == old(relays) - {relay}
    {
      TakeFromSockets(sockets, relays, relay);
      relays := relays - {relay};
      ReleaseRelay(relay);
    }

    // One relay out of every index.
    method TakeOut(relay: Relay)
      requires Valid() && relay in relays
      modifies this
      ensures Valid() && relays == old(relays) - {relay} && lastTime == old(lastTime)
    {
      TakeFromPeers(peers, relays, relay);
      RemovePeerRelay(relay.peer1, relay);
      RemovePeerRelay(relay.peer2, relay);
      Forget(relay);
    }

    method Stop()
      requires Valid()
      modifies this
      ensures Valid() && relays == {} && peers == map[] && sockets == map[] && relayable == {}
      ensures Uses() == Next(old(Uses()), Stopped)
    {
      while relays != {}
        invariant Valid()
        decreases relays
      {
        var relay :| relay in relays;
        TakeOut(relay);
      }
      NothingLeft();
    }

    lemma NothingLeft()
      requires Valid() && relays == {}
      ensures peers == map[] && sockets == map[]
    {
      forall p ensures p !in peers { PeersAgree(peers, relays, p); }
      forall port ensures port !in sockets { SocketsAgree(sockets, relays, port); }
    }

    method TakeOutSilent(now: int)
      requires Valid()
      modifies this
      ensures Valid() && lastTime == old(lastTime)
      ensures relays == set r | r in old(relays) && now - old(lastTime)[r] <= r.timeout
    {
      var left := relays;
      while left != {}
        invariant Valid() && left <= relays <= old(relays) && lastTime == old(lastTime)
        invariant forall r :: r in old(relays) ==> (r in relays <==> r in left || now - lastTime[r] <= r.timeout)
        decreases left
      {
        var relay :| relay in left;
        left := left - {relay};
        if now - lastTime[relay] > relay.timeout {
          TakeOut(relay);
        }
      }
    }

    // Relays that carried nothing for longer than their timeout go, the others stay.
    method Manage(now: int)
      requires Valid()
      modifies this
      ensures Valid()
      ensures relays == set r | r in old(relays) && now - old(lastTime)[r] <= r.timeout
      ensures lastTime == old(lastTime) && Uses() == Next(old(Uses()), Managed(now))
    {
      TakeOutSilent(now);
      StampManaged(old(relays), lastTime, relays, now);
    }

    // Valid but for the peer that goes.
    ghost predicate ValidBut(peer: Peer)
      reads this
    {
      PeersIndexedBut(peers, peer, relays) && relayable == peers.Keys && peer in peers && SocketsValid()
    }

    method RemoveOne(peer: Peer, relay: Relay)
      requires ValidBut(peer) && relay in relays && relay.Joins(peer)
      modifies this
      ensures ValidBut(peer) && relays == old(relays) - {relay} && lastTime == old(lastTime)
    {
      var other := if relay.peer1 == peer then relay.peer2 else relay.peer1;
      TakeFromPeersBut(peers, peer, other, relays, relay);
      RemovePeerRelay(other, relay);
      Forget(relay);
    }

    method RemoveRelaysOf(peer: Peer, joining: set<Relay>)
      requires ValidBut(peer) && joining <= relays && forall r :: r in joining ==> r.Joins(peer)
      modifies this
      ensures ValidBut(peer) && relays == old(relays) - joining && lastTime == old(lastTime)
    {
      var left := joining;
      while left != {}
        invariant ValidBut(peer) && lastTime == old(lastTime)
        invariant left <= joining
        invariant forall r :: r in relays <==> r in old(relays) && (r in joining ==> r in left)
        decreases left
      {
        var relay :| relay in left;
        left := left - {relay};
        RemoveOne(peer, relay);
      }
    }

    // A peer goes with all its relays; the other end of each loses it too.
    method Remove(peer: Peer)
      requires Valid()
      modifies this
      ensures Valid() && peer !in relayable
      ensures relays == set r | r in old(relays) && !r.Joins(peer)
      ensures lastTime == old(lastTime) && Uses() == Next(old(Uses()), Removed(peer))
    {
      RemovePeer(peer);
      StampRemoved(old(relays), lastTime, relays, peer);
    }

    method RemovePeer(peer: Peer)
      requires Valid()
      modifies this
      ensures Valid() && peer !in relayable && lastTime == old(lastTime)
      ensures relays == set r | r in old(relays) && !r.Joins(peer)
    {
      if peer !in peers {
        return;
      }
      RemoveRelaysOf(peer, peers[peer]);
      TakeLastFromPeers(peers, peer, relays);
      peers := peers - {peer};
      relayable := relayable - {peer};
    }

    method PutIn(relay: Relay, now: int)
      requires Valid() && relay.peer1 != relay.peer2 && relay.address1 != relay.address2
      requires 59999 < relay.port <= 0xFFFF
      requires relay.port in sockets ==> IsFree(sockets[relay.port], relay.address1, relay.address2)
      modifies this
      ensures Valid() && relays == old(relays) + {relay} && relay !in old(relays) && received == old(received)
      ensures lastTime == old(lastTime)[relay := now] && Uses() == Next(old(Uses()), Created(relay, now))
    {
      Index(relay, now);
      StampCreated(old(relays), old(lastTime), relay, now);
    }

    method Index(relay: Relay, now: int)
      requires Valid() && relay.peer1 != relay.peer2 && relay.address1 != relay.address2
      requires 59999 < relay.port <= 0xFFFF
      requires relay.port in sockets ==> IsFree(sockets[relay.port], relay.address1, relay.address2)
      modifies this
      ensures Valid() && relays == old(relays) + {relay} && relay !in old(relays) && received == old(received)
      ensures lastTime == old(lastTime)[relay := now]
    {
      PutInPeers(peers, relays, relay);
      PutInSockets(sockets, relays, relay);
      sockets := WithAddresses(sockets, relay);
      lastTime := lastTime[relay := now];
      relays := relays + {relay};
      peers := WithRelay(WithRelay(peers, relay.peer1, relay), relay.peer2, relay);
      relayable := relayable + {relay.peer1, relay.peer2};
    }

    // The sockets in the order of their ports, up to the first that settles the question.
    method Search(address1: Address, address2: Address) returns (found: bool, port: Port)
      requires InPortRange(sockets)
      ensures found ==> FirstToSettle(sockets, port, address1, address2)
      ensures !found ==> NoneSettles(sockets, address1, address2) && 59999 <= port <= 0xFFFF
                         && (forall q :: q in sockets ==> q <= port) && (port in sockets || port == 59999)
    {
      port := 59999;
      found := false;
      var left := sockets.Keys;
      while left != {}
        invariant left <= sockets.Keys && 59999 <= port <= 0xFFFF && (port in sockets || port == 59999)
        invariant forall q :: q in sockets && q !in left ==> !Settles(sockets[q], address1, address2) && q <= port
        invariant forall q :: q in left ==> port < q
        decreases left
      {
        ghost var lowest := LeastPort(left);
        var least :| least in left && forall q :: q in left ==> least <= q;
        port := least;
        left := left - {least};
        var addresses := sockets[least];
        if address1 in addresses {
          var relay := addresses[address1];
          if (relay.address1 == address1 && relay.address2 == address2)
             || (relay.address1 == address2 && relay.address2 == address1) {
            return true, port;
          }
        } else if address2 !in addresses {
          return true, port;
        }
      }
    }

    // RelayServer::add; `canBind` are the ports the system lets be bound. Port 0 is a refusal.
    method Add(peer1: Peer, address1: Address, peer2: Peer, address2: Address, timeout: int,
               canBind: set<Port>, now: int)
      returns (port: Port)
      requires Valid()
      modifies this
      ensures Valid()
      ensures port == 0 <==> || peer1 == peer2 || address1 == address2
                             || (NoneSettles(old(sockets), address1, address2)
                                 && forall q :: !FirstToBind(old(sockets), canBind, q))
      ensures port != 0 ==> FirstToSettle(old(sockets), port, address1, address2)
                            || (NoneSettles(old(sockets), address1, address2)
                                && FirstToBind(old(sockets), canBind, port))
      ensures relays == if port == 0 || (port in old(sockets) && CarriesPair(old(sockets)[port], address1, address2))
                        then old(relays)
                        else old(relays) + {Relay(peer1, address1, peer2, address2, port, timeout * 1000)}
      ensures var relay := Relay(peer1, address1, peer2, address2, port, timeout * 1000);
              Uses() == if relays == old(relays) then old(Uses()) else Next(old(Uses()), Created(relay, now))
    {
      if peer1 == peer2 {
        return 0;
      }
      if address1 == address2 {
        return 0;
      }
      var found;
      found, port := Search(address1, address2);
      if found {
        if address1 in sockets[port] {
          return;
        }
      } else {
        ghost var top := port;
        var bound := false;
        while !bound
          invariant top <= port <= 0xFFFF
          invariant forall q :: q in canBind && 59999 < q < port ==> exists p :: p in sockets && p >= q
          invariant !bound ==> forall q :: q in canBind && 59999 < q <= port ==> exists p :: p in sockets && p >= q
          invariant bound ==> FirstToBind(sockets, canBind, port)
          decreases !bound, 0xFFFF - port
        {
          if port == 0xFFFF {
            return 0;
          }
          port := port + 1;
          bound := port in canBind;
        }
      }
      PutIn(Relay(peer1, address1, peer2, address2, port, timeout * 1000), now);
    }

    // The relay was used.
    method Refresh(relay: Relay, now: int)
      requires SocketsValid() && relay in relays
      modifies this`lastTime
      ensures SocketsValid() && lastTime == old(lastTime)[relay := now]
      ensures Uses() == Next(old(Uses()), Forwarded(relay, now))
    {
      StampForwarded(relays, lastTime, relay, now);
      lastTime := lastTime[relay := now];
    }

    // The relay a packet comes for, which is marked.
    method Find(port: Port, address: Address) returns (relay: Relay)
      requires SocketsValid() && port in sockets && address in sockets[port]
      modifies this`received
      ensures SocketsValid() && relay == sockets[port][address] && relay in relays
      ensures received == old(received) + {relay}
    {
      relay := sockets[port][address];
      received := received + {relay};
    }

    // A packet from an address of a relay goes to the other one, and if it left the relay was used.
    method OnReception(port: Port, address: Address, now: int, sent: bool) returns (destination: Destination)
      requires Valid() && port in sockets
      modifies this`received, this`lastTime
      ensures Valid() && destination == Route(sockets[port], address)
      ensures destination.To? ==> received == old(received) + {sockets[port][address]}
      ensures destination.Nowhere? ==> received == old(received)
      ensures lastTime
           == if destination.To? && sent then old(lastTime)[sockets[port][address] := now] else old(lastTime)
      ensures destination.To? && sent ==> Uses() == Next(old(Uses()), Forwarded(sockets[port][address], now))
      ensures destination.Nowhere? || !sent ==> Uses() == old(Uses())
    {
      if address !in sockets[port] {
        return Nowhere;
      }
      var relay := Find(port, address);
      destination := To(if relay.address1 == address then relay.address2 else relay.address1);
      if sent {
        Refresh(relay, now);
      }
    }
  }
}
