/** What a delivery that stops inside a frame costs, on the same connection and on the next. */
module ServerCuts {
  import opened Codec
  import opened Reassembly
  import opened ServerLink

  // ----- a frame read from its size on -----

  // A greeting's body as it is read once its size prefix counts for the frame.
  function Echo(body: seq<byte>): seq<byte>
    requires |body| + 2 < 0x1_0000
  {
    ([(|body| + 2) / 256, (|body| + 2) % 256, 0, 0] + body)[..|body|]
  }

  // A payload under 64 KB that no misreading can leave as it is: a message's, or a greeting's
  // whose body does not happen to repeat its own size.
  predicate Shows(order: seq<Name>, frame: Frame) {
    && |frame.handler| <= 255 && |Payload(order, frame)| < 0x1_0000
    && (frame.handler == [] ==> frame.body != Echo(frame.body))
  }

  ghost predicate AllShow(frames: seq<Frame>) {
    forall k :: 0 <= k < |frames| ==> Shows(LearnAll([], frames[..k]), frames[k])
  }

  // Two zeros in front make a payload a greeting, whatever follows.
  lemma TwoZerosAreAGreeting(r: Receiver, payload: seq<byte>)
    requires payload != [] && payload[0] == 0 && (|payload| > 1 ==> payload[1] == 0)
    ensures var body := if |payload| > 1 then payload[2..] else [];
            Dispatch(r, payload) == Receiver(r.refs, 0, r.received + [Frame([], body)])
  {
    var rest := payload[1..];
    assert |payload| > 1 ==> rest[0] == 0 && rest[1..] == payload[2..];
  }

  lemma SmallSizeStartsWithZeros(order: seq<Name>, frame: Frame)
    requires Shows(order, frame)
    ensures Sendable(order, frame) && |Payload(order, frame)| >= 2
    ensures var size, bytes := |Payload(order, frame)|, Bytes(order, frame);
            bytes[0] == 0 && bytes[1] == 0 && bytes[2] == size / 256 && bytes[3] == size % 256
  {
  }

  // With its size remembered, a frame is taken from its size prefix on, and comes out as another.
  lemma RememberedSizeLosesFrame(r: Receiver, order: seq<Name>, frame: Frame, data: seq<byte>)
    requires Shows(order, frame) && r.size == |Payload(order, frame)| <= |data|
    requires data[..r.size] == (SmallSizeStartsWithZeros(order, frame); Bytes(order, frame)[..r.size])
    ensures var (r', left) := Reception(r, data);
            && left == |data| - r.size
            && |r'.received| == |r.received| + 1 && r'.received[..|r.received|] == r.received
            && r'.received[|r.received|] != frame
  {
    SmallSizeStartsWithZeros(order, frame);
    var payload := data[..r.size];
    assert data[0..0 + r.size] == payload;
    assert payload[0] == Bytes(order, frame)[0] && payload[1] == Bytes(order, frame)[1];
    TwoZerosAreAGreeting(r, payload);
    if frame.handler == [] {
      GreetingEchoes(order, frame);
    }
  }

  lemma GreetingEchoes(order: seq<Name>, frame: Frame)
    requires frame.handler == [] && |frame.body| + 2 < 0x1_0000
    ensures Sendable(order, frame) && |Payload(order, frame)| == |frame.body| + 2
    ensures Bytes(order, frame)[..|frame.body| + 2][2..] == Echo(frame.body)
  {
    var size := |frame.body| + 2;
    assert Payload(order, frame) == [0, 0] + frame.body;
    assert Bytes(order, frame) == [0, 0, size / 256, size % 256, 0, 0] + frame.body;
  }

  // ----- what a reception never takes back -----

  ghost predicate Extends(received: seq<Frame>, received': seq<Frame>) {
    |received| <= |received'| && received'[..|received|] == received
  }

  lemma ReceptionExtends(r: Receiver, data: seq<byte>)
    ensures Extends(r.received, Reception(r, data).0.received)
  {
  }

  lemma {:induction false} DrainExtends(r: Receiver, data: seq<byte>)
    ensures Extends(r.received, Drain(Reception, r, data).0.received)
    decreases |data|
  {
    if data != [] {
      var (r', rest) := Reception(r, data);
      ReceptionExtends(r, data);
      if 0 < rest < |data| {
        DrainExtends(r', data[|data| - rest..]);
        ExtendsOn(r.received, r'.received, Drain(Reception, r', data[|data| - rest..]).0.received);
      }
      DrainOnce(r, data);
    }
  }

  lemma ExtendsOn(a: seq<Frame>, b: seq<Frame>, c: seq<Frame>)
    requires Extends(a, b) && Extends(b, c)
    ensures Extends(a, c)
  {
    assert c[..|a|] == c[..|b|][..|a|];
  }

  // After a first call that took something, what it gave stays.
  lemma DrainAfterFirst(r: Receiver, data: seq<byte>)
    requires data != []
    ensures Extends(Reception(r, data).0.received, Drain(Reception, r, data).0.received)
  {
    var (r', rest) := Reception(r, data);
    if 0 < rest < |data| {
      DrainExtends(r', data[|data| - rest..]);
    }
  }

  // ----- the size a cut delivery leaves behind -----

  ghost predicate Remembers(order: seq<Name>, frames: seq<Frame>, k: nat, n: nat, r': Receiver)
    requires k <= |frames|
  {
    n >= 4 ==>
      && k < |frames| && Sendable(LearnAll(order, frames[..k]), frames[k])
      && r'.size == |Payload(LearnAll(order, frames[..k]), frames[k])| && n < r'.size + 4
  }

  ghost predicate RemembersAt(order: seq<Name>, frames: seq<Frame>, n: nat, r': Receiver)
    requires AllSendable(order, frames)
  {
    Remembers(order, frames, Finished(order, frames, n), Unfinished(order, frames, n), r')
  }

  lemma RemembersStep(order: seq<Name>, frames: seq<Frame>, k: nat, n: nat, r': Receiver)
    requires k < |frames| && Remembers(Learn(order, frames[0].handler), frames[1..], k, n, r')
    ensures Remembers(order, frames, k + 1, n, r')
  {
    FramesSplit(frames, k);
    LearnAllFirst(order, frames, k);
  }

  lemma RemembersIs(order: seq<Name>, frames: seq<Frame>, n: nat, k: nat, rest: nat, r': Receiver)
    requires AllSendable(order, frames) && k <= |frames|
    requires Finished(order, frames, n) == k && Unfinished(order, frames, n) == rest
    requires Remembers(order, frames, k, rest, r')
    ensures RemembersAt(order, frames, n, r')
  {
  }

  lemma RemembersMore(order: seq<Name>, frames: seq<Frame>, n: nat, r': Receiver)
    requires AllSendable(order, frames) && frames != []
    requires RemembersAt(Learn(order, frames[0].handler), frames[1..], n, r')
    ensures RemembersAt(order, frames, |Bytes(order, frames[0])| + n, r')
  {
    var next, tail := Learn(order, frames[0].handler), frames[1..];
    var k, rest := Finished(next, tail, n), Unfinished(next, tail, n);
    FrameCounted(order, frames, n);
    RemembersStep(order, frames, k, rest, r');
    RemembersIs(order, frames, |Bytes(order, frames[0])| + n, k + 1, rest, r');
  }

  lemma DrainRemembersPart(r: Receiver, order: seq<Name>, frames: seq<Frame>, kept: seq<byte>, wire: seq<byte>)
    requires AllSendable(order, frames) && frames != [] && r.size == 0
    requires kept + wire == Stream(order, frames) && 0 < |kept| < |Bytes(order, frames[0])|
    ensures Remembers(order, frames, 0, |kept|, Drain(Reception, r, kept).0)
  {
    assert kept == (kept + wire)[..|kept|] == Bytes(order, frames[0])[..|kept|];
    ReceptionKeepsPart(r, order, frames[0], kept);
    assert frames[..0] == [];
  }

  lemma {:induction false} DrainRemembers(r: Receiver, order: seq<Name>, frames: seq<Frame>,
                                          kept: seq<byte>, wire: seq<byte>)
    requires AllSendable(order, frames) && |order| + |frames| < 0x1_0000_0000
    requires Names(r.refs, order) && r.size == 0
    requires kept + wire == Stream(order, frames)
    ensures RemembersAt(order, frames, |kept|, Drain(Reception, r, kept).0)
    decreases |kept|
  {
    if kept == [] {
    } else if |kept| < |Bytes(order, frames[0])| {
      DrainRemembersPart(r, order, frames, kept, wire);
    } else {
      var rest := kept[|Bytes(order, frames[0])|..];
      DrainTakesFirst(r, order, frames, kept, wire);
      var r1 := Dispatch(r, Payload(order, frames[0]));
      DrainRemembers(r1, Learn(order, frames[0].handler), frames[1..], rest, wire);
      RemembersWhole(order, frames, kept, rest, Drain(Reception, r1, rest).0);
    }
  }

  lemma RemembersWhole(order: seq<Name>, frames: seq<Frame>, kept: seq<byte>, rest: seq<byte>, r': Receiver)
    requires AllSendable(order, frames) && frames != [] && |kept| == |Bytes(order, frames[0])| + |rest|
    requires RemembersAt(Learn(order, frames[0].handler), frames[1..], |rest|, r')
    ensures RemembersAt(order, frames, |kept|, r')
  {
    RemembersMore(order, frames, |rest|, r');
  }

  // ----- broken links -----

  ghost function OrderAt(link: Link): seq<Name>
    requires |link.receiver.received| <= |link.sent|
  {
    LearnAll([], link.sent[..|link.receiver.received|])
  }

  // Part of a frame is kept and its size remembered; all before it came as it was sent.
  ghost predicate Cut(link: Link) {
    var k := |link.receiver.received|;
    && SameDictionary(link) && StreamIntact(link)
    && k < |link.sent| && Sendable(OrderAt(link), link.sent[k])
    && link.receiver.size == |Payload(OrderAt(link), link.sent[k])|
    && 4 <= |link.kept| < link.receiver.size + 4
  }

  // Something came that is not what was sent in its place.
  ghost predicate Wrong(link: Link) {
    exists i :: 0 <= i < |link.sent| && i < |link.receiver.received| && link.receiver.received[i] != link.sent[i]
  }

  ghost predicate Broken(link: Link) {
    Cut(link) || Wrong(link)
  }

  lemma BrokenIsNotAllReceived(link: Link)
    requires Broken(link)
    ensures link.receiver.received != link.sent
  {
  }

  // A delivery that leaves four bytes or more of a frame breaks the link.
  lemma UnsmoothDeliveryCuts(link: Link, n: nat)
    requires InSync(link) && Possible(link, Deliver(n)) && LeftOver(link, n) >= 4
    ensures Cut(Next(link, Deliver(n)))
  {
    var k := |link.receiver.received|;
    var kept := link.kept + link.wire[..n];
    var more := Finished(OrderAt(link), link.sent[k..], |kept|);
    DeliveryDrains(link, n);
    DeliverKeepsTheRest(link, n);
    LearnAllKeepsDistinct([], link.sent[..k]);
    DrainRemembers(link.receiver, OrderAt(link), link.sent[k..], kept, link.wire[n..]);
    DeliveredSoFar(link.sent, k, more);
  }

  // ----- a broken link stays broken -----

  lemma ShownSoFar(sent: seq<Frame>, more: seq<Frame>)
    requires AllShow(sent + more)
    ensures AllShow(sent)
  {
    forall k | 0 <= k < |sent| ensures Shows(LearnAll([], sent[..k]), sent[k]) {
      assert (sent + more)[k] == sent[k] && (sent + more)[..k] == sent[..k];
    }
  }

  lemma SendKeepsCut(link: Link, frame: Frame)
    requires Cut(link) && Possible(link, Send(frame))
    ensures Cut(Next(link, Send(frame)))
  {
    SendKeepsDictionary(link, frame);
    SendExtendsStream(link, frame);
    PrefixStays(link.sent, Frame(Truncated(frame.handler), frame.body), |link.receiver.received|);
  }

  // What is kept and what comes begin with the frame that was cut.
  lemma CutFrameIsInFront(link: Link, n: nat)
    requires Cut(link) && n <= |link.wire| && link.receiver.size <= |link.kept + link.wire[..n]|
    ensures (link.kept + link.wire[..n])[..link.receiver.size]
         == Bytes(OrderAt(link), link.sent[|link.receiver.received|])[..link.receiver.size]
  {
    var k, size := |link.receiver.received|, link.receiver.size;
    var data := link.kept + link.wire[..n];
    var first := Bytes(OrderAt(link), link.sent[k]);
    var tail := Stream(Learn(OrderAt(link), link.sent[k].handler), link.sent[k..][1..]);
    assert data + link.wire[n..] == link.kept + link.wire == first + tail;
    assert data[..size] == (data + link.wire[n..])[..size] == first[..size];
  }

  // Until its size is reached the cut frame waits; then it comes out as another.
  lemma DeliverKeepsBroken(link: Link, n: nat)
    requires Cut(link) && Possible(link, Deliver(n)) && AllShow(link.sent)
    ensures Broken(Next(link, Deliver(n)))
  {
    var data := link.kept + link.wire[..n];
    if |data| < link.receiver.size {
      assert data + link.wire[n..] == link.kept + link.wire;
      assert Next(link, Deliver(n)) == link.(kept := data, wire := link.wire[n..]);
    } else {
      CutFrameIsInFront(link, n);
      CutFrameComesWrong(link, n, data);
    }
  }

  lemma CutFrameComesWrong(link: Link, n: nat, data: seq<byte>)
    requires Cut(link) && Possible(link, Deliver(n)) && AllShow(link.sent)
    requires data == link.kept + link.wire[..n] && link.receiver.size <= |data|
    requires data[..link.receiver.size]
          == Bytes(OrderAt(link), link.sent[|link.receiver.received|])[..link.receiver.size]
    ensures Wrong(Next(link, Deliver(n)))
  {
    var k := |link.receiver.received|;
    assert Shows(OrderAt(link), link.sent[k]);
    RememberedSizeLosesFrame(link.receiver, OrderAt(link), link.sent[k], data);
    DrainAfterFirst(link.receiver, data);
    var received := Next(link, Deliver(n)).receiver.received;
    assert received[k] != link.sent[k];
  }

  lemma NextKeepsWrong(link: Link, step: Step)
    requires Wrong(link) && Possible(link, step)
    ensures Wrong(Next(link, step))
  {
    var i :| 0 <= i < |link.sent| && i < |link.receiver.received| && link.receiver.received[i] != link.sent[i];
    var link' := Next(link, step);
    if step.Deliver? {
      DrainExtends(link.receiver, link.kept + link.wire[..step.n]);
    }
    assert link'.receiver.received[i] == link.receiver.received[i] && link'.sent[i] == link.sent[i];
  }

  lemma NextKeepsBroken(link: Link, step: Step)
    requires Broken(link) && Possible(link, step) && AllShow(link.sent)
    ensures Broken(Next(link, step))
  {
    if Wrong(link) {
      NextKeepsWrong(link, step);
    } else {
      match step
      case Send(frame) => SendKeepsCut(link, frame);
      case Deliver(n) => DeliverKeepsBroken(link, n);
    }
  }

  lemma {:induction false} RunKeepsBroken(link: Link, steps: seq<Step>)
    requires Broken(link) && PossibleRun(link, steps) && AllShow(Run(link, steps).sent)
    ensures Broken(Run(link, steps))
    decreases |steps|
  {
    if steps != [] {
      RunSends(link, steps);
      ShownSoFar(link.sent, SentIn(steps));
      NextKeepsBroken(link, steps[0]);
      RunKeepsBroken(Next(link, steps[0]), steps[1..]);
    }
  }

  lemma {:induction false} UnsmoothRunBreaks(link: Link, steps: seq<Step>)
    requires InSync(link) && PossibleRun(link, steps) && !Smooth(link, steps) && AllShow(Run(link, steps).sent)
    ensures Broken(Run(link, steps))
    decreases |steps|
  {
    var link' := Next(link, steps[0]);
    if steps[0].Deliver? && LeftOver(link, steps[0].n) >= 4 {
      UnsmoothDeliveryCuts(link, steps[0].n);
      RunKeepsBroken(link', steps[1..]);
    } else {
      SyncStep(link, steps[0]);
      UnsmoothRunBreaks(link', steps[1..]);
    }
  }

  // All of what arrives of the frames given shows.
  ghost predicate AllShowAsGiven(given: seq<Frame>) {
    forall arriving: seq<Frame> :: ArriveAs(given, arriving) ==> AllShow(arriving)
  }

  /** Once everything was delivered, the receiver has exactly the frames that were given, their names
      cut to 255 bytes, if and only if no delivery stopped between the size of a frame and its end. */
  lemma AllArrivesExactly(steps: seq<Step>)
    requires PossibleRun(CONNECTED, steps) && Run(CONNECTED, steps).wire == [] && AllShowAsGiven(GivenTo(steps))
    ensures ArriveAs(GivenTo(steps), Run(CONNECTED, steps).receiver.received)
       <==> (ConnectedInSync(); Smooth(CONNECTED, steps))
  {
    ConnectedInSync();
    SentAsGiven(steps);
    AllArrivesFrom(CONNECTED, steps);
    ArriveOnce(GivenTo(steps), SentIn(steps), Run(CONNECTED, steps).receiver.received);
  }

  lemma AllArrivesFrom(link: Link, steps: seq<Step>)
    requires InSync(link) && link.sent == [] && PossibleRun(link, steps) && AllShow(SentIn(steps))
    requires Run(link, steps).wire == []
    ensures Run(link, steps).receiver.received == SentIn(steps) <==> Smooth(link, steps)
  {
    RunSends(link, steps);
    assert Run(link, steps).sent == SentIn(steps);
    if Smooth(link, steps) {
      RunDelivers(link, steps);
    } else {
      UnsmoothRunBreaks(link, steps);
      BrokenIsNotAllReceived(Run(link, steps));
    }
  }

  // ----- the next connection -----

  // Both ends once disconnected: the dictionaries, the queue and what was kept are gone, the size
  // of a frame begun is not.
  ghost function Disconnected(link: Link): Link {
    Link(map[], [], [], [], Receiver(map[], link.receiver.size, []))
  }

  ghost function FirstFrame(frame: Frame): Frame {
    Frame(Truncated(frame.handler), frame.body)
  }

  // A message sent on a link where nothing was, and delivered whole.
  ghost function FirstDelivered(link: Link, frame: Frame): Link
    requires link.sending == map[] && link.sent == [] && link.wire == [] && Shows([], FirstFrame(frame))
  {
    FirstOnTheWire(link, frame);
    var sent := Next(link, Send(frame));
    Next(sent, Deliver(|sent.wire|))
  }

  lemma FirstOnTheWire(link: Link, frame: Frame)
    requires link.sending == map[] && link.sent == [] && link.wire == [] && Shows([], FirstFrame(frame))
    ensures Possible(link, Send(frame)) && Sendable([], FirstFrame(frame))
    ensures Next(link, Send(frame)).wire == Bytes([], FirstFrame(frame))
  {
    SmallBody([], FirstFrame(frame));
    SameBytes(map[], [], FirstFrame(frame));
    WireAfterSend(link, frame);
  }

  lemma SmallBody(order: seq<Name>, f: Frame)
    requires Shows(order, f)
    ensures |f.handler| <= 255 && |f.body| < 0x1_0000
  {
    assert Payload(order, f)[|Head(order, f.handler)|..] == f.body;
  }

  lemma WireAfterSend(link: Link, frame: Frame)
    requires link.sending == map[] && link.sent == [] && link.wire == [] && |frame.body| < 0x1_0000
    ensures |FirstFrame(frame).handler| <= 255
    ensures Possible(link, Send(frame)) && Next(link, Send(frame)).wire == BytesFor(map[], FirstFrame(frame))
  {
    var bytes := BytesFor(map[], FirstFrame(frame));
    assert link.wire + bytes == bytes;
  }

  lemma FirstAsGiven(frame: Frame)
    ensures forall received :: ArriveAs([frame], received) <==> received == [FirstFrame(frame)]
  {
    forall received ensures ArriveAs([frame], received) <==> received == [FirstFrame(frame)] {
      ArriveOnce([frame], [FirstFrame(frame)], received);
    }
  }

  lemma WholeFirstFrame(f: Frame)
    requires Shows([], f)
    ensures Sendable([], f) && Drain(Reception, Receiver(map[], 0, []), Bytes([], f)).0.received == [f]
  {
    var r := Receiver(map[], 0, []);
    ReceptionTakesFrame(r, [], f, []);
    assert Bytes([], f) + [] == Bytes([], f);
    DispatchReadsPayload(r, [], f);
  }

  lemma StaleSizeLosesFirstFrame(f: Frame, size: nat)
    requires Shows([], f) && f.handler != [] && size > 0
    ensures Sendable([], f) && Drain(Reception, Receiver(map[], size, []), Bytes([], f)).0.received != [f]
  {
    var r := Receiver(map[], size, []);
    SmallSizeStartsWithZeros([], f);
    var data := Bytes([], f);
    if size <= |data| {
      var payload := data[..size];
      assert data[0..0 + size] == payload;
      TwoZerosAreAGreeting(r, payload);
      DrainAfterFirst(r, data);
      assert Drain(Reception, r, data).0.received[0].handler == [];
    }
  }

  /** After a disconnection on both ends, the first message of the next connection comes as it was sent
      if and only if the last delivery before left fewer than four bytes of a frame. */
  lemma FirstMessageArrivesExactly(link: Link, n: nat, frame: Frame)
    requires InSync(link) && Possible(link, Deliver(n))
    requires frame.handler != [] && Shows([], FirstFrame(frame))
    ensures var next := Disconnected(Next(link, Deliver(n)));
            ArriveAs([frame], FirstDelivered(next, frame).receiver.received) <==> LeftOver(link, n) < 4
  {
    FirstAsGiven(frame);
    var next := Disconnected(Next(link, Deliver(n)));
    DeliverKeepsTheRest(link, n);
    FirstOnTheWire(next, frame);
    var bytes := Bytes([], FirstFrame(frame));
    assert [] + bytes[..|bytes|] == bytes;
    if next.receiver.size == 0 {
      WholeFirstFrame(FirstFrame(frame));
    } else {
      StaleSizeLosesFirstFrame(FirstFrame(frame), next.receiver.size);
    }
  }

  // ----- inputs that fail -----

  // A message of six bytes, delivered in two pieces of four and two.
  lemma CutMessageIsLost()
    ensures var steps := [Send(Frame([65], [])), Deliver(4), Deliver(2)];
            && PossibleRun(CONNECTED, steps) && Run(CONNECTED, steps).wire == []
            && GivenTo(steps) == [Frame([65], [])] != Run(CONNECTED, steps).receiver.received
  {
    var f := Frame([65], []);
    var steps := [Send(f), Deliver(4), Deliver(2)];
    SmallMessage(f);
    CutRun(f, steps);
    OnlyMessageShows(f);
    AllArrivesExactly(steps);
    ShortNamesArrive([f], Run(CONNECTED, steps).receiver.received);
  }

  lemma CutRun(f: Frame, steps: seq<Step>)
    requires FirstFrame(f) == f && Shows([], f) && |Bytes([], f)| == 6
    requires steps == [Send(f), Deliver(4), Deliver(2)]
    ensures PossibleRun(CONNECTED, steps) && Run(CONNECTED, steps).wire == [] && GivenTo(steps) == [f]
    ensures (ConnectedInSync(); !Smooth(CONNECTED, steps))
  {
    var rest, last := [Deliver(4), Deliver(2)], [Deliver(2)];
    FirstOnTheWire(CONNECTED, f);
    var link1 := Next(CONNECTED, Send(f));
    assert rest == [Deliver(4)] + last && steps == [Send(f)] + rest;
    CutInTwo(link1, rest, last);
    CutIsNotSmooth(link1, f, rest);
    ConnectedInSync();
    SendsFirst(CONNECTED, f, rest);
    GivenFirst(f, rest, last);
  }

  lemma GivenFirst(f: Frame, rest: seq<Step>, last: seq<Step>)
    requires rest == [Deliver(4)] + last && last == [Deliver(2)]
    ensures GivenTo([Send(f)] + rest) == [f]
  {
    assert last[1..] == [] && GivenTo([]) == [];
    assert GivenTo(last) == [] + GivenTo(last[1..]);
    assert rest[1..] == last && GivenTo(rest) == [] + GivenTo(rest[1..]);
    assert ([Send(f)] + rest)[1..] == rest;
  }

  // A run that begins with a send is as smooth as the rest of it.
  lemma SendsFirst(link: Link, f: Frame, rest: seq<Step>)
    requires InSync(link) && Possible(link, Send(f)) && PossibleRun(Next(link, Send(f)), rest)
    ensures var steps := [Send(f)] + rest;
            && PossibleRun(link, steps) && Run(link, steps) == Run(Next(link, Send(f)), rest)
            && InSync(Next(link, Send(f))) && Smooth(link, steps) == Smooth(Next(link, Send(f)), rest)
  {
    assert ([Send(f)] + rest)[1..] == rest;
    SyncStep(link, Send(f));
  }

  lemma CutIsNotSmooth(link: Link, f: Frame, rest: seq<Step>)
    requires Possible(CONNECTED, Send(f)) && link == Next(CONNECTED, Send(f)) && FirstFrame(f) == f
    requires Sendable([], f) && |Bytes([], f)| == 6 && PossibleRun(link, rest)
    requires rest != [] && rest[0] == Deliver(4)
    ensures InSync(link) && !Smooth(link, rest)
  {
    ConnectedInSync();
    SendKeepsSync(CONNECTED, f);
    SixBytesBegun(link, f);
  }

  lemma SmallMessage(f: Frame)
    requires f == Frame([65], [])
    ensures FirstFrame(f) == f && Shows([], f) && Sendable([], f) && |Bytes([], f)| == 6
  {
  }

  lemma OnlyMessageShows(f: Frame)
    requires Shows([], f)
    ensures |f.handler| <= 255 && AllShowAsGiven([f])
  {
    assert [f][..0] == [];
    forall arriving | ArriveAs([f], arriving) ensures AllShow(arriving) {
      ShortNamesArrive([f], arriving);
    }
  }

  // Four bytes, then two.
  lemma CutInTwo(link: Link, rest: seq<Step>, last: seq<Step>)
    requires |link.wire| == 6 && rest == [Deliver(4)] + last && last == [Deliver(2)]
    ensures PossibleRun(link, rest) && Run(link, rest).wire == []
  {
    var link1 := Next(link, Deliver(4));
    var link2 := Next(link1, Deliver(2));
    assert rest[1..] == last && last[1..] == [];
    assert PossibleRun(link2, []);
    assert PossibleRun(link1, last) && Run(link1, last) == link2;
  }

  lemma SixBytesBegun(link: Link, f: Frame)
    requires InSync(link) && link.sent == [f] && link.kept == [] && link.receiver.received == []
    requires Sendable([], f) && |Bytes([], f)| == 6
    ensures LeftOver(link, 4) == 4
  {
    assert link.sent[..0] == [] && link.sent[0..] == [f];
  }
}
