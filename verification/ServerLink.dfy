/** The link between two MonaServer processes: framed messages whose handler names are replaced,
    once sent, by numbers both ends give them. */
module ServerLink {
  import opened Codec
  import opened Reassembly
  import opened Sequences

  type Name = seq<byte>

  // What is handed over by a sender, and what comes out on the other side. The empty name is
  // kept for the greeting that opens a link.
  datatype Frame = Frame(handler: Name, body: seq<byte>)

  function Truncated(name: Name): Name {
    if |name| > 255 then name[..255] else name
  }

  // ----- the dictionary both ends build: the names in the order they were first sent -----

  function Learn(order: seq<Name>, name: Name): seq<Name> {
    if name == [] || name in order then order else order + [name]
  }

  function LearnAll(order: seq<Name>, frames: seq<Frame>): seq<Name>
    decreases |frames|
  {
    if frames == [] then order else LearnAll(Learn(order, frames[0].handler), frames[1..])
  }

  ghost predicate Distinct(order: seq<Name>) {
    forall i, j :: 0 <= i < j < |order| ==> order[i] != order[j]
  }

  // The sender's map numbers the names from 1; the receiver's map is its inverse.
  ghost predicate Numbers(refs: map<Name, nat>, order: seq<Name>) {
    && |refs| == |order|
    && (forall name :: name in refs <==> name in order)
    && (forall i :: 0 <= i < |order| ==> order[i] in refs && refs[order[i]] == i + 1)
  }

  ghost predicate Names(refs: map<nat, Name>, order: seq<Name>) {
    && |refs| == |order|
    && (forall ref :: ref in refs <==> 1 <= ref <= |order|)
    && (forall i :: 0 <= i < |order| ==> refs[i + 1] == order[i])
  }

  // ----- frames -----

  function Position(order: seq<Name>, name: Name): (i: nat)
    requires name in order
    ensures i < |order| && order[i] == name
  {
    if order[0] == name then 0 else 1 + Position(order[1..], name)
  }

  // The name's place in a frame: its size and text the first time, its number after.
  function Head(order: seq<Name>, name: Name): (head: seq<byte>)
    requires |name| <= 255
  {
    if name == [] then [0, 0]
    else if name in order then [0] + Encode7Bit(Position(order, name) + 1)
    else [|name|] + name
  }

  function Payload(order: seq<Name>, frame: Frame): seq<byte>
    requires |frame.handler| <= 255
  {
    Head(order, frame.handler) + frame.body
  }

  predicate Sendable(order: seq<Name>, frame: Frame) {
    |frame.handler| <= 255 && |Payload(order, frame)| < 0x1_0000_0000
  }

  function Bytes(order: seq<Name>, frame: Frame): (s: seq<byte>)
    requires Sendable(order, frame)
    ensures |s| == 4 + |Payload(order, frame)|
  {
    BigEndian32(|Payload(order, frame)|) + Payload(order, frame)
  }

  ghost predicate AllSendable(order: seq<Name>, frames: seq<Frame>)
    decreases |frames|
  {
    frames != [] ==>
      && Sendable(order, frames[0])
      && AllSendable(Learn(order, frames[0].handler), frames[1..])
  }

  // The bytes of successive frames, none between them.
  ghost function Stream(order: seq<Name>, frames: seq<Frame>): seq<byte>
    requires AllSendable(order, frames)
    decreases |frames|
  {
    if frames == [] then []
    else Bytes(order, frames[0]) + Stream(Learn(order, frames[0].handler), frames[1..])
  }

  // ----- reception -----

  datatype Receiver = Receiver(refs: map<nat, Name>, size: nat, received: seq<Frame>)

  // The name at the head of a payload, learnt or looked up, and the body that follows.
  ghost function Dispatch(r: Receiver, payload: seq<byte>): Receiver {
    var handlerSize := if payload == [] then 0 else payload[0];
    var rest := if payload == [] then [] else payload[1..];
    if handlerSize > 0 then
      var handler := Padded(rest, handlerSize);
      var body := if |rest| < handlerSize then [] else rest[handlerSize..];
      Receiver(r.refs[|r.refs| + 1 := handler], 0, r.received + [Frame(handler, body)])
    else
      var ref := Decode7Bit(rest) % 0x1_0000_0000;
      var handler := if ref in r.refs && ref > 0 then r.refs[ref] else [];
      Receiver(r.refs, 0, r.received + [Frame(handler, rest[Length7Bit(rest)..])])
  }

  // One call of onReception: the new state and the bytes it leaves.
  ghost function Reception(r: Receiver, kept: seq<byte>): (Receiver, nat) {
    if r.size == 0 && |kept| < 4 then (r, |kept|)
    else
      var size := if r.size == 0 then FromBigEndian32(kept[..4]) else r.size;
      var start := if r.size == 0 then 4 else 0;
      if |kept| - start < size then (r.(size := size), |kept|)
      else (Dispatch(r, kept[start..start + size]), |kept| - start - size)
  }

  // ----- one frame, from end to end -----

  lemma LearnKeepsDistinct(order: seq<Name>, name: Name)
    requires Distinct(order)
    ensures Distinct(Learn(order, name))
  {
  }

  lemma NamesLearn(refs: map<nat, Name>, order: seq<Name>, name: Name)
    requires Names(refs, order) && name != [] && name !in order
    ensures Names(refs[|refs| + 1 := name], Learn(order, name))
  {
    var ref, order' := |refs| + 1, order + [name];
    assert ref !in refs;
    assert |refs[ref := name]| == |refs| + 1;
    forall i | 0 <= i < |order'| ensures refs[ref := name][i + 1] == order'[i] {
    }
  }

  // A payload gives back its name and body, and the receiver learns what the sender learnt.
  lemma DispatchReadsPayload(r: Receiver, order: seq<Name>, frame: Frame)
    requires Names(r.refs, order) && |frame.handler| <= 255 && |order| < 0x1_0000_0000
    ensures var r' := Dispatch(r, Payload(order, frame));
            && Names(r'.refs, Learn(order, frame.handler))
            && r'.size == 0 && r'.received == r.received + [frame]
  {
    if frame.handler == [] {
      var rest := Payload(order, frame)[1..];
      assert rest == [0] + frame.body && rest[1..] == frame.body;
    } else if frame.handler in order {
      DispatchReadsNumber(r, order, frame);
    } else {
      DispatchReadsName(r, order, frame);
    }
  }

  lemma DispatchReadsNumber(r: Receiver, order: seq<Name>, frame: Frame)
    requires Names(r.refs, order) && |frame.handler| <= 255 && |order| < 0x1_0000_0000
    requires frame.handler in order && frame.handler != []
    ensures Dispatch(r, Payload(order, frame)) == Receiver(r.refs, 0, r.received + [frame])
  {
    var rest := Payload(order, frame)[1..];
    var ref := Position(order, frame.handler) + 1;
    assert rest == Encode7Bit(ref) + frame.body;
    Encode7BitDecodes(ref, frame.body);
    assert rest[Length7Bit(rest)..] == frame.body;
  }

  lemma DispatchReadsName(r: Receiver, order: seq<Name>, frame: Frame)
    requires Names(r.refs, order) && |frame.handler| <= 255
    requires frame.handler !in order && frame.handler != []
    ensures var r' := Dispatch(r, Payload(order, frame));
            && Names(r'.refs, Learn(order, frame.handler))
            && r'.size == 0 && r'.received == r.received + [frame]
  {
    var name := frame.handler;
    var rest := Payload(order, frame)[1..];
    assert rest == name + frame.body;
    assert Padded(rest, |name|) == name && rest[|name|..] == frame.body;
    NamesLearn(r.refs, order, name);
  }

  // A frame at the front of the kept bytes is taken whole and no byte more.
  lemma ReceptionTakesFrame(r: Receiver, order: seq<Name>, frame: Frame, more: seq<byte>)
    requires Sendable(order, frame) && r.size == 0
    ensures Reception(r, Bytes(order, frame) + more) == (Dispatch(r, Payload(order, frame)), |more|)
  {
    var payload := Payload(order, frame);
    var kept := Bytes(order, frame) + more;
    BigEndian32Reads(|payload|);
    assert kept[..4] == BigEndian32(|payload|);
    assert kept[4..4 + |payload|] == payload;
  }

  // Part of a frame is left where it is; from its fifth byte on its size is remembered.
  lemma ReceptionKeepsPart(r: Receiver, order: seq<Name>, frame: Frame, kept: seq<byte>)
    requires Sendable(order, frame) && r.size == 0
    requires |kept| < |Bytes(order, frame)| && kept == Bytes(order, frame)[..|kept|]
    ensures Reception(r, kept) == (if |kept| < 4 then r else r.(size := |Payload(order, frame)|), |kept|)
  {
    if |kept| >= 4 {
      BigEndian32Reads(|Payload(order, frame)|);
      assert kept[..4] == BigEndian32(|Payload(order, frame)|);
    }
  }

  // ----- runs -----

  // Bytes of an unfinished frame among the first `n` bytes of a stream.
  ghost function Unfinished(order: seq<Name>, frames: seq<Frame>, n: nat): nat
    requires AllSendable(order, frames)
    decreases |frames|
  {
    if frames == [] then n
    else
      var size := |Bytes(order, frames[0])|;
      if n < size then n else Unfinished(Learn(order, frames[0].handler), frames[1..], n - size)
  }

  // Frames finished within the first `n` bytes of a stream.
  ghost function Finished(order: seq<Name>, frames: seq<Frame>, n: nat): (k: nat)
    requires AllSendable(order, frames)
    ensures k <= |frames|
    decreases |frames|
  {
    if frames == [] then 0
    else
      var size := |Bytes(order, frames[0])|;
      if n < size then 0 else 1 + Finished(Learn(order, frames[0].handler), frames[1..], n - size)
  }

  lemma {:induction false} LearnAllAppends(order: seq<Name>, frames: seq<Frame>, more: seq<Frame>)
    ensures LearnAll(order, frames + more) == LearnAll(LearnAll(order, frames), more)
    decreases |frames|
  {
    if frames == [] {
      assert frames + more == more;
    } else {
      assert (frames + more)[1..] == frames[1..] + more;
      LearnAllAppends(Learn(order, frames[0].handler), frames[1..], more);
    }
  }

  // What draining the front of a stream must do: the finished frames come out in order, the
  // receiver's names follow them, and what is kept with what is still on the wire is the rest of
  // the stream.
  ghost predicate Drained(r: Receiver, order: seq<Name>, frames: seq<Frame>, kept: seq<byte>, wire: seq<byte>,
                          r': Receiver, kept': seq<byte>)
    requires AllSendable(order, frames)
  {
    var k := Finished(order, frames, |kept|);
    && |kept'| == Unfinished(order, frames, |kept|)
    && Delivered(r, order, frames, k, r')
    && Remains(order, frames, k, kept' + wire)
    && (r'.size == 0 <==> |kept'| < 4)
  }

  ghost predicate Delivered(r: Receiver, order: seq<Name>, frames: seq<Frame>, k: nat, r': Receiver)
    requires k <= |frames|
  {
    r'.received == r.received + frames[..k] && Names(r'.refs, LearnAll(order, frames[..k]))
  }

  ghost predicate Remains(order: seq<Name>, frames: seq<Frame>, k: nat, bytes: seq<byte>)
    requires k <= |frames|
  {
    Streams(LearnAll(order, frames[..k]), frames[k..], bytes)
  }

  ghost predicate Streams(order: seq<Name>, frames: seq<Frame>, bytes: seq<byte>) {
    AllSendable(order, frames) && bytes == Stream(order, frames)
  }

  lemma DrainedPart(r: Receiver, order: seq<Name>, frames: seq<Frame>, kept: seq<byte>, wire: seq<byte>)
    requires AllSendable(order, frames) && Names(r.refs, order) && r.size == 0
    requires kept + wire == Stream(order, frames)
    requires kept == [] || |kept| < |Bytes(order, frames[0])|
    ensures var (r', kept') := Drain(Reception, r, kept);
            Drained(r, order, frames, kept, wire, r', kept')
  {
    assert frames[..0] == [] && frames[0..] == frames;
    if kept != [] {
      assert kept == (kept + wire)[..|kept|] == Bytes(order, frames[0])[..|kept|];
      ReceptionKeepsPart(r, order, frames[0], kept);
    }
  }

  lemma DrainedStep(r: Receiver, r1: Receiver, order: seq<Name>, frames: seq<Frame>, rest: seq<byte>, wire: seq<byte>,
                    r': Receiver, kept': seq<byte>)
    requires AllSendable(order, frames) && frames != []
    requires r1.received == r.received + [frames[0]]
    requires Drained(r1, Learn(order, frames[0].handler), frames[1..], rest, wire, r', kept')
    ensures Drained(r, order, frames, Bytes(order, frames[0]) + rest, wire, r', kept')
  {
    var k := Finished(Learn(order, frames[0].handler), frames[1..], |rest|);
    FrameCounted(order, frames, |rest|);
    DeliveredStep(r, r1, order, frames, k, r');
    RemainsStep(order, frames, k, kept' + wire);
  }

  lemma DeliveredStep(r: Receiver, r1: Receiver, order: seq<Name>, frames: seq<Frame>, k: nat, r': Receiver)
    requires k < |frames| && r1.received == r.received + [frames[0]]
    requires Delivered(r1, Learn(order, frames[0].handler), frames[1..], k, r')
    ensures Delivered(r, order, frames, k + 1, r')
  {
    FramesSplit(frames, k);
    LearnAllFirst(order, frames, k);
  }

  lemma RemainsStep(order: seq<Name>, frames: seq<Frame>, k: nat, bytes: seq<byte>)
    requires k < |frames| && Remains(Learn(order, frames[0].handler), frames[1..], k, bytes)
    ensures Remains(order, frames, k + 1, bytes)
  {
    FramesSplit(frames, k);
    LearnAllFirst(order, frames, k);
  }

  lemma FrameCounted(order: seq<Name>, frames: seq<Frame>, n: nat)
    requires AllSendable(order, frames) && frames != []
    ensures var size := |Bytes(order, frames[0])|;
            var next, tail := Learn(order, frames[0].handler), frames[1..];
            && Finished(order, frames, size + n) == Finished(next, tail, n) + 1
            && Unfinished(order, frames, size + n) == Unfinished(next, tail, n)
  {
  }

  lemma FramesSplit(frames: seq<Frame>, k: nat)
    requires k < |frames|
    ensures frames[..k + 1] == [frames[0]] + frames[1..][..k]
    ensures frames[k + 1..] == frames[1..][k..]
  {
  }

  lemma LearnAllFirst(order: seq<Name>, frames: seq<Frame>, k: nat)
    requires k < |frames|
    ensures LearnAll(order, frames[..k + 1]) == LearnAll(Learn(order, frames[0].handler), frames[1..][..k])
  {
    assert frames[..k + 1][1..] == frames[1..][..k];
  }

  lemma {:induction false} DrainReadsStream(r: Receiver, order: seq<Name>, frames: seq<Frame>,
                                            kept: seq<byte>, wire: seq<byte>)
    requires AllSendable(order, frames) && |order| + |frames| < 0x1_0000_0000
    requires Names(r.refs, order) && r.size == 0
    requires kept + wire == Stream(order, frames)
    ensures var (r', kept') := Drain(Reception, r, kept);
            Drained(r, order, frames, kept, wire, r', kept')
    decreases |kept|
  {
    if kept == [] || |kept| < |Bytes(order, frames[0])| {
      DrainedPart(r, order, frames, kept, wire);
    } else {
      var first := Bytes(order, frames[0]);
      var rest := kept[|first|..];
      DrainTakesFirst(r, order, frames, kept, wire);
      var r1 := Dispatch(r, Payload(order, frames[0]));
      DrainReadsStream(r1, Learn(order, frames[0].handler), frames[1..], rest, wire);
      var (r', kept') := Drain(Reception, r1, rest);
      DrainedStep(r, r1, order, frames, rest, wire, r', kept');
    }
  }

  // A whole frame in front is taken, and the rest is drained as the stream that follows it.
  lemma DrainTakesFirst(r: Receiver, order: seq<Name>, frames: seq<Frame>, kept: seq<byte>, wire: seq<byte>)
    requires AllSendable(order, frames) && frames != [] && |order| < 0x1_0000_0000
    requires Names(r.refs, order) && r.size == 0
    requires kept + wire == Stream(order, frames) && |kept| >= |Bytes(order, frames[0])|
    ensures var first, r1 := Bytes(order, frames[0]), Dispatch(r, Payload(order, frames[0]));
            var rest := kept[|first|..];
            && kept == first + rest && rest + wire == Stream(Learn(order, frames[0].handler), frames[1..])
            && Names(r1.refs, Learn(order, frames[0].handler)) && r1.size == 0
            && r1.received == r.received + [frames[0]]
            && Drain(Reception, r, kept) == Drain(Reception, r1, rest)
  {
    var first, tail := Bytes(order, frames[0]), Stream(Learn(order, frames[0].handler), frames[1..]);
    var rest := kept[|first|..];
    FrontOf(kept, wire, first, tail);
    ReceptionTakesFrame(r, order, frames[0], rest);
    DispatchReadsPayload(r, order, frames[0]);
    DrainTakes(r, kept, Dispatch(r, Payload(order, frames[0])), rest);
  }

  lemma FrontOf(kept: seq<byte>, wire: seq<byte>, first: seq<byte>, tail: seq<byte>)
    requires kept + wire == first + tail && |kept| >= |first|
    ensures kept == first + kept[|first|..] && kept[|first|..] + wire == tail
  {
    assert first == (kept + wire)[..|first|];
    assert tail == (kept + wire)[|first|..];
  }

  lemma DrainTakes(r: Receiver, kept: seq<byte>, r1: Receiver, rest: seq<byte>)
    requires |rest| < |kept| && kept[|kept| - |rest|..] == rest
    requires Reception(r, kept) == (r1, |rest|)
    ensures Drain(Reception, r, kept) == Drain(Reception, r1, rest)
  {
  }

  lemma DrainOnce(r: Receiver, kept: seq<byte>)
    requires kept != []
    ensures var (r', rest) := Reception(r, kept);
            Drain(Reception, r, kept)
            == if rest == 0 then (r', []) else if rest >= |kept| then (r', kept)
               else Drain(Reception, r', kept[|kept| - rest..])
  {
  }

  // ----- the two ends and the wire between them -----

  datatype Link = Link(sending: map<Name, nat>, sent: seq<Frame>, wire: seq<byte>, kept: seq<byte>, receiver: Receiver)

  datatype Step = Send(frame: Frame) | Deliver(n: nat)

  const CONNECTED: Link := Link(map[], [], [], [], Receiver(map[], 0, []))

  // The sender's side, which only knows its map.
  function HeadFor(refs: map<Name, nat>, name: Name): seq<byte>
    requires |name| <= 255
  {
    if name == [] then [0, 0] else if name in refs then [0] + Encode7Bit(refs[name]) else [|name|] + name
  }

  function LearnFor(refs: map<Name, nat>, name: Name): map<Name, nat> {
    if name == [] || name in refs then refs else refs[name := |refs| + 1]
  }

  function BytesFor(refs: map<Name, nat>, frame: Frame): seq<byte>
    requires |frame.handler| <= 255 && 260 + |frame.body| < 0x1_0000_0000
    requires forall name :: name in refs ==> refs[name] < 0x1_0000_0000
  {
    SmallNumber(if frame.handler in refs then refs[frame.handler] else 0);
    var payload := HeadFor(refs, frame.handler) + frame.body;
    BigEndian32(|payload|) + payload
  }

  lemma SmallNumber(ref: nat)
    requires ref < 0x1_0000_0000
    ensures |Encode7Bit(ref)| <= 5
  {
    assert Power128(5) == 0x8_0000_0000;
    Encode7BitSize(ref, 5);
  }

  // Steps the program's own types allow: bodies a 32-bit size can count, names a 32-bit number
  // can number, deliveries of what is on the wire.
  ghost predicate Possible(link: Link, step: Step) {
    match step
    case Send(frame) =>
      && 300 + |frame.body| < 0x1_0000_0000 && |link.sent| < 0xFFFF_FFFF
      && forall name :: name in link.sending ==> link.sending[name] < 0x1_0000_0000
    case Deliver(n) => 1 <= n <= |link.wire|
  }

  ghost function Next(link: Link, step: Step): Link
    requires Possible(link, step)
  {
    match step
    case Send(frame) =>
      var f := Frame(Truncated(frame.handler), frame.body);
      link.(sending := LearnFor(link.sending, f.handler), sent := link.sent + [f],
            wire := link.wire + BytesFor(link.sending, f))
    case Deliver(n) =>
      var (r, kept) := Drain(Reception, link.receiver, link.kept + link.wire[..n]);
      link.(receiver := r, kept := kept, wire := link.wire[n..])
  }

  // The two maps are inverse on the names delivered; the sender's goes on to the names in flight.
  ghost predicate SameDictionary(link: Link) {
    var k := |link.receiver.received|;
    && k <= |link.sent| && link.receiver.received == link.sent[..k]
    && Distinct(LearnAll([], link.sent)) && Numbers(link.sending, LearnAll([], link.sent))
    && Names(link.receiver.refs, LearnAll([], link.sent[..k]))
  }

  // The bytes kept and on the wire are exactly the frames not delivered yet.
  ghost predicate StreamIntact(link: Link) {
    var k := |link.receiver.received|;
    k <= |link.sent| && Remains([], link.sent, k, link.kept + link.wire)
  }

  // The receiver has had, in order and unchanged, the first frames sent, and will have the others.
  ghost predicate InSync(link: Link) {
    && |link.sent| < 0x1_0000_0000 && link.receiver.size == 0 && |link.kept| < 4
    && SameDictionary(link) && StreamIntact(link)
  }

  // The bytes of an unfinished frame that a delivery would leave with the receiver.
  ghost function LeftOver(link: Link, n: nat): nat
    requires InSync(link)
  {
    var k := |link.receiver.received|;
    Unfinished(LearnAll([], link.sent[..k]), link.sent[k..], |link.kept| + n)
  }

  lemma {:induction false} LearnAllKeepsDistinct(order: seq<Name>, frames: seq<Frame>)
    requires Distinct(order)
    ensures Distinct(LearnAll(order, frames)) && |LearnAll(order, frames)| <= |order| + |frames|
    decreases |frames|
  {
    if frames != [] {
      LearnKeepsDistinct(order, frames[0].handler);
      LearnAllKeepsDistinct(Learn(order, frames[0].handler), frames[1..]);
    }
  }

  lemma NumbersLearn(refs: map<Name, nat>, order: seq<Name>, name: Name)
    requires Distinct(order) && Numbers(refs, order)
    ensures Numbers(LearnFor(refs, name), Learn(order, name))
  {
    if name != [] && name !in order {
      var refs' := refs[name := |refs| + 1];
      assert refs'.Keys == refs.Keys + {name};
      assert |refs'| == |refs'.Keys| && |refs| == |refs.Keys|;
    }
  }

  // Both views of the dictionary write the same bytes.
  lemma SameHead(refs: map<Name, nat>, order: seq<Name>, name: Name)
    requires Distinct(order) && Numbers(refs, order) && |name| <= 255
    ensures HeadFor(refs, name) == Head(order, name)
  {
    if name in order {
      assert order[Position(order, name)] == name;
    }
  }

  lemma {:induction false} StreamAppends(order: seq<Name>, frames: seq<Frame>, frame: Frame)
    requires AllSendable(order, frames) && Sendable(LearnAll(order, frames), frame)
    ensures AllSendable(order, frames + [frame])
    ensures Stream(order, frames + [frame]) == Stream(order, frames) + Bytes(LearnAll(order, frames), frame)
    decreases |frames|
  {
    if frames == [] {
      assert frames + [frame] == [frame];
      assert Stream(Learn(order, frame.handler), [frame][1..]) == [];
    } else {
      var order' := Learn(order, frames[0].handler);
      assert (frames + [frame])[1..] == frames[1..] + [frame];
      StreamAppends(order', frames[1..], frame);
      Associates(Bytes(order, frames[0]), Stream(order', frames[1..]), Bytes(LearnAll(order, frames), frame));
    }
  }

  lemma SendKeepsSync(link: Link, frame: Frame)
    requires InSync(link) && Possible(link, Send(frame))
    ensures InSync(Next(link, Send(frame)))
  {
    SendKeepsDictionary(link, frame);
    SendExtendsStream(link, frame);
  }

  lemma SendKeepsDictionary(link: Link, frame: Frame)
    requires SameDictionary(link) && Possible(link, Send(frame))
    ensures SameDictionary(Next(link, Send(frame)))
  {
    var f := Frame(Truncated(frame.handler), frame.body);
    var order := LearnAll([], link.sent);
    LearnAllAppends([], link.sent, [f]);
    assert LearnAll(order, [f]) == Learn(order, f.handler);
    LearnKeepsDistinct(order, f.handler);
    NumbersLearn(link.sending, order, f.handler);
    PrefixStays(link.sent, f, |link.receiver.received|);
  }

  lemma PrefixStays(sent: seq<Frame>, f: Frame, k: nat)
    requires k <= |sent|
    ensures (sent + [f])[..k] == sent[..k] && (sent + [f])[k..] == sent[k..] + [f]
  {
  }

  lemma SendExtendsStream(link: Link, frame: Frame)
    requires SameDictionary(link) && StreamIntact(link) && Possible(link, Send(frame))
    ensures StreamIntact(Next(link, Send(frame)))
  {
    var f := Frame(Truncated(frame.handler), frame.body);
    var k := |link.receiver.received|;
    var bytes := BytesFor(link.sending, f);
    AfterDelivered(link.sent, k);
    PrefixStays(link.sent, f, k);
    SameBytes(link.sending, LearnAll([], link.sent), f);
    StreamAppends(LearnAll([], link.sent[..k]), link.sent[k..], f);
    Associates(link.kept, link.wire, bytes);
  }

  lemma AfterDelivered(sent: seq<Frame>, k: nat)
    requires k <= |sent|
    ensures LearnAll(LearnAll([], sent[..k]), sent[k..]) == LearnAll([], sent)
  {
    var first, others := sent[..k], sent[k..];
    LearnAllAppends([], first, others);
    assert first + others == sent;
  }

  lemma SameBytes(refs: map<Name, nat>, order: seq<Name>, f: Frame)
    requires Distinct(order) && Numbers(refs, order)
    requires |f.handler| <= 255 && 260 + |f.body| < 0x1_0000_0000
    requires forall name :: name in refs ==> refs[name] < 0x1_0000_0000
    ensures Sendable(order, f) && Bytes(order, f) == BytesFor(refs, f)
  {
    SameHead(refs, order, f.handler);
    SmallNumber(if f.handler in refs then refs[f.handler] else 0);
  }

  // What a delivery makes of the bytes kept and those it brings.
  lemma DeliveryDrains(link: Link, n: nat)
    requires InSync(link) && Possible(link, Deliver(n))
    ensures var k := |link.receiver.received|;
            var order, frames := LearnAll([], link.sent[..k]), link.sent[k..];
            var kept, wire := link.kept + link.wire[..n], link.wire[n..];
            var (r', kept') := Drain(Reception, link.receiver, kept);
            && kept + wire == Stream(order, frames)
            && Drained(link.receiver, order, frames, kept, wire, r', kept')
  {
    var k := |link.receiver.received|;
    Associates(link.kept, link.wire[..n], link.wire[n..]);
    assert link.wire == link.wire[..n] + link.wire[n..];
    LearnAllKeepsDistinct([], link.sent[..k]);
    DrainReadsStream(link.receiver, LearnAll([], link.sent[..k]), link.sent[k..],
                     link.kept + link.wire[..n], link.wire[n..]);
  }

  lemma DeliverKeepsTheRest(link: Link, n: nat)
    requires InSync(link) && Possible(link, Deliver(n))
    ensures var link' := Next(link, Deliver(n));
            && |link.receiver.received| <= |link'.receiver.received|
            && SameDictionary(link') && StreamIntact(link')
            && |link'.kept| == LeftOver(link, n) && (link'.receiver.size == 0 <==> |link'.kept| < 4)
  {
    var k := |link.receiver.received|;
    var kept := link.kept + link.wire[..n];
    var (r', kept') := Drain(Reception, link.receiver, kept);
    var more := Finished(LearnAll([], link.sent[..k]), link.sent[k..], |kept|);
    DeliveryDrains(link, n);
    DictionaryFollows(link, more, link.wire[n..], r', kept');
    StreamFollows(Next(link, Deliver(n)), k, more);
  }

  lemma DictionaryFollows(link: Link, more: nat, wire: seq<byte>, r': Receiver, kept': seq<byte>)
    requires SameDictionary(link) && |link.receiver.received| + more <= |link.sent|
    requires var k := |link.receiver.received|;
             Delivered(link.receiver, LearnAll([], link.sent[..k]), link.sent[k..], more, r')
    ensures SameDictionary(link.(receiver := r', kept := kept', wire := wire))
    ensures |r'.received| == |link.receiver.received| + more
  {
    DeliveredSoFar(link.sent, |link.receiver.received|, more);
  }

  lemma StreamFollows(link': Link, k: nat, more: nat)
    requires k + more == |link'.receiver.received| <= |link'.sent|
    requires Remains(LearnAll([], link'.sent[..k]), link'.sent[k..], more, link'.kept + link'.wire)
    ensures StreamIntact(link')
  {
    var count := |link'.receiver.received|;
    RemainsFollows(link'.sent, k, more, count, link'.kept + link'.wire);
    assert Remains([], link'.sent, count, link'.kept + link'.wire);
  }

  lemma RemainsFollows(sent: seq<Frame>, k: nat, more: nat, count: nat, bytes: seq<byte>)
    requires count == k + more <= |sent| && Remains(LearnAll([], sent[..k]), sent[k..], more, bytes)
    ensures Remains([], sent, count, bytes)
  {
    DeliveredSoFar(sent, k, more);
    assert Streams(LearnAll([], sent[..count]), sent[count..], bytes);
  }

  // A delivery keeps the ends in step exactly when it does not stop inside the body of a frame:
  // the size is remembered then, although its four bytes are still in front of the body.
  lemma DeliverKeepsSyncExactly(link: Link, n: nat)
    requires InSync(link) && Possible(link, Deliver(n))
    ensures InSync(Next(link, Deliver(n))) <==> LeftOver(link, n) < 4
  {
    DeliverKeepsTheRest(link, n);
  }

  lemma DeliveredSoFar(sent: seq<Frame>, k: nat, more: nat)
    requires k + more <= |sent|
    ensures sent[..k] + sent[k..][..more] == sent[..k + more]
    ensures sent[k..][more..] == sent[k + more..]
    ensures LearnAll(LearnAll([], sent[..k]), sent[k..][..more]) == LearnAll([], sent[..k + more])
  {
    assert sent[..k] + sent[k..][..more] == sent[..k + more];
    LearnAllAppends([], sent[..k], sent[k..][..more]);
  }

  // ----- whole runs -----

  ghost predicate PossibleRun(link: Link, steps: seq<Step>)
    decreases |steps|
  {
    steps != [] ==> Possible(link, steps[0]) && PossibleRun(Next(link, steps[0]), steps[1..])
  }

  ghost function Run(link: Link, steps: seq<Step>): Link
    requires PossibleRun(link, steps)
    decreases |steps|
  {
    if steps == [] then link else Run(Next(link, steps[0]), steps[1..])
  }

  // No delivery of the run stops between the size of a frame and its end.
  ghost predicate Smooth(link: Link, steps: seq<Step>)
    requires InSync(link) && PossibleRun(link, steps)
    decreases |steps|
  {
    steps != [] ==>
      && (steps[0].Deliver? ==> LeftOver(link, steps[0].n) < 4)
      && (SyncStep(link, steps[0]); Smooth(Next(link, steps[0]), steps[1..]))
  }

  lemma SyncStep(link: Link, step: Step)
    requires InSync(link) && Possible(link, step)
    requires step.Deliver? ==> LeftOver(link, step.n) < 4
    ensures InSync(Next(link, step))
  {
    match step
    case Send(frame) => SendKeepsSync(link, frame);
    case Deliver(n) => DeliverKeepsSyncExactly(link, n);
  }

  lemma {:induction false} SmoothRunStaysInSync(link: Link, steps: seq<Step>)
    requires InSync(link) && PossibleRun(link, steps) && Smooth(link, steps)
    ensures InSync(Run(link, steps))
    decreases |steps|
  {
    if steps != [] {
      SyncStep(link, steps[0]);
      SmoothRunStaysInSync(Next(link, steps[0]), steps[1..]);
    }
  }

  ghost function SentIn(steps: seq<Step>): seq<Frame> {
    if steps == [] then [] else SentBy(steps[0]) + SentIn(steps[1..])
  }

  ghost function SentBy(step: Step): seq<Frame> {
    match step
    case Send(frame) => [Frame(Truncated(frame.handler), frame.body)]
    case Deliver(_) => []
  }

  lemma {:induction false} RunSends(link: Link, steps: seq<Step>)
    requires PossibleRun(link, steps)
    ensures Run(link, steps).sent == link.sent + SentIn(steps)
    decreases |steps|
  {
    if steps != [] {
      NextSends(link, steps[0]);
      RunSends(Next(link, steps[0]), steps[1..]);
      Associates(link.sent, SentBy(steps[0]), SentIn(steps[1..]));
    }
  }

  lemma NextSends(link: Link, step: Step)
    requires Possible(link, step)
    ensures Next(link, step).sent == link.sent + SentBy(step)
  {
  }

  // ----- what a run was given to send, and what arrives -----

  ghost function GivenTo(steps: seq<Step>): seq<Frame> {
    if steps == [] then []
    else (if steps[0].Send? then [steps[0].frame] else []) + GivenTo(steps[1..])
  }

  // One frame for each, in order, with its body and its name, of which the first 255 bytes at most.
  ghost predicate ArriveAs(given: seq<Frame>, received: seq<Frame>) {
    && |received| == |given|
    && forall i :: 0 <= i < |given| ==>
         && received[i].body == given[i].body
         && received[i].handler == (if |given[i].handler| <= 255 then given[i].handler else given[i].handler[..255])
  }

  lemma {:induction false} SentAsGiven(steps: seq<Step>)
    ensures ArriveAs(GivenTo(steps), SentIn(steps))
    decreases |steps|
  {
    if steps != [] {
      SentAsGiven(steps[1..]);
    }
  }

  // Only one thing can arrive so.
  lemma ArriveOnce(given: seq<Frame>, r: seq<Frame>, s: seq<Frame>)
    requires ArriveAs(given, r)
    ensures ArriveAs(given, s) <==> s == r
  {
    if ArriveAs(given, s) {
      forall i | 0 <= i < |given| ensures s[i] == r[i] {
      }
    }
  }

  lemma ShortNamesArrive(given: seq<Frame>, received: seq<Frame>)
    requires forall i :: 0 <= i < |given| ==> |given[i].handler| <= 255
    ensures ArriveAs(given, received) <==> received == given
  {
    ArriveOnce(given, given, received);
  }

  /** Every smooth run from a fresh connection delivers the first frames it was given, in order, their
      names cut to 255 bytes and nothing else changed; with nothing left on the wire it is all of them. */
  lemma LinkIsFaithful(steps: seq<Step>)
    requires PossibleRun(CONNECTED, steps)
    requires (ConnectedInSync(); Smooth(CONNECTED, steps))
    ensures var link, given := Run(CONNECTED, steps), GivenTo(steps);
            && |link.receiver.received| <= |given|
            && ArriveAs(given[..|link.receiver.received|], link.receiver.received)
            && (link.wire == [] ==> ArriveAs(given, link.receiver.received))
            && (link.wire == [] && (forall i :: 0 <= i < |given| ==> |given[i].handler| <= 255) ==>
                  link.receiver.received == given)
  {
    var link, given := Run(CONNECTED, steps), GivenTo(steps);
    ConnectedInSync();
    RunDelivers(CONNECTED, steps);
    SentAsGiven(steps);
    if forall i :: 0 <= i < |given| ==> |given[i].handler| <= 255 {
      ShortNamesArrive(given, SentIn(steps));
    }
  }

  lemma RunDelivers(link: Link, steps: seq<Step>)
    requires PossibleRun(link, steps) && InSync(link) && Smooth(link, steps) && link.sent == []
    ensures var link' := Run(link, steps);
            && |link'.receiver.received| <= |SentIn(steps)|
            && link'.receiver.received == SentIn(steps)[..|link'.receiver.received|]
            && (link'.wire == [] ==> link'.receiver.received == SentIn(steps))
  {
    RunSends(link, steps);
    assert Run(link, steps).sent == SentIn(steps);
    SmoothRunStaysInSync(link, steps);
    InSyncDelivers(Run(link, steps));
  }

  lemma InSyncDelivers(link: Link)
    requires InSync(link)
    ensures |link.receiver.received| <= |link.sent|
    ensures link.receiver.received == link.sent[..|link.receiver.received|]
    ensures link.wire == [] ==> link.receiver.received == link.sent
  {
    assert link.wire == [] ==> link.kept + link.wire == link.kept;
  }

  lemma ConnectedInSync()
    ensures InSync(CONNECTED)
  {
  }

  // ----- the program -----

  function HeaderText(size: nat, handler: Name, handlerRef: nat): seq<byte>
    requires size < 0x1_0000_0000 && |handler| <= 255
  {
    BigEndian32(size) + (if handler == [] then [0] + Encode7Bit(handlerRef) else [|handler|] + handler)
  }

  // The header as it is written, part after part, and its size.
  lemma HeaderParts(size: nat, handler: Name, handlerRef: nat)
    requires size < 0x1_0000_0000 && |handler| <= 255
    ensures var start := BigEndian32(size) + ([|handler|] + handler);
            HeaderText(size, handler, handlerRef)
            == if handler == [] then start + Encode7Bit(handlerRef) else start
    ensures |HeaderText(size, handler, handlerRef)|
         == 5 + (if handler == [] then |Encode7Bit(handlerRef)| else |handler|)
  {
    if handler == [] {
      assert [|handler|] + handler == [0];
    }
  }

  // The choice send makes between the name and its number gives the frame.
  lemma HeaderIsFrame(refs: map<Name, nat>, frame: Frame, handler: Name, handlerRef: nat)
    requires |frame.handler| <= 255 && 260 + |frame.body| < 0x1_0000_0000
    requires forall name :: name in refs ==> refs[name] < 0x1_0000_0000
    requires handler == if frame.handler in refs then [] else frame.handler
    requires handler == [] ==> handlerRef == if frame.handler == [] then 0 else refs[frame.handler]
    ensures var size := 1 + (if handler == [] then |Encode7Bit(handlerRef)| else |handler|) + |frame.body|;
            size < 0x1_0000_0000 && HeaderText(size, handler, handlerRef) + frame.body == BytesFor(refs, frame)
  {
    SmallNumber(if handler == [] then handlerRef else 0);
    var head := HeadFor(refs, frame.handler);
    assert |head| == 1 + (if handler == [] then |Encode7Bit(handlerRef)| else |handler|);
    Associates(BigEndian32(|head + frame.body|), head, frame.body);
  }

  lemma SpliceFits(data: seq<byte>, position: nat, text: seq<byte>)
    requires position + |text| <= |data|
    ensures Splice(data, position, true, text)[position..] == text + data[position + |text|..]
    ensures |Splice(data, position, true, text)| == |data|
  {
  }

  class ServerMessage {
    const packet: Buffer
    var handler: Name
    var shift: nat

    // Three hundred bytes are reserved for the header, which ends where the body starts.
    constructor (handler: Name, body: seq<byte>)
      ensures fresh(packet) && |packet.data| == 300 + |body| && packet.data[300..] == body
      ensures this.handler == handler && shift == 295
    {
      this.handler, shift := handler, 295;
      packet := new Buffer(seq(300, _ => 0) + body);
    }

    // The header, written forwards from the shift, fills the reserved bytes to the last.
    method WriteHeader(handler: Name, handlerRef: nat, writeRef: bool)
      requires 300 <= |packet.data| < 0x1_0000_0000 && |handler| <= 255
      requires writeRef ==> handler == []
      requires !writeRef && handler == [] ==> handlerRef == 0
      requires shift == 295 - (if handler == [] then |Encode7Bit(handlerRef)| else |handler|)
      modifies packet
      ensures |packet.data| == old(|packet.data|) && packet.data[300..] == old(packet.data[300..])
      ensures Data() == HeaderText(|packet.data| - shift - 4, handler, handlerRef) + old(packet.data[300..])
    {
      ghost var before := packet.data;
      ghost var text := HeaderText(|before| - shift - 4, handler, handlerRef);
      HeaderParts(|before| - shift - 4, handler, handlerRef);
      var writer := new BinaryWriter.Over(packet, shift);
      WriteSizeAndName(writer, |packet.data| - shift - 4, handler);
      WriteNumber(writer, before, |before| - shift - 4, handler, handlerRef, writeRef);
      SpliceFits(before, shift, text);
    }

    method WriteSizeAndName(writer: BinaryWriter, size: nat, handler: Name)
      requires writer.Valid() && writer.fixed && writer.size == 0
      requires size < 0x1_0000_0000 && |handler| <= 255
      modifies writer`size, writer.buffer
      ensures writer.Valid()
      ensures writer.Wrote(old(writer.buffer.data), 0, BigEndian32(size) + ([|handler|] + handler))
    {
      writer.Write32(size);
      writer.WriteString8(handler);
      SpliceTwice(old(writer.buffer.data), writer.start, true, BigEndian32(size), [|handler|] + handler);
    }

    method WriteNumber(writer: BinaryWriter, ghost before: seq<byte>, ghost size: nat,
                       handler: Name, handlerRef: nat, writeRef: bool)
      requires writer.Valid() && writer.fixed && size < 0x1_0000_0000 && |handler| <= 255
      requires writer.Wrote(before, 0, BigEndian32(size) + ([|handler|] + handler))
      requires writeRef ==> handler == []
      requires !writeRef && handler == [] ==> handlerRef == 0
      modifies writer`size, writer.buffer
      ensures writer.Wrote(before, 0, HeaderText(size, handler, handlerRef))
    {
      HeaderParts(size, handler, handlerRef);
      ghost var start := BigEndian32(size) + ([|handler|] + handler);
      if writeRef {
        writer.Write7BitEncoded(handlerRef);
        SpliceTwice(before, writer.start, true, start, Encode7Bit(handlerRef));
      } else if handler == [] {
        writer.Write8(0);
        SpliceTwice(before, writer.start, true, start, Encode7Bit(handlerRef));
      }
    }

    // The end of send: the name or its number is put before the body.
    method Address(handler: Name, handlerRef: nat, writeRef: bool, ghost refs: map<Name, nat>, ghost frame: Frame)
      requires shift == 295 && 300 <= |packet.data| < 0x1_0000_0000
      requires frame.body == packet.data[300..] && |frame.handler| <= 255
      requires forall name :: name in refs ==> refs[name] < 0x1_0000_0000
      requires handler == if frame.handler in refs then [] else frame.handler
      requires writeRef <==> handler == [] && frame.handler != []
      requires handler == [] ==> handlerRef == if frame.handler == [] then 0 else refs[frame.handler]
      requires handlerRef < 0x1_0000_0000
      modifies this, packet
      ensures |packet.data| == old(|packet.data|) && packet.data[300..] == old(packet.data[300..])
      ensures 40 <= shift <= 294 && Data() == BytesFor(refs, frame)
    {
      SmallNumber(handlerRef);
      HeaderIsFrame(refs, frame, handler, handlerRef);
      this.handler := handler;
      var refSize := Get7BitValueSize(handlerRef);
      shift := shift - (if handler == [] then refSize else |handler|);
      WriteHeader(handler, handlerRef, writeRef);
    }

    // The bytes given to the socket.
    function Data(): seq<byte>
      requires shift <= |packet.data|
      reads this, packet
    {
      packet.data[shift..]
    }
  }

  class ServerConnection {
    var sendingRefs: map<Name, nat>
    var receivingRefs: map<nat, Name>
    var size: nat
    // TCPClient's pooled buffer and the number of its bytes in use.
    var buffer: seq<byte>
    var rest: nat
    // What was handed to the socket, and what was handed to the application.
    var output: seq<byte>
    var received: seq<Frame>

    function View(): Receiver
      reads this
    {
      Receiver(receivingRefs, size, received)
    }

    constructor ()
      ensures sendingRefs == map[] && View() == Receiver(map[], 0, [])
      ensures buffer == [] && rest == 0 && output == []
    {
      sendingRefs, receivingRefs, size := map[], map[], 0;
      buffer, rest, output, received := [], 0, [], [];
    }

    // A name already sent gives way to its number, a new one is numbered.
    method Refer(name: Name) returns (handler: Name, handlerRef: nat, writeRef: bool)
      modifies this`sendingRefs
      ensures sendingRefs == LearnFor(old(sendingRefs), name)
      ensures handler == if name in old(sendingRefs) then [] else name
      ensures writeRef <==> handler == [] && name != []
      ensures handlerRef == if name == [] then 0 else if handler == [] then old(sendingRefs)[name]
                            else |old(sendingRefs)| + 1
    {
      handler, handlerRef, writeRef := name, 0, false;
      if handler != [] {
        if handler in sendingRefs {
          handlerRef := sendingRefs[handler];
          handler := [];
          writeRef := true;
        } else {
          handlerRef := |sendingRefs| + 1;
          sendingRefs := sendingRefs[handler := handlerRef];
        }
      }
    }

    method Send(message: ServerMessage)
      requires message.shift == 295 && 300 <= |message.packet.data| < 0x1_0000_0000
      requires forall name :: name in sendingRefs ==> sendingRefs[name] < 0x1_0000_0000
      requires |sendingRefs| < 0xFFFF_FFFF
      modifies this`sendingRefs, this`output, message, message.packet
      ensures var name := old(message.handler);
              var frame := Frame(if |name| <= 255 then name else name[..255], old(message.packet.data[300..]));
              && sendingRefs == LearnFor(old(sendingRefs), frame.handler)
              && output == old(output) + BytesFor(old(sendingRefs), frame)
      ensures |message.packet.data| == old(|message.packet.data|) && 40 <= message.shift <= 294
      ensures message.packet.data[300..] == old(message.packet.data[300..])
    {
      var handler := message.handler;
      if |handler| > 255 {
        handler := handler[..255];
      }
      var handlerRef, writeRef;
      handler, handlerRef, writeRef := Refer(handler);
      ghost var frame := Frame(Truncated(message.handler), message.packet.data[300..]);
      message.Address(handler, handlerRef, writeRef, old(sendingRefs), frame);
      output := output + message.Data();
    }
  
    method OnReception() returns (left: nat)
      modifies this`receivingRefs, this`size, this`received
      ensures (View(), left) == Reception(old(View()), buffer)
    {
      if size == 0 && |buffer| < 4 {
        return |buffer|;
      }
      var packet := new BinaryReader(buffer);
      if size == 0 {
        size := packet.Read32();
      }
      if packet.Available() < size {
        return |buffer|;
      }
      left := packet.Available() - size;
      packet.Shrink(size);
      TakePayload(packet);
    }

    method TakePayload(packet: BinaryReader)
      requires packet.Valid()
      modifies packet`current, this`receivingRefs, this`size, this`received
      ensures View() == Dispatch(old(View()), old(packet.Rest()))
    {
      var handler: Name := [];
      var handlerSize := packet.Read8();
      if handlerSize > 0 {
        handler := packet.ReadRaw(handlerSize);
        receivingRefs := receivingRefs[|receivingRefs| + 1 := handler];
      } else {
        var ref := packet.Read7BitEncoded();
        if ref > 0 && ref in receivingRefs {
          handler := receivingRefs[ref];
        }
      }
      size := 0;
      received := received + [Frame(handler, packet.data[packet.current..packet.end])];
    }

    // TCPClient::onReadable: `piece` is what the socket gave of the `available` bytes announced.
    method OnReadable(available: nat, piece: seq<byte>)
      requires rest <= |buffer| && |piece| <= available
      modifies this
      ensures rest <= |buffer|
      ensures piece != [] ==>
                && (View(), buffer[..rest]) == Drain(Reception, old(View()), old(buffer[..rest]) + piece)
                && sendingRefs == old(sendingRefs)
      ensures piece == [] ==> sendingRefs == map[] && View() == Receiver(map[], old(size), old(received)) && rest == 0
    {
      if available == 0 {
        Close();
        return;
      }
      if available > |buffer| - rest {
        buffer := buffer[..rest] + seq(available, _ => 0);
      }
      if piece == [] {
        Close();
        return;
      }
      buffer := buffer[..rest] + piece + buffer[rest + |piece|..];
      rest := rest + |piece|;
      assert buffer[..rest] == old(buffer[..rest]) + piece;
      DrainKept();
    }

    method DrainKept()
      requires rest <= |buffer|
      modifies this`buffer, this`rest, this`receivingRefs, this`size, this`received
      ensures rest <= |buffer|
      ensures (View(), buffer[..rest]) == Drain(Reception, old(View()), old(buffer[..rest]))
    {
      var again := rest > 0;
      while again
        invariant rest <= |buffer| && (again ==> rest > 0)
        invariant again ==>
                    Drain(Reception, View(), buffer[..rest]) == Drain(Reception, old(View()), old(buffer[..rest]))
        invariant !again ==> (View(), buffer[..rest]) == Drain(Reception, old(View()), old(buffer[..rest]))
        decreases again, rest
      {
        again := DrainTurn();
      }
    }

    // One call, and what is left to do after it.
    method CallOnReception() returns (left: nat)
      requires buffer != []
      modifies this`receivingRefs, this`size, this`received
      ensures left == 0 ==> Drain(Reception, old(View()), buffer) == (View(), [])
      ensures left >= |buffer| ==> Drain(Reception, old(View()), buffer) == (View(), buffer)
      ensures 0 < left < |buffer| ==>
                Drain(Reception, old(View()), buffer) == Drain(Reception, View(), buffer[|buffer| - left..])
    {
      DrainOnce(View(), buffer);
      left := OnReception();
    }

    // One turn of the loop, and whether there is another.
    method DrainTurn() returns (again: bool)
      requires 0 < rest <= |buffer|
      modifies this`buffer, this`rest, this`receivingRefs, this`size, this`received
      ensures rest <= |buffer| && (again ==> 0 < rest < old(rest))
      ensures again ==> Drain(Reception, View(), buffer[..rest]) == Drain(Reception, old(View()), old(buffer[..rest]))
      ensures !again ==> (View(), buffer[..rest]) == Drain(Reception, old(View()), old(buffer[..rest]))
    {
      buffer := buffer[..rest];
      assert buffer[..rest] == buffer;
      var left := CallOnReception();
      if left > rest {
        left := rest;
      }
      if left == 0 {
        buffer := [];
        rest := 0;
        return false;
      }
      if rest == left {
        return false;
      }
      MoveToFront(left);
      return true;
    }

    // memmove to the beginning
    method MoveToFront(left: nat)
      requires left <= rest == |buffer|
      modifies this`buffer, this`rest
      ensures rest == left <= |buffer| && buffer[..rest] == old(buffer[rest - left..])
    {
      buffer := buffer[rest - left..] + buffer[left..];
      rest := left;
    }

    // Both dictionaries are forgotten with the connection; the size of a frame begun is not.
    method Close()
      modifies this
      ensures sendingRefs == map[] && View() == Receiver(map[], old(size), old(received))
      ensures rest == 0 && buffer == [] && output == old(output)
    {
      buffer, rest := [], 0;
      sendingRefs, receivingRefs := map[], map[];
    }
  }
}
