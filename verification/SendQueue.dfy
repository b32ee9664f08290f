/** Bytes on their way to a socket: sent at once as far as the system takes them, else copied and
    queued, to leave later in the order they came. */
module SendQueue {
  import opened Codec

  // What the system does with bytes offered to it.
  datatype Answer = Failed | Took(n: nat)

  /** A sender: bytes lent for the time of the call or owned, a copy of what is left of lent ones,
      and how far it is. */
  datatype Sender = Sender(data: seq<byte>, owned: bool, copied: bool, copy: seq<byte>, position: nat) {
    function Current(): seq<byte> {
      if copied then copy else data
    }

    function Rest(): seq<byte> {
      if position < |Current()| then Current()[position..] else []
    }

    predicate Available() {
      if copied then copy != [] else position < |data|
    }

    // It may outlive the call that made it.
    predicate Lasting() {
      owned || copied
    }

    function Buffered(): (Sender, bool) {
      if Lasting() then (this, true)
      else if position >= |data| then (this, false)
      else (this.(copied := true, copy := data[position..], position := 0), true)
    }

    // What becomes of it, what leaves, and whether it is over. It ends after a failure, of its own
    // or one that the call has met before.
    function Flushed(answer: Answer, failed: bool): (Sender, seq<byte>, bool) {
      if !Available() then (this, [], true)
      else
        var n := if answer.Failed? then 0 else if answer.n < |Rest()| then answer.n else |Rest()|;
        var moved := this.(position := if failed || answer.Failed? then |Current()| else position + n);
        if moved.position >= |Current()| then (moved.(copy := []), Rest()[..n], true)
        else (moved.Buffered().0, Rest()[..n], !moved.Buffered().1)
    }
  }

  type Queue = seq<Sender>

  function Pending(queue: Queue): seq<byte> {
    if queue == [] then [] else queue[0].Rest() + Pending(queue[1..])
  }

  // A sender that waits: it keeps its own bytes and has some left.
  predicate Waiting(s: Sender) {
    s.Lasting() && s.Available() && s.position < |s.Current()|
  }

  predicate AllWaiting(queue: Queue) {
    forall i :: 0 <= i < |queue| ==> Waiting(queue[i])
  }

  datatype Link = Link(wire: seq<byte>, queue: Queue, connecting: bool)

  // Socket::send
  function Sending(link: Link, sender: Sender, answer: Answer): Link {
    if !sender.Available() then link
    else if !link.connecting && link.queue == [] then
      var (sender', bytes, over) := sender.Flushed(answer, false);
      Link(link.wire + bytes, if over then [] else [sender'], link.connecting)
    else link.(queue := link.queue + [sender.Buffered().0])
  }

  // SocketImpl::flush, as long as there are answers; `failed` once one was a failure.
  function Flushing(link: Link, answers: seq<Answer>, failed: bool): Link
    decreases |link.queue|
  {
    if link.queue == [] || answers == [] then link
    else
      var (next, over) := FrontFlushed(link, answers[0], failed);
      if over then Flushing(next, answers[1..], failed || answers[0].Failed?) else next
  }

  // The front sender goes, or stays in front.
  function FrontFlushed(link: Link, answer: Answer, failed: bool): (r: (Link, bool))
    requires link.queue != []
    ensures r.1 ==> |r.0.queue| < |link.queue|
  {
    var (sender, bytes, over) := link.queue[0].Flushed(answer, failed);
    if over then (Link(link.wire + bytes, link.queue[1..], link.connecting), true)
    else (Link(link.wire + bytes, [sender] + link.queue[1..], link.connecting), false)
  }

  // ----- one sender -----

  // Unless the system fails, no byte is lost or sent twice, whether what is left was copied or not.
  lemma FlushedKeepsBytes(s: Sender, answer: Answer)
    requires answer.Took? && s.Available() && (s.copied ==> s.position < |s.copy|)
    ensures var (s', bytes, over) := s.Flushed(answer, false);
            && bytes + s'.Rest() == s.Rest()
            && (over <==> s'.Rest() == [])
            && (!over ==> Waiting(s'))
            && (answer.n > 0 ==> bytes != [])
  {
    if answer.n < |s.Rest()| {
      FlushedInPart(s, answer);
    } else {
      FlushedWhole(s, answer);
    }
  }

  lemma FlushedWhole(s: Sender, answer: Answer)
    requires answer.Took? && s.Available() && s.position < |s.Current()| && answer.n >= |s.Rest()|
    ensures var (s', bytes, over) := s.Flushed(answer, false); bytes == s.Rest() != [] && s'.Rest() == [] && over
  {
    assert s.Rest()[..|s.Rest()|] == s.Rest();
  }

  lemma FlushedInPart(s: Sender, answer: Answer)
    requires answer.Took? && s.Available() && s.position < |s.Current()| && answer.n < |s.Rest()|
    ensures var (s', bytes, over) := s.Flushed(answer, false);
            bytes == s.Rest()[..answer.n] && s'.Rest() == s.Rest()[answer.n..] && !over && Waiting(s')
    ensures s.Rest()[..answer.n] + s.Rest()[answer.n..] == s.Rest()
  {
    var moved := s.(position := s.position + answer.n);
    assert s.Rest()[answer.n..] == s.Current()[s.position + answer.n..];
    BufferedKeepsRest(moved);
  }

  lemma BufferedKeepsRest(s: Sender)
    requires s.position < |s.Current()|
    ensures var (s', ok) := s.Buffered(); ok && s'.Rest() == s.Rest() && Waiting(s')
  {
    assert s.Current()[s.position..][0..] == s.Current()[s.position..];
  }

  // A failure ends the sender: what was left of it never leaves, whatever is answered later.
  lemma FailureEndsSender(s: Sender, answer: Answer, failed: bool)
    requires s.Available() && (failed || answer.Failed?)
    ensures var (s', bytes, over) := s.Flushed(answer, failed);
            && over && bytes <= s.Rest() && (answer.Failed? ==> bytes == [])
            && !s'.Available() && s'.Rest() == []
            && forall later: Answer, again: bool :: s'.Flushed(later, again) == (s', [], true)
  {
  }

  // ----- the queue -----

  lemma {:induction false} PendingJoins(a: Queue, b: Queue)
    ensures Pending(a + b) == Pending(a) + Pending(b)
  {
    if a == [] {
      assert a + b == b;
    } else {
      assert (a + b)[1..] == a[1..] + b;
      PendingJoins(a[1..], b);
    }
  }

  lemma PendingOne(s: Sender)
    ensures Pending([s]) == s.Rest()
  {
    assert [s][1..] == [];
  }

  lemma PendingFirst(s: Sender, others: Queue)
    ensures Pending([s] + others) == s.Rest() + Pending(others)
  {
    assert ([s] + others)[1..] == others;
  }

  predicate NoFailure(answers: seq<Answer>) {
    forall i :: 0 <= i < |answers| ==> answers[i].Took?
  }

  // A failure is met: the senders before it went out whole.
  predicate FailureMet(queue: Queue, answers: seq<Answer>)
    decreases |queue|
  {
    && queue != [] && answers != []
    && (answers[0].Failed? || (answers[0].n >= |queue[0].Rest()| && FailureMet(queue[1..], answers[1..])))
  }

  lemma {:induction false} NoFailureIsMet(queue: Queue, answers: seq<Answer>)
    requires NoFailure(answers)
    ensures !FailureMet(queue, answers)
    decreases |queue|
  {
    if queue != [] && answers != [] {
      NoFailureIsMet(queue[1..], answers[1..]);
    }
  }

  lemma {:induction false} FlushingKeepsBytes(link: Link, answers: seq<Answer>)
    requires AllWaiting(link.queue) && !FailureMet(link.queue, answers)
    ensures var link' := Flushing(link, answers, false);
            && link'.wire + Pending(link'.queue) == link.wire + Pending(link.queue)
            && AllWaiting(link'.queue) && link'.connecting == link.connecting
    decreases |link.queue|
  {
    if link.queue != [] && answers != [] {
      var (sender, bytes, over) := link.queue[0].Flushed(answers[0], false);
      var others := link.queue[1..];
      FlushedKeepsBytes(link.queue[0], answers[0]);
      Regroups(link.wire, bytes, sender.Rest(), Pending(others));
      if over {
        FlushingKeepsBytes(Link(link.wire + bytes, others, link.connecting), answers[1..]);
      } else {
        PendingFirst(sender, others);
      }
    }
  }

  function Total(link: Link): nat {
    |link.wire| + |Pending(link.queue)|
  }

  // Nothing is made up; and once a call has failed, whatever its senders did not take is gone.
  lemma {:induction false} FlushingMakesUpNothing(link: Link, answers: seq<Answer>, failed: bool)
    requires AllWaiting(link.queue)
    ensures Total(Flushing(link, answers, failed)) <= Total(link)
    decreases |link.queue|
  {
    if link.queue != [] && answers != [] {
      var (sender, bytes, over) := link.queue[0].Flushed(answers[0], failed);
      var others := link.queue[1..];
      FlushedTakes(link.queue[0], answers[0], failed);
      if over {
        FlushingMakesUpNothing(Link(link.wire + bytes, others, link.connecting), answers[1..],
                               failed || answers[0].Failed?);
      } else {
        PendingFirst(sender, others);
      }
    }
  }

  lemma FlushedTakes(s: Sender, answer: Answer, failed: bool)
    requires Waiting(s)
    ensures var (s', bytes, over) := s.Flushed(answer, failed);
            && |bytes| + |s'.Rest()| <= |s.Rest()| && s.Rest() != []
            && (answer.Failed? ==> bytes == [] && over)
            && (answer.Took? && !failed ==> (over <==> answer.n >= |s.Rest()|))
  {
  }

  lemma {:induction false} FailureLosesBytes(link: Link, answers: seq<Answer>)
    requires AllWaiting(link.queue) && FailureMet(link.queue, answers)
    ensures Total(Flushing(link, answers, false)) < Total(link)
    decreases |link.queue|
  {
    var (sender, bytes, over) := link.queue[0].Flushed(answers[0], false);
    var others := link.queue[1..];
    FlushedTakes(link.queue[0], answers[0], false);
    var next := Link(link.wire + bytes, others, link.connecting);
    if answers[0].Failed? {
      FlushingMakesUpNothing(next, answers[1..], true);
    } else {
      FailureLosesBytes(next, answers[1..]);
    }
  }

  /** A flush keeps every byte, sent or waiting, if and only if it meets no failure. */
  lemma FlushingKeepsBytesExactly(link: Link, answers: seq<Answer>)
    requires AllWaiting(link.queue)
    ensures var link' := Flushing(link, answers, false);
            link'.wire + Pending(link'.queue) == link.wire + Pending(link.queue) <==> !FailureMet(link.queue, answers)
  {
    if FailureMet(link.queue, answers) {
      var link' := Flushing(link, answers, false);
      FailureLosesBytes(link, answers);
      assert |link'.wire + Pending(link'.queue)| < |link.wire + Pending(link.queue)|;
    } else {
      FlushingKeepsBytes(link, answers);
    }
  }

  lemma Regroups(a: seq<byte>, b: seq<byte>, c: seq<byte>, d: seq<byte>)
    ensures (a + b) + (c + d) == a + ((b + c) + d)
    ensures c == [] ==> (a + b) + d == a + ((b + c) + d)
  {
  }

  // Sent at once, as far as the system takes it.
  lemma SendingDirectly(link: Link, sender: Sender, answer: Answer)
    requires link.queue == [] && !link.connecting && answer.Took?
    requires sender.Available() && !sender.copied && sender.position == 0
    ensures var link' := Sending(link, sender, answer);
            link'.wire + Pending(link'.queue) == link.wire + sender.data && AllWaiting(link'.queue)
  {
    var (sender', bytes, over) := sender.Flushed(answer, false);
    FlushedKeepsBytes(sender, answer);
    PendingOne(sender');
    Regroups(link.wire, bytes, sender'.Rest(), []);
  }

  // Queued, behind those that wait.
  lemma SendingLater(link: Link, sender: Sender, answer: Answer)
    requires AllWaiting(link.queue) && (link.queue != [] || link.connecting)
    requires sender.Available() && !sender.copied && sender.position == 0
    ensures var link' := Sending(link, sender, answer);
            link'.wire == link.wire && Pending(link'.queue) == Pending(link.queue) + sender.data
            && AllWaiting(link'.queue)
  {
    var waiting := sender.Buffered().0;
    PendingOne(waiting);
    PendingJoins(link.queue, [waiting]);
    assert sender.data[0..] == sender.data;
  }

  lemma SendingKeepsBytes(link: Link, sender: Sender, answer: Answer)
    requires AllWaiting(link.queue) && answer.Took? && !sender.copied && sender.position == 0
    ensures var link' := Sending(link, sender, answer);
            && link'.wire + Pending(link'.queue) == link.wire + Pending(link.queue) + sender.data
            && AllWaiting(link'.queue) && link'.connecting == link.connecting
  {
    if sender.Available() {
      if link.queue == [] && !link.connecting {
        SendingDirectly(link, sender, answer);
        EndsEmpty(link.wire);
      } else {
        SendingLater(link, sender, answer);
        Regroups(link.wire, Pending(link.queue), [], sender.data);
      }
    } else {
      assert Sending(link, sender, answer) == link && sender.data == [];
      EndsEmpty(link.wire + Pending(link.queue));
    }
  }

  lemma EndsEmpty(s: seq<byte>)
    ensures s + [] == s && Pending([]) == []
  {
  }

  // ----- every run -----

  datatype Event = Send(sender: Sender, answer: Answer) | Connected | Writable(answers: seq<Answer>)

  predicate Sane(e: Event) {
    match e
    case Send(sender, answer) => !sender.copied && sender.copy == [] && sender.position == 0 && answer.Took?
    case Connected => true
    case Writable(answers) => NoFailure(answers)
  }

  function Next(link: Link, e: Event): Link {
    match e
    case Send(sender, answer) => Sending(link, sender, answer)
    case Connected => link.(connecting := false)
    case Writable(answers) => Flushing(link, answers, false)
  }

  function After(link: Link, events: seq<Event>): Link {
    if events == [] then link else Next(After(link, events[..|events| - 1]), events[|events| - 1])
  }

  function Given(events: seq<Event>): seq<byte> {
    if events == [] then []
    else
      var last := events[|events| - 1];
      Given(events[..|events| - 1]) + if last.Send? then last.sender.data else []
  }

  /** However the system takes the bytes, what it took followed by what waits is what was sent, in
      order; and nothing that waits belongs to anybody else. */
  lemma {:induction false} BytesLeaveInOrder(connecting: bool, events: seq<Event>)
    requires forall i :: 0 <= i < |events| ==> Sane(events[i])
    ensures var link := After(Link([], [], connecting), events);
            link.wire + Pending(link.queue) == Given(events) && AllWaiting(link.queue)
  {
    if events != [] {
      var before, last := events[..|events| - 1], events[|events| - 1];
      BytesLeaveInOrder(connecting, before);
      assert Sane(last);
      match last
      case Send(sender, answer) => SendingKeepsBytes(After(Link([], [], connecting), before), sender, answer);
      case Connected =>
      case Writable(answers) =>
        NoFailureIsMet(After(Link([], [], connecting), before).queue, answers);
        FlushingKeepsBytes(After(Link([], [], connecting), before), answers);
    }
  }

  // ----- before the connection is made -----

  predicate NeverConnected(events: seq<Event>) {
    forall i :: 0 <= i < |events| ==> !events[i].Connected?
  }

  lemma {:induction false} StaysConnecting(events: seq<Event>)
    requires NeverConnected(events)
    ensures After(Link([], [], true), events).connecting
  {
    if events != [] {
      var before := events[..|events| - 1];
      assert NeverConnected(before);
      StaysConnecting(before);
      if events[|events| - 1].Writable? {
        FlushingKeepsConnecting(After(Link([], [], true), before), events[|events| - 1].answers, false);
      }
    }
  }

  lemma {:induction false} FlushingKeepsConnecting(link: Link, answers: seq<Answer>, failed: bool)
    ensures Flushing(link, answers, failed).connecting == link.connecting
    decreases |link.queue|
  {
    if link.queue != [] && answers != [] {
      var (next, over) := FrontFlushed(link, answers[0], failed);
      if over {
        FlushingKeepsConnecting(next, answers[1..], failed || answers[0].Failed?);
      }
    }
  }

  // Before the connection is made a send gives the system nothing: all of it is queued, last.
  lemma SendWaitsForConnection(events: seq<Event>, sender: Sender, answer: Answer)
    requires NeverConnected(events) && !sender.copied && sender.position == 0
    ensures var link := After(Link([], [], true), events);
            var link' := After(Link([], [], true), events + [Send(sender, answer)]);
            link'.wire == link.wire && Pending(link'.queue) == Pending(link.queue) + sender.data
  {
    var link := After(Link([], [], true), events);
    assert (events + [Send(sender, answer)])[..|events|] == events;
    StaysConnecting(events);
    if sender.Available() {
      var waiting := sender.Buffered().0;
      PendingOne(waiting);
      PendingJoins(link.queue, [waiting]);
      assert sender.data[0..] == sender.data;
    } else {
      assert sender.data == [] && Pending(link.queue) + [] == Pending(link.queue);
    }
  }

  /** However much is sent before the connection is made, and unless somebody flushes, no byte leaves
      and all of them wait in order. */
  lemma {:induction false} NothingLeavesWhileConnecting(events: seq<Event>)
    requires NeverConnected(events)
    requires forall i :: 0 <= i < |events| ==> events[i].Send? && Sane(events[i])
    ensures var link := After(Link([], [], true), events); link.wire == [] && Pending(link.queue) == Given(events)
  {
    if events != [] {
      var before, last := events[..|events| - 1], events[|events| - 1];
      NothingLeavesWhileConnecting(before);
      assert Sane(last);
      SendWaitsForConnection(before, last.sender, last.answer);
      assert before + [Send(last.sender, last.answer)] == events;
    }
  }

  // ----- the program -----

  class SocketSender {
    const data: seq<byte>
    const owned: bool
    var copied: bool
    var copy: seq<byte>
    var position: nat

    ghost function View(): Sender
      reads this
    {
      Sender(data, owned, copied, copy, position)
    }

    constructor (data: seq<byte>, owned: bool)
      ensures View() == Sender(data, owned, false, [], 0)
    {
      this.data, this.owned := data, owned;
      copied, copy, position := false, [], 0;
    }

    method Buffering() returns (ok: bool)
      modifies this
      ensures (View(), ok) == old(View()).Buffered()
    {
      if owned || copied {
        return true;
      }
      if position >= |data| {
        return false;
      }
      copy := data[position..];
      copied := true;
      position := 0;
      return true;
    }

    // What leaves is what the system answers, and nothing if it fails.
    method Flush(answer: Answer, failed: bool) returns (over: bool, bytes: seq<byte>)
      modifies this
      ensures (View(), bytes, over) == old(View()).Flushed(answer, failed)
    {
      var current := if copied then copy else data;
      if if copied then copy == [] else position >= |data| {
        return true, [];
      }
      var n := if position < |current| then |current| - position else 0;
      if answer.Failed? {
        n := 0;
      } else if answer.n < n {
        n := answer.n;
      }
      bytes := if n == 0 then [] else current[position..position + n];
      assert bytes == View().Rest()[..n];
      position := position + n;
      if failed || answer.Failed? {
        position := |current|;
      }
      if position >= |current| {
        copy := [];
        return true, bytes;
      }
      var buffered := Buffering();
      over := !buffered;
    }
  }

  ghost function Views(senders: seq<SocketSender>): Queue
    reads senders
  {
    if senders == [] then [] else [senders[0].View()] + Views(senders[1..])
  }

  ghost predicate AllDistinct<T>(s: seq<T>) {
    forall i, j :: 0 <= i < j < |s| ==> s[i] != s[j]
  }

  lemma {:induction false} ViewsAppend(senders: seq<SocketSender>, sender: SocketSender)
    ensures Views(senders + [sender]) == Views(senders) + [sender.View()]
  {
    if senders == [] {
      assert senders + [sender] == [sender];
    } else {
      assert (senders + [sender])[1..] == senders[1..] + [sender];
      ViewsAppend(senders[1..], sender);
    }
  }

  class Socket {
    // What the system took.
    var wire: seq<byte>
    var senders: seq<SocketSender>
    var connecting: bool

    ghost function View(): Link
      reads this, senders
    {
      Link(wire, Views(senders), connecting)
    }

    constructor (connecting: bool)
      ensures View() == Link([], [], connecting) && senders == []
    {
      wire, senders, this.connecting := [], [], connecting;
    }

    // `answer` is what the system does if the sender goes out at once.
    method Send(sender: SocketSender, answer: Answer)
      requires AllDistinct(senders) && sender !in senders
      modifies this, sender
      ensures AllDistinct(senders) && senders <= old(senders) + [sender]
      ensures View() == Sending(old(View()), old(sender.View()), answer)
    {
      if if sender.copied then sender.copy == [] else sender.position >= |sender.data| {
        return;
      }
      if !connecting && senders == [] {
        var over, bytes := sender.Flush(answer, false);
        wire := wire + bytes;
        if over {
          return;
        }
      }
      var buffered := sender.Buffering();
      if buffered {
        ViewsAppend(senders, sender);
        senders := senders + [sender];
      }
    }

    // The front sender goes out as far as the system takes it.
    method FlushFront(answer: Answer, failed: bool) returns (over: bool)
      requires AllDistinct(senders) && senders != []
      modifies this, senders[0]
      ensures AllDistinct(senders) && senders == if over then old(senders)[1..] else old(senders)
      ensures forall s :: s in senders ==> s in old(senders)
      ensures old(View()).queue != [] && (View(), over) == FrontFlushed(old(View()), answer, failed)
    {
      assert senders[0] in senders && senders[0] !in senders[1..];
      var bytes;
      over, bytes := senders[0].Flush(answer, failed);
      wire := wire + bytes;
      if over {
        senders := senders[1..];
      }
    }

    // The system can take bytes again.
    method Flush(answers: seq<Answer>)
      requires AllDistinct(senders)
      modifies this, senders
      ensures AllDistinct(senders) && (forall s :: s in senders ==> s in old(senders))
      ensures View() == Flushing(old(View()), answers, false)
    {
      var k, failed := 0, false;
      while senders != [] && k < |answers|
        invariant k <= |answers| && AllDistinct(senders) && forall s :: s in senders ==> s in old(senders)
        invariant Flushing(View(), answers[k..], failed) == Flushing(old(View()), answers, false)
        decreases |senders|
      {
        assert answers[k..][1..] == answers[k + 1..];
        assert senders[0] in senders;
        var over := FlushFront(answers[k], failed);
        if !over {
          return;
        }
        failed := failed || answers[k].Failed?;
        k := k + 1;
      }
    }
  }
}
