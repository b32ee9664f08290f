/** Runs of a server on which a listener is not served as it should be. */
module InvokingCases {

  import opened MediaLog
  import opened Listening
  import opened Publishing
  import opened Invoking

  const STREAM: Name := "live"

  const KEY: Packet := [0x17]
  const INTER: Packet := [0x27]

  // One publication with one listener.
  ghost function Served(l: Listening, keyed: bool): Registry {
    map[STREAM := Publishing(By(1), keyed, [], [], 0, map[2 := l])]
  }

  lemma OneMore(run: seq<Request>, op: Operation)
    ensures RegistryAfter(run + [Request(op, 0)]) == Apply(RegistryAfter(run), op, 0)
  {
    var run' := run + [Request(op, 0)];
    assert run'[..|run'| - 1] == run;
  }

  // Peer 1 publishes and peer 2 listens.
  lemma Begins()
    ensures RegistryAfter([Request(Publish(STREAM, 1, true), 0), Request(Subscribe(STREAM, 2, true), 0)])
         == Served(NEW_LISTENER.Started(0), false)
  {
    var op1, op2 := Publish(STREAM, 1, true), Subscribe(STREAM, 2, true);
    OneMore([], op1);
    OneMore([Request(op1, 0)], op2);
    assert [] + [Request(op1, 0)] == [Request(op1, 0)];
    assert [Request(op1, 0)] + [Request(op2, 0)] == [Request(op1, 0), Request(op2, 0)];
    var published := Publishing(By(1), false, [], [], 0, map[]);
    assert NEW_PUBLICATION.Begin(1, true, 0) == published;
    assert RegistryAfter([Request(op1, 0)]) == map[STREAM := published];
    assert published.Joined(2, true, 0).listeners == map[2 := NEW_LISTENER.Started(0)];
  }

  lemma Sees(run: seq<Request>, l: Listening, keyed: bool, packet: Packet, time: nat)
    requires RegistryAfter(run) == Served(l, keyed) && (keyed || IsKeyFrame(packet)) && !IsCodecInfos(Video, packet)
    ensures RegistryAfter(run + [Request(SendVideo(STREAM, packet, time, 0), 0)])
         == Served(l.PushedVideo(packet, time, 0, []), true)
  {
    OneMore(run, SendVideo(STREAM, packet, time, 0));
    var p := Publishing(By(1), keyed, [], [], 0, map[2 := l]);
    assert p.Lossy(0) == p;
    assert AllSeen(map[2 := l], packet, time, 0, []) == map[2 := l.PushedVideo(packet, time, 0, [])];
    assert p.Seen(packet, time, 0) == Publishing(By(1), true, [], [], 0, map[2 := l.PushedVideo(packet, time, 0, [])]);
  }

  lemma Asks(run: seq<Request>, l: Listening, keyed: bool, video: bool)
    requires RegistryAfter(run) == Served(l, keyed)
    ensures RegistryAfter(run + [Request(Ask(STREAM, 2, true, video), 0)]) == Served(l.Asking(true, video), keyed)
  {
    OneMore(run, Ask(STREAM, 2, true, video));
    var p := Publishing(By(1), keyed, [], [], 0, map[2 := l]);
    assert p.Asked(2, true, video) == p.(listeners := map[2 := l.Asking(true, video)]);
  }

  // A listener that has had the first key frame, which came at time 5.
  lemma FirstKey() returns (run: seq<Request>, l: Listening)
    ensures RegistryAfter(run) == Served(l, true) && l.receiveVideo && l.firstKeyFrame && !l.firstVideo && l.ready
    ensures l.log == [Start, Init, Sent(Video, 5, 0, KEY)] && l.clock == Clock(5, 0, 0, false)
  {
    Begins();
    run := [Request(Publish(STREAM, 1, true), 0), Request(Subscribe(STREAM, 2, true), 0)];
    Sees(run, NEW_LISTENER.Started(0), false, KEY, 5);
    run := run + [Request(SendVideo(STREAM, KEY, 5, 0), 0)];
    l := NEW_LISTENER.Started(0).PushedVideo(KEY, 5, 0, []);
    assert l.log == [Start, Init, Sent(Video, 5, 0, KEY)];
  }

  lemma NextInter(run: seq<Request>, l: Listening, time: nat) returns (run': seq<Request>, l': Listening)
    requires RegistryAfter(run) == Served(l, true) && l.receiveVideo && l.firstKeyFrame && !l.firstVideo && l.ready
    requires 0 < time
    ensures RegistryAfter(run') == Served(l', true) && l' == l.Gave(Video, INTER, time)
  {
    Sees(run, l, true, INTER, time);
    run' := run + [Request(SendVideo(STREAM, INTER, time, 0), 0)];
    l' := l.PushedVideo(INTER, time, 0, []);
  }

  lemma FirstFits(log: Log)
    requires log == [Start, Init, Sent(Video, 5, 0, KEY)]
    ensures Fits(log) && Replay(log) == Clock(5, 0, 0, false)
  {
    var begun := [Start, Init];
    assert Before(log) == begun && Before(begun) == [Start] && Before([Start]) == [];
    assert Fits([Start]) && Replay([Start]) == Clock(0, 0, 0, true);
    assert Fits(begun) && Replay(begun) == Clock(0, 0, 0, true);
  }

  lemma NextFits(log: Log, before: Log, c: Clock)
    requires log != [] && before == Before(log) && Fits(before) && Replay(before) == c
    requires Last(log).Sent? && ExactTime(c, Last(log).input) < 0x1_0000_0000
    ensures Fits(log) && Replay(log) == Tick(c, Last(log).input)
  {
  }

  lemma LogGoesBack(log3: Log, log4: Log, log5: Log)
    requires log3 == [Start, Init, Sent(Video, 5, 0, KEY)]
    requires log4 == log3 + [Sent(Video, 9, 4, INTER)] && log5 == log4 + [Sent(Video, 7, 2, INTER)]
    ensures Fits(log5) && !Ascending(log5)
  {
    FirstFits(log3);
    NextFits(log4, log3, Clock(5, 0, 0, false));
    NextFits(log5, log4, Clock(5, 0, 4, false));
    assert Latest(log4) == 4;
  }

  // Frames at 5, 9 and 7 come out at 0, 4 and 2: a publisher whose clock goes back after it went on.
  lemma GoingBackShows()
    ensures exists run :: Listens(run, STREAM, 2) && Fits(LogOf(run, STREAM, 2)) && !Ascending(LogOf(run, STREAM, 2))
  {
    var run, l := FirstKey();
    var log3 := l.log;
    run, l := NextInter(run, l, 9);
    var log4 := l.log;
    run, l := NextInter(run, l, 7);
    LogGoesBack(log3, log4, l.log);
    assert Listens(run, STREAM, 2) && LogOf(run, STREAM, 2) == l.log;
  }

  // The listener turns video off and on again between two frames, and gets the second one.
  lemma OffUnnoticedShows()
    ensures exists run :: Listens(run, STREAM, 2) && !GatedSinceOff(LogOf(run, STREAM, 2))
  {
    var run, l := FirstKey();
    Asks(run, l, true, false);
    run, l := run + [Request(Ask(STREAM, 2, true, false), 0)], l.Asking(true, false);
    Asks(run, l, true, true);
    run, l := run + [Request(Ask(STREAM, 2, true, true), 0)], l.Asking(true, true);
    var log := l.log;
    run, l := NextInter(run, l, 9);
    assert Before(l.log) == log && Last(l.log) == Sent(Video, 9, 4, INTER);
    assert Before(log)[3] == Asked(true, false);
    assert !KeySinceOff(Before(log));
    assert !KeySinceOff(log);
    assert Listens(run, STREAM, 2) && LogOf(run, STREAM, 2) == l.log;
  }
}
