/** TCPClient's reassembly: bytes received in any pieces are kept in order in front of a
    reception callback that says how many of them it leaves. */
module Reassembly {
  import opened Codec
  import opened Sequences

  // The inner loop of onReadable over the kept bytes: what the callback leaves is moved to the
  // front; nothing left, or nothing taken, ends the loop.
  ghost function Drain<A(!new)>(onReception: (A, seq<byte>) -> (A, nat), app: A, kept: seq<byte>): (A, seq<byte>)
    decreases |kept|
  {
    if kept == [] then (app, [])
    else
      var (app', rest) := onReception(app, kept);
      if rest == 0 then (app', [])
      else if rest >= |kept| then (app', kept)
      else Drain(onReception, app', kept[|kept| - rest..])
  }

  // A run of receptions of arbitrary sizes.
  ghost function Receptions<A(!new)>(onReception: (A, seq<byte>) -> (A, nat), app: A, kept: seq<byte>,
                               pieces: seq<seq<byte>>): (A, seq<byte>)
    decreases |pieces|
  {
    if pieces == [] then (app, kept)
    else
      var (app', kept') := Drain(onReception, app, kept + pieces[0]);
      Receptions(onReception, app', kept', pieces[1..])
  }

  // ----- what the callback takes -----

  // One call: the bytes offered, and how many of them, the last ones, the callback left.
  datatype Call = Call(offered: seq<byte>, left: nat) {
    function Taken(): seq<byte> {
      if left <= |offered| then offered[..|offered| - left] else []
    }
  }

  ghost function AllTaken(calls: seq<Call>): seq<byte> {
    if calls == [] then [] else calls[0].Taken() + AllTaken(calls[1..])
  }

  function LeftByLast(calls: seq<Call>, before: nat): nat {
    if calls == [] then before else calls[|calls| - 1].left
  }

  // The calls made on the kept bytes: again on what a call leaves, until it leaves all or nothing.
  ghost function CallsOn<A(!new)>(onReception: (A, seq<byte>) -> (A, nat), app: A, kept: seq<byte>): seq<Call>
    decreases |kept|
  {
    if kept == [] then []
    else
      var (app', rest) := onReception(app, kept);
      var left := if rest <= |kept| then rest else |kept|;
      [Call(kept, left)]
      + if 0 < left < |kept| then CallsOn(onReception, app', kept[|kept| - left..]) else []
  }

  // The calls of a run of receptions.
  ghost function CallsDuring<A(!new)>(onReception: (A, seq<byte>) -> (A, nat), app: A, kept: seq<byte>,
                                pieces: seq<seq<byte>>): seq<Call>
    decreases |pieces|
  {
    if pieces == [] then []
    else
      var (app', kept') := Drain(onReception, app, kept + pieces[0]);
      CallsOn(onReception, app, kept + pieces[0]) + CallsDuring(onReception, app', kept', pieces[1..])
  }

  lemma TakenFirst(call: Call, calls: seq<Call>)
    ensures AllTaken([call] + calls) == call.Taken() + AllTaken(calls)
  {
    assert ([call] + calls)[1..] == calls;
  }

  lemma {:induction false} TakenJoins(a: seq<Call>, b: seq<Call>)
    ensures AllTaken(a + b) == AllTaken(a) + AllTaken(b)
  {
    if a == [] {
      assert a + b == b;
    } else {
      assert (a + b)[1..] == a[1..] + b;
      TakenJoins(a[1..], b);
    }
  }

  // The bytes taken and the bytes kept make what there was; what is kept is what the last call left.
  lemma {:induction false} DrainKeepsUnconsumed<A(!new)>(
    onReception: (A, seq<byte>) -> (A, nat), app: A, kept: seq<byte>)
    ensures var calls, kept' := CallsOn(onReception, app, kept), Drain(onReception, app, kept).1;
            AllTaken(calls) + kept' == kept && |kept'| == LeftByLast(calls, |kept|)
    decreases |kept|
  {
    if kept != [] {
      var (app', rest) := onReception(app, kept);
      if 0 < rest < |kept| {
        var call, others := Call(kept, rest), kept[|kept| - rest..];
        DrainKeepsUnconsumed(onReception, app', others);
        TakenBefore(call, CallsOn(onReception, app', others), Drain(onReception, app', others).1);
      } else {
        TakenBefore(Call(kept, if rest == 0 then 0 else |kept|), [], if rest == 0 then [] else kept);
      }
    }
  }

  lemma TakenBefore(call: Call, calls: seq<Call>, kept: seq<byte>)
    requires call.left <= |call.offered| && AllTaken(calls) + kept == call.offered[|call.offered| - call.left..]
    ensures AllTaken([call] + calls) + kept == call.offered
  {
    TakenFirst(call, calls);
    Associates(call.Taken(), AllTaken(calls), kept);
    assert call.Taken() + call.offered[|call.offered| - call.left..] == call.offered;
  }

  /** Whatever the callback answers and however the stream is cut: the bytes it took, call after call,
      followed by the bytes kept, are the bytes received, none lost, repeated or moved; and the bytes
      kept are those its last call left. */
  lemma {:induction false} ReceptionsKeepUnconsumed<A(!new)>(
    onReception: (A, seq<byte>) -> (A, nat), app: A, kept: seq<byte>, pieces: seq<seq<byte>>)
    ensures var calls := CallsDuring(onReception, app, kept, pieces);
            var kept' := Receptions(onReception, app, kept, pieces).1;
            AllTaken(calls) + kept' == kept + Joined(pieces) && |kept'| == LeftByLast(calls, |kept|)
    decreases |pieces|
  {
    if pieces == [] {
      assert kept + Joined(pieces) == kept;
    } else {
      var offered, others := kept + pieces[0], Joined(pieces[1..]);
      var (app', kept') := Drain(onReception, app, offered);
      var first, next := CallsOn(onReception, app, offered), CallsDuring(onReception, app', kept', pieces[1..]);
      DrainKeepsUnconsumed(onReception, app, offered);
      ReceptionsKeepUnconsumed(onReception, app', kept', pieces[1..]);
      TakenJoins(first, next);
      Associates(kept, pieces[0], others);
      Associates(AllTaken(first), kept', others);
      Associates(AllTaken(first), AllTaken(next), Receptions(onReception, app', kept', pieces[1..]).1);
    }
  }
}
