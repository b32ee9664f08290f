/** The numbers given to Flash streams: never 0, never one in use, taken in turn and starting again
    from 1 after the last. */
module FlashStreams {

  // How many numbers come between one and another, in the order they are tried.
  function Ahead(from: nat, id: nat): nat {
    (id - from - 1) % 0x1_0000_0000
  }

  predicate IsId(id: nat) {
    0 < id < 0x1_0000_0000
  }

  function NextId(id: nat): nat {
    if id + 1 == 0x1_0000_0000 then 1 else id + 1
  }

  // Ahead(from, id), without remainders.
  lemma AheadIs(from: nat, id: nat)
    requires from < 0x1_0000_0000 && id < 0x1_0000_0000
    ensures Ahead(from, id) == if id > from then id - from - 1 else id - from + 0xFFFF_FFFF
  {
  }

  lemma NothingBeforeFirst(from: nat)
    requires from < 0x1_0000_0000
    ensures forall k :: IsId(k) ==> Ahead(from, NextId(from)) <= Ahead(from, k)
  {
    forall k | IsId(k) ensures Ahead(from, NextId(from)) <= Ahead(from, k) {
      AheadIs(from, k);
      AheadIs(from, NextId(from));
    }
  }

  // What comes before the next number tried is the one just tried, or came before that.
  lemma OneFurther(from: nat, id: nat, other: nat)
    requires from < 0x1_0000_0000 && IsId(id) && IsId(other)
    requires Ahead(from, other) < Ahead(from, NextId(id))
    ensures other == id || Ahead(from, other) < Ahead(from, id)
  {
    AheadIs(from, id);
    AheadIs(from, other);
    AheadIs(from, NextId(id));
  }

  lemma SameAhead(from: nat, id: nat, other: nat)
    requires from < 0x1_0000_0000 && IsId(id) && IsId(other) && Ahead(from, id) == Ahead(from, other)
    ensures id == other
  {
    AheadIs(from, id);
    AheadIs(from, other);
  }

  lemma Advances(from: nat, id: nat, free: nat)
    requires from < 0x1_0000_0000 && IsId(id) && IsId(free) && Ahead(from, id) < Ahead(from, free)
    ensures Ahead(from, id) < Ahead(from, NextId(id))
  {
    AheadIs(from, id);
    AheadIs(from, free);
    AheadIs(from, NextId(id));
  }

  class Numbering {
    var nextId: nat
    var streams: set<nat>

    // Invoker::createFlashStream; without a free number the search would not end.
    method CreateFlashStream(ghost free: nat) returns (id: nat)
      requires nextId < 0x1_0000_0000 && IsId(free) && free !in streams
      modifies this
      ensures IsId(id) && id !in old(streams) && streams == old(streams) + {id} && nextId == id
      ensures forall k :: IsId(k) && Ahead(old(nextId), k) < Ahead(old(nextId), id) ==> k in old(streams)
    {
      ghost var start := nextId;
      nextId := NextId(nextId);
      NothingBeforeFirst(start);
      while nextId in streams
        invariant IsId(nextId) && streams == old(streams)
        invariant forall k :: IsId(k) && Ahead(start, k) < Ahead(start, nextId) ==> k in streams
        decreases 0x1_0000_0000 - Ahead(start, nextId)
      {
        assert Ahead(start, nextId) < Ahead(start, free) by {
          if Ahead(start, nextId) == Ahead(start, free) {
            SameAhead(start, nextId, free);
          }
        }
        Advances(start, nextId, free);
        forall k | IsId(k) && Ahead(start, k) < Ahead(start, NextId(nextId)) ensures k in streams {
          OneFurther(start, nextId, k);
        }
        nextId := NextId(nextId);
      }
      id := nextId;
      streams := streams + {id};
    }
  }
}
