/** SubstreamMap: the pieces of a frame, read in order in chunks of any size. */
module Substreams {
  import opened Codec
  import opened Sequences

  // The unread substreams, the first one from where reading stopped; `atStart` when it was not begun.
  datatype Cursor = Cursor(left: seq<seq<byte>>, atStart: bool)

  ghost predicate NoEmptyPiece(left: seq<seq<byte>>) {
    forall i :: 0 <= i < |left| ==> left[i] != []
  }

  // SubstreamMap::readNextSub
  ghost function ReadNext(c: Cursor, max: nat): (seq<byte>, Cursor) {
    if c.left == [] then ([], c)
    else
      var head := c.left[0];
      if |head| <= max then (head, Cursor(c.left[1..], true))
      else (head[..max], Cursor([head[max..]] + c.left[1..], false))
  }

  lemma ReadNextTakes(c: Cursor, max: nat)
    ensures var (chunk, c1) := ReadNext(c, max);
            |chunk| <= max && chunk + Joined(c1.left) == Joined(c.left)
  {
    if c.left != [] && |c.left[0]| > max {
      var c1 := ReadNext(c, max).1;
      assert c1.left[1..] == c.left[1..];
      assert c.left[0] == c.left[0][..max] + c.left[0][max..];
    }
  }

  // ----- any number of reads -----

  ghost function ReadMany(c: Cursor, sizes: seq<nat>): (r: (seq<seq<byte>>, Cursor))
    ensures |r.0| == |sizes|
    decreases |sizes|
  {
    if sizes == [] then ([], c)
    else
      var (chunk, c1) := ReadNext(c, sizes[0]);
      var (chunks, c2) := ReadMany(c1, sizes[1..]);
      ([chunk] + chunks, c2)
  }

  lemma ReadNextTakesSome(c: Cursor, max: nat)
    requires NoEmptyPiece(c.left) && max > 0
    ensures var (chunk, c1) := ReadNext(c, max);
            NoEmptyPiece(c1.left) && (chunk == [] <==> Joined(c.left) == [])
  {
    NoPieceLeft(c.left);
  }

  lemma NoPieceLeft(pieces: seq<seq<byte>>)
    requires NoEmptyPiece(pieces)
    ensures Joined(pieces) == [] <==> pieces == []
  {
  }

  // What reads of any sizes give, followed by what is left, is what there was.
  lemma {:induction false} ReadManyTakes(c: Cursor, sizes: seq<nat>)
    ensures var (chunks, c1) := ReadMany(c, sizes);
            && Joined(chunks) + Joined(c1.left) == Joined(c.left)
            && forall i :: 0 <= i < |sizes| ==> |chunks[i]| <= sizes[i]
    decreases |sizes|
  {
    if sizes != [] {
      var (chunk, c1) := ReadNext(c, sizes[0]);
      var (chunks, c2) := ReadMany(c1, sizes[1..]);
      ReadNextTakes(c, sizes[0]);
      ReadManyTakes(c1, sizes[1..]);
      assert ([chunk] + chunks)[1..] == chunks;
      Associates(chunk, Joined(chunks), Joined(c2.left));
    }
  }

  lemma SameAfter(chunk: seq<byte>, a: seq<byte>, b: seq<byte>)
    ensures chunk + a == chunk + b <==> a == b
  {
    assert (chunk + a)[|chunk|..] == a && (chunk + b)[|chunk|..] == b;
  }

  // A read of a positive size gives nothing only once everything was given.
  lemma {:induction false} ReadsGiveSome(c: Cursor, sizes: seq<nat>, i: nat)
    requires NoEmptyPiece(c.left) && i < |sizes| && forall k :: 0 <= k < |sizes| ==> sizes[k] > 0
    ensures var chunks := ReadMany(c, sizes).0; chunks[i] == [] <==> Joined(chunks[..i]) == Joined(c.left)
    decreases i
  {
    var (chunk, c1) := ReadNext(c, sizes[0]);
    var (chunks, c2) := ReadMany(c1, sizes[1..]);
    ReadNextTakes(c, sizes[0]);
    ReadNextTakesSome(c, sizes[0]);
    if i == 0 {
      assert ([chunk] + chunks)[..0] == [];
    } else {
      ReadsGiveSome(c1, sizes[1..], i - 1);
      var all := ([chunk] + chunks)[..i];
      assert all[1..] == chunks[..i - 1] && all[0] == chunk;
      assert Joined(all) == chunk + Joined(chunks[..i - 1]);
      SameAfter(chunk, Joined(chunks[..i - 1]), Joined(c1.left));
    }
  }

  // As many reads as there are bytes are enough.
  lemma {:induction false} EnoughReadsGiveAll(c: Cursor, sizes: seq<nat>)
    requires NoEmptyPiece(c.left) && forall k :: 0 <= k < |sizes| ==> sizes[k] > 0
    requires |Joined(c.left)| <= |sizes|
    ensures var (chunks, c1) := ReadMany(c, sizes); Joined(chunks) == Joined(c.left) && c1.left == []
    decreases |sizes|
  {
    if sizes == [] {
      NoPieceLeft(c.left);
    } else {
      var (chunk, c1) := ReadNext(c, sizes[0]);
      ReadNextTakes(c, sizes[0]);
      ReadNextTakesSome(c, sizes[0]);
      EnoughReadsGiveAll(c1, sizes[1..]);
      var chunks := ReadMany(c1, sizes[1..]).0;
      assert ([chunk] + chunks)[1..] == chunks;
    }
  }

  /** Whatever the sizes asked for, reads give the substreams one after the other: nothing lost,
      repeated or out of order, at least a byte each time while there is one, all of them in the end. */
  lemma ReadsGiveTheSubstreams(c: Cursor, sizes: seq<nat>)
    requires NoEmptyPiece(c.left) && forall k :: 0 <= k < |sizes| ==> sizes[k] > 0
    ensures var (chunks, c1) := ReadMany(c, sizes);
            && Joined(chunks) + Joined(c1.left) == Joined(c.left)
            && (forall i :: 0 <= i < |sizes| ==> |chunks[i]| <= sizes[i])
            && (forall i :: 0 <= i < |sizes| ==> (chunks[i] == [] <==> Joined(chunks[..i]) == Joined(c.left)))
            && (|Joined(c.left)| <= |sizes| ==> Joined(chunks) == Joined(c.left) && c1.left == [])
  {
    ReadManyTakes(c, sizes);
    forall i | 0 <= i < |sizes|
      ensures var chunks := ReadMany(c, sizes).0; chunks[i] == [] <==> Joined(chunks[..i]) == Joined(c.left) {
      ReadsGiveSome(c, sizes, i);
    }
    if |Joined(c.left)| <= |sizes| {
      EnoughReadsGiveAll(c, sizes);
    }
  }

  // ----- the map -----

  datatype Place = Null | At(offset: nat)

  ghost predicate AllInside(data: seq<byte>, subs: seq<(nat, nat)>) {
    forall i :: 0 <= i < |subs| ==> 0 < subs[i].1 && subs[i].0 + subs[i].1 <= |data|
  }

  // The substreams from one on.
  ghost function Pieces(data: seq<byte>, subs: seq<(nat, nat)>, from: nat): (s: seq<seq<byte>>)
    requires AllInside(data, subs) && from <= |subs|
    ensures |s| == |subs| - from && NoEmptyPiece(s)
    decreases |subs| - from
  {
    if from == |subs| then []
    else [data[subs[from].0..subs[from].0 + subs[from].1]] + Pieces(data, subs, from + 1)
  }

  lemma {:induction false} PiecesAppend(data: seq<byte>, subs: seq<(nat, nat)>, sub: (nat, nat), from: nat)
    requires AllInside(data, subs + [sub]) && from <= |subs|
    ensures AllInside(data, subs) && |data| >= sub.0 + sub.1
    ensures Pieces(data, subs + [sub], from) == Pieces(data, subs, from) + [data[sub.0..sub.0 + sub.1]]
    decreases |subs| - from
  {
    assert forall i :: 0 <= i < |subs| ==> (subs + [sub])[i] == subs[i];
    assert (subs + [sub])[|subs|] == sub;
    if from < |subs| {
      PiecesAppend(data, subs, sub, from + 1);
    } else {
      assert Pieces(data, subs + [sub], from + 1) == [];
    }
  }

  lemma Appended(data: seq<byte>, subs: seq<(nat, nat)>, sub: (nat, nat))
    requires AllInside(data, subs) && 0 < sub.1 && sub.0 + sub.1 <= |data|
    ensures AllInside(data, subs + [sub])
  {
  }

  class SubstreamMap {
    const data: seq<byte>
    var listSubs: seq<(nat, nat)>
    var index: nat
    var pos: Place

    ghost predicate Valid()
      reads this
    {
      && AllInside(data, listSubs) && index <= |listSubs|
      && (pos.At? ==> index < |listSubs|
                      && listSubs[index].0 <= pos.offset < listSubs[index].0 + listSubs[index].1)
    }

    ghost function View(): Cursor
      requires Valid()
      reads this
    {
      if pos.Null? then Cursor(Pieces(data, listSubs, index), listSubs != [])
      else Cursor([data[pos.offset..listSubs[index].0 + listSubs[index].1]] + Pieces(data, listSubs, index + 1), false)
    }

    constructor (data: seq<byte>)
      ensures Valid() && this.data == data && listSubs == [] && index == 0 && pos == Null
    {
      this.data := data;
      listSubs, index, pos := [], 0, Null;
    }

    // A piece of no byte, or that starts outside the data, is not added; nor is one that ends
    // outside, unless its end wraps on 32 bits.
    method AddSub(position: nat, size: nat)
      requires Valid() && position < 0x1_0000_0000 && size < 0x1_0000_0000 && |data| < 0x1_0000_0000
      modifies this`listSubs
      ensures index == old(index) && pos == old(pos)
      ensures position + size < 0x1_0000_0000 ==>
                listSubs == old(listSubs) + if size > 0 && position + size <= |data| then [(position, size)] else []
      ensures Valid() <==> size == 0 || position >= |data| || position + size < 0x1_0000_0000
      ensures Valid() ==>
                View().left == old(View().left) + if size > 0 && position + size <= |data|
                                                  then [data[position..position + size]] else []
    {
      if size > 0 && position < |data| && (position + size) % 0x1_0000_0000 <= |data| {
        listSubs := listSubs + [(position, size)];
        assert listSubs[|listSubs| - 1] == (position, size);
        if position + size <= |data| {
          Appended(data, old(listSubs), (position, size));
          PiecesAppend(data, old(listSubs), (position, size), if pos.At? then index + 1 else index);
        }
      }
    }

    method NextSubIsNew() returns (isNew: bool)
      requires Valid()
      ensures isNew == View().atStart
    {
      isNew := listSubs != [] && pos.Null?;
    }

    method ReadNextSub(max: nat) returns (chunk: seq<byte>)
      requires Valid()
      modifies this`index, this`pos
      ensures Valid() && (chunk, View()) == ReadNext(old(View()), max)
    {
      if |listSubs| <= index {
        return [];
      }
      var sub := listSubs[index];
      var offset := 0;
      var position := sub.0;
      if pos.At? {
        position := pos.offset;
        offset := pos.offset - sub.0;
      }
      var read := if max < sub.1 - offset then max else sub.1 - offset;
      if read == sub.1 - offset {
        index := index + 1;
        pos := Null;
      } else {
        pos := At(position + read);
      }
      chunk := data[position..position + read];
      ghost var pieces := Pieces(data, listSubs, if sub.1 - offset == read then index else index + 1);
      assert old(View()).left[1..] == pieces;
      assert [old(View()).left[0]] + pieces == old(View()).left;
      assert chunk == old(View()).left[0][..read];
    }

    method TotalSize() returns (total: nat)
      requires Valid()
      ensures total == |Joined(Pieces(data, listSubs, 0))|
    {
      total := 0;
      for i := 0 to |listSubs|
        invariant total + |Joined(Pieces(data, listSubs, i))| == |Joined(Pieces(data, listSubs, 0))|
      {
        total := total + listSubs[i].1;
      }
    }
  }
}
