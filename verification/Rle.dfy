/** Run-length encoding on the ECP reverse channel: a command with the top bit clear is a
    run count, one less than the length of the run, and the next item is the byte. */
module Rle {
  import opened Signals
  import opened Devices

  /** What a host has made of the items it accepted: the bytes, and the length of a run
      whose byte is still to come (0 when there is none). */
  datatype Decoded = Decoded(out: seq<byte>, pending: nat)

  function Repeat(b: byte, n: nat): (r: seq<byte>)
    ensures |r| == n && forall i :: 0 <= i < n ==> r[i] == b
  {
    if n == 0 then [] else Repeat(b, n - 1) + [b]
  }

  function Accept(d: Decoded, item: Cell): Decoded {
    if d.pending > 0 then Decoded(d.out + Repeat(item.byte, d.pending), 0)
    else if item.tag then Decoded(d.out + [item.byte], 0)
    else Decoded(d.out, item.byte + 1)
  }

  function Decode(items: seq<Cell>): Decoded {
    if items == [] then Decoded([], 0)
    else Accept(Decode(items[..|items| - 1]), items[|items| - 1])
  }

  lemma DecodeAppend(items: seq<Cell>, item: Cell)
    ensures Decode(items + [item]) == Accept(Decode(items), item)
  {
    assert (items + [item])[..|items|] == items;
  }

  lemma AcceptAfter(out: seq<byte>, d: Decoded, item: Cell)
    ensures Accept(Decoded(out + d.out, d.pending), item) ==
              Decoded(out + Accept(d, item).out, Accept(d, item).pending)
  {
    if d.pending > 0 {
      assert out + d.out + Repeat(item.byte, d.pending) == out + (d.out + Repeat(item.byte, d.pending));
    } else if item.tag {
      assert out + d.out + [item.byte] == out + (d.out + [item.byte]);
    }
  }

  /** Decoding starts afresh at every item boundary. */
  lemma {:induction false} DecodeConcat(a: seq<Cell>, b: seq<Cell>)
    requires Decode(a).pending == 0
    ensures Decode(a + b) == Decoded(Decode(a).out + Decode(b).out, Decode(b).pending)
    decreases |b|
  {
    if b == [] {
      assert a + b == a;
      assert Decode(a).out + [] == Decode(a).out;
    } else {
      var n := |b| - 1;
      DecodeConcat(a, b[..n]);
      AcceptAfter(Decode(a).out, Decode(b[..n]), b[n]);
      DecodeAppend(a + b[..n], b[n]);
      assert a + b == (a + b[..n]) + [b[n]];
    }
  }

  // ---------------------------------------------------------------- encoding

  /** A piece of a split of a byte string: a literal byte or a run. */
  datatype Chunk = Literal(byte: byte) | Run(count: nat, byte: byte)

  predicate ValidChunk(c: Chunk) {
    c.Run? ==> 1 <= c.count <= 128
  }

  ghost predicate ValidSplit(split: seq<Chunk>) {
    forall i :: 0 <= i < |split| ==> ValidChunk(split[i])
  }

  function Bytes(c: Chunk): seq<byte>
    requires ValidChunk(c)
  {
    if c.Literal? then [c.byte] else Repeat(c.byte, c.count)
  }

  /** The items for a chunk. The tag of the byte of a run does not matter. */
  function Items(c: Chunk): seq<Cell>
    requires ValidChunk(c)
  {
    if c.Literal? then [Cell(true, c.byte)] else [Cell(false, c.count - 1), Cell(true, c.byte)]
  }

  function Flatten(split: seq<Chunk>): seq<byte>
    requires ValidSplit(split)
  {
    if split == [] then [] else Flatten(split[..|split| - 1]) + Bytes(split[|split| - 1])
  }

  function Encode(split: seq<Chunk>): seq<Cell>
    requires ValidSplit(split)
  {
    if split == [] then [] else Encode(split[..|split| - 1]) + Items(split[|split| - 1])
  }

  lemma LiteralDecodes(b: byte)
    ensures Decode([Cell(true, b)]) == Decoded([b], 0)
  {
    DecodeAppend([], Cell(true, b));
    assert [] + [Cell(true, b)] == [Cell(true, b)];
    assert [] + [b] == [b];
  }

  lemma CountDecodes(n: nat)
    requires 1 <= n <= 128
    ensures Decode([Cell(false, n - 1)]) == Decoded([], n)
  {
    DecodeAppend([], Cell(false, n - 1));
    assert [] + [Cell(false, n - 1)] == [Cell(false, n - 1)];
  }

  lemma RunDecodes(n: nat, b: byte)
    requires 1 <= n <= 128
    ensures Decode([Cell(false, n - 1), Cell(true, b)]) == Decoded(Repeat(b, n), 0)
  {
    CountDecodes(n);
    DecodeAppend([Cell(false, n - 1)], Cell(true, b));
    assert [Cell(false, n - 1)] + [Cell(true, b)] == [Cell(false, n - 1), Cell(true, b)];
    assert [] + Repeat(b, n) == Repeat(b, n);
  }

  lemma ItemsDecode(c: Chunk)
    requires ValidChunk(c)
    ensures Decode(Items(c)) == Decoded(Bytes(c), 0)
  {
    match c
    case Literal(b) => LiteralDecodes(b);
    case Run(n, b) => RunDecodes(n, b);
  }

  /** Round trip: every split of a byte string into literals and runs of 1 to 128 bytes
      decodes to that string, with nothing pending. */
  lemma {:induction false} RoundTrip(split: seq<Chunk>)
    requires ValidSplit(split)
    ensures Decode(Encode(split)) == Decoded(Flatten(split), 0)
    decreases |split|
  {
    if split != [] {
      var n := |split| - 1;
      RoundTrip(split[..n]);
      ItemsDecode(split[n]);
      DecodeConcat(Encode(split[..n]), Items(split[n]));
    }
  }

  lemma {:induction false} Prefixes(split: seq<Chunk>, k: nat)
    requires ValidSplit(split) && k <= |split|
    ensures Encode(split[..k]) <= Encode(split) && Flatten(split[..k]) <= Flatten(split)
    decreases |split|
  {
    var n := |split| - 1;
    if k == |split| {
      assert split[..k] == split;
    } else {
      Prefixes(split[..n], k);
      assert split[..n][..k] == split[..k];
    }
  }

  lemma RunPending(head: seq<Cell>, c: Chunk)
    requires ValidChunk(c) && c.Run? && Decode(head).pending == 0
    ensures Decode(head + [Items(c)[0]]).pending == c.count
  {
    DecodeAppend(head, Items(c)[0]);
  }

  lemma PastHead(head: seq<Cell>, tail: seq<Cell>, items: seq<Cell>)
    requires items <= head + tail && |items| > |head| && 1 <= |tail| <= 2
    requires |tail| == 2 ==> items != head + [tail[0]]
    ensures items == head + tail
  {
    var whole := head + tail;
    assert items == whole[..|items|];
    assert whole[..|head| + 1] == head + [tail[0]];
    assert whole[..|whole|] == whole;
  }

  lemma WithinHead(head: seq<Cell>, tail: seq<Cell>, items: seq<Cell>)
    requires items <= head + tail && |items| <= |head|
    ensures items <= head
  {
    assert (head + tail)[..|items|] == head[..|items|];
  }

  lemma LastChunk(split: seq<Chunk>, items: seq<Cell>)
    requires ValidSplit(split) && split != [] && items <= Encode(split) && Decode(items).pending == 0
    requires |items| > |Encode(split[..|split| - 1])|
    ensures items == Encode(split)
  {
    var n := |split| - 1;
    RoundTrip(split[..n]);
    if split[n].Run? {
      RunPending(Encode(split[..n]), split[n]);
    }
    PastHead(Encode(split[..n]), Items(split[n]), items);
  }

  /** A host that has accepted some items of an encoding and waits for no run byte has
      accepted the encoding of the first k chunks. */
  lemma {:induction false} Boundary(split: seq<Chunk>, items: seq<Cell>) returns (k: nat)
    requires ValidSplit(split) && items <= Encode(split) && Decode(items).pending == 0
    ensures k <= |split| && items == Encode(split[..k])
    decreases |split|
  {
    if split == [] {
      return 0;
    }
    var n := |split| - 1;
    if |items| <= |Encode(split[..n])| {
      WithinHead(Encode(split[..n]), Items(split[n]), items);
      k := Boundary(split[..n], items);
      assert split[..n][..k] == split[..k];
    } else {
      LastChunk(split, items);
      assert split[..|split|] == split;
      k := |split|;
    }
  }

  /** What a host has made of a stream whenever it waits for no run byte is a prefix of the
      string, and the string when it has made it of the whole stream. */
  lemma PartRead(split: seq<Chunk>, items: seq<Cell>)
    requires ValidSplit(split) && items <= Encode(split) && Decode(items).pending == 0
    ensures Decode(items).out <= Flatten(split)
    ensures items == Encode(split) ==> Decode(items).out == Flatten(split)
  {
    var k := Boundary(split, items);
    RoundTrip(split[..k]);
    Prefixes(split, k);
    RoundTrip(split);
  }

  lemma OneChunkMore(split: seq<Chunk>, k: nat)
    requires ValidSplit(split) && k < |split|
    ensures Encode(split[..k + 1]) == Encode(split[..k]) + Items(split[k])
    ensures Flatten(split[..k + 1]) == Flatten(split[..k]) + Bytes(split[k])
  {
    assert split[..k + 1][..k] == split[..k];
  }

  /** The chunk that follows the first k begins with a data byte, or with the count of a run
      that still fits into the whole. */
  lemma NextChunk(split: seq<Chunk>, k: nat)
    requires ValidSplit(split) && k < |split|
    ensures |Encode(split[..k])| < |Encode(split)|
    ensures
      var item := Encode(split)[|Encode(split[..k])|];
      !item.tag ==> item.byte < 128 && |Flatten(split[..k])| + item.byte + 1 <= |Flatten(split)|
  {
    OneChunkMore(split, k);
    Prefixes(split, k + 1);
    assert Encode(split)[|Encode(split[..k])|] == Items(split[k])[0];
  }
}
