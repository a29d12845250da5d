/** Fetching the IEEE 1284 device ID from the device: get_fresh. */
module DeviceId {
  import opened Signals
  import opened Devices
  import opened Handshakes
  import opened Ports
  import opened Negotiation
  import opened Nibble

  /** The value of a char of the buffer: chars are signed or not. */
  function CharValue(b: byte, signed: bool): int {
    if signed && b >= 128 then b - 256 else b
  }

  /** How many values a size_t has. */
  const SIZES := 0x1_0000_0000_0000_0000

  /** How many bytes are asked for after the two length bytes: the announced length, as a
      size_t, but no more than there is room for. */
  function IdLength(b0: byte, b1: byte, signed: bool, len: nat): (idlen: nat)
    requires 2 <= len < SIZES
    ensures idlen <= len - 2
  {
    var idlen := (CharValue(b0, signed) * 256 + CharValue(b1, signed)) % SIZES;
    if idlen >= len - 2 then len - 2 else idlen
  }

  /** The announced length is the big-endian number in the first two bytes, cut to the room
      there is, exactly when chars are unsigned, or the length bytes have their top bits
      clear, or both readings exceed the room. */
  lemma IdLengthIsBigEndian(b0: byte, b1: byte, signed: bool, len: nat)
    requires 2 <= len < SIZES / 2
    ensures
      var exact := if b0 * 256 + b1 >= len - 2 then len - 2 else b0 * 256 + b1;
      IdLength(b0, b1, signed, len) == exact <==>
        || !signed || (b0 < 128 && b1 < 128)
        || (b0 >= 128 && b0 * 256 + b1 >= len - 2)
        || (b0 < 128 && b0 > 0 && b1 >= 128 && b0 * 256 + b1 - 256 >= len - 2)
        || (b0 == 0 && b1 >= 128 && b1 >= len - 2)
  {
  }

  /** What the two reads received, and how they ended. */
  datatype Receipt = Receipt(head: seq<byte>, first: NibbleStop, body: seq<byte>, second: NibbleStop) {
    function All(): seq<byte> {
      head + body
    }

    /** The peripheral had no more data, which the caller of a nibble read is not told. */
    predicate RanOut() {
      first.OutOfData? || second.OutOfData?
    }
  }

  predicate InNibbleMode(lines: Lines) {
    lines.nSelectIn && lines.nStrobe
  }

  /** After the reads the sender has handed over exactly `bytes`; after a timeout, these and
      at most two nibbles more. */
  ghost predicate Received(d0: Device, d: Device, w: Wires, bytes: seq<byte>, stop: NibbleStop) {
    if stop.TimedOut? then Parted(d0, d, Nibbles(bytes), 2) else Resting(NibbleMode, d0, d, w, Nibbles(bytes))
  }

  /** The first read: the length bytes, which stay what they were if there is no data. */
  ghost predicate HeadRead(before: seq<byte>, after: seq<byte>, got: nat, head: seq<byte>, stop: NibbleStop) {
    && |head| <= 2 <= |before| && (stop.Complete? <==> |head| == 2) && (stop.OutOfData? ==> head == [])
    && after == head + before[|head|..]
    && got == (if stop.TimedOut? then |head| else 2)
  }

  /** The second read: at most idlen bytes after the first two, and a NUL if there is room. */
  ghost predicate BodyRead(before: seq<byte>, after: seq<byte>, len: nat, idlen: nat, got: nat, body: seq<byte>,
                           stop: NibbleStop)
  {
    && |body| <= idlen && 2 + idlen <= len <= |before| && (stop.Complete? <==> |body| == idlen)
    && got == 2 + (if stop.TimedOut? then |body| else idlen)
    && |after| == |before|
    && after[..got] == (before[..2] + body + before[2 + |body|..])[..got]
    && after[len..] == before[len..]
    && (got < len ==> after[got] == 0)
  }

  /** Read the two length bytes. */
  method ReadLength(port: Port, buffer: array<byte>, len: nat)
    returns (got: nat, ghost head: seq<byte>, ghost stop: NibbleStop)
    requires 2 <= len <= buffer.Length
    modifies port, buffer
    ensures port.hazards == old(port.hazards)
    ensures HeadRead(old(buffer[..]), buffer[..], got, head, stop)
    ensures old(port.looks) < port.looks
    ensures stop.OutOfData? <==> port.looks[|old(port.looks)|].status.nFault
    ensures stop.TimedOut? ==> port.current_mode == M1284_COMPAT && Ended(port)
    ensures InNibbleMode(old(port.cable).lines) && !stop.TimedOut? ==> InNibbleMode(port.cable.lines)
    ensures SenderReady(NibbleMode, old(port.device), old(port.cable)) ==>
              Received(old(port.device), port.device, port.cable, head, stop)
  {
    ghost var before := buffer[..];
    ghost var checks;
    got, head, stop, checks := NibbleRead(port, buffer, 0, 2);
    assert old(buffer[..0]) == [] && old(buffer[0..]) == before;
  }

  /** Read idlen bytes after the two length bytes, and end the string. */
  method ReadBody(port: Port, buffer: array<byte>, len: nat, idlen: nat)
    returns (got: nat, ghost body: seq<byte>, ghost stop: NibbleStop, ghost checks: seq<nat>)
    requires 2 + idlen <= len <= buffer.Length
    modifies port, buffer
    ensures port.hazards == old(port.hazards)
    ensures BodyRead(old(buffer[..]), buffer[..], len, idlen, got, body, stop)
    ensures |checks| == if stop.Complete? then (idlen + 1) / 2 else |body| / 2 + 1
    ensures Checked(old(port.looks), port.looks, checks, stop.OutOfData?)
    ensures stop.OutOfData? <==> !AllLow(port.looks, checks)
    ensures InNibbleMode(old(port.cable).lines) ==>
              port.cable.lines.nStrobe && (!stop.TimedOut? ==> InNibbleMode(port.cable.lines))
    ensures SenderReady(NibbleMode, old(port.device), old(port.cable)) ==>
              Received(old(port.device), port.device, port.cable, body, stop)
  {
    ghost var before := buffer[..];
    got, body, stop, checks := NibbleRead(port, buffer, 2, idlen);
    ghost var after := buffer[..];
    assert after == before[..2] + body + before[2 + |body|..] by {
      assert before[2..][|body|..] == before[2 + |body|..];
    }
    assert after[len..] == before[len..];
    got := 2 + got;
    if got < len {
      buffer[got] := 0;
      assert buffer[..] == after[got := 0];
    }
    assert buffer[..got] == buffer[..][..got] == after[..got];
    assert buffer[len..] == buffer[..][len..] == before[len..] == old(buffer[len..]);
  }

  /** What the reads leave in the buffer: got bytes, all of them from the device exactly if it
      did not run out of data. If it had none at all, even the length that was announced is
      what the buffer held before. */
  ghost predicate Fetched(before: seq<byte>, buffer: seq<byte>, len: nat, signed: bool, got: nat, r: Receipt)
    requires 2 <= len < SIZES && len <= |before| == |buffer|
  {
    var idlen := IdLength(buffer[0], buffer[1], signed, len);
    && 2 <= got <= len && |r.head| <= 2 && |r.body| <= idlen
    && !r.first.TimedOut?
    && (r.first.OutOfData? ==> r.head == [] && buffer[..2] == before[..2])
    && (r.second.Complete? <==> |r.body| == idlen)
    && got == 2 + (if r.second.TimedOut? then |r.body| else idlen)
    && buffer[..|r.head|] == r.head && buffer[2..2 + |r.body|] == r.body
    && buffer[2 + |r.body|..got] == before[2 + |r.body|..got]
    && (buffer[..got] == r.All() <==> !r.RanOut())
    && (got < len ==> buffer[got] == 0) && buffer[len..] == before[len..]
  }

  lemma HeadParts(before: seq<byte>, after: seq<byte>, head: seq<byte>, k: nat)
    requires |head| <= 2 <= k <= |before| && after == head + before[|head|..]
    ensures after[..|head|] == head && after[|head|..] == before[|head|..] && after[k..] == before[k..]
  {
  }

  lemma BodyParts(before: seq<byte>, after: seq<byte>, body: seq<byte>, got: nat)
    requires 2 + |body| <= got <= |before| == |after|
    requires after[..got] == (before[..2] + body + before[2 + |body|..])[..got]
    ensures after[..2] == before[..2] && after[2..2 + |body|] == body
    ensures after[2 + |body|..got] == before[2 + |body|..got]
  {
    var n := |body|;
    var whole := before[..2] + body + before[2 + n..];
    assert after[..2] == after[..got][..2] == whole[..2];
    assert after[2..2 + n] == after[..got][2..2 + n] == whole[2..2 + n];
    assert after[2 + n..got] == after[..got][2 + n..] == whole[2 + n..got];
  }

  lemma Composed(before: seq<byte>, mid: seq<byte>, buffer: seq<byte>, len: nat, signed: bool, got: nat, r: Receipt)
    requires 2 <= len < SIZES && len <= |before| == |mid| == |buffer|
    requires HeadRead(before, mid, 2, r.head, r.first) && !r.first.TimedOut?
    requires BodyRead(mid, buffer, len, IdLength(mid[0], mid[1], signed, len), got, r.body, r.second)
    ensures Fetched(before, buffer, len, signed, got, r)
  {
    var n := |r.body|;
    HeadParts(before, mid, r.head, 2 + n);
    HeadParts(before, mid, r.head, len);
    BodyParts(mid, buffer, r.body, got);
    assert buffer[0] == buffer[..2][0] == mid[0] && buffer[1] == buffer[..2][1] == mid[1];
    assert mid[2 + n..got] == mid[2 + n..][..got - 2 - n] == before[2 + n..got];
    assert buffer[..|r.head|] == buffer[..2][..|r.head|] == mid[..|r.head|];
    if r.RanOut() {
      assert |r.All()| < got;
    } else {
      assert buffer[..got] == buffer[..2] + buffer[2..got];
    }
  }

  lemma ReceivedTwice(d0: Device, d1: Device, w1: Wires, d2: Device, w2: Wires, r: Receipt)
    requires !r.first.TimedOut? && Received(d0, d1, w1, r.head, r.first)
    requires Received(d1, d2, w2, r.body, r.second)
    ensures Received(d0, d2, w2, r.All(), r.second)
  {
    NibblesConcat(r.head, r.body);
    if r.second.TimedOut? {
      PartedChain(d0, d1, w1, d2, Nibbles(r.head), Nibbles(r.body), 2);
    } else {
      RestingChain(NibbleMode, d0, d1, w1, d2, w2, Nibbles(r.head), Nibbles(r.body));
    }
  }

  /** The part of get_fresh between negotiation and termination. The buffer up to the result is
      what the device handed over exactly if the first look and the looks in `checks`, at which
      the reads ask for more data, saw nFault low. */
  method ReadId(port: Port, buffer: array<byte>, len: nat, signed: bool)
    returns (got: int, ghost r: Receipt, ghost checks: seq<nat>)
    requires 2 <= len < SIZES && len <= buffer.Length
    modifies port, buffer
    ensures port.hazards == old(port.hazards)
    ensures got == E1284_NOID || 2 <= got <= len
    ensures got == E1284_NOID <==> r.first.TimedOut?
    ensures got == E1284_NOID ==>
              && port.current_mode == M1284_COMPAT && Ended(port) && r.body == []
              && HeadRead(old(buffer[..]), buffer[..], |r.head|, r.head, r.first)
    ensures got >= 2 ==> Fetched(old(buffer[..]), buffer[..], len, signed, got, r)
    ensures old(port.looks) < port.looks
    ensures InNibbleMode(old(port.cable).lines) && got >= 2 ==>
              port.cable.lines.nStrobe && (!r.second.TimedOut? ==> InNibbleMode(port.cable.lines))
    ensures r.first.OutOfData? <==> port.looks[|old(port.looks)|].status.nFault
    ensures got >= 2 ==> (r.second.OutOfData? <==> !AllLow(port.looks, checks))
    ensures got >= 2 ==>
              (buffer[..got] == r.All() <==>
                 !port.looks[|old(port.looks)|].status.nFault && AllLow(port.looks, checks))
    ensures SenderReady(NibbleMode, old(port.device), old(port.cable)) ==>
              Received(old(port.device), port.device, port.cable, r.All(),
                       if r.first.TimedOut? then r.first else r.second)
  {
    ghost var before := buffer[..];
    ghost var d0, w0 := port.device, port.cable;
    ghost var head, body, first, second;
    got, head, first := ReadLength(port, buffer, len);
    ghost var d1, w1 := port.device, port.cable;
    ghost var mid := buffer[..];
    if got < 2 {
      r, checks := Receipt(head, first, [], first), [];
      assert r.All() == head;
      return E1284_NOID, r, checks;
    }
    var idlen := IdLength(buffer[0], buffer[1], signed, len);
    got, body, second, checks := ReadBody(port, buffer, len, idlen);
    r := Receipt(head, first, body, second);
    Composed(before, mid, buffer[..], len, signed, got, r);
    if SenderReady(NibbleMode, d0, w0) {
      ReceivedTwice(d0, d1, w1, port.device, port.cable, r);
    }
  }

  lemma ReceivedThenGone(d0: Device, d1: Device, w1: Wires, d2: Device, w2: Wires, r: Receipt)
    requires Received(d0, d1, w1, r.All(), r.second)
    requires if r.second.TimedOut? then Unmoved(d1, d2, w2) else Gone(d1, d2)
    ensures Parted(d0, d2, Nibbles(r.All()), 2)
  {
    if r.second.TimedOut? {
      PartedStill(d0, d1, d2, w2, Nibbles(r.All()), 2);
    } else {
      RestingAfter(d0, d1, w1, d2, Nibbles(r.All()));
    }
  }

  /** Ask for the device ID in nibble mode. Whatever the peripheral does, a claimed port is
      left in compatibility mode and nothing beyond buffer[..len) is touched. `edge` is the
      cable at event 1, with the request; a sender `from` that was ready on the cable `start`,
      as they were after the negotiation, has handed over the bytes received and at most two
      nibbles more. */
  method GetFresh(port: Port, claimed: bool, daisy: int, buffer: array<byte>, len: nat, signed: bool)
    returns (got: int, ghost r: Receipt, ghost edge: Wires, ghost from: Device, ghost start: Wires)
    requires 2 <= len < SIZES && len <= buffer.Length
    modifies port, buffer
    ensures got == E1284_NOTIMPL || got == E1284_NOTAVAIL || got == E1284_NOID || 2 <= got <= len
    ensures got == E1284_NOTIMPL <==> daisy > -1
    ensures daisy > -1 || !claimed ==> unchanged(port) && got < 0
    ensures daisy <= -1 && claimed ==> port.current_mode == M1284_COMPAT && Ended(port)
    ensures port.hazards == old(port.hazards)
    ensures buffer[len..] == old(buffer[len..])
    ensures got == E1284_NOTIMPL || got == E1284_NOTAVAIL ==> buffer[..] == old(buffer[..])
    ensures got == E1284_NOID ==>
              r.first.TimedOut? && HeadRead(old(buffer[..]), buffer[..], |r.head|, r.head, r.first)
    ensures got >= 2 ==> Fetched(old(buffer[..]), buffer[..], len, signed, got, r)
    ensures daisy <= -1 && claimed ==>
              edge.lines == EVENT1 && edge.dout == 0x04 && (edge.reversed ==> old(port.cable).reversed)
    ensures got == E1284_NOID || got >= 2 ==>
              && start.lines == EVENT4 && start.dout == 0x04
              && (SenderReady(NibbleMode, from, start) ==> Parted(from, port.device, Nibbles(r.All()), 2))
  {
    r := Receipt([], Complete, [], Complete);
    edge, from, start := port.cable, port.device, port.cable;
    if daisy > -1 {
      return E1284_NOTIMPL, r, edge, from, start;
    }
    if !claimed {
      return E1284_NOTAVAIL, r, edge, from, start;
    }
    Terminate(port);
    Requests(M1284_NIBBLE + M1284_FLAG_DEVICEID);
    var ret;
    ret, edge := Negotiate(port, M1284_NIBBLE + M1284_FLAG_DEVICEID);
    if ret != E1284_OK {
      return E1284_NOTAVAIL, r, edge, from, start;
    }
    from, start := port.device, port.cable;
    ghost var checks;
    got, r, checks := ReadId(port, buffer, len, signed);
    if got < 2 {
      return;
    }
    ghost var d, w := port.device, port.cable;
    Terminate(port);
    if SenderReady(NibbleMode, from, start) {
      ReceivedThenGone(from, d, w, port.device, port.cable, r);
    }
  }
}
