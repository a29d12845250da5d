/** Software EPP transfers: default_epp_read_data, default_epp_write_data and poll_port. */
module Epp {
  import opened Signals
  import opened Devices
  import opened Handshakes
  import opened Ports

  const BUSY_LINE := Status(false, false, false, false, true)

  // ---------------------------------------------------------------- reading

  /** How a read ends: the buffer is full, or the peripheral missed event 58 or event 60. */
  datatype EppStop = Full | Missed58 | Missed60

  /** The sender has handed over `cells`; when event 60 was missed, `last` may be handed over
      as well. */
  ghost predicate Pulled(d0: Device, d: Device, w: Wires, cells: seq<Cell>, last: byte, stop: EppStop) {
    match stop
    case Full => Resting(EppRead, d0, d, w, cells)
    case Missed58 => Asking(EppRead, d0, d, w, cells)
    case Missed60 => Sent(EppRead, d0, d, cells) || Sent(EppRead, d0, d, cells + [Cell(true, last)])
  }

  /** Events 67 and 58: ask for a byte and read it, which is that of the peripheral if the
      drivers are off. */
  method AskForByte(port: Port, ghost base: Device, ghost cells: seq<Cell>) returns (ok: bool, datum: byte)
    modifies port
    ensures unchanged(port`current_mode, port`current_channel, port`current_phase, port`hazards)
    ensures port.cable.reversed == old(port.cable).reversed
    ensures port.cable.dout == old(port.cable).dout
    ensures port.cable.lines == old(port.cable).lines.(nAutoFd := false)
    ensures port.timeouts == old(port.timeouts) + (if ok then 0 else 1)
    ensures ok ==> datum == port.cable.Data()
    ensures Resting(EppRead, base, old(port.device), old(port.cable), cells) ==>
              if ok then Offered(EppRead, base, port.device, port.cable, cells, Cell(true, port.cable.din))
              else Asking(EppRead, base, port.device, port.cable, cells)
  {
    ghost var d0, w0 := port.device, port.cable;
    ghost var good := Resting(EppRead, base, d0, w0, cells);
    datum := 0;
    port.FrobControl(C1284_NAUTOFD, 0);
    ghost var d1, w1 := port.device, port.cable;
    if good { Lower(EppRead, base, d0, w0, w1, cells); }
    var r := port.WaitStatus(S1284_BUSY, S1284_BUSY);
    ghost var d2, w2 := port.device, port.cable;
    if good { AskWait(EppRead, base, d1, w1, d2, w2, BUSY_LINE, BUSY_LINE, r == E1284_OK, cells); }
    ok := r == E1284_OK;
    if ok {
      datum := port.ReadData();
      if good { OfferHeld(EppRead, base, d2, w2, port.cable, cells, Cell(true, w2.din)); }
    }
  }

  /** Events 63 and 60: acknowledge the byte and wait until it is withdrawn. */
  method AcknowledgeByte(port: Port, ghost base: Device, ghost cells: seq<Cell>, ghost cell: Cell) returns (ok: bool)
    modifies port
    ensures unchanged(port`current_mode, port`current_channel, port`current_phase, port`hazards)
    ensures port.cable.reversed == old(port.cable).reversed
    ensures port.cable.dout == old(port.cable).dout
    ensures port.cable.lines == old(port.cable).lines.(nAutoFd := true)
    ensures port.timeouts == old(port.timeouts) + (if ok then 0 else 1)
    ensures Offered(EppRead, base, old(port.device), old(port.cable), cells, cell) ==>
              if ok then Resting(EppRead, base, port.device, port.cable, cells + [cell])
              else Taken(EppRead, base, port.device, port.cable, cells, cell)
  {
    ghost var d0, w0 := port.device, port.cable;
    ghost var good := Offered(EppRead, base, d0, w0, cells, cell);
    port.FrobControl(C1284_NAUTOFD, C1284_NAUTOFD);
    ghost var d1, w1 := port.device, port.cable;
    if good { Raise(EppRead, base, d0, w0, w1, cells, cell); }
    var r := port.WaitStatus(S1284_BUSY, 0);
    ok := r == E1284_OK;
    if good { TakenWait(EppRead, base, d1, w1, port.device, port.cable, BUSY_LINE, NO_LINE, ok, cells, cell); }
  }

  /** The EPP idle state for reading, with the data drivers off. It drops nSelectIn. */
  method BeginRead(port: Port)
    modifies port
    ensures unchanged(port`current_mode, port`current_channel, port`current_phase, port`timeouts)
    ensures port.cable.dout == old(port.cable).dout
    ensures port.cable.lines == Lines(true, false, true, false) && port.cable.reversed
    ensures SenderReady(EppRead, old(port.device), old(port.cable)) ==>
              Resting(EppRead, old(port.device), port.device, port.cable, [])
  {
    ghost var d0, w0 := port.device, port.cable;
    port.FrobControl(C1284_NSTROBE | C1284_NAUTOFD | C1284_NSELECTIN | C1284_NINIT, C1284_NSTROBE | C1284_NINIT);
    ghost var d1, w1 := port.device, port.cable;
    if SenderReady(EppRead, d0, w0) { Lower(EppRead, d0, d0, w0, w1, []); }
    port.DataDir(true);
    if SenderReady(EppRead, d0, w0) { AskingHeld(EppRead, d0, d1, w1, port.cable, []); }
  }

  /** Switch the data drivers on again. */
  method EndRead(port: Port, ghost base: Device, ghost cells: seq<Cell>, ghost last: byte, ghost stop: EppStop)
    modifies port
    ensures unchanged(port`current_mode, port`current_channel, port`current_phase, port`hazards, port`timeouts)
    ensures port.cable.dout == old(port.cable).dout && port.cable.lines == old(port.cable).lines && !port.cable.reversed
    ensures (match stop
             case Full => Resting(EppRead, base, old(port.device), old(port.cable), cells)
             case Missed58 => Asking(EppRead, base, old(port.device), old(port.cable), cells)
             case Missed60 => Taken(EppRead, base, old(port.device), old(port.cable), cells, Cell(true, last)))
            ==> Pulled(base, port.device, port.cable, cells, last, stop)
  {
    ghost var d, w := port.device, port.cable;
    port.DataDir(false);
    match stop
    case Full =>
      if Resting(EppRead, base, d, w, cells) { RestingHeld(EppRead, base, d, w, port.cable, cells); }
    case Missed58 =>
      if Asking(EppRead, base, d, w, cells) { AskingHeld(EppRead, base, d, w, port.cable, cells); }
    case Missed60 =>
      if Taken(EppRead, base, d, w, cells, Cell(true, last)) {
        TakenHeld(EppRead, base, d, w, port.cable, cells, Cell(true, last));
      }
  }

  /** One round of the loop. The byte is stored before event 60 is awaited. */
  method NextByte(port: Port, buffer: array<byte>, at: nat, ghost base: Device, ghost got: seq<byte>)
    returns (stop: EppStop)
    requires at == |got| && at < buffer.Length
    modifies port, buffer
    ensures if stop.Missed58? then buffer[..] == old(buffer[..]) else buffer[..] == old(buffer[..])[at := buffer[at]]
    ensures unchanged(port`current_mode, port`current_channel, port`current_phase)
    ensures port.timeouts == old(port.timeouts) + (if stop.Full? then 0 else 1)
    ensures port.cable.lines.nSelectIn == old(port.cable).lines.nSelectIn
    ensures port.cable.reversed == old(port.cable).reversed
    ensures Resting(EppRead, base, old(port.device), old(port.cable), Tagged(true, got)) && old(port.cable).reversed ==>
              match stop
              case Full => Resting(EppRead, base, port.device, port.cable, Tagged(true, got + [buffer[at]]))
              case Missed58 => Asking(EppRead, base, port.device, port.cable, Tagged(true, got))
              case Missed60 => Taken(EppRead, base, port.device, port.cable, Tagged(true, got), Cell(true, buffer[at]))
  {
    var ok, datum := AskForByte(port, base, Tagged(true, got));
    if !ok {
      return Missed58;
    }
    buffer[at] := datum;
    TaggedAppend(true, got, datum);
    ok := AcknowledgeByte(port, base, Tagged(true, got), Cell(true, datum));
    return if ok then Full else Missed60;
  }

  /** Read up to len bytes; on every exit the data drivers are on and nSelectIn is low. */
  method Read(port: Port, buffer: array<byte>, len: nat) returns (count: nat, ghost stop: EppStop)
    requires len <= buffer.Length
    modifies port, buffer
    ensures count <= len
    ensures stop.Missed60? ==> count < len && buffer[count + 1..] == old(buffer[count + 1..])
    ensures !stop.Missed60? ==> buffer[count..] == old(buffer[count..])
    ensures stop.Full? <==> count == len
    ensures port.timeouts == old(port.timeouts) + (if stop.Full? then 0 else 1)
    ensures unchanged(port`current_mode, port`current_channel, port`current_phase)
    ensures !port.cable.reversed && !port.cable.lines.nSelectIn
    ensures SenderReady(EppRead, old(port.device), old(port.cable)) ==>
              Pulled(old(port.device), port.device, port.cable, Tagged(true, buffer[..count]),
                     if count < buffer.Length then buffer[count] else 0, stop)
  {
    ghost var d0 := port.device;
    ghost var good := SenderReady(EppRead, d0, port.cable);
    BeginRead(port);
    count := 0;
    while count < len
      invariant count <= len && buffer[count..] == old(buffer[count..])
      invariant unchanged(port`current_mode, port`current_channel, port`current_phase, port`timeouts)
      invariant !port.cable.lines.nSelectIn && port.cable.reversed
      invariant good ==> Resting(EppRead, d0, port.device, port.cable, Tagged(true, buffer[..count]))
    {
      ghost var before, got := buffer[..], buffer[..count];
      var how := NextByte(port, buffer, count, d0, got);
      SliceUpdate(before, buffer[..], count);
      assert buffer[..count] == got && buffer[..count + 1] == got + [buffer[count]];
      assert buffer[count + 1..] == buffer[..][count + 1..] == before[count + 1..] == old(buffer[count + 1..]);
      if !how.Full? {
        EndRead(port, d0, Tagged(true, got), buffer[count], how);
        return count, how;
      }
      count := count + 1;
    }
    stop := Full;
    EndRead(port, d0, Tagged(true, buffer[..count]), if count < buffer.Length then buffer[count] else 0, stop);
  }

  // ---------------------------------------------------------------- writing

  /** Poll at most usec / 5 + 2 times. */
  method PollPort(port: Port, mask: bv8, val: bv8, usec: nat) returns (r: int)
    modifies port`cable, port`device, port`looks, port`timeouts
    ensures SameHost(old(port.cable), port.cable)
    ensures r == E1284_OK || r == E1284_TIMEDOUT
    ensures r == E1284_OK <==> Matches(port.cable.status, StatusPins(mask), StatusPins(val))
    ensures |old(port.looks)| < |port.looks| <= |old(port.looks)| + usec / 5 + 2
    ensures r == E1284_TIMEDOUT ==> |port.looks| == |old(port.looks)| + usec / 5 + 2
    ensures port.timeouts == old(port.timeouts) + (if r == E1284_OK then 0 else 1)
    ensures old(port.device).Waited(old(port.cable), port.device, port.cable, StatusPins(mask), StatusPins(val),
                                    r == E1284_OK)
  {
    ghost var d, w := port.device, port.cable;
    ghost var want, level := StatusPins(mask), StatusPins(val);
    var count := usec / 5 + 2;
    for i := 0 to count
      invariant |port.looks| == |old(port.looks)| + i && port.timeouts == old(port.timeouts) && SameHost(w, port.cable)
      invariant i == 0 ==> port.device == d && port.cable == w
      invariant i > 0 ==> !Matches(port.cable.status, want, level)
      invariant i > 0 ==> d.Waited(w, port.device, port.cable, want, level, false)
    {
      ghost var d', w' := port.device, port.cable;
      var s := port.ReadStatus();
      if i == 0 {
        WaitedOnce(d, w, s, port.cable.din, want, level);
      } else {
        WaitedMore(d, w, d', w', s, port.cable.din, want, level);
      }
      if Matches(s, StatusPins(mask), StatusPins(val)) {
        return E1284_OK;
      }
    }
    port.timeouts := port.timeouts + 1;
    return E1284_TIMEDOUT;
  }

  /** How a write ends: all bytes went, or the peripheral missed event 58 or event 60. */
  datatype PushStop = Done | Late58 | Late60

  /** What the receiver has when one byte more was sent, or was not. A byte that was not
      answered at event 58 was not taken; one that was answered was. */
  ghost predicate Pushed(d0: Device, d: Device, w: Wires, cells: seq<Cell>, bytes: seq<byte>, datum: byte,
                         stop: PushStop)
  {
    match stop
    case Done => Clear(NDStrb, d0, d, w, cells + [Cell(false, datum)], bytes + [datum])
    case Late58 => !w.status.busy && Presented(NDStrb, d0, d, w, cells, bytes, Cell(false, datum))
    case Late60 => w.status.busy && Closing(NDStrb, d0, d, w, cells + [Cell(false, datum)], bytes + [datum])
  }

  /** Events 62 and 58: put out a byte and wait for Busy. */
  method PresentByte(port: Port, datum: byte, ghost base: Device, ghost cells: seq<Cell>, ghost bytes: seq<byte>)
    returns (ok: bool)
    requires !port.cable.lines.nStrobe
    modifies port
    ensures unchanged(port`current_mode, port`current_channel, port`current_phase, port`hazards)
    ensures port.cable.reversed == old(port.cable).reversed && port.cable.dout == datum
    ensures port.cable.lines == old(port.cable).lines.(nAutoFd := false)
    ensures port.cable.status.busy == ok
    ensures if ok then |port.looks| <= |old(port.looks)| + 4 else |port.looks| == |old(port.looks)| + 4
    ensures port.timeouts == old(port.timeouts) + (if ok then 0 else 1)
    ensures Clear(NDStrb, base, old(port.device), old(port.cable), cells, bytes) && !old(port.cable).reversed ==>
              Presented(NDStrb, base, port.device, port.cable, cells, bytes, Cell(false, datum))
  {
    ghost var d0, w0 := port.device, port.cable;
    ghost var good := Clear(NDStrb, base, d0, w0, cells, bytes) && !w0.reversed;
    port.WriteData(datum);
    ghost var d1, w1 := port.device, port.cable;
    if good { ClearLoad(NDStrb, base, d0, w0, w1, cells, bytes); }
    port.FrobControl(C1284_NAUTOFD, 0);
    ghost var d2, w2 := port.device, port.cable;
    if good { Fall(NDStrb, base, d1, w1, w2, cells, bytes); }
    var r := PollPort(port, S1284_BUSY, S1284_BUSY, 10);
    ok := r == E1284_OK;
    if good {
      PresentedWait(NDStrb, base, d2, w2, port.device, port.cable, StatusPins(S1284_BUSY), StatusPins(S1284_BUSY), ok,
                    cells, bytes, Cell(false, datum));
    }
  }

  /** Events 63 and 60: raise nAutoFd and wait for Busy to go low. */
  method ReleaseByte(port: Port, ghost base: Device, ghost cells: seq<Cell>, ghost bytes: seq<byte>, ghost cell: Cell)
    returns (ok: bool)
    requires port.cable.status.busy
    modifies port
    ensures unchanged(port`current_mode, port`current_channel, port`current_phase, port`hazards)
    ensures port.cable.reversed == old(port.cable).reversed
    ensures port.cable.lines == old(port.cable).lines.(nAutoFd := true)
    ensures port.cable.status.busy == !ok
    ensures if ok then |port.looks| <= |old(port.looks)| + 3 else |port.looks| == |old(port.looks)| + 3
    ensures port.timeouts == old(port.timeouts) + (if ok then 0 else 1)
    ensures Presented(NDStrb, base, old(port.device), old(port.cable), cells, bytes, cell) && cell.driven ==>
              Closing(NDStrb, base, port.device, port.cable, cells + [cell], bytes + [cell.byte])
  {
    ghost var d0, w0 := port.device, port.cable;
    ghost var good := Presented(NDStrb, base, d0, w0, cells, bytes, cell) && cell.driven;
    port.FrobControl(C1284_NAUTOFD, C1284_NAUTOFD);
    ghost var d1, w1 := port.device, port.cable;
    if good { Rise(NDStrb, base, d0, w0, w1, cells, bytes, cell); }
    var r := PollPort(port, S1284_BUSY, 0, 5);
    ok := r == E1284_OK;
    if good {
      ClosingWait(NDStrb, base, d1, w1, port.device, port.cable, StatusPins(S1284_BUSY), StatusPins(0), ok,
                  cells + [cell], bytes + [cell.byte]);
    }
  }

  /** Events 62, 58, 63 and 60. */
  method PushByte(port: Port, datum: byte, ghost base: Device, ghost cells: seq<Cell>, ghost bytes: seq<byte>)
    returns (stop: PushStop)
    requires !port.cable.lines.nStrobe
    modifies port
    ensures unchanged(port`current_mode, port`current_channel, port`current_phase, port`hazards)
    ensures port.cable.reversed == old(port.cable).reversed
    ensures port.cable.lines == old(port.cable).lines.(nAutoFd := !stop.Late58?)
    ensures port.cable.status.busy == stop.Late60?
    ensures |port.looks| <= |old(port.looks)| + 7 && (stop.Late58? ==> |port.looks| == |old(port.looks)| + 4)
    ensures port.timeouts == old(port.timeouts) + (if stop.Done? then 0 else 1)
    ensures Clear(NDStrb, base, old(port.device), old(port.cable), cells, bytes) && !old(port.cable).reversed ==>
              Pushed(base, port.device, port.cable, cells, bytes, datum, stop)
  {
    var ok := PresentByte(port, datum, base, cells, bytes);
    if !ok {
      return Late58;
    }
    ok := ReleaseByte(port, base, cells, bytes, Cell(false, datum));
    return if ok then Done else Late60;
  }

  /** The EPP idle state for writing: nStrobe low, data drivers on. */
  method BeginWrite(port: Port)
    modifies port
    ensures unchanged(port`current_mode, port`current_channel, port`current_phase, port`timeouts, port`hazards)
    ensures port.cable.dout == old(port.cable).dout
    ensures port.cable.lines == Lines(false, true, true, true) && !port.cable.reversed
    ensures ReceiverReady(NDStrb, old(port.device), old(port.cable)) ==>
              Clear(NDStrb, old(port.device), port.device, port.cable, [], [])
  {
    ghost var d0, w0 := port.device, port.cable;
    port.FrobControl(C1284_NSTROBE | C1284_NAUTOFD | C1284_NSELECTIN | C1284_NINIT,
                     C1284_NAUTOFD | C1284_NSELECTIN | C1284_NINIT);
    ghost var d1, w1 := port.device, port.cable;
    if ReceiverReady(NDStrb, d0, w0) { ClearDrive(NDStrb, d0, d0, w0, w1, [], []); }
    port.DataDir(false);
    if ReceiverReady(NDStrb, d0, w0) { ClearDrive(NDStrb, d0, d1, w1, port.cable, [], []); }
  }

  /** What the receiver has of the buffer. */
  ghost predicate Written(d0: Device, d: Device, w: Wires, buffer: seq<byte>, ret: nat, stop: PushStop) {
    match stop
    case Done => ret == |buffer| && Clear(NDStrb, d0, d, w, Tagged(false, buffer), buffer)
    case _ => ret < |buffer| && Pushed(d0, d, w, Tagged(false, buffer[..ret]), buffer[..ret], buffer[ret], stop)
  }

  /** Write bytes until one is not answered in time. */
  method Write(port: Port, buffer: seq<byte>) returns (ret: nat, ghost stop: PushStop)
    modifies port
    ensures ret <= |buffer|
    ensures stop.Done? <==> ret == |buffer|
    ensures port.timeouts == old(port.timeouts) + (if stop.Done? then 0 else 1)
    ensures unchanged(port`current_mode, port`current_channel, port`current_phase, port`hazards)
    ensures !port.cable.reversed
    ensures port.cable.lines == Lines(false, !stop.Late58?, true, true)
    ensures buffer != [] ==> port.cable.status.busy == stop.Late60?
    ensures ReceiverReady(NDStrb, old(port.device), old(port.cable)) ==>
              Written(old(port.device), port.device, port.cable, buffer, ret, stop)
  {
    ghost var d0 := port.device;
    ghost var good := ReceiverReady(NDStrb, d0, port.cable);
    BeginWrite(port);
    ret, stop := 0, Done;
    while ret < |buffer|
      invariant ret <= |buffer| && stop.Done?
      invariant port.timeouts == old(port.timeouts)
      invariant unchanged(port`current_mode, port`current_channel, port`current_phase, port`hazards)
      invariant !port.cable.reversed && port.cable.lines == Lines(false, true, true, true)
      invariant ret > 0 ==> !port.cable.status.busy
      invariant good ==> Clear(NDStrb, d0, port.device, port.cable, Tagged(false, buffer[..ret]), buffer[..ret])
    {
      var how := PushByte(port, buffer[ret], d0, Tagged(false, buffer[..ret]), buffer[..ret]);
      if !how.Done? {
        return ret, how;
      }
      TaggedNext(false, buffer, ret);
      ret := ret + 1;
    }
    assert buffer[..|buffer|] == buffer;
  }

  /** A conforming receiver has acknowledged exactly the bytes reported as written, and one
      more exactly if that one was answered at event 58 but not released at event 60. The data
      never changed while nAutoFd was low. */
  lemma AcknowledgedExactly(d0: Device, d: Device, w: Wires, buffer: seq<byte>, ret: nat, stop: PushStop)
    requires Written(d0, d, w, buffer, ret, stop) && ret <= |buffer| && d.Conforms()
    ensures d0.Receiving? && d.Receiving? && d.receiver.steady == d0.receiver.steady
    ensures stop.Late60? ==> ret < |buffer|
    ensures d.receiver.acked ==
              d0.receiver.acked + Tagged(false, buffer[..ret + if stop.Late60? then 1 else 0])
  {
    match stop
    case Done => assert buffer[..|buffer|] == buffer;
    case Late58 =>
    case Late60 => TaggedNext(false, buffer, ret);
  }
}
