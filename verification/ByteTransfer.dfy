/** Reverse transfer in byte mode: default_byte_read. */
module ByteTransfer {
  import opened Signals
  import opened Devices
  import opened Handshakes
  import opened Ports

  /** How a read ends: the buffer is full, the peripheral has no data (PError high), or it
      missed event 9 or event 11. */
  datatype ByteStop = Full | NoData | MissedNine | MissedEleven

  /** The sender has handed over `cells`; after event 11 was missed `last` may still follow. */
  ghost predicate Transferred(d0: Device, d: Device, w: Wires, cells: seq<Cell>, last: byte, stop: ByteStop) {
    match stop
    case Full => Resting(ByteMode, d0, d, w, cells)
    case MissedEleven => Taken(ByteMode, d0, d, w, cells, Cell(true, last))
    case _ => Sent(ByteMode, d0, d, cells)
  }

  /** Raise nAutoFd without having read a byte. */
  method StopAsking(port: Port, ghost base: Device, ghost cells: seq<Cell>)
    modifies port
    ensures unchanged(port`current_mode, port`current_channel, port`current_phase, port`hazards, port`timeouts,
                      port`looks)
    ensures port.cable.reversed == old(port.cable).reversed
    ensures port.cable.dout == old(port.cable).dout
    ensures port.cable.lines == old(port.cable).lines.(nAutoFd := true)
    ensures (Asking(ByteMode, base, old(port.device), old(port.cable), cells)
             || Resting(ByteMode, base, old(port.device), old(port.cable), cells)) ==>
              Sent(ByteMode, base, port.device, cells)
    ensures SawPulses(old(port.device), old(port.cable), port.device, port.cable, 0)
  {
    ghost var d0, w0 := port.device, port.cable;
    port.FrobControl(C1284_NAUTOFD, C1284_NAUTOFD);
    if !w0.lines.nAutoFd && Sent(ByteMode, base, d0, cells) {
      RaiseAnyway(ByteMode, base, d0, w0, port.cable, cells);
    } else if Resting(ByteMode, base, d0, w0, cells) {
      RestingHeld(ByteMode, base, d0, w0, port.cable, cells);
    }
    PulsesDrive(d0, w0, d0, w0, port.cable, 0);
  }

  /** Is there data? If so, switch the data drivers off; if not, raise nAutoFd. */
  method BeginByte(port: Port, ghost base: Device, ghost cells: seq<Cell>) returns (ok: bool)
    modifies port
    ensures unchanged(port`current_mode, port`current_channel, port`current_phase, port`hazards, port`timeouts)
    ensures port.cable.dout == old(port.cable).dout
    ensures port.cable.lines == if ok then old(port.cable).lines else old(port.cable).lines.(nAutoFd := true)
    ensures port.cable.reversed == (ok || old(port.cable).reversed)
    ensures port.looks == old(port.looks) + [Look(old(port.cable).lines, port.Seen())]
    ensures ok <==> !port.Seen().pError
    ensures Resting(ByteMode, base, old(port.device), old(port.cable), cells) ==>
              if ok then Resting(ByteMode, base, port.device, port.cable, cells)
              else Sent(ByteMode, base, port.device, cells)
    ensures SawPulses(old(port.device), old(port.cable), port.device, port.cable, 0)
  {
    ghost var d0, w0 := port.device, port.cable;
    ghost var good := Resting(ByteMode, base, d0, w0, cells);
    var s := port.ReadStatus();
    ghost var d1, w1 := port.device, port.cable;
    if good { RestingPoll(ByteMode, base, d0, w0, w1, cells); }
    PulsesPoll(d0, w0, d0, w0, w1, 0);
    ok := !s.pError;
    if ok {
      port.DataDir(true);
      if good { RestingHeld(ByteMode, base, d1, w1, port.cable, cells); }
      PulsesDrive(d0, w0, d1, w1, port.cable, 0);
    } else {
      StopAsking(port, base, cells);
      PulsesTwice(d0, w0, d1, w1, port.device, port.cable, 0, 0);
    }
  }

  /** Events 7 to 9: ask for a byte and read it, which is that of the peripheral if the drivers
      are off. If none is offered in time, nAutoFd is raised. */
  method AskForByte(port: Port, ghost base: Device, ghost cells: seq<Cell>) returns (ok: bool, datum: byte)
    modifies port
    ensures old(port.looks) <= port.looks
    ensures unchanged(port`current_mode, port`current_channel, port`current_phase, port`hazards)
    ensures port.cable.reversed == old(port.cable).reversed
    ensures port.cable.dout == old(port.cable).dout
    ensures port.cable.lines == old(port.cable).lines.(nAutoFd := !ok)
    ensures ok ==> datum == port.cable.Data()
    ensures port.timeouts == old(port.timeouts) + (if ok then 0 else 1)
    ensures Resting(ByteMode, base, old(port.device), old(port.cable), cells) ==>
              if ok then Offered(ByteMode, base, port.device, port.cable, cells, Cell(true, port.cable.din))
              else Sent(ByteMode, base, port.device, cells)
    ensures SawPulses(old(port.device), old(port.cable), port.device, port.cable, 0)
  {
    ghost var d0, w0 := port.device, port.cable;
    ghost var good := Resting(ByteMode, base, d0, w0, cells);
    datum := 0;
    port.FrobControl(C1284_NAUTOFD, 0);
    ghost var d1, w1 := port.device, port.cable;
    if good { Lower(ByteMode, base, d0, w0, w1, cells); }
    PulsesDrive(d0, w0, d0, w0, w1, 0);
    var r := port.WaitStatus(S1284_NACK, 0);
    ghost var d2, w2 := port.device, port.cable;
    if good { AskWait(ByteMode, base, d1, w1, d2, w2, NACK_LINE, NO_LINE, r == E1284_OK, cells); }
    PulsesWait(d0, w0, d1, w1, d2, w2, NACK_LINE, NO_LINE, r == E1284_OK, 0);
    ok := r == E1284_OK;
    if ok {
      datum := port.ReadData();
      if good { OfferHeld(ByteMode, base, d2, w2, port.cable, cells, Cell(true, w2.din)); }
      PulsesPoll(d0, w0, d2, w2, port.cable, 0);
    } else {
      StopAsking(port, base, cells);
      PulsesTwice(d0, w0, d2, w2, port.device, port.cable, 0, 0);
    }
  }

  /** Events 10 and 11: acknowledge the byte and wait until it is withdrawn. */
  method AcknowledgeByte(port: Port, ghost base: Device, ghost cells: seq<Cell>, ghost cell: Cell) returns (ok: bool)
    modifies port
    ensures old(port.looks) <= port.looks
    ensures unchanged(port`current_mode, port`current_channel, port`current_phase, port`hazards)
    ensures port.cable.reversed == old(port.cable).reversed
    ensures port.cable.dout == old(port.cable).dout
    ensures port.cable.lines == old(port.cable).lines.(nAutoFd := true)
    ensures port.timeouts == old(port.timeouts) + (if ok then 0 else 1)
    ensures Offered(ByteMode, base, old(port.device), old(port.cable), cells, cell) ==>
              if ok then Resting(ByteMode, base, port.device, port.cable, cells + [cell])
              else Taken(ByteMode, base, port.device, port.cable, cells, cell)
    ensures SawPulses(old(port.device), old(port.cable), port.device, port.cable, 0)
  {
    ghost var d0, w0 := port.device, port.cable;
    ghost var good := Offered(ByteMode, base, d0, w0, cells, cell);
    port.FrobControl(C1284_NAUTOFD, C1284_NAUTOFD);
    ghost var d1, w1 := port.device, port.cable;
    if good { Raise(ByteMode, base, d0, w0, w1, cells, cell); }
    PulsesDrive(d0, w0, d0, w0, w1, 0);
    var r := port.WaitStatus(S1284_NACK, S1284_NACK);
    ok := r == E1284_OK;
    if good { TakenWait(ByteMode, base, d1, w1, port.device, port.cable, NACK_LINE, NACK_LINE, ok, cells, cell); }
    PulsesWait(d0, w0, d1, w1, port.device, port.cable, NACK_LINE, NACK_LINE, ok, 0);
  }

  /** Events 16 and 17: pulse nStrobe. */
  method EndByte(port: Port, ghost base: Device, ghost cells: seq<Cell>)
    modifies port
    ensures unchanged(port`current_mode, port`current_channel, port`current_phase, port`hazards, port`timeouts,
                      port`looks)
    ensures port.cable.reversed == old(port.cable).reversed
    ensures port.cable.dout == old(port.cable).dout
    ensures port.cable.lines == old(port.cable).lines.(nStrobe := true)
    ensures Resting(ByteMode, base, old(port.device), old(port.cable), cells) ==>
              Resting(ByteMode, base, port.device, port.cable, cells)
    ensures SawPulses(old(port.device), old(port.cable), port.device, port.cable, 1)
  {
    ghost var d0, w0 := port.device, port.cable;
    ghost var good := Resting(ByteMode, base, d0, w0, cells);
    port.FrobControl(C1284_NSTROBE, 0);
    ghost var d1, w1 := port.device, port.cable;
    if good { RestingHeld(ByteMode, base, d0, w0, w1, cells); }
    port.FrobControl(C1284_NSTROBE, C1284_NSTROBE);
    if good { RestingHeld(ByteMode, base, d1, w1, port.cable, cells); }
    PulsesOnce(d0, w0, w1, port.cable);
  }

  /** One round of the loop: Full when a byte was handed over and its handshake finished. The
      byte is stored before event 11 is awaited. Unless the first look says that there is no
      data, the data drivers are left off. */
  method NextByte(port: Port, buffer: array<byte>, at: nat, ghost base: Device, ghost got: seq<byte>)
    returns (stop: ByteStop)
    requires at == |got| && at < buffer.Length
    modifies port, buffer
    ensures if stop.Full? || stop.MissedEleven? then buffer[..] == old(buffer[..])[at := buffer[at]]
            else buffer[..] == old(buffer[..])
    ensures unchanged(port`current_mode, port`current_channel, port`current_phase, port`hazards)
    ensures port.timeouts == old(port.timeouts) + (if stop.MissedNine? || stop.MissedEleven? then 1 else 0)
    ensures port.cable.lines.nSelectIn == old(port.cable).lines.nSelectIn
    ensures old(port.looks) < port.looks
    ensures stop.NoData? <==> port.looks[|old(port.looks)|].status.pError
    ensures port.cable.reversed == (!stop.NoData? || old(port.cable).reversed)
    ensures Resting(ByteMode, base, old(port.device), old(port.cable), Tagged(true, got)) ==>
              Transferred(base, port.device, port.cable, Tagged(true, if stop.Full? then got + [buffer[at]] else got),
                          buffer[at], stop)
    ensures SawPulses(old(port.device), old(port.cable), port.device, port.cable, if stop.Full? then 1 else 0)
  {
    ghost var d0, w0 := port.device, port.cable;
    var ok := BeginByte(port, base, Tagged(true, got));
    if !ok {
      return NoData;
    }
    ghost var d1, w1 := port.device, port.cable;
    var datum;
    ok, datum := AskForByte(port, base, Tagged(true, got));
    ghost var d2, w2 := port.device, port.cable;
    PulsesTwice(d0, w0, d1, w1, d2, w2, 0, 0);
    if !ok {
      return MissedNine;
    }
    buffer[at] := datum;
    ok := AcknowledgeByte(port, base, Tagged(true, got), Cell(true, datum));
    ghost var d3, w3 := port.device, port.cable;
    PulsesTwice(d0, w0, d2, w2, d3, w3, 0, 0);
    if !ok {
      return MissedEleven;
    }
    TaggedAppend(true, got, datum);
    EndByte(port, base, Tagged(true, got + [datum]));
    PulsesTwice(d0, w0, d3, w3, port.device, port.cable, 0, 1);
    return Full;
  }

  /** Read up to len bytes: the bytes counted are the ones handed over, in order. Only a byte
      whose handshake was not completed may be stored beyond the count. The data drivers end up
      off, unless the very first look says that there is no data. */
  method Read(port: Port, buffer: array<byte>, len: nat) returns (count: nat, ghost stop: ByteStop)
    requires len <= buffer.Length
    modifies port, buffer
    ensures count <= len
    ensures stop.MissedEleven? ==> count < len && buffer[count + 1..] == old(buffer[count + 1..])
    ensures !stop.MissedEleven? ==> buffer[count..] == old(buffer[count..])
    ensures stop.Full? <==> count == len
    ensures old(port.looks) <= port.looks && (len > 0 ==> old(port.looks) < port.looks)
    ensures stop.NoData? && count == 0 <==> len > 0 && port.looks[|old(port.looks)|].status.pError
    ensures port.cable.reversed ==
              (old(port.cable).reversed || (len > 0 && !port.looks[|old(port.looks)|].status.pError))
    ensures port.timeouts == old(port.timeouts) + (if stop.MissedNine? || stop.MissedEleven? then 1 else 0)
    ensures unchanged(port`current_mode, port`current_channel, port`current_phase, port`hazards)
    ensures port.cable.lines.nSelectIn == old(port.cable).lines.nSelectIn
    ensures SenderReady(ByteMode, old(port.device), old(port.cable)) ==>
              Transferred(old(port.device), port.device, port.cable, Tagged(true, buffer[..count]),
                          if count < buffer.Length then buffer[count] else 0, stop)
    ensures SawPulses(old(port.device), old(port.cable), port.device, port.cable, count)
  {
    ghost var d0, w0 := port.device, port.cable;
    ghost var good := SenderReady(ByteMode, d0, w0);
    count := 0;
    while count < len
      invariant count <= len && buffer[count..] == old(buffer[count..])
      invariant unchanged(port`current_mode, port`current_channel, port`current_phase, port`hazards, port`timeouts)
      invariant port.cable.lines.nSelectIn == old(port.cable).lines.nSelectIn
      invariant good ==> Resting(ByteMode, d0, port.device, port.cable, Tagged(true, buffer[..count]))
      invariant SawPulses(d0, w0, port.device, port.cable, count)
      invariant old(port.looks) <= port.looks
      invariant count == 0 ==> port.looks == old(port.looks) && port.cable.reversed == old(port.cable).reversed
      invariant count > 0 ==>
                  && port.cable.reversed && old(port.looks) < port.looks
                  && !port.looks[|old(port.looks)|].status.pError
    {
      ghost var d, w := port.device, port.cable;
      ghost var before, got := buffer[..], buffer[..count];
      var how := NextByte(port, buffer, count, d0, got);
      PulsesTwice(d0, w0, d, w, port.device, port.cable, count, if how.Full? then 1 else 0);
      SliceUpdate(before, buffer[..], count);
      assert buffer[..count] == got && buffer[..count + 1] == got + [buffer[count]];
      assert buffer[count + 1..] == buffer[..][count + 1..] == before[count + 1..] == old(buffer[count + 1..]);
      if !how.Full? {
        return count, how;
      }
      count := count + 1;
    }
    stop := Full;
  }
}
