/** ECP reverse transfer with RLE expansion: default_ecp_read_data. */
module EcpRead {
  import opened Signals
  import opened Devices
  import opened Handshakes
  import opened Ports
  import opened EcpDirection
  import opened Rle

  /** A sender that still conforms did so before, and an item that was on offer still is. */
  ghost predicate Stands(d0: Device, w0: Wires, d: Device, w: Wires) {
    d.Conforms() ==>
      && d0.Conforms()
      && (EcpReverse.Offering(w0.status) ==>
            EcpReverse.Offering(w.status) && EcpReverse.Offer(w.status, w.din) == EcpReverse.Offer(w0.status, w0.din))
  }

  /** The last poll saw nAck high: nothing is on offer. */
  ghost predicate GivesUp(port: Port)
    reads port
  {
    port.looks != [] && port.Seen() == port.cable.status && port.cable.status.nAck
  }

  /** Event 43: wait for nAck to go low. The source waits for ever; `patience` bounds the
      number of timed-out waits of this run. */
  method AwaitItem(port: Port, patience: nat, ghost base: Device, ghost items: seq<Cell>) returns (ok: bool)
    modifies port
    ensures unchanged(port`current_mode, port`current_channel, port`current_phase, port`hazards)
    ensures port.cable.reversed == old(port.cable).reversed
    ensures SameHost(old(port.cable), port.cable)
    ensures ok <==> !port.cable.status.nAck
    ensures old(port.looks) < port.looks && port.Seen() == port.cable.status
    ensures old(port.timeouts) <= port.timeouts
    ensures if ok then port.timeouts <= old(port.timeouts) + patience
            else port.timeouts == old(port.timeouts) + patience + 1
    ensures Asking(EcpReverse, base, old(port.device), old(port.cable), items) ==>
              if ok then Offered(EcpReverse, base, port.device, port.cable, items,
                                 EcpReverse.Offer(port.cable.status, port.cable.din))
              else Asking(EcpReverse, base, port.device, port.cable, items)
    ensures Asking(EcpReverse, base, old(port.device), old(port.cable), items) ==>
              Stands(old(port.device), old(port.cable), port.device, port.cable)
  {
    ghost var d0, w0 := port.device, port.cable;
    ghost var good := Asking(EcpReverse, base, port.device, port.cable, items);
    var left := patience;
    ghost var d, w := port.device, port.cable;
    var r := port.WaitStatus(S1284_NACK, 0);
    if good { AskWait(EcpReverse, base, d, w, port.device, port.cable, NACK_LINE, NO_LINE, r == E1284_OK, items); }
    while r != E1284_OK && left > 0
      invariant unchanged(port`current_mode, port`current_channel, port`current_phase, port`hazards)
      invariant port.cable.reversed == old(port.cable).reversed
      invariant SameHost(w0, port.cable)
      invariant r == E1284_OK <==> !port.cable.status.nAck
      invariant r == E1284_OK || r == E1284_TIMEDOUT
      invariant 0 <= left <= patience
      invariant port.timeouts == old(port.timeouts) + patience - left + (if r == E1284_OK then 0 else 1)
      invariant old(port.looks) < port.looks && port.Seen() == port.cable.status
      invariant good ==> Asking(EcpReverse, base, port.device, port.cable, items)
      invariant good ==> Stands(d0, w0, port.device, port.cable)
      invariant good && r == E1284_OK ==> Offered(EcpReverse, base, port.device, port.cable, items,
                                                  EcpReverse.Offer(port.cable.status, port.cable.din))
      decreases left
    {
      d, w := port.device, port.cable;
      r := port.WaitStatus(S1284_NACK, 0);
      if good { AskWait(EcpReverse, base, d, w, port.device, port.cable, NACK_LINE, NO_LINE, r == E1284_OK, items); }
      left := left - 1;
    }
    ok := r == E1284_OK;
  }

  /** Look at what is offered. After a run count the next item is data, whatever Busy says. The
      byte is that of the peripheral if the data drivers are off. */
  method FetchItem(port: Port, rle: bool, ghost base: Device, ghost items: seq<Cell>, ghost offer: Cell)
    returns (command: bool, datum: byte, ghost item: Cell)
    modifies port
    ensures unchanged(port`current_mode, port`current_channel, port`current_phase, port`hazards, port`timeouts)
    ensures port.cable.reversed == old(port.cable).reversed
    ensures SameHost(old(port.cable), port.cable)
    ensures item.byte == datum == port.cable.Data() && item.driven
    ensures if rle then !command && item.tag == offer.tag else command == !item.tag
    ensures !rle ==> command == !port.Seen().busy
    ensures Offered(EcpReverse, base, old(port.device), old(port.cable), items, offer) && old(port.cable).reversed ==>
              && Offered(EcpReverse, base, port.device, port.cable, items, item)
              && (port.device.Conforms() ==> old(port.device).Conforms() && item == offer)
  {
    ghost var d0, w0 := port.device, port.cable;
    ghost var good := Offered(EcpReverse, base, d0, w0, items, offer) && w0.reversed;
    command := false;
    if !rle {
      var s := port.ReadStatus();
      if good { OfferHeld(EcpReverse, base, d0, w0, port.cable, items, offer); }
      command := !s.busy;
    }
    ghost var d1, w1 := port.device, port.cable;
    datum := port.ReadData();
    if good { OfferHeld(EcpReverse, base, d1, w1, port.cable, items, offer); }
    item := Cell(if rle then offer.tag else !command, datum);
  }

  /** Events 44 to 46: raise HostAck and wait for nAck to go high; then lower HostAck. */
  method AcceptItem(port: Port, ghost base: Device, ghost items: seq<Cell>, ghost item: Cell) returns (r: int)
    modifies port
    ensures unchanged(port`current_mode, port`current_channel, port`current_phase, port`hazards)
    ensures port.cable.reversed == old(port.cable).reversed
    ensures r == E1284_OK || r == E1284_TIMEDOUT
    ensures port.timeouts == old(port.timeouts) + (if r == E1284_OK then 0 else 1)
    ensures port.cable.dout == old(port.cable).dout
    ensures port.cable.lines == old(port.cable).lines.(nAutoFd := r != E1284_OK)
    ensures Offered(EcpReverse, base, old(port.device), old(port.cable), items, item) ==>
              if r == E1284_OK then Asking(EcpReverse, base, port.device, port.cable, items + [item])
              else Taken(EcpReverse, base, port.device, port.cable, items, item)
    ensures Offered(EcpReverse, base, old(port.device), old(port.cable), items, item) && port.device.Conforms() ==>
              old(port.device).Conforms()
  {
    ghost var d0, w0 := port.device, port.cable;
    ghost var good := Offered(EcpReverse, base, d0, w0, items, item);
    port.FrobControl(C1284_NAUTOFD, C1284_NAUTOFD);
    ghost var d1, w1 := port.device, port.cable;
    if good { Raise(EcpReverse, base, d0, w0, w1, items, item); }
    r := port.WaitStatus(S1284_NACK, S1284_NACK);
    ghost var d2, w2 := port.device, port.cable;
    if good { TakenWait(EcpReverse, base, d1, w1, d2, w2, NACK_LINE, NACK_LINE, r == E1284_OK, items, item); }
    if r == E1284_OK {
      port.FrobControl(C1284_NAUTOFD, 0);
      if good { Lower(EcpReverse, base, d2, w2, port.cable, items + [item]); }
    }
  }

  /** Bring the channel into reverse data phase: false if it cannot be turned. */
  method BeginReverse(port: Port) returns (ok: bool)
    modifies port
    ensures unchanged(port`current_mode, port`current_channel)
    ensures old(port.current_phase) != PH1284_REV_IDLE || old(port.cable).reversed ==> port.hazards == old(port.hazards)
    ensures port.cable.dout == old(port.cable).dout
    ensures port.cable.lines ==
              old(port.cable).lines.(nStrobe := ok || old(port.cable).lines.nStrobe, nAutoFd := false, nInit := false)
    ensures port.current_phase == if ok then PH1284_REV_DATA else PH1284_ECP_DIR_UNKNOWN
    ensures !ok ==> old(port.current_phase) != PH1284_REV_IDLE
    ensures port.timeouts == old(port.timeouts) + (if ok then 0 else 1)
    ensures port.cable.reversed == (old(port.current_phase) != PH1284_REV_IDLE || old(port.cable).reversed)
    ensures SenderReady(EcpReverse, old(port.device), old(port.cable)) ==>
              Keeps(EcpReverse, old(port.device), old(port.cable), port.device, port.cable)
  {
    ghost var d0, w0 := port.device, port.cable;
    ghost var turned := port.current_phase != PH1284_REV_IDLE;
    if port.current_phase != PH1284_REV_IDLE {
      var r := FwdToRev(port);
      if r != E1284_OK {
        return false;
      }
    }
    port.current_phase := PH1284_REV_DATA;
    ghost var d1, w1 := port.device, port.cable;
    port.FrobControl(C1284_NAUTOFD | C1284_NSTROBE | C1284_NINIT, C1284_NSTROBE);
    if SenderReady(EcpReverse, d0, w0) {
      if turned {
        KeepsDrive(EcpReverse, d0, w0, d1, w1, port.cable);
      } else {
        KeepsLower(EcpReverse, d0, w0, port.cable);
      }
    }
    return true;
  }

  /** How a read ends: the channel could not be turned; the buffer is full; a channel command
      or a run that does not fit is next; an acknowledged item was not withdrawn in time
      (event 45); or the run was cut short in the unbounded wait for an item. */
  datatype ReadStop = NotTurned | Full | ChannelCommand | RunTooLong | NotWithdrawn | StillWaiting

  /** What the sender has handed over when the host has accepted `items`; the last item it
      looked at is `item`. A command that the host does not want is still on offer. */
  ghost predicate HandedOver(d0: Device, d: Device, w: Wires, items: seq<Cell>, item: Cell, stop: ReadStop) {
    match stop
    case ChannelCommand => Offered(EcpReverse, d0, d, w, items, item)
    case RunTooLong => Offered(EcpReverse, d0, d, w, items, item)
    case NotWithdrawn => Taken(EcpReverse, d0, d, w, items, item)
    case _ => Asking(EcpReverse, d0, d, w, items)
  }

  /** Why the host did not accept `item` although there is room for some bytes more. */
  ghost predicate Justified(stop: ReadStop, item: Cell, pending: nat, room: int) {
    && (stop.ChannelCommand? ==> pending == 0 && !item.tag && item.byte >= 0x80)
    && (stop.RunTooLong? ==> pending == 0 && !item.tag && item.byte < 0x80 && item.byte + 1 > room)
  }

  /** One item of the loop: Full when it was accepted. */
  method NextItem(port: Port, rle: bool, room: nat, patience: nat, ghost base: Device, ghost items: seq<Cell>)
    returns (stop: ReadStop, command: bool, datum: byte, ghost item: Cell)
    requires !port.cable.lines.nAutoFd
    modifies port
    ensures unchanged(port`current_mode, port`current_channel, port`current_phase, port`hazards)
    ensures port.cable.reversed == old(port.cable).reversed
    ensures port.cable.dout == old(port.cable).dout
    ensures port.cable.lines == old(port.cable).lines.(nAutoFd := stop.NotWithdrawn?)
    ensures !stop.NotTurned? && port.timeouts >= old(port.timeouts)
    ensures stop.NotWithdrawn? ==> port.timeouts > old(port.timeouts)
    ensures port.timeouts <= old(port.timeouts) + patience + (if stop.NotWithdrawn? || stop.StillWaiting? then 1 else 0)
    ensures stop.StillWaiting? ==> port.timeouts == old(port.timeouts) + patience + 1 && GivesUp(port)
    ensures item.byte == datum && (if rle then !command else command == !item.tag)
    ensures Justified(stop, item, if rle then 1 else 0, room)
    ensures stop.Full? && command ==> datum < 0x80 && datum + 1 <= room
    ensures !stop.StillWaiting? && !old(port.cable).reversed ==> datum == old(port.cable).dout
    ensures Asking(EcpReverse, base, old(port.device), old(port.cable), items) && old(port.cable).reversed ==>
              HandedOver(base, port.device, port.cable, if stop.Full? then items + [item] else items, item, stop)
    ensures
      && Asking(EcpReverse, base, old(port.device), old(port.cable), items) && old(port.cable).reversed
      && port.device.Conforms() ==>
              && old(port.device).Conforms()
              && (EcpReverse.Offering(old(port.cable).status) ==>
                    !stop.StillWaiting? && item == EcpReverse.Offer(old(port.cable).status, old(port.cable).din))
  {
    ghost var good := Asking(EcpReverse, base, port.device, port.cable, items);
    var ok := AwaitItem(port, patience, base, items);
    if !ok {
      return StillWaiting, false, 0, Cell(true, 0);
    }
    command, datum, item := FetchItem(port, rle, base, items, EcpReverse.Offer(port.cable.status, port.cable.din));
    if command {
      if datum >= 0x80 {
        return ChannelCommand, command, datum, item;
      }
      if datum + 1 > room {
        return RunTooLong, command, datum, item;
      }
    }
    var r := AcceptItem(port, base, items, item);
    stop := if r == E1284_OK then Full else NotWithdrawn;
  }

  /** The buffer starts with what the accepted items decode to and is otherwise as it was;
      rle says whether a run of rle_count bytes, for which there is room, is to follow. */
  ghost predicate Progress(buffer: seq<byte>, before: seq<byte>, items: seq<Cell>, count: nat, len: nat,
                           rle: bool, rle_count: nat)
  {
    && count <= len <= |before| && |Decode(items).out| == count
    && buffer == Decode(items).out + before[count..]
    && Decode(items).pending == (if rle then rle_count else 0)
    && (rle ==> 1 <= rle_count <= len - count)
  }

  /** No channel command was accepted, and no run that did not fit when its count was read. */
  ghost predicate Acceptable(items: seq<Cell>, len: nat) {
    items == [] ||
    var n := |items| - 1;
    && Acceptable(items[..n], len)
    && (Decode(items[..n]).pending == 0 && !items[n].tag ==>
          items[n].byte < 0x80 && |Decode(items[..n]).out| + items[n].byte + 1 <= len)
  }

  lemma AcceptableAppend(items: seq<Cell>, item: Cell, len: nat)
    requires Acceptable(items, len)
    requires Decode(items).pending == 0 && !item.tag ==>
               item.byte < 0x80 && |Decode(items).out| + item.byte + 1 <= len
    ensures Acceptable(items + [item], len)
  {
    assert (items + [item])[..|items|] == items;
  }

  lemma {:induction false} FirstAcceptable(items: seq<Cell>, len: nat)
    requires Acceptable(items, len) && items != [] && !items[0].tag
    ensures items[0].byte < 0x80 && items[0].byte + 1 <= len
    decreases |items|
  {
    if |items| == 1 {
      assert items[..0] == [];
    } else {
      FirstAcceptable(items[..|items| - 1], len);
    }
  }

  /** Make use of an accepted item: remember a run count, expand a run, or store a byte. */
  method Store(buffer: array<byte>, count: nat, len: nat, rle: bool, rle_count: nat, command: bool, datum: byte,
               ghost before: seq<byte>, ghost items: seq<Cell>, ghost item: Cell)
    returns (count': nat, rle': bool, rle_count': nat)
    requires Progress(buffer[..], before, items, count, len, rle, rle_count) && count < len && len <= buffer.Length
    requires item.byte == datum && (if rle then !command else command == !item.tag)
    requires command ==> datum < 0x80 && datum + 1 <= len - count
    requires Acceptable(items, len)
    modifies buffer
    ensures Progress(buffer[..], before, items + [item], count', len, rle', rle_count')
    ensures Acceptable(items + [item], len)
    ensures count' > count || (count' == count && rle' && !rle)
  {
    AcceptableAppend(items, item, len);
    DecodeAppend(items, item);
    count', rle', rle_count' := count, rle, rle_count;
    if command {
      rle', rle_count' := true, datum + 1;
      return;
    }
    var n := if rle then rle_count else 1;
    rle' := false;
    forall j | count <= j < count + n {
      buffer[j] := datum;
    }
    assert Repeat(datum, 1) == [datum];
    assert Decode(items + [item]).out == Decode(items).out + Repeat(datum, n);
    count' := count + n;
  }

  /** Every item has the byte of the host's own data register. */
  ghost predicate Echoes(items: seq<Cell>, dout: byte) {
    forall i :: 0 <= i < |items| ==> items[i].byte == dout
  }

  /** What has become of a sender since (d0, w0): if it still conforms it did so then, and an
      item that was on offer then was the first of those accepted since. */
  ghost predicate Since(d0: Device, w0: Wires, d: Device, w: Wires, base: Device, items: seq<Cell>) {
    && Asking(EcpReverse, base, d, w, items)
    && (items == [] ==> d == d0 && w == w0)
    && (items != [] && d.Conforms() ==>
          && d0.Conforms()
          && (EcpReverse.Offering(w0.status) ==> items[0] == EcpReverse.Offer(w0.status, w0.din)))
  }

  lemma SinceNext(d0: Device, w0: Wires, d1: Device, w1: Wires, d: Device, w: Wires, base: Device,
                  items: seq<Cell>, item: Cell)
    requires Since(d0, w0, d1, w1, base, items) && Asking(EcpReverse, base, d, w, items + [item])
    requires d.Conforms() ==>
               && d1.Conforms()
               && (EcpReverse.Offering(w1.status) ==> item == EcpReverse.Offer(w1.status, w1.din))
    ensures Since(d0, w0, d, w, base, items + [item])
  {
  }

  /** The loop of the source. */
  method ReadItems(port: Port, buffer: array<byte>, len: nat, patience: nat, ghost base: Device)
    returns (count: nat, stop: ReadStop, ghost items: seq<Cell>, ghost item: Cell)
    requires len <= buffer.Length && !port.cable.lines.nAutoFd
    modifies port, buffer
    ensures count <= len && !stop.NotTurned?
    ensures unchanged(port`current_mode, port`current_channel, port`current_phase, port`hazards)
    ensures port.cable.reversed == old(port.cable).reversed
    ensures port.cable.dout == old(port.cable).dout
    ensures port.cable.lines == old(port.cable).lines.(nAutoFd := stop.NotWithdrawn?)
    ensures port.timeouts >= old(port.timeouts)
    ensures stop.NotWithdrawn? ==> port.timeouts > old(port.timeouts)
    ensures stop.StillWaiting? ==> port.timeouts > old(port.timeouts) + patience && GivesUp(port)
    ensures |Decode(items).out| == count && buffer[..] == Decode(items).out + old(buffer[..])[count..]
    ensures Decode(items).pending <= len - count
    ensures stop.Full? ==> count == len
    ensures Acceptable(items, len) && Justified(stop, item, Decode(items).pending, len - count)
    ensures !old(port.cable).reversed ==> Echoes(items, old(port.cable).dout)
    ensures Asking(EcpReverse, base, old(port.device), old(port.cable), []) && old(port.cable).reversed ==>
              HandedOver(base, port.device, port.cable, items, item, stop)
    ensures
      && Asking(EcpReverse, base, old(port.device), old(port.cable), []) && old(port.cable).reversed
      && port.device.Conforms() ==>
              && old(port.device).Conforms()
              && (EcpReverse.Offering(old(port.cable).status) && len > 0 ==>
                    && (stop.StillWaiting? ==> items != [])
                    && (items + [item])[0] == EcpReverse.Offer(old(port.cable).status, old(port.cable).din))
  {
    ghost var d0, w0 := port.device, port.cable;
    ghost var good := Asking(EcpReverse, base, d0, w0, []) && w0.reversed;
    var rle, rle_count: nat := false, 0;
    ghost var before := buffer[..];
    count, stop, items, item := 0, Full, [], Cell(true, 0);
    while count < len
      invariant stop.Full? && Progress(buffer[..], before, items, count, len, rle, rle_count)
      invariant Acceptable(items, len)
      invariant unchanged(port`current_mode, port`current_channel, port`current_phase, port`hazards)
      invariant port.cable.reversed == old(port.cable).reversed
      invariant port.cable.dout == old(port.cable).dout && port.cable.lines == old(port.cable).lines
      invariant port.timeouts >= old(port.timeouts)
      invariant !w0.reversed ==> Echoes(items, w0.dout)
      invariant good ==> Since(d0, w0, port.device, port.cable, base, items)
      invariant items == [] ==> count == 0
      decreases len - count, !rle
    {
      ghost var d1, w1 := port.device, port.cable;
      var command, datum;
      stop, command, datum, item := NextItem(port, rle, len - count, patience, base, items);
      if !stop.Full? {
        return;
      }
      count, rle, rle_count := Store(buffer, count, len, rle, rle_count, command, datum, before, items, item);
      if good { SinceNext(d0, w0, d1, w1, port.device, port.cable, base, items, item); }
      items := items + [item];
    }
  }

  /** The data drivers will be off: the channel is still to be turned, or they are off. */
  ghost predicate Hears(port: Port)
    reads port
  {
    port.current_phase != PH1284_REV_IDLE || port.cable.reversed
  }

  /** Read up to len bytes. The buffer receives exactly the decoding of the items that were
      accepted, and every read that is not cut short by a timeout ends on an item boundary. An
      item that is on offer when the call begins, as the last call may have left it, is the
      first one that the call looks at. A read in reverse idle phase with the drivers on hears
      nothing but the host's own data register. */
  method Read(port: Port, buffer: array<byte>, len: nat, patience: nat)
    returns (count: nat, ghost stop: ReadStop, ghost items: seq<Cell>, ghost item: Cell)
    requires len <= buffer.Length
    modifies port, buffer
    ensures count <= len && buffer[count..] == old(buffer[count..])
    ensures unchanged(port`current_mode, port`current_channel)
    ensures old(Hears(port)) ==> port.hazards == old(port.hazards)
    ensures port.cable.dout == old(port.cable).dout
    ensures port.cable.lines == Lines(!stop.NotTurned? || old(port.cable).lines.nStrobe, stop.NotWithdrawn?, false,
                                      old(port.cable).lines.nSelectIn)
    ensures port.cable.reversed == old(Hears(port))
    ensures port.current_phase == match stop
                                  case NotTurned => PH1284_ECP_DIR_UNKNOWN
                                  case StillWaiting => PH1284_REV_DATA
                                  case _ => PH1284_REV_IDLE
    ensures stop.NotTurned? ==> count == 0 && items == [] && old(port.current_phase) != PH1284_REV_IDLE
    ensures stop.Full? ==> count == len
    ensures port.timeouts >= old(port.timeouts)
    ensures stop.NotWithdrawn? || stop.NotTurned? ==> port.timeouts > old(port.timeouts)
    ensures stop.StillWaiting? ==> port.timeouts > old(port.timeouts) + patience && GivesUp(port)
    ensures Decode(items).out == buffer[..count]
    ensures !stop.NotWithdrawn? && !stop.StillWaiting? ==> Decode(items).pending == 0
    ensures Acceptable(items, len) && Justified(stop, item, Decode(items).pending, len - count)
    ensures !old(Hears(port)) ==> Echoes(items, old(port.cable).dout)
    ensures SenderReady(EcpReverse, old(port.device), old(port.cable)) && old(Hears(port)) ==>
              HandedOver(old(port.device), port.device, port.cable, items, item, stop)
    ensures
      && SenderReady(EcpReverse, old(port.device), old(port.cable)) && old(Hears(port)) && port.device.Conforms()
      && EcpReverse.Offering(old(port.cable).status)
      && len > 0 && !stop.NotTurned? ==>
        && (stop.StillWaiting? ==> items != [])
        && (items + [item])[0] == EcpReverse.Offer(old(port.cable).status, old(port.cable).din)
  {
    ghost var d0 := port.device;
    var ok := BeginReverse(port);
    if !ok {
      return 0, NotTurned, [], Cell(true, 0);
    }
    var how;
    ghost var before := buffer[..];
    count, how, items, item := ReadItems(port, buffer, len, patience, d0);
    assert buffer[..count] == buffer[..][..count] && buffer[count..] == buffer[..][count..];
    assert old(buffer[count..]) == before[count..];
    if !how.StillWaiting? {
      port.current_phase := PH1284_REV_IDLE;
    }
    stop := how;
  }

  /** Items from the stream of a split that decode to as much as fits decode to the string. */
  lemma WholeString(split: seq<Chunk>, items: seq<Cell>, item: Cell, out: seq<byte>, stop: ReadStop)
    requires ValidSplit(split) && items <= Encode(split)
    requires stop.Full? || stop.ChannelCommand? || stop.RunTooLong?
    requires !stop.Full? ==> items + [item] <= Encode(split)
    requires Decode(items) == Decoded(out, 0) && Justified(stop, item, 0, |Flatten(split)| - |out|)
    requires |out| <= |Flatten(split)| && (stop.Full? ==> |out| == |Flatten(split)|)
    ensures stop.Full? && out == Flatten(split)
  {
    var k := Boundary(split, items);
    RoundTrip(split[..k]);
    Prefixes(split, k);
    assert split[..|split|] == split;
    if !stop.Full? {
      assert item == (items + [item])[|items|];
      NextChunk(split, k);
      assert false;
    }
  }

  /** What the sender has handed over, and what it has on offer. */
  ghost function Shown(d: Device, w: Wires): seq<Cell>
    requires d.Sending?
  {
    d.sender.sent + if EcpReverse.Offering(w.status) then [EcpReverse.Offer(w.status, w.din)] else []
  }

  lemma CancelPrefix(front: seq<Cell>, a: seq<Cell>, b: seq<Cell>)
    requires front + a <= front + b
    ensures a <= b && (front + a == front + b ==> a == b)
  {
    assert a == (front + a)[|front|..] && b == (front + b)[|front|..];
  }

  /** Round trip through the channel: when a conforming sender sends the stream of any split of
      a string into literals and runs, a read for exactly the length of the string that no
      timeout cuts short fills the buffer with it. */
  method ReadWhole(port: Port, buffer: array<byte>, len: nat, patience: nat, ghost split: seq<Chunk>)
    returns (count: nat, ghost stop: ReadStop)
    requires ValidSplit(split) && len == |Flatten(split)| && len <= buffer.Length
    modifies port, buffer
    ensures SenderReady(EcpReverse, old(port.device), old(port.cable)) && old(Hears(port)) ==> port.device.Sending?
    ensures
      && SenderReady(EcpReverse, old(port.device), old(port.cable)) && old(Hears(port)) && port.device.Conforms()
      && Shown(port.device, port.cable) <= old(port.device).sender.sent + Encode(split)
      && !stop.NotTurned? && !stop.NotWithdrawn? && !stop.StillWaiting? ==>
        stop.Full? && count == len && buffer[..len] == Flatten(split)
  {
    ghost var d0, w0 := port.device, port.cable;
    ghost var items, item;
    count, stop, items, item := Read(port, buffer, len, patience);
    if && SenderReady(EcpReverse, d0, w0) && old(Hears(port)) && port.device.Conforms()
       && Shown(port.device, port.cable) <= d0.sender.sent + Encode(split)
       && !stop.NotTurned? && !stop.NotWithdrawn? && !stop.StillWaiting?
    {
      assert d0.sender.sent + items <= d0.sender.sent + Encode(split);
      CancelPrefix(d0.sender.sent, items, Encode(split));
      if !stop.Full? {
        assert d0.sender.sent + items + [item] == d0.sender.sent + (items + [item]);
        CancelPrefix(d0.sender.sent, items + [item], Encode(split));
      }
      WholeString(split, items, item, buffer[..count], stop);
    }
  }
}
