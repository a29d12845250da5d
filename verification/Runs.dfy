/** Whole runs: any finite sequence of calls on one port, against any peripheral. */
module Runs {
  import opened Signals
  import opened Devices
  import opened Handshakes
  import opened Ports
  import opened EcpDirection
  import opened Negotiation
  import opened Rle
  import Nibble
  import Compat
  import ByteTransfer
  import Epp
  import EcpRead
  import EcpWrite

  datatype Op =
    | DoNegotiate(mode: int)
    | DoTerminate
    | DoFwdToRev
    | DoRevToFwd
    | DoEcpRead(len: nat)
    | DoEcpWrite(bytes: seq<byte>, command: bool)
    | DoNibbleRead(len: nat)
    | DoByteRead(len: nat)
    | DoCompatWrite(bytes: seq<byte>)
    | DoEppRead(len: nat)
    | DoEppWrite(bytes: seq<byte>)

  // ---------------------------------------------------------------- mode and nSelectIn

  /** nSelectIn is high exactly outside compatibility mode. */
  ghost predicate Agrees(port: Port)
    reads port
  {
    port.cable.lines.nSelectIn <==> port.current_mode != M1284_COMPAT
  }

  /** Transfers that drive nSelectIn without looking at the mode keep the agreement only
      when called in the right one. */
  predicate InItsMode(op: Op, mode: int) {
    match op
    case DoNibbleRead(_) => mode != M1284_COMPAT
    case DoCompatWrite(_) => mode == M1284_COMPAT
    case DoEppRead(_) => mode == M1284_COMPAT
    case DoEppWrite(_) => mode != M1284_COMPAT
    case _ => true
  }

  /** The data drivers are off only where the channel is, or may be, turned round. */
  ghost predicate DriversSafe(port: Port)
    reads port
  {
    port.cable.reversed ==> MayBeReverse(port.current_phase)
  }

  predicate MayBeReverse(phase: Phase) {
    phase == PH1284_REV_IDLE || phase == PH1284_REV_DATA || phase == PH1284_ECP_DIR_UNKNOWN
  }

  /** Only these calls may leave the drivers off elsewhere: a byte-mode read never switches them
      on again, and a negotiation that enters ECP leaves the direction as it is. */
  predicate MayLeaveOff(op: Op, mode: int, reversed: bool) {
    op.DoByteRead? || (op.DoNegotiate? && IsEcp(op.mode) && op.mode != mode && reversed)
  }

  /** One call. */
  method Call(port: Port, op: Op, patience: nat)
    modifies port
    ensures old(Agrees(port)) && InItsMode(op, old(port.current_mode)) ==> Agrees(port)
    ensures op.DoTerminate? ==> Agrees(port)
    ensures op.DoEppRead? ==> (Agrees(port) <==> old(port.current_mode) == M1284_COMPAT)
    ensures op.DoEppWrite? ==> (Agrees(port) <==> old(port.current_mode) != M1284_COMPAT)
    ensures old(DriversSafe(port)) && !MayLeaveOff(op, old(port.current_mode), old(port.cable).reversed) ==>
              DriversSafe(port)
    ensures op.DoNegotiate? && MayLeaveOff(op, old(port.current_mode), old(port.cable).reversed) ==>
              (old(DriversSafe(port)) ==> (DriversSafe(port) <==> port.current_mode != op.mode))
    ensures op.DoByteRead? && old(DriversSafe(port)) && !MayBeReverse(old(port.current_phase)) ==>
              && (op.len > 0 ==> old(port.looks) < port.looks)
              && (DriversSafe(port) <==> op.len == 0 || port.looks[|old(port.looks)|].status.pError)
  {
    match op
    case DoNegotiate(mode) =>
      var ret; ghost var edge;
      ret, edge := Negotiate(port, mode);
    case DoTerminate =>
      Terminate(port);
    case DoFwdToRev =>
      var _ := FwdToRev(port);
    case DoRevToFwd =>
      var _ := RevToFwd(port);
    case DoEcpRead(len) =>
      var buffer := new byte[len];
      var count; ghost var stop, items, item;
      count, stop, items, item := EcpRead.Read(port, buffer, len, patience);
    case DoEcpWrite(bytes, command) =>
      var written; ghost var stop, edges, recoveries;
      written, stop, edges, recoveries := EcpWrite.Write(port, bytes, command, patience);
    case DoNibbleRead(len) =>
      var buffer := new byte[len];
      var ret; ghost var bytes, stop, checks;
      ret, bytes, stop, checks := Nibble.NibbleRead(port, buffer, 0, len);
    case DoByteRead(len) =>
      var buffer := new byte[len];
      var count; ghost var stop;
      count, stop := ByteTransfer.Read(port, buffer, len);
    case DoCompatWrite(bytes) =>
      var ret; ghost var edges;
      ret, edges := Compat.CompatWrite(port, bytes);
    case DoEppRead(len) =>
      var buffer := new byte[len];
      var count; ghost var stop;
      count, stop := Epp.Read(port, buffer, len);
    case DoEppWrite(bytes) =>
      var ret; ghost var stop;
      ret, stop := Epp.Write(port, bytes);
  }

  /** After every run from a terminated port, whatever its calls return, the mode and
      nSelectIn agree, as long as each transfer is made in its mode. */
  method ModeRun(port: Port, ops: seq<Op>, patience: nat)
    modifies port
    ensures Agrees(port)
  {
    Terminate(port);
    for i := 0 to |ops|
      invariant Agrees(port)
    {
      if InItsMode(ops[i], port.current_mode) {
        Call(port, ops[i], patience);
      }
    }
  }

  // ---------------------------------------------------------------- direction of the drivers

  /** Over every run without byte-mode reads that negotiates ECP only with the drivers on, the
      drivers are off only in reverse phase or after a failed turn; so in forward idle phase
      they are on, as ECP writes need them. */
  method DirectionRun(port: Port, ops: seq<Op>, patience: nat)
    requires DriversSafe(port)
    modifies port
    ensures DriversSafe(port)
    ensures port.current_phase == PH1284_FWD_IDLE ==> !port.cable.reversed
  {
    for i := 0 to |ops|
      invariant DriversSafe(port)
    {
      if !MayLeaveOff(ops[i], port.current_mode, port.cable.reversed) {
        Call(port, ops[i], patience);
      }
    }
  }

  /** A visit to byte mode that read something leaves the data drivers off. */
  method VisitByteMode(port: Port, len: nat) returns (count: nat)
    requires port.current_phase != PH1284_REV_IDLE
    modifies port
    ensures count > 0 ==>
              && port.current_mode == M1284_COMPAT && port.current_phase == old(port.current_phase)
              && port.cable.reversed && port.cable.lines.nStrobe
  {
    var ret; ghost var edge, stop;
    ret, edge := Negotiate(port, M1284_BYTE);
    if ret != E1284_OK {
      return 0;
    }
    var buffer := new byte[len];
    count, stop := ByteTransfer.Read(port, buffer, len);
    Terminate(port);
  }

  /** After that a printer does not get the buffer: it latches the peripheral's own levels. */
  method ByteThenCompat(port: Port, len: nat, buffer: seq<byte>)
    returns (count: nat, ret: nat, ghost between: Device, ghost edges: seq<Wires>)
    requires port.current_phase != PH1284_REV_IDLE
    modifies port
    ensures count > 0 && between.Printing? ==>
              && |edges| == ret <= |buffer| && Printed(between, port.device, port.cable, OnLines(edges))
              && forall i :: 0 <= i < ret ==> edges[i].dout == buffer[i] && OnLines(edges)[i] == edges[i].din
  {
    count := VisitByteMode(port, len);
    between := port.device;
    ret, edges := Compat.CompatWrite(port, buffer);
  }

  /** Nor does the peripheral see the request when ECP is negotiated; and if it agrees all the
      same, no byte that it takes in an ECP write was driven by the host. */
  method ByteThenEcp(port: Port, len: nat, buffer: seq<byte>, patience: nat)
    returns (count: nat, ret: int, written: nat, ghost between: Device, ghost start: Wires, ghost edge: Wires,
             ghost stop: EcpWrite.WriteStop, ghost edges: seq<Wires>)
    requires port.current_phase != PH1284_REV_IDLE
    modifies port
    ensures count > 0 ==> edge.dout == RequestByte(M1284_ECP) && edge.Data() == edge.din
    ensures count > 0 && ret == E1284_OK ==> port.cable.reversed && !stop.NotTurned?
    ensures count > 0 && ret == E1284_OK && ReceiverReady(HostClk, between, start) ==>
              EcpWrite.Delivered(between, port.device, port.cable, GivenAll(true, true, buffer), buffer, written, stop,
                                 edges)
  {
    count := VisitByteMode(port, len);
    ret, edge := Negotiate(port, M1284_ECP);
    between, start := port.device, port.cable;
    written, stop, edges := 0, EcpWrite.NotTurned, [];
    if ret == E1284_OK {
      ghost var recoveries;
      written, stop, edges, recoveries := EcpWrite.Write(port, buffer, false, patience);
    }
  }

  // ---------------------------------------------------------------- ECP phases

  /** No reverse data phase outside a read; in reverse idle phase the data drivers are off
      and nInit is low. */
  ghost predicate PhaseSafe(port: Port)
    reads port
  {
    && port.current_phase != PH1284_REV_DATA
    && (port.current_phase == PH1284_REV_IDLE ==> port.cable.reversed && !port.cable.lines.nInit)
  }

  predicate IsEcpOp(op: Op) {
    op.DoNegotiate? || op.DoTerminate? || op.DoFwdToRev? || op.DoRevToFwd? || op.DoEcpRead? || op.DoEcpWrite?
  }

  /** Negotiating a mode other than ECP from reverse idle phase is the one thing not allowed:
      it would raise nInit and leave the phase. */
  predicate MayNegotiate(op: Op, mode: int, phase: Phase) {
    op.DoNegotiate? && phase == PH1284_REV_IDLE ==> op.mode == mode || op.mode == M1284_COMPAT || IsEcp(op.mode)
  }

  /** One call. From a safe state none drops nSelectIn in reverse idle phase or asks for the
      reverse direction with the data drivers on. */
  method EcpCall(port: Port, op: Op, patience: nat) returns (stuck: bool)
    requires IsEcpOp(op)
    modifies port
    ensures old(PhaseSafe(port)) ==> port.hazards == old(port.hazards)
    ensures old(PhaseSafe(port)) && MayNegotiate(op, old(port.current_mode), old(port.current_phase)) && !stuck ==>
              PhaseSafe(port)
    ensures stuck ==> op.DoEcpRead? || op.DoEcpWrite?
  {
    stuck := false;
    match op
    case DoNegotiate(mode) =>
      var ret; ghost var edge;
      ret, edge := Negotiate(port, mode);
    case DoTerminate =>
      Terminate(port);
    case DoFwdToRev =>
      var _ := FwdToRev(port);
    case DoRevToFwd =>
      var _ := RevToFwd(port);
    case DoEcpRead(len) =>
      var buffer := new byte[len];
      var count; ghost var stop, items, item;
      count, stop, items, item := EcpRead.Read(port, buffer, len, patience);
      stuck := port.current_phase == PH1284_REV_DATA;
    case DoEcpWrite(bytes, command) =>
      var written; ghost var stop, edges, recoveries;
      written, stop, edges, recoveries := EcpWrite.Write(port, bytes, command, patience);
      stuck := port.current_phase == PH1284_FWD_DATA;
    case _ =>
  }

  /** Over every run of negotiations, terminations and ECP operations. A run ends in the
      call, if any, that would still be waiting. */
  method EcpRun(port: Port, ops: seq<Op>, patience: nat) returns (stuck: bool)
    requires PhaseSafe(port)
    requires forall i :: 0 <= i < |ops| ==> IsEcpOp(ops[i])
    modifies port
    ensures port.hazards == old(port.hazards)
    ensures !stuck ==> PhaseSafe(port)
  {
    stuck := false;
    var i := 0;
    while i < |ops| && !stuck
      invariant port.hazards == old(port.hazards)
      invariant !stuck ==> PhaseSafe(port)
    {
      if MayNegotiate(ops[i], port.current_mode, port.current_phase) {
        stuck := EcpCall(port, ops[i], patience);
      }
      i := i + 1;
    }
  }

  /** What happens when another mode is negotiated from reverse idle phase all the same: the
      phase and the lines still agree exactly if the negotiation failed or was for ECP. */
  method NegotiateFromReverseIdle(port: Port, mode: int) returns (ret: int)
    requires PhaseSafe(port) && port.current_phase == PH1284_REV_IDLE
    requires mode != port.current_mode && mode != M1284_COMPAT
    modifies port
    ensures PhaseSafe(port) <==> ret != E1284_OK || IsEcp(mode)
  {
    ghost var edge;
    ret, edge := Negotiate(port, mode);
  }

  // ---------------------------------------------------------------- series of reads

  lemma Chain(d0: Device, d1: Device, w1: Wires, d2: Device, w2: Wires,
              before: seq<Cell>, items: seq<Cell>, item: Cell, stop: EcpRead.ReadStop)
    requires Asking(EcpReverse, d0, d1, w1, before)
    requires EcpRead.HandedOver(d1, d2, w2, items, item, stop)
    ensures EcpRead.HandedOver(d0, d2, w2, before + items, item, stop)
  {
    if d2.Conforms() {
      assert d0.sender.sent + before + items == d0.sender.sent + (before + items);
    }
  }

  function Sum(counts: seq<nat>): nat {
    if counts == [] then 0 else Sum(counts[..|counts| - 1]) + counts[|counts| - 1]
  }

  /** How the reads of a series ended, each with what it returned. */
  ghost predicate Reads(counts: seq<nat>, stops: seq<EcpRead.ReadStop>, lens: seq<nat>) {
    && |counts| == |stops| <= |lens|
    && forall i :: 0 <= i < |counts| ==> counts[i] <= lens[i] && (stops[i].Full? ==> counts[i] == lens[i])
  }

  lemma ReadsNext(counts: seq<nat>, stops: seq<EcpRead.ReadStop>, lens: seq<nat>, n: nat, stop: EcpRead.ReadStop)
    requires Reads(counts, stops, lens) && |counts| < |lens|
    requires n <= lens[|counts|] && (stop.Full? ==> n == lens[|counts|])
    ensures Reads(counts + [n], stops + [stop], lens) && Sum(counts + [n]) == Sum(counts) + n
  {
    assert (counts + [n])[..|counts|] == counts;
  }

  /** Reads with buffers of any lengths, up to the first that misses event 45 or is still
      waiting: together they return exactly the decoding of the items handed over since the
      first, and every one of them ends on an item boundary. Without a timeout all are made. */
  method ReadSeries(port: Port, lens: seq<nat>, patience: nat)
    returns (out: seq<byte>, whole: bool, ghost items: seq<Cell>,
             ghost counts: seq<nat>, ghost stops: seq<EcpRead.ReadStop>)
    modifies port
    ensures Reads(counts, stops, lens) && |out| == Sum(counts) && (whole ==> |counts| == |lens|)
    ensures port.timeouts >= old(port.timeouts) && (port.timeouts == old(port.timeouts) ==> whole)
    ensures Decode(items).out == out
    ensures whole ==> Decode(items).pending == 0
    ensures SenderReady(EcpReverse, old(port.device), old(port.cable)) && old(EcpRead.Hears(port)) && whole
            && lens != [] ==>
              Asking(EcpReverse, old(port.device), port.device, port.cable, items)
  {
    ghost var d0, w0 := port.device, port.cable;
    ghost var ready := SenderReady(EcpReverse, d0, w0) && EcpRead.Hears(port);
    out, items, whole, counts, stops := [], [], true, [], [];
    var i := 0;
    while i < |lens| && whole
      invariant i == |counts| <= |lens| && Reads(counts, stops, lens) && |out| == Sum(counts)
      invariant port.timeouts >= old(port.timeouts) && (port.timeouts == old(port.timeouts) ==> whole)
      invariant Decode(items).out == out && (whole ==> Decode(items).pending == 0)
      invariant i == 0 ==> unchanged(port) && items == []
      invariant ready ==> EcpRead.Hears(port)
      invariant ready && whole && i > 0 ==> Asking(EcpReverse, d0, port.device, port.cable, items)
    {
      var buffer := new byte[lens[i]];
      ghost var d1, w1 := port.device, port.cable;
      var count;
      ghost var stop, more, item;
      count, stop, more, item := EcpRead.Read(port, buffer, lens[i], patience);
      if ready && i > 0 {
        Chain(d0, d1, w1, port.device, port.cable, items, more, item, stop);
      }
      assert [] + more == more;
      DecodeConcat(items, more);
      out := out + buffer[..count];
      items := items + more;
      ReadsNext(counts, stops, lens, count, stop);
      counts, stops := counts + [count], stops + [stop];
      whole := port.current_phase != PH1284_REV_DATA && !port.cable.lines.nAutoFd;
      i := i + 1;
    }
  }

  /** Reads of any lengths from a conforming sender that sends the stream of a split return the
      string of the split from its beginning, and all of it once all of the stream was sent. */
  method ReadSplit(port: Port, lens: seq<nat>, patience: nat, ghost split: seq<Chunk>)
    returns (out: seq<byte>, whole: bool)
    requires ValidSplit(split) && lens != []
    modifies port
    ensures SenderReady(EcpReverse, old(port.device), old(port.cable)) && old(EcpRead.Hears(port)) && whole ==>
              port.device.Sending?
    ensures
      && SenderReady(EcpReverse, old(port.device), old(port.cable)) && old(EcpRead.Hears(port))
      && port.device.Conforms() && whole
      && port.device.sender.sent <= old(port.device).sender.sent + Encode(split) ==>
        && out <= Flatten(split)
        && (port.device.sender.sent == old(port.device).sender.sent + Encode(split) ==> out == Flatten(split))
  {
    ghost var d0, w0 := port.device, port.cable;
    ghost var items, counts, stops;
    out, whole, items, counts, stops := ReadSeries(port, lens, patience);
    if && SenderReady(EcpReverse, d0, w0) && old(EcpRead.Hears(port)) && port.device.Conforms() && whole
       && port.device.sender.sent <= d0.sender.sent + Encode(split)
    {
      EcpRead.CancelPrefix(d0.sender.sent, items, Encode(split));
      PartRead(split, items);
    }
  }

  /** What one read leaves unacknowledged the next one sees first: a run that now fits is not
      refused again, and a channel command stops every read. */
  method ReadAgain(port: Port, len1: nat, len2: nat, patience: nat)
    returns (count1: nat, count2: nat, ghost stop1: EcpRead.ReadStop, ghost item1: Cell,
             ghost stop2: EcpRead.ReadStop, ghost items2: seq<Cell>, ghost item2: Cell)
    modifies port
    ensures !stop1.NotTurned? && !stop1.StillWaiting? ==> !stop2.NotTurned?
    ensures
      && SenderReady(EcpReverse, old(port.device), old(port.cable)) && old(EcpRead.Hears(port))
      && port.device.Conforms()
      && (stop1.RunTooLong? || stop1.ChannelCommand?) && len2 > 0 ==>
        && (items2 + [item2])[0] == item1 && (stop2.StillWaiting? ==> items2 != [])
        && (stop1.RunTooLong? && item1.byte + 1 <= len2 ==> items2 != [] || stop2.NotWithdrawn?)
        && (stop1.ChannelCommand? ==> count2 == 0 && items2 == [])
  {
    ghost var items1;
    var buffer1, buffer2 := new byte[len1], new byte[len2];
    count1, stop1, items1, item1 := EcpRead.Read(port, buffer1, len1, patience);
    count2, stop2, items2, item2 := EcpRead.Read(port, buffer2, len2, patience);
    if items2 != [] && !items2[0].tag {
      EcpRead.FirstAcceptable(items2, len2);
    }
  }

  // ---------------------------------------------------------------- series of writes

  /** What one write is asked to send: data, or channel addresses. */
  datatype Piece = Piece(command: bool, bytes: seq<byte>)

  function BytesOf(pieces: seq<Piece>): seq<byte> {
    if pieces == [] then [] else BytesOf(pieces[..|pieces| - 1]) + pieces[|pieces| - 1].bytes
  }

  /** What a receiver is to be given for the pieces, each byte tagged data or command. */
  ghost function CellsOf(reversed: bool, pieces: seq<Piece>): (cells: seq<Cell>)
    ensures |cells| == |BytesOf(pieces)|
  {
    if pieces == [] then []
    else
      var last := pieces[|pieces| - 1];
      CellsOf(reversed, pieces[..|pieces| - 1]) + GivenAll(reversed, !last.command, last.bytes)
  }

  lemma SliceConcat<T>(a: seq<T>, b: seq<T>, n: nat)
    requires n <= |b|
    ensures (a + b)[..|a| + n] == a + b[..n]
    ensures n < |b| ==> (a + b)[|a| + n] == b[n]
  {
  }

  /** A write after complete writes is one write of everything. */
  lemma WriteChain(d0: Device, d1: Device, w1: Wires, d2: Device, w2: Wires,
                   cells1: seq<Cell>, bytes1: seq<byte>, edges1: seq<Wires>,
                   cells2: seq<Cell>, bytes2: seq<byte>, edges2: seq<Wires>, written: nat, stop: EcpWrite.WriteStop)
    requires Clear(HostClk, d0, d1, w1, cells1, OnLines(edges1)) && PutOut(edges1, bytes1, w2.reversed)
    requires EcpWrite.Delivered(d1, d2, w2, cells2, bytes2, written, stop, edges2)
    requires |cells1| == |bytes1| && !stop.NotTurned?
    ensures EcpWrite.Delivered(d0, d2, w2, cells1 + cells2, bytes1 + bytes2, |bytes1| + written, stop, edges1 + edges2)
  {
    var rounds := EcpWrite.Rounds(written, stop);
    PutOutBoth(edges1, edges2, bytes1, bytes2[..rounds], w2.reversed);
    OnLinesBoth(edges1, edges2);
    SliceConcat(bytes1, bytes2, rounds);
    SliceConcat(cells1, cells2, rounds);
    match stop
    case NotTurned =>
    case Done => GotChain(HostClk, d0, d1, d2, cells1, OnLines(edges1), cells2, OnLines(edges2));
    case NotReleased =>
      GotChain(HostClk, d0, d1, d2, cells1, OnLines(edges1), cells2[..rounds], OnLines(edges2));
    case _ =>
      OfferingChain(d0, d1, d2, w2, cells1, OnLines(edges1), cells2[..rounds], OnLines(edges2), cells2[rounds]);
  }

  lemma OfferingChain(d0: Device, d1: Device, d2: Device, w2: Wires, cells1: seq<Cell>, bytes1: seq<byte>,
                      cells2: seq<Cell>, bytes2: seq<byte>, cell: Cell)
    requires Got(HostClk, d0, d1, cells1, bytes1) && EcpWrite.Offering(d1, d2, w2, cells2, bytes2, cell)
    ensures EcpWrite.Offering(d0, d2, w2, cells1 + cells2, bytes1 + bytes2, cell)
  {
    GotChain(HostClk, d0, d1, d2, cells1, bytes1, if w2.status.busy then cells2 + [cell] else cells2, bytes2);
    assert cells1 + (cells2 + [cell]) == cells1 + cells2 + [cell];
  }

  lemma PiecesNext(reversed: bool, pieces: seq<Piece>, i: nat)
    requires i < |pieces|
    ensures BytesOf(pieces[..i + 1]) == BytesOf(pieces[..i]) + pieces[i].bytes
    ensures CellsOf(reversed, pieces[..i + 1]) ==
              CellsOf(reversed, pieces[..i]) + GivenAll(reversed, !pieces[i].command, pieces[i].bytes)
  {
    assert pieces[..i + 1][..i] == pieces[..i];
  }

  lemma PiecesFirst(reversed: bool, pieces: seq<Piece>)
    requires pieces != []
    ensures BytesOf(pieces[..1]) == pieces[0].bytes
    ensures CellsOf(reversed, pieces[..1]) == GivenAll(reversed, !pieces[0].command, pieces[0].bytes)
  {
    PiecesNext(reversed, pieces, 0);
    var cells := GivenAll(reversed, !pieces[0].command, pieces[0].bytes);
    assert [] + cells == cells && [] + pieces[0].bytes == pieces[0].bytes;
    assert CellsOf(reversed, pieces[..0]) == [] && BytesOf(pieces[..0]) == [];
  }

  /** The receiver is left as by one write of all the pieces. */
  ghost predicate SeriesDelivered(d0: Device, d: Device, w: Wires, pieces: seq<Piece>, written: nat,
                                  stop: EcpWrite.WriteStop, edges: seq<Wires>)
  {
    EcpWrite.Delivered(d0, d, w, CellsOf(w.reversed, pieces), BytesOf(pieces), written, stop, edges)
  }

  lemma SeriesFirst(d0: Device, d: Device, w: Wires, pieces: seq<Piece>, n: nat, stop: EcpWrite.WriteStop,
                    edges: seq<Wires>)
    requires pieces != []
    requires EcpWrite.Delivered(d0, d, w, GivenAll(w.reversed, !pieces[0].command, pieces[0].bytes), pieces[0].bytes,
                                n, stop, edges)
    ensures SeriesDelivered(d0, d, w, pieces[..1], n, stop, edges)
  {
    PiecesFirst(w.reversed, pieces);
  }

  lemma ChainDelivered(d0: Device, d1: Device, w1: Wires, d2: Device, w2: Wires,
                       cells1: seq<Cell>, bytes1: seq<byte>, written: nat, edges1: seq<Wires>,
                       cells2: seq<Cell>, bytes2: seq<byte>, n: nat, edges2: seq<Wires>, stop: EcpWrite.WriteStop)
    requires EcpWrite.Delivered(d0, d1, w1, cells1, bytes1, written, EcpWrite.Done, edges1)
    requires EcpWrite.Delivered(d1, d2, w2, cells2, bytes2, n, stop, edges2)
    requires !stop.NotTurned? && w2.reversed == w1.reversed
    ensures EcpWrite.Delivered(d0, d2, w2, cells1 + cells2, bytes1 + bytes2, written + n, stop, edges1 + edges2)
  {
    assert bytes1[..|bytes1|] == bytes1;
    WriteChain(d0, d1, w1, d2, w2, cells1, bytes1, edges1, cells2, bytes2, edges2, n, stop);
  }

  lemma SeriesNext(d0: Device, d1: Device, w1: Wires, d2: Device, w2: Wires, pieces: seq<Piece>, i: nat,
                   written: nat, edges: seq<Wires>, n: nat, stop: EcpWrite.WriteStop, more: seq<Wires>)
    requires i < |pieces| && !stop.NotTurned? && w2.reversed == w1.reversed
    requires SeriesDelivered(d0, d1, w1, pieces[..i], written, EcpWrite.Done, edges)
    requires EcpWrite.Delivered(d1, d2, w2, GivenAll(w2.reversed, !pieces[i].command, pieces[i].bytes), pieces[i].bytes,
                                n, stop, more)
    ensures SeriesDelivered(d0, d2, w2, pieces[..i + 1], written + n, stop, edges + more)
  {
    PiecesNext(w2.reversed, pieces, i);
    ChainDelivered(d0, d1, w1, d2, w2, CellsOf(w2.reversed, pieces[..i]), BytesOf(pieces[..i]), written, edges,
                   GivenAll(w2.reversed, !pieces[i].command, pieces[i].bytes), pieces[i].bytes, n, more, stop);
  }

  /** One piece more. */
  method WritePiece(port: Port, pieces: seq<Piece>, i: nat, patience: nat,
                    ghost base: Device, ghost written: nat, ghost edges: seq<Wires>)
    returns (n: nat, short: bool, ghost stop: EcpWrite.WriteStop, ghost more: seq<Wires>)
    requires i < |pieces| && (i > 0 ==> port.current_phase == PH1284_FWD_IDLE)
    modifies port
    ensures short == !stop.Done? && (stop.NotTurned? ==> i == 0)
    ensures !short ==> port.current_phase == PH1284_FWD_IDLE
    ensures port.timeouts >= old(port.timeouts) && (port.timeouts == old(port.timeouts) ==> !short)
    ensures !stop.NotTurned? ==>
              port.cable.reversed == (old(port.current_phase) == PH1284_FWD_IDLE && old(port.cable).reversed)
    ensures (if i == 0 then base == old(port.device) && ReceiverReady(HostClk, base, old(port.cable))
             else SeriesDelivered(base, old(port.device), old(port.cable), pieces[..i], written, EcpWrite.Done, edges))
            ==> SeriesDelivered(base, port.device, port.cable, pieces[..i + 1], if i == 0 then n else written + n, stop,
                                if i == 0 then more else edges + more)
  {
    ghost var d, w := port.device, port.cable;
    ghost var recoveries;
    n, stop, more, recoveries := EcpWrite.Write(port, pieces[i].bytes, pieces[i].command, patience);
    short := port.current_phase != PH1284_FWD_IDLE || n < |pieces[i].bytes|;
    if i == 0 {
      if base == d && ReceiverReady(HostClk, d, w) {
        SeriesFirst(d, port.device, port.cable, pieces, n, stop, more);
      }
    } else if SeriesDelivered(base, d, w, pieces[..i], written, EcpWrite.Done, edges) {
      SeriesNext(base, d, w, port.device, port.cable, pieces, i, written, edges, n, stop, more);
    }
  }

  /** Data and addresses written piece by piece, up to the first write that goes short: the
      receiver is left as by one write of all the pieces tried, so EcpWrite.AtMostOneInDoubt
      holds of the whole. */
  method WriteSeries(port: Port, pieces: seq<Piece>, patience: nat)
    returns (written: nat, ghost tried: nat, ghost stop: EcpWrite.WriteStop, ghost edges: seq<Wires>)
    requires pieces != []
    modifies port
    ensures 0 < tried <= |pieces| && (stop.Done? ==> tried == |pieces|)
    ensures port.timeouts == old(port.timeouts) ==> stop.Done?
    ensures !stop.NotTurned? ==>
              port.cable.reversed == (old(port.current_phase) == PH1284_FWD_IDLE && old(port.cable).reversed)
    ensures ReceiverReady(HostClk, old(port.device), old(port.cable)) ==>
              SeriesDelivered(old(port.device), port.device, port.cable, pieces[..tried], written, stop, edges)
  {
    ghost var d0 := port.device;
    ghost var ready := ReceiverReady(HostClk, d0, port.cable);
    var short;
    written, short, stop, edges := WritePiece(port, pieces, 0, patience, d0, 0, []);
    var i := 1;
    while i < |pieces| && !short
      invariant 1 <= i <= |pieces| && short == !stop.Done?
      invariant !short ==> port.current_phase == PH1284_FWD_IDLE
      invariant port.timeouts >= old(port.timeouts) && (port.timeouts == old(port.timeouts) ==> !short)
      invariant !stop.NotTurned? ==>
                  port.cable.reversed == (old(port.current_phase) == PH1284_FWD_IDLE && old(port.cable).reversed)
      invariant ready ==> SeriesDelivered(d0, port.device, port.cable, pieces[..i], written, stop, edges)
    {
      var n;
      ghost var more;
      n, short, stop, more := WritePiece(port, pieces, i, patience, d0, written, edges);
      written, edges, i := written + n, edges + more, i + 1;
    }
    tried := i;
  }
}
