/** ECP forward transfer with Host Transfer Recovery: default_ecp_write_data and
    default_ecp_write_addr. */
module EcpWrite {
  import opened Signals
  import opened Devices
  import opened Handshakes
  import opened Ports
  import opened EcpDirection

  /** The receiver was offered `cell` and nothing but `cells` before it. */
  ghost predicate Offering(base: Device, d: Device, w: Wires, cells: seq<Cell>, bytes: seq<byte>, cell: Cell) {
    Presented(HostClk, base, d, w, cells, bytes, cell)
  }

  lemma Put(base: Device, d: Device, w: Wires, w1: Wires, w2: Wires, cells: seq<Cell>, bytes: seq<byte>)
    requires w1 == w.(dout := w2.dout, status := w1.status, din := w1.din)
    requires w2.lines == w.lines.(nStrobe := false) && w2.dout == w1.dout && w2.reversed == w.reversed
    ensures
      var cell := w2.Given(w2.lines.nAutoFd);
      var d1 := d.Moved(w, w1.status, w1.din).Loaded(w, w1.dout);
      Clear(HostClk, base, d, w, cells, bytes) || (w.dout == w2.dout && Offering(base, d, w, cells, bytes, cell)) ==>
        Offering(base, Driven(d1, w1, w2), w2, cells, bytes, cell)
  {
    var cell := w2.Given(w2.lines.nAutoFd);
    var d1 := d.Moved(w, w1.status, w1.din).Loaded(w, w1.dout);
    if Clear(HostClk, base, d, w, cells, bytes) {
      ClearLoad(HostClk, base, d, w, w1, cells, bytes);
      Fall(HostClk, base, d1, w1, w2, cells, bytes);
    } else if w.dout == w2.dout && Offering(base, d, w, cells, bytes, cell) {
      PresentedLoad(HostClk, base, d, w, w1, cells, bytes, cell);
      PresentedDrive(HostClk, base, d1, w1, w2, cells, bytes, cell);
    }
  }

  /** Event 35: put the byte on the data lines and lower HostClk. On a retry HostClk is
      low already and the byte is the same. */
  method PutByte(port: Port, datum: byte, ghost base: Device, ghost cells: seq<Cell>, ghost bytes: seq<byte>)
    modifies port
    ensures unchanged(port`current_mode, port`current_channel, port`current_phase, port`timeouts, port`hazards)
    ensures port.cable.reversed == old(port.cable).reversed
    ensures port.cable.lines == old(port.cable).lines.(nStrobe := false) && port.cable.dout == datum
    ensures
      var cell := port.cable.Given(port.cable.lines.nAutoFd);
      Clear(HostClk, base, old(port.device), old(port.cable), cells, bytes)
      || (old(port.cable).dout == datum && Offering(base, old(port.device), old(port.cable), cells, bytes, cell))
      ==> Offering(base, port.device, port.cable, cells, bytes, cell)
  {
    ghost var d0, w0 := port.device, port.cable;
    port.WriteData(datum);
    ghost var w1 := port.cable;
    port.FrobControl(C1284_NSTROBE, 0);
    Put(base, d0, w0, w1, port.cable, cells, bytes);
  }

  /** Event 36: up to a hundred waits for Busy. */
  method AwaitBusy(port: Port, ghost base: Device, ghost cells: seq<Cell>, ghost bytes: seq<byte>, ghost cell: Cell)
    returns (ok: bool)
    modifies port
    ensures unchanged(port`current_mode, port`current_channel, port`current_phase, port`hazards)
    ensures port.cable.reversed == old(port.cable).reversed
    ensures SameHost(old(port.cable), port.cable)
    ensures ok <==> port.cable.status.busy
    ensures !ok ==> port.timeouts == old(port.timeouts) + 100
    ensures ok ==> old(port.timeouts) <= port.timeouts < old(port.timeouts) + 100
    ensures Offering(base, old(port.device), old(port.cable), cells, bytes, cell) ==>
              Offering(base, port.device, port.cable, cells, bytes, cell)
  {
    ghost var w0 := port.cable;
    ghost var good := Offering(base, port.device, port.cable, cells, bytes, cell);
    for retry := 0 to 100
      invariant unchanged(port`current_mode, port`current_channel, port`current_phase, port`hazards)
      invariant port.cable.reversed == old(port.cable).reversed
      invariant SameHost(w0, port.cable)
      invariant port.timeouts == old(port.timeouts) + retry
      invariant retry > 0 ==> !port.cable.status.busy
      invariant good ==> Offering(base, port.device, port.cable, cells, bytes, cell)
    {
      ghost var d, w := port.device, port.cable;
      var r := port.WaitStatus(S1284_BUSY, S1284_BUSY);
      if good {
        PresentedWait(HostClk, base, d, w, port.device, port.cable, StatusPins(S1284_BUSY), StatusPins(S1284_BUSY),
                      r == E1284_OK, cells, bytes, cell);
      }
      if r == E1284_OK {
        return true;
      }
    }
    return false;
  }

  /** PError is low when nInit is high, and high when nInit is low again. */
  ghost predicate Recovery(before: seq<Look>, after: seq<Look>, lines: Lines, ok: bool) {
    && |after| > |before| && after[|before|].lines == lines.(nInit := true)
    && if after[|before|].status.pError then |after| == |before| + 1 && !ok
       else && |after| == |before| + 2 && after[|before| + 1].lines == lines.(nInit := false)
            && ok == after[|before| + 1].status.pError
  }

  lemma Toggle(base: Device, d: Device, w: Wires, w1: Wires, w2: Wires, w3: Wires, w4: Wires,
               cells: seq<Cell>, bytes: seq<byte>, cell: Cell)
    requires !w1.lines.nStrobe && !w3.lines.nStrobe && SameHost(w1, w2) && SameHost(w3, w4)
    requires w1.lines.nAutoFd == w3.lines.nAutoFd == w.lines.nAutoFd
    requires w1.dout == w3.dout == w.dout && w1.reversed == w3.reversed == w.reversed
    ensures
      var d3 := Driven(Polled(Driven(d, w, w1), w1, w2.status, w2.din), w2, w3);
      Offering(base, d, w, cells, bytes, cell) ==>
        && Offering(base, d3, w3, cells, bytes, cell)
        && Offering(base, Polled(d3, w3, w4.status, w4.din), w4, cells, bytes, cell)
  {
    if Offering(base, d, w, cells, bytes, cell) {
      var d1 := Driven(d, w, w1);
      PresentedDrive(HostClk, base, d, w, w1, cells, bytes, cell);
      PresentedPoll(HostClk, base, d1, w1, w2, cells, bytes, cell);
      var d2 := Polled(d1, w1, w2.status, w2.din);
      PresentedDrive(HostClk, base, d2, w2, w3, cells, bytes, cell);
      PresentedPoll(HostClk, base, Driven(d2, w2, w3), w3, w4, cells, bytes, cell);
    }
  }

  /** Host Transfer Recovery: toggle nInit and look at PError. nInit ends low. */
  method Recover(port: Port, ghost base: Device, ghost cells: seq<Cell>, ghost bytes: seq<byte>, ghost cell: Cell)
    returns (ok: bool)
    requires !port.cable.lines.nStrobe && port.current_phase == PH1284_FWD_DATA
    modifies port
    ensures unchanged(port`current_mode, port`current_channel, port`current_phase, port`timeouts, port`hazards)
    ensures port.cable.reversed == old(port.cable).reversed
    ensures port.cable.lines == old(port.cable).lines.(nInit := false) && port.cable.dout == old(port.cable).dout
    ensures Recovery(old(port.looks), port.looks, old(port.cable).lines, ok)
    ensures Offering(base, old(port.device), old(port.cable), cells, bytes, cell) ==>
              Offering(base, port.device, port.cable, cells, bytes, cell)
  {
    ok := false;
    ghost var d0, w0 := port.device, port.cable;
    port.FrobControl(C1284_NINIT, C1284_NINIT);
    ghost var w1 := port.cable;
    var s := port.ReadStatus();
    ghost var w2 := port.cable;
    port.FrobControl(C1284_NINIT, 0);
    ghost var w3 := port.cable;
    if s.pError {
      Toggle(base, d0, w0, w1, w2, w3, w3, cells, bytes, cell);
      return;
    }
    s := port.ReadStatus();
    Toggle(base, d0, w0, w1, w2, w3, port.cable, cells, bytes, cell);
    ok := s.pError;
  }

  datatype Outcome = Accepted | Stuck | Cut

  /** All recoveries succeeded but for the last if the peripheral is stuck. */
  ghost predicate AllBut(recoveries: seq<bool>, stuck: bool) {
    && (stuck ==> recoveries != [])
    && forall i :: 0 <= i < |recoveries| ==> recoveries[i] == !(stuck && i == |recoveries| - 1)
  }

  /** What the last look showed when a recovery failed: PError high with nInit high, or low with
      nInit low again. */
  ghost predicate LooksStuck(port: Port)
    reads port
  {
    port.looks != [] &&
    var last := port.Latest();
    last.lines.nInit == last.status.pError
  }

  /** And when it succeeded. */
  ghost predicate LooksRecovered(port: Port)
    reads port
  {
    port.looks != [] &&
    var last := port.Latest();
    !last.lines.nInit && last.status.pError
  }

  /** Present a byte until Busy answers. A stall is followed by a recovery and, if that
      works, by another try; `patience` bounds the retries of this run. Recoveries leave nInit
      low. Each comes after a hundred timed-out waits. */
  method PresentByte(port: Port, datum: byte, patience: nat,
                     ghost base: Device, ghost cells: seq<Cell>, ghost bytes: seq<byte>)
    returns (out: Outcome, ghost recoveries: seq<bool>)
    requires port.current_phase == PH1284_FWD_DATA
    modifies port
    ensures unchanged(port`current_mode, port`current_channel, port`current_phase, port`hazards)
    ensures port.cable.reversed == old(port.cable).reversed
    ensures port.cable.lines ==
              old(port.cable).lines.(nStrobe := false, nInit := old(port.cable).lines.nInit && recoveries == [])
    ensures port.cable.dout == datum
    ensures AllBut(recoveries, out.Stuck?) && (out.Stuck? ==> LooksStuck(port))
    ensures out.Cut? ==> |recoveries| == patience + 1 && LooksRecovered(port)
    ensures !out.Cut? ==> |recoveries| <= patience + (if out.Stuck? then 1 else 0)
    ensures var waits := port.timeouts - old(port.timeouts) - 100 * |recoveries|;
            if out.Accepted? then 0 <= waits < 100 else waits == 0
    ensures out.Accepted? ==> port.cable.status.busy
    ensures Clear(HostClk, base, old(port.device), old(port.cable), cells, bytes) ==>
              Offering(base, port.device, port.cable, cells, bytes, port.cable.Given(port.cable.lines.nAutoFd))
  {
    ghost var w0 := port.cable;
    ghost var cell := GivenCell(w0.reversed, w0.lines.nAutoFd, datum);
    recoveries := [];
    ghost var good := Clear(HostClk, base, port.device, port.cable, cells, bytes);
    PutByte(port, datum, base, cells, bytes);
    var ok := AwaitBusy(port, base, cells, bytes, cell);
    var left := patience;
    while !ok
      invariant unchanged(port`current_mode, port`current_channel, port`current_phase, port`hazards)
      invariant port.cable.reversed == old(port.cable).reversed
      invariant port.cable.lines == w0.lines.(nStrobe := false, nInit := w0.lines.nInit && recoveries == [])
      invariant port.cable.dout == datum
      invariant ok ==> port.cable.status.busy
      invariant AllBut(recoveries, false) && |recoveries| == patience - left
      invariant var waits := port.timeouts - old(port.timeouts) - 100 * |recoveries|;
                if ok then 0 <= waits < 100 else waits == 100
      invariant good ==> Offering(base, port.device, port.cable, cells, bytes, cell)
      decreases left + (if ok then 0 else 1)
    {
      var recovered := Recover(port, base, cells, bytes, cell);
      recoveries := recoveries + [recovered];
      if !recovered {
        return Stuck, recoveries;
      }
      if left == 0 {
        return Cut, recoveries;
      }
      left := left - 1;
      PutByte(port, datum, base, cells, bytes);
      ok := AwaitBusy(port, base, cells, bytes, cell);
    }
    return Accepted, recoveries;
  }

  /** Event 37, and the wait for Busy to go low. */
  method ReleaseByte(port: Port, ghost base: Device, ghost cells: seq<Cell>, ghost bytes: seq<byte>, ghost cell: Cell)
    returns (r: int, ghost edge: Wires)
    requires port.cable.status.busy
    modifies port
    ensures edge.dout == old(port.cable).dout && edge.reversed == old(port.cable).reversed
    ensures unchanged(port`current_mode, port`current_channel, port`current_phase, port`hazards)
    ensures port.cable.reversed == old(port.cable).reversed
    ensures port.cable.lines == old(port.cable).lines.(nStrobe := true) && port.cable.dout == old(port.cable).dout
    ensures r == E1284_OK || r == E1284_TIMEDOUT
    ensures r == E1284_OK <==> !port.cable.status.busy
    ensures port.timeouts == old(port.timeouts) + (if r == E1284_OK then 0 else 1)
    ensures Offering(base, old(port.device), old(port.cable), cells, bytes, cell) ==>
              Closing(HostClk, base, port.device, port.cable, cells + [cell], bytes + [edge.Data()])
  {
    ghost var d0, w0 := port.device, port.cable;
    ghost var good := Offering(base, d0, w0, cells, bytes, cell);
    port.FrobControl(C1284_NSTROBE, C1284_NSTROBE);
    ghost var d1, w1 := port.device, port.cable;
    edge := w1;
    if good { Rise(HostClk, base, d0, w0, w1, cells, bytes, cell); }
    r := port.WaitStatus(S1284_BUSY, 0);
    if good {
      ClosingWait(HostClk, base, d1, w1, port.device, port.cable, StatusPins(S1284_BUSY), NO_LINE, r == E1284_OK,
                  cells + [cell], bytes + [edge.Data()]);
    }
  }

  /** Bring the channel into forward data phase: false if it cannot be turned. */
  method BeginForward(port: Port, command: bool) returns (ok: bool)
    modifies port
    ensures unchanged(port`current_mode, port`current_channel, port`hazards)
    ensures port.cable.dout == old(port.cable).dout
    ensures port.cable.lines.(nInit := true, nAutoFd := true) == old(port.cable).lines.(nInit := true, nAutoFd := true)
    ensures ok ==> port.cable.lines.nInit && port.cable.lines.nAutoFd == !command
    ensures port.current_phase == if ok then PH1284_FWD_DATA else PH1284_ECP_DIR_UNKNOWN
    ensures !ok ==> old(port.current_phase) != PH1284_FWD_IDLE && port.timeouts == old(port.timeouts) + 1
    ensures ok ==> port.timeouts == old(port.timeouts)
    ensures port.cable.reversed == (old(port.cable).reversed && (ok ==> old(port.current_phase) == PH1284_FWD_IDLE))
    ensures ReceiverReady(HostClk, old(port.device), old(port.cable)) ==>
              Clear(HostClk, old(port.device), port.device, port.cable, [], [])
  {
    ghost var d0, w0 := port.device, port.cable;
    if port.current_phase != PH1284_FWD_IDLE {
      var r := RevToFwd(port);
      if r != E1284_OK {
        return false;
      }
    }
    port.current_phase := PH1284_FWD_DATA;
    ghost var d1, w1 := port.device, port.cable;
    if command {
      port.FrobControl(C1284_NAUTOFD | C1284_NINIT, C1284_NINIT);
    } else {
      port.FrobControl(C1284_NAUTOFD | C1284_NINIT, C1284_NAUTOFD | C1284_NINIT);
    }
    if ReceiverReady(HostClk, d0, w0) { ClearDrive(HostClk, d0, d1, w1, port.cable, [], []); }
    return true;
  }

  /** How a write ends: the channel could not be turned; all bytes went; the peripheral kept
      Busy high after taking a byte; it never took the byte; or the run was cut short while
      it still recovered (the source would go on). */
  datatype WriteStop = NotTurned | Done | NotReleased | Stalled | StillTrying

  /** What the receiver has when one byte more was sent, or was not. `level` was on the data
      lines when HostClk was raised. */
  ghost predicate Attempted(d0: Device, d: Device, w: Wires, cells: seq<Cell>, bytes: seq<byte>, cell: Cell,
                            stop: WriteStop, level: byte)
  {
    match stop
    case NotTurned => false
    case Done => Clear(HostClk, d0, d, w, cells + [cell], bytes + [level])
    case NotReleased => w.status.busy && Closing(HostClk, d0, d, w, cells + [cell], bytes + [level])
    case _ => Offering(d0, d, w, cells, bytes, cell)
  }

  /** One byte of the loop. */
  method SendByte(port: Port, datum: byte, patience: nat,
                  ghost base: Device, ghost cells: seq<Cell>, ghost bytes: seq<byte>)
    returns (stop: WriteStop, ghost edge: Wires, ghost recoveries: seq<bool>)
    requires port.current_phase == PH1284_FWD_DATA
    modifies port
    ensures unchanged(port`current_mode, port`current_channel, port`current_phase, port`hazards)
    ensures port.cable.reversed == old(port.cable).reversed
    ensures port.cable.lines.nSelectIn == old(port.cable).lines.nSelectIn
    ensures port.cable.lines.nAutoFd == old(port.cable).lines.nAutoFd
    ensures port.cable.lines.nInit == (old(port.cable).lines.nInit && recoveries == [])
    ensures AllBut(recoveries, stop.Stalled?) && (stop.Stalled? ==> LooksStuck(port))
    ensures stop.StillTrying? ==> |recoveries| > patience && LooksRecovered(port)
    ensures port.timeouts >= old(port.timeouts) + 100 * |recoveries|
    ensures edge.dout == datum && edge.reversed == old(port.cable).reversed
    ensures port.timeouts >= old(port.timeouts) && !stop.NotTurned?
    ensures port.timeouts == old(port.timeouts) ==> stop.Done?
    ensures Clear(HostClk, base, old(port.device), old(port.cable), cells, bytes) ==>
              Attempted(base, port.device, port.cable, cells, bytes,
                        GivenCell(port.cable.reversed, port.cable.lines.nAutoFd, datum), stop, edge.Data())
  {
    ghost var cell := GivenCell(port.cable.reversed, port.cable.lines.nAutoFd, datum);
    var out;
    out, recoveries := PresentByte(port, datum, patience, base, cells, bytes);
    edge := port.cable;
    if out.Stuck? {
      return Stalled, edge, recoveries;
    }
    if out.Cut? {
      return StillTrying, edge, recoveries;
    }
    var r;
    r, edge := ReleaseByte(port, base, cells, bytes, cell);
    return if r == E1284_OK then Done else NotReleased, edge, recoveries;
  }

  /** For how many bytes HostClk was raised again. */
  function Rounds(written: nat, stop: WriteStop): nat {
    written + if stop.NotReleased? then 1 else 0
  }

  /** What the receiver has of `bytes`, for which it was to be given `cells`: exactly those of
      the bytes reported, or one more; and what it saw at the rising edges of HostClk. */
  ghost predicate Delivered(d0: Device, d: Device, w: Wires, cells: seq<Cell>, bytes: seq<byte>, written: nat,
                            stop: WriteStop, edges: seq<Wires>)
  {
    && |cells| == |bytes| && Rounds(written, stop) <= |bytes|
    && PutOut(edges, bytes[..Rounds(written, stop)], w.reversed)
    && match stop
       case NotTurned => written == 0 && Clear(HostClk, d0, d, w, [], [])
       case Done => written == |bytes| && Clear(HostClk, d0, d, w, cells, OnLines(edges))
       case NotReleased => w.status.busy && Closing(HostClk, d0, d, w, cells[..written + 1], OnLines(edges))
       case _ => written < |bytes| && Offering(d0, d, w, cells[..written], OnLines(edges), cells[written])
  }

  lemma DeliverNext(d0: Device, d: Device, w: Wires, cells: seq<Cell>, bytes: seq<byte>, written: nat,
                    stop: WriteStop, edges: seq<Wires>, edge: Wires)
    requires written < |cells| == |bytes| && PutOut(edges, bytes[..written], w.reversed)
    requires edge.dout == bytes[written] && edge.reversed == w.reversed
    ensures PutOut(edges + [edge], bytes[..written + 1], w.reversed)
    ensures Attempted(d0, d, w, cells[..written], OnLines(edges), cells[written], stop, edge.Data()) ==>
              if stop.Done? then Clear(HostClk, d0, d, w, cells[..written + 1], OnLines(edges + [edge]))
              else Delivered(d0, d, w, cells, bytes, written, stop, if stop.NotReleased? then edges + [edge] else edges)
  {
    PutOutNext(edges, bytes[..written], w.reversed, edge);
    assert bytes[..written + 1] == bytes[..written] + [bytes[written]];
    assert cells[..written + 1] == cells[..written] + [cells[written]];
  }

  /** The loop of the source: bytes until one does not go. */
  method SendAll(port: Port, buffer: seq<byte>, tag: bool, patience: nat, ghost base: Device)
    returns (written: nat, stop: WriteStop, ghost edges: seq<Wires>, ghost recoveries: seq<bool>)
    requires port.cable.lines.nAutoFd == tag
    requires port.current_phase == PH1284_FWD_DATA
    modifies port
    ensures written <= |buffer| && !stop.NotTurned? && (stop.Done? <==> written == |buffer|)
    ensures unchanged(port`current_mode, port`current_channel, port`current_phase, port`hazards)
    ensures port.cable.reversed == old(port.cable).reversed
    ensures port.cable.lines.nSelectIn == old(port.cable).lines.nSelectIn
    ensures port.cable.lines.nInit == (old(port.cable).lines.nInit && recoveries == [])
    ensures AllBut(recoveries, stop.Stalled?) && (stop.Stalled? ==> LooksStuck(port))
    ensures stop.StillTrying? ==> |recoveries| > patience && LooksRecovered(port)
    ensures port.timeouts >= old(port.timeouts) + 100 * |recoveries|
    ensures port.timeouts == old(port.timeouts) ==> stop.Done?
    ensures Clear(HostClk, base, old(port.device), old(port.cable), [], []) ==>
              Delivered(base, port.device, port.cable, GivenAll(port.cable.reversed, tag, buffer), buffer, written,
                        stop, edges)
  {
    ghost var reversed := port.cable.reversed;
    ghost var cells := GivenAll(reversed, tag, buffer);
    ghost var good := Clear(HostClk, base, port.device, port.cable, [], []);
    written, edges, recoveries := 0, [], [];
    stop := Done;
    while written < |buffer|
      invariant written <= |buffer| && stop.Done?
      invariant unchanged(port`current_mode, port`current_channel, port`current_phase, port`hazards)
      invariant port.timeouts >= old(port.timeouts) + 100 * |recoveries| && AllBut(recoveries, false)
      invariant port.cable.reversed == reversed
      invariant port.cable.lines.nSelectIn == old(port.cable).lines.nSelectIn && port.cable.lines.nAutoFd == tag
      invariant port.cable.lines.nInit == (old(port.cable).lines.nInit && recoveries == [])
      invariant PutOut(edges, buffer[..written], reversed)
      invariant good ==> Clear(HostClk, base, port.device, port.cable, cells[..written], OnLines(edges))
    {
      ghost var edge, more;
      stop, edge, more := SendByte(port, buffer[written], patience, base, cells[..written], OnLines(edges));
      recoveries := recoveries + more;
      DeliverNext(base, port.device, port.cable, cells, buffer, written, stop, edges, edge);
      if !stop.Done? {
        edges := if stop.NotReleased? then edges + [edge] else edges;
        return;
      }
      edges := edges + [edge];
      written := written + 1;
    }
    assert buffer[..|buffer|] == buffer && cells[..|buffer|] == cells;
  }

  /** Write data bytes or, in command mode, channel addresses. Unless the channel is in forward
      idle phase with its drivers off, the drivers are on. */
  method Write(port: Port, buffer: seq<byte>, command: bool, patience: nat)
    returns (written: nat, ghost stop: WriteStop, ghost edges: seq<Wires>, ghost recoveries: seq<bool>)
    modifies port
    ensures written <= |buffer| && (stop.Done? <==> written == |buffer| && !stop.NotTurned?)
    ensures unchanged(port`current_mode, port`current_channel, port`hazards)
    ensures port.cable.lines.nSelectIn == old(port.cable).lines.nSelectIn
    ensures stop.NotTurned? ==>
              && port.current_phase == PH1284_ECP_DIR_UNKNOWN && old(port.current_phase) != PH1284_FWD_IDLE
              && written == 0 && port.cable.dout == old(port.cable).dout
              && port.cable.reversed == old(port.cable).reversed
    ensures !stop.NotTurned? ==>
              && port.current_phase == (if stop.StillTrying? then PH1284_FWD_DATA else PH1284_FWD_IDLE)
              && port.cable.reversed == (old(port.current_phase) == PH1284_FWD_IDLE && old(port.cable).reversed)
              && port.cable.lines.nInit == (recoveries == [])
    ensures AllBut(recoveries, stop.Stalled?) && (stop.Stalled? ==> LooksStuck(port))
    ensures stop.StillTrying? ==> |recoveries| > patience && LooksRecovered(port)
    ensures port.timeouts >= old(port.timeouts) + 100 * |recoveries|
    ensures port.timeouts == old(port.timeouts) ==> stop.Done?
    ensures ReceiverReady(HostClk, old(port.device), old(port.cable)) ==>
              Delivered(old(port.device), port.device, port.cable, GivenAll(port.cable.reversed, !command, buffer),
                        buffer, written, stop, edges)
  {
    ghost var d0 := port.device;
    var ok := BeginForward(port, command);
    if !ok {
      return 0, NotTurned, [], [];
    }
    var how;
    written, how, edges, recoveries := SendAll(port, buffer, !command, patience, d0);
    if !how.StillTrying? {
      port.current_phase := PH1284_FWD_IDLE;
    }
    stop := how;
  }

  /** Exactly once, up to one byte of doubt that Busy settles: over any stalls and recoveries
      a conforming receiver has taken what it was given for the bytes reported as written, in
      order, and for one more exactly if the write went short and Busy is high at the end.
      After a missed release it always is. */
  lemma AtMostOneInDoubt(d0: Device, d: Device, w: Wires, cells: seq<Cell>, bytes: seq<byte>, written: nat,
                         stop: WriteStop, edges: seq<Wires>)
    requires Delivered(d0, d, w, cells, bytes, written, stop, edges) && d.Conforms()
    ensures written <= |cells| && d0.Receiving? && d.Receiving?
    ensures
      var short := !stop.NotTurned? && written < |cells|;
      d.receiver.acked == d0.receiver.acked + cells[..written + if short && w.status.busy then 1 else 0]
    ensures stop.NotReleased? ==> w.status.busy
    ensures stop.Done? || stop.NotTurned? ==> !w.status.busy
  {
    match stop
    case NotTurned =>
    case Done => assert cells[..|cells|] == cells;
    case NotReleased =>
    case _ => assert cells[..written + 1] == cells[..written] + [cells[written]];
  }

  /** A receiver that latches on the rising edge of HostClk has what was on the lines then,
      whether it conforms or not: with the drivers on the bytes themselves, with the drivers
      off the peripheral's own levels. The host never changed the data while HostClk was low. */
  lemma ClockedInOrder(d0: Device, d: Device, w: Wires, cells: seq<Cell>, bytes: seq<byte>, written: nat,
                       stop: WriteStop, edges: seq<Wires>)
    requires Delivered(d0, d, w, cells, bytes, written, stop, edges)
    ensures d0.Receiving? && d.Receiving? && d.receiver.steady == d0.receiver.steady
    ensures Rounds(written, stop) == |edges| <= |bytes|
    ensures d.receiver.clocked == d0.receiver.clocked + OnLines(edges)
    ensures !w.reversed ==> OnLines(edges) == bytes[..Rounds(written, stop)]
    ensures w.reversed ==> forall i :: 0 <= i < |edges| ==> OnLines(edges)[i] == edges[i].din
  {
    LinesOf(edges, bytes[..Rounds(written, stop)], w.reversed);
  }
}
