/** Forward transfer in compatibility mode: default_compat_write. */
module Compat {
  import opened Signals
  import opened Devices
  import opened Handshakes
  import opened Ports
  import opened Negotiation

  /** Put a byte in the data register and pulse nStrobe. The printer latches what is on the
      data lines at the falling edge. */
  method Strobe(port: Port, datum: byte, ghost base: Device, ghost bytes: seq<byte>) returns (ghost edge: Wires)
    modifies port
    ensures unchanged(port`current_mode, port`current_channel, port`current_phase, port`timeouts)
    ensures port.cable.reversed == edge.reversed == old(port.cable).reversed
    ensures port.cable.dout == edge.dout == datum && port.cable.lines == EVENT22
    ensures edge.lines == EVENT22.(nStrobe := false)
    ensures Printed(base, old(port.device), old(port.cable), bytes) && old(port.device).printer.ready ==>
              Printed(base, port.device, port.cable, bytes + [edge.Data()])
  {
    ghost var d0, w0 := port.device, port.cable;
    port.WriteData(datum);
    ghost var w1 := port.cable;
    port.WriteControl(C1284_NINIT | C1284_NAUTOFD);
    edge := port.cable;
    port.WriteControl(C1284_NINIT | C1284_NAUTOFD | C1284_NSTROBE);
    if Printed(base, d0, w0, bytes) && d0.printer.ready {
      Pulse(base, d0, w0, w1, edge, port.cable, bytes);
    }
  }

  /** Wait until the printer is not busy and strobe a byte; if that times out, terminate. */
  method WriteByte(port: Port, datum: byte, ghost base: Device, ghost bytes: seq<byte>)
    returns (ok: bool, ghost edge: Wires)
    modifies port
    ensures ok ==> unchanged(port`current_mode, port`current_channel, port`current_phase, port`timeouts)
    ensures ok ==> port.cable.reversed == old(port.cable).reversed && port.cable.lines == EVENT22
    ensures !ok ==> port.timeouts > old(port.timeouts) && port.current_mode == M1284_COMPAT && Ended(port)
    ensures !ok ==>
              LeavesReverse(old(port.current_phase), old(port.cable).reversed, port.current_phase, port.cable.reversed)
    ensures !port.cable.lines.nSelectIn && edge.dout == datum && edge.reversed == old(port.cable).reversed
    ensures Printed(base, old(port.device), old(port.cable), bytes) ==>
              Printed(base, port.device, port.cable, if ok then bytes + [edge.Data()] else bytes)
  {
    ghost var d1, w1 := port.device, port.cable;
    ghost var good := Printed(base, d1, w1, bytes);
    edge := w1.(dout := datum);
    var r := port.WaitStatus(S1284_BUSY, 0);
    ghost var d2, w2 := port.device, port.cable;
    if good { PrintedWait(base, d1, w1, d2, w2, StatusPins(S1284_BUSY), NO_LINE, r == E1284_OK, bytes); }
    ok := r == E1284_OK;
    if ok {
      edge := Strobe(port, datum, base, bytes);
    } else {
      Terminate(port);
      if good { PrintedThenUnmoved(base, d2, w2, port.device, port.cable, bytes); }
    }
  }

  /** Write a buffer. Whatever happens, a printer has latched exactly what was on the lines at
      `ret` edges, at which the bytes reported as written were in the data register, each after
      it was seen not to be busy, and none while the data changed. With the drivers on these
      are the bytes of the buffer; with the drivers off they are the peripheral's own levels.
      A short count means that a wait timed out and the port is terminated. */
  method CompatWrite(port: Port, buffer: seq<byte>) returns (ret: nat, ghost edges: seq<Wires>)
    modifies port
    ensures ret <= |buffer|
    ensures ret < |buffer| <==> port.timeouts > old(port.timeouts)
    ensures port.current_mode == if ret < |buffer| then M1284_COMPAT else old(port.current_mode)
    ensures ret == |buffer| ==> unchanged(port`current_phase) && port.cable.reversed == old(port.cable).reversed
    ensures ret < |buffer| ==>
              LeavesReverse(old(port.current_phase), old(port.cable).reversed, port.current_phase, port.cable.reversed)
    ensures ret < |buffer| ==> Ended(port)
    ensures |buffer| > 0 ==> !port.cable.lines.nSelectIn
    ensures |buffer| == 0 ==> port.cable.lines == old(port.cable).lines
    ensures PutOut(edges, buffer[..ret], old(port.cable).reversed)
    ensures old(port.cable).lines.nStrobe && old(port.device).Printing? ==>
              Printed(old(port.device), port.device, port.cable, OnLines(edges))
    ensures !old(port.cable).reversed ==> OnLines(edges) == buffer[..ret]
    ensures old(port.cable).reversed ==> forall i :: 0 <= i < ret ==> OnLines(edges)[i] == edges[i].din
  {
    ghost var d0 := port.device;
    ghost var good := port.cable.lines.nStrobe && d0.Printing?;
    ghost var reversed := port.cable.reversed;
    var count := 0;
    edges := [];
    while count < |buffer|
      invariant count <= |buffer| && PutOut(edges, buffer[..count], reversed)
      invariant unchanged(port`current_mode, port`current_channel, port`current_phase, port`timeouts)
      invariant port.cable.reversed == reversed
      invariant if count > 0 then port.cable.lines == EVENT22 else port.cable.lines == old(port.cable).lines
      invariant good ==> Printed(d0, port.device, port.cable, OnLines(edges))
    {
      ghost var edge;
      var ok;
      ok, edge := WriteByte(port, buffer[count], d0, OnLines(edges));
      if !ok {
        LinesOf(edges, buffer[..count], reversed);
        return count, edges;
      }
      PutOutNext(edges, buffer[..count], reversed, edge);
      assert buffer[..count + 1] == buffer[..count] + [buffer[count]];
      edges := edges + [edge];
      count := count + 1;
    }
    LinesOf(edges, buffer[..count], reversed);
    assert buffer[..count] == buffer;
    return |buffer|, edges;
  }
}
