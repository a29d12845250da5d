/** Reverse transfer in nibble mode: default_nibble_read. */
module Nibble {
  import opened Signals
  import opened Devices
  import opened Handshakes
  import opened Ports
  import opened Negotiation

  /** b >> 3, masked with 0x07 and, shifted one place down, with 0x10. */
  function LowBits(b: byte): byte { b / 8 % 8 }
  function HighBit(b: byte): byte { b / 128 % 2 * 8 }

  /** The low nibble as the source computes it from the status byte. */
  function LowNibble(b: byte): byte {
    LowBits(b) + HighBit(b)
  }

  lemma Fields(low: nat, ack: nat, high: nat)
    requires low < 8 && ack < 2 && high < 2
    ensures (8 * low + 64 * ack + 128 * high) / 8 % 8 == low
    ensures (8 * low + 64 * ack + 128 * high) / 128 % 2 == high
  {
    assert (8 * low + 64 * ack + 128 * high) / 8 == low + 8 * (ack + 2 * high);
  }

  lemma NibblesOfStatus(s: Status)
    ensures LowNibble(StatusByte(s)) == NibbleOn(s)
    ensures NibbleOn(s) < 16
  {
    var low := (if s.nFault then 1 else 0) + (if s.select then 2 else 0) + (if s.pError then 4 else 0);
    var ack, high := if s.nAck then 1 else 0, if s.busy then 1 else 0;
    Fields(low, ack, high);
    assert StatusByte(s) == 8 * low + 64 * ack + 128 * high;
  }

  /** A byte as two nibbles, low nibble first. */
  ghost function Halves(b: byte): (cells: seq<Cell>)
    ensures |cells| == 2
  {
    [Cell(true, b % 16), Cell(true, b / 16)]
  }

  /** The nibbles of a string of bytes. */
  ghost function Nibbles(bytes: seq<byte>): (cells: seq<Cell>)
    ensures |cells| == 2 * |bytes|
  {
    if bytes == [] then [] else Nibbles(bytes[..|bytes| - 1]) + Halves(bytes[|bytes| - 1])
  }

  lemma NibblesAppend(bytes: seq<byte>, b: byte)
    ensures Nibbles(bytes + [b]) == Nibbles(bytes) + Halves(b)
  {
    assert (bytes + [b])[..|bytes|] == bytes;
  }

  lemma {:induction false} NibblesConcat(a: seq<byte>, b: seq<byte>)
    ensures Nibbles(a + b) == Nibbles(a) + Nibbles(b)
    decreases |b|
  {
    if b == [] {
      assert a + b == a;
    } else {
      var n := |b| - 1;
      NibblesConcat(a, b[..n]);
      NibblesAppend(a + b[..n], b[n]);
      assert a + b == (a + b[..n]) + [b[n]];
      assert Nibbles(a) + Nibbles(b[..n]) + Halves(b[n]) == Nibbles(a) + (Nibbles(b[..n]) + Halves(b[n]));
    }
  }

  lemma HalvesDetermine(x: byte, y: byte)
    requires Halves(x) == Halves(y)
    ensures x == y
  {
    assert Halves(x)[0].byte == Halves(y)[0].byte;
    assert Halves(x)[1].byte == Halves(y)[1].byte;
  }

  lemma HalvesOf(low: byte, high: byte)
    requires low < 16 && high < 16
    ensures high * 16 + low < 256
    ensures Halves(high * 16 + low) == [Cell(true, low), Cell(true, high)]
  {
  }

  /** Nibbles determine the bytes: equal nibble streams come from equal strings. */
  lemma {:induction false} NibblesInjective(s: seq<byte>, t: seq<byte>)
    requires Nibbles(s) == Nibbles(t)
    ensures s == t
    decreases |s|
  {
    if s != [] {
      var n := |s| - 1;
      assert |t| == n + 1;
      assert Halves(s[n]) == Nibbles(s)[2 * n..] && Halves(t[n]) == Nibbles(t)[2 * n..];
      HalvesDetermine(s[n], t[n]);
      assert Nibbles(s[..n]) == Nibbles(s)[..2 * n] && Nibbles(t[..n]) == Nibbles(t)[..2 * n];
      NibblesInjective(s[..n], t[..n]);
      assert s == s[..n] + [s[n]] && t == t[..n] + [t[n]];
    }
  }

  /** Lower nAutoFd, wait for nAck low, and sample. */
  method AskForNibble(port: Port, ghost base: Device, ghost cells: seq<Cell>) returns (ok: bool, s: Status)
    modifies port
    ensures old(port.looks) <= port.looks
    ensures unchanged(port`current_mode, port`current_channel, port`current_phase, port`hazards)
    ensures port.cable.reversed == old(port.cable).reversed
    ensures port.cable.dout == old(port.cable).dout && port.cable.lines == EVENT1
    ensures port.timeouts == old(port.timeouts) + (if ok then 0 else 1)
    ensures Resting(NibbleMode, base, old(port.device), old(port.cable), cells) ==>
              if ok then Offered(NibbleMode, base, port.device, port.cable, cells, Cell(true, NibbleOn(s)))
              else Asking(NibbleMode, base, port.device, port.cable, cells)
  {
    ghost var d0, w0 := port.device, port.cable;
    ghost var good := Resting(NibbleMode, base, d0, w0, cells);
    s := NO_LINE;
    port.WriteControl(C1284_NSTROBE | C1284_NINIT | C1284_NSELECTIN);
    ghost var d1, w1 := port.device, port.cable;
    if good { Lower(NibbleMode, base, d0, w0, w1, cells); }
    var r := port.WaitStatus(S1284_NACK, 0);
    ghost var d2, w2 := port.device, port.cable;
    if good { AskWait(NibbleMode, base, d1, w1, d2, w2, NACK_LINE, NO_LINE, r == E1284_OK, cells); }
    ok := r == E1284_OK;
    if ok {
      s := port.ReadStatus();
      if good { NibbleHeld(base, d2, w2, port.cable, cells); }
    }
  }

  /** The nibble sampled is the one on offer. */
  lemma NibbleHeld(base: Device, d: Device, w: Wires, w': Wires, cells: seq<Cell>)
    requires Offered(NibbleMode, base, d, w, cells, NibbleMode.Offer(w.status, w.din)) && SameHost(w, w')
    ensures Offered(NibbleMode, base, Polled(d, w, w'.status, w'.din), w', cells, Cell(true, NibbleOn(w'.status)))
  {
    OfferHeld(NibbleMode, base, d, w, w', cells, NibbleMode.Offer(w.status, w.din));
  }

  /** Raise nAutoFd and wait for nAck high. */
  method AcknowledgeNibble(port: Port, ghost base: Device, ghost cells: seq<Cell>, ghost cell: Cell) returns (ok: bool)
    modifies port
    ensures old(port.looks) <= port.looks
    ensures unchanged(port`current_mode, port`current_channel, port`current_phase, port`hazards)
    ensures port.cable.reversed == old(port.cable).reversed
    ensures port.cable.dout == old(port.cable).dout && port.cable.lines == EVENT4
    ensures port.timeouts == old(port.timeouts) + (if ok then 0 else 1)
    ensures Offered(NibbleMode, base, old(port.device), old(port.cable), cells, cell) ==>
              if ok then Resting(NibbleMode, base, port.device, port.cable, cells + [cell])
              else Sent(NibbleMode, base, port.device, cells)
  {
    ghost var d0, w0 := port.device, port.cable;
    ghost var good := Offered(NibbleMode, base, d0, w0, cells, cell);
    port.WriteControl(C1284_NSTROBE | C1284_NINIT | C1284_NSELECTIN | C1284_NAUTOFD);
    ghost var d1, w1 := port.device, port.cable;
    if good { Raise(NibbleMode, base, d0, w0, w1, cells, cell); }
    var r := port.WaitStatus(S1284_NACK, S1284_NACK);
    ok := r == E1284_OK;
    if good { TakenWait(NibbleMode, base, d1, w1, port.device, port.cable, NACK_LINE, NACK_LINE, ok, cells, cell); }
  }

  /** One nibble: ask for it and acknowledge it. */
  method TakeNibble(port: Port, ghost base: Device, ghost cells: seq<Cell>) returns (r: int, s: Status)
    modifies port
    ensures old(port.looks) <= port.looks
    ensures unchanged(port`current_mode, port`current_channel, port`current_phase, port`hazards)
    ensures port.cable.reversed == old(port.cable).reversed
    ensures port.cable.dout == old(port.cable).dout
    ensures r == E1284_OK || r == E1284_TIMEDOUT
    ensures port.timeouts == old(port.timeouts) + (if r == E1284_OK then 0 else 1)
    ensures port.cable.lines.nSelectIn && port.cable.lines.nStrobe && port.cable.lines.nInit
    ensures r == E1284_OK ==> port.cable.lines == EVENT4
    ensures Resting(NibbleMode, base, old(port.device), old(port.cable), cells) ==>
              if r == E1284_OK
              then Resting(NibbleMode, base, port.device, port.cable, cells + [Cell(true, NibbleOn(s))])
              else Sent(NibbleMode, base, port.device, cells)
  {
    var ok;
    ok, s := AskForNibble(port, base, cells);
    if !ok {
      return E1284_TIMEDOUT, s;
    }
    ok := AcknowledgeNibble(port, base, cells, Cell(true, NibbleOn(s)));
    return if ok then E1284_OK else E1284_TIMEDOUT, s;
  }

  /** The sender has sent `cells` and at most k more. */
  ghost predicate Ahead(base: Device, d: Device, cells: seq<Cell>, k: nat) {
    && base.Sending? && d.Sending?
    && (d.Conforms() ==>
          && base.Conforms()
          && base.sender.sent + cells <= d.sender.sent
          && |d.sender.sent| <= |base.sender.sent| + |cells| + k)
  }

  /** And its session is over. */
  ghost predicate Parted(base: Device, d: Device, cells: seq<Cell>, k: nat) {
    Ahead(base, d, cells, k) && !d.sender.live
  }

  lemma AheadAfter(base: Device, d: Device, d': Device, cells: seq<Cell>, k: nat)
    requires Ahead(base, d, cells, k) && Gone(d, d')
    ensures Parted(base, d', cells, k + 1)
  {
  }

  lemma RestingAfter(base: Device, d: Device, w: Wires, d': Device, cells: seq<Cell>)
    requires Resting(NibbleMode, base, d, w, cells) && Gone(d, d')
    ensures Parted(base, d', cells, 1)
  {
  }

  lemma PartedStill(base: Device, d: Device, d': Device, w': Wires, cells: seq<Cell>, k: nat)
    requires Parted(base, d, cells, k) && Unmoved(d, d', w')
    ensures Parted(base, d', cells, k)
  {
  }

  lemma PartedChain(d0: Device, d1: Device, w1: Wires, d2: Device, a: seq<Cell>, b: seq<Cell>, k: nat)
    requires Resting(NibbleMode, d0, d1, w1, a) && Parted(d1, d2, b, k)
    ensures Parted(d0, d2, a + b, k)
  {
    if d2.Conforms() {
      assert d0.sender.sent + a + b == d0.sender.sent + (a + b);
    }
  }

  /** One byte: two nibbles, low first. */
  method TakeByte(port: Port, ghost base: Device, ghost cells: seq<Cell>) returns (r: int, datain: byte)
    modifies port
    ensures old(port.looks) <= port.looks
    ensures unchanged(port`current_mode, port`current_channel, port`current_phase, port`hazards)
    ensures port.cable.reversed == old(port.cable).reversed
    ensures port.cable.dout == old(port.cable).dout
    ensures r == E1284_OK || r == E1284_TIMEDOUT
    ensures port.timeouts == old(port.timeouts) + (if r == E1284_OK then 0 else 1)
    ensures port.cable.lines.nSelectIn && port.cable.lines.nStrobe && port.cable.lines.nInit
    ensures r == E1284_OK ==> port.cable.lines == EVENT4
    ensures Resting(NibbleMode, base, old(port.device), old(port.cable), cells) ==>
              if r == E1284_OK
              then Resting(NibbleMode, base, port.device, port.cable, cells + Halves(datain))
              else Ahead(base, port.device, cells, 1) && InSession(port.device)
  {
    datain := 0;
    var s: Status;
    r, s := TakeNibble(port, base, cells);
    if r != E1284_OK {
      return;
    }
    NibblesOfStatus(s);
    var low := LowNibble(StatusByte(s));
    ghost var more := cells + [Cell(true, low)];
    r, s := TakeNibble(port, base, more);
    if r != E1284_OK {
      return;
    }
    NibblesOfStatus(s);
    var high := LowNibble(StatusByte(s));
    HalvesOf(low, high);
    datain := high * 16 + low;
    assert cells + [Cell(true, low), Cell(true, high)] == more + [Cell(true, high)];
  }

  /** Look at nFault; when it says that there is no more data, lower nAutoFd. */
  method NoMoreData(port: Port, ghost base: Device, ghost cells: seq<Cell>) returns (none: bool)
    modifies port
    ensures unchanged(port`current_mode, port`current_channel, port`current_phase, port`hazards, port`timeouts)
    ensures port.cable.reversed == old(port.cable).reversed
    ensures port.cable.dout == old(port.cable).dout
    ensures port.looks == old(port.looks) + [Look(old(port.cable).lines, port.Seen())]
    ensures none <==> port.Seen().nFault
    ensures port.cable.lines == if none then old(port.cable).lines.(nAutoFd := false) else old(port.cable).lines
    ensures Resting(NibbleMode, base, old(port.device), old(port.cable), cells) ==>
              Resting(NibbleMode, base, port.device, port.cable, cells)
  {
    ghost var d0, w0 := port.device, port.cable;
    ghost var good := Resting(NibbleMode, base, d0, w0, cells);
    var s := port.ReadStatus();
    ghost var d1, w1 := port.device, port.cable;
    if good { RestingPoll(NibbleMode, base, d0, w0, w1, cells); }
    none := s.nFault;
    if none {
      port.FrobControl(C1284_NAUTOFD, 0);
      if good { Lower(NibbleMode, base, d1, w1, port.cable, cells); }
    }
  }

  datatype NibbleStop = Complete | OutOfData | TimedOut

  /** One round of the loop of default_nibble_read: Complete when a byte arrived. If it is to
      check for data, the first thing it does is to look at nFault. */
  method NextByte(port: Port, check: bool, ghost base: Device, ghost cells: seq<Cell>)
    returns (stop: NibbleStop, datain: byte)
    modifies port
    ensures old(port.looks) <= port.looks
    ensures stop.OutOfData? ==> check && port.Seen().nFault
    ensures check ==>
              && |port.looks| > |old(port.looks)|
              && (stop.OutOfData? <==> port.looks[|old(port.looks)|].status.nFault)
    ensures port.hazards == old(port.hazards) && port.cable.dout == old(port.cable).dout
    ensures if stop.TimedOut? then port.timeouts > old(port.timeouts) else port.timeouts == old(port.timeouts)
    ensures stop.TimedOut? ==> port.current_mode == M1284_COMPAT && Ended(port)
    ensures stop.TimedOut? ==>
              LeavesReverse(old(port.current_phase), old(port.cable).reversed, port.current_phase, port.cable.reversed)
    ensures !stop.TimedOut? ==>
              && unchanged(port`current_mode, port`current_channel, port`current_phase)
              && port.cable.reversed == old(port.cable).reversed
    ensures stop.Complete? ==> port.cable.lines == EVENT4
    ensures stop.OutOfData? ==> port.cable.lines == old(port.cable).lines.(nAutoFd := false)
    ensures Resting(NibbleMode, base, old(port.device), old(port.cable), cells) ==>
              match stop
              case Complete => Resting(NibbleMode, base, port.device, port.cable, cells + Halves(datain))
              case OutOfData => Resting(NibbleMode, base, port.device, port.cable, cells)
              case TimedOut => Parted(base, port.device, cells, 2)
  {
    ghost var good := Resting(NibbleMode, base, port.device, port.cable, cells);
    datain := 0;
    if check {
      var none := NoMoreData(port, base, cells);
      if none {
        return OutOfData, 0;
      }
    }
    var r;
    r, datain := TakeByte(port, base, cells);
    if r != E1284_OK {
      ghost var d := port.device;
      Terminate(port);
      if good { AheadAfter(base, d, port.device, cells, 1); }
      return TimedOut, 0;
    }
    stop := Complete;
  }

  /** The looks in `checks` were taken one after the other since there were only those of
      `before`, the first of them right after those. All saw nFault low, but for the last one if
      the peripheral had no more data. */
  ghost predicate Checked(before: seq<Look>, looks: seq<Look>, checks: seq<nat>, none: bool) {
    && before <= looks && (checks != [] ==> checks[0] == |before|)
    && forall i :: 0 <= i < |checks| ==>
         && |before| <= checks[i] < |looks| && (i > 0 ==> checks[i - 1] < checks[i])
         && (looks[checks[i]].status.nFault <==> none && i == |checks| - 1)
  }

  /** No look in `checks` saw nFault high. */
  ghost predicate AllLow(looks: seq<Look>, checks: seq<nat>) {
    forall i :: 0 <= i < |checks| ==> checks[i] < |looks| && !looks[checks[i]].status.nFault
  }

  lemma CheckedTells(before: seq<Look>, looks: seq<Look>, checks: seq<nat>, none: bool)
    requires Checked(before, looks, checks, none) && (none ==> checks != [])
    ensures AllLow(looks, checks) <==> !none
  {
    if none {
      assert looks[checks[|checks| - 1]].status.nFault;
    }
  }

  /** A round that begins with a check adds its first look. */
  function ChecksAfter(checks: seq<nat>, check: bool, at: nat): seq<nat> {
    if check then checks + [at] else checks
  }

  lemma CheckedNext(before: seq<Look>, looks: seq<Look>, looks': seq<Look>, checks: seq<nat>, check: bool,
                    none: bool)
    requires Checked(before, looks, checks, false) && looks <= looks'
    requires none ==> check
    requires check && checks == [] ==> looks == before
    requires check ==> |looks| < |looks'| && (none <==> looks'[|looks|].status.nFault)
    ensures Checked(before, looks', ChecksAfter(checks, check, |looks|), none)
  {
  }

  /** The buffer holds `bytes` from `start` on and is otherwise as before. */
  ghost predicate Holds(buffer: seq<byte>, before: seq<byte>, start: nat, bytes: seq<byte>) {
    start + |bytes| <= |before| && buffer == before[..start] + bytes + before[start + |bytes|..]
  }

  method Store(buffer: array<byte>, at: nat, datain: byte,
               ghost before: seq<byte>, ghost start: nat, ghost bytes: seq<byte>)
    requires at == start + |bytes| < buffer.Length && Holds(buffer[..], before, start, bytes)
    modifies buffer
    ensures Holds(buffer[..], before, start, bytes + [datain])
  {
    buffer[at] := datain;
  }

  /** One round with its byte stored and its look, if it takes one, entered in the books. */
  method NextStored(port: Port, buffer: array<byte>, start: nat, count: nat, ghost base: Device,
                    ghost before: seq<byte>, ghost bytes: seq<byte>, ghost looks: seq<Look>, ghost checks: seq<nat>)
    returns (stop: NibbleStop, ghost bytes': seq<byte>, ghost checks': seq<nat>)
    requires count == |bytes| && start + count < buffer.Length && Holds(buffer[..], before, start, bytes)
    requires |checks| == (count + 1) / 2 && Checked(looks, port.looks, checks, false)
    requires count == 0 ==> port.looks == looks
    modifies port, buffer
    ensures Holds(buffer[..], before, start, bytes')
    ensures if stop.Complete? then |bytes'| == count + 1 else bytes' == bytes
    ensures Checked(looks, port.looks, checks', stop.OutOfData?)
    ensures |checks'| == count / 2 + 1 && (stop.OutOfData? ==> count % 2 == 0 && port.Seen().nFault)
    ensures port.hazards == old(port.hazards) && port.cable.dout == old(port.cable).dout
    ensures if stop.TimedOut? then port.timeouts > old(port.timeouts) else port.timeouts == old(port.timeouts)
    ensures stop.TimedOut? ==> port.current_mode == M1284_COMPAT && Ended(port)
    ensures stop.TimedOut? ==>
              LeavesReverse(old(port.current_phase), old(port.cable).reversed, port.current_phase, port.cable.reversed)
    ensures !stop.TimedOut? ==>
              && unchanged(port`current_mode, port`current_channel, port`current_phase)
              && port.cable.reversed == old(port.cable).reversed
    ensures stop.Complete? ==> port.cable.lines == EVENT4
    ensures stop.OutOfData? ==> port.cable.lines == old(port.cable).lines.(nAutoFd := false)
    ensures Resting(NibbleMode, base, old(port.device), old(port.cable), Nibbles(bytes)) ==>
              if stop.TimedOut? then Parted(base, port.device, Nibbles(bytes'), 2)
              else Resting(NibbleMode, base, port.device, port.cable, Nibbles(bytes'))
  {
    ghost var seen := port.looks;
    var datain;
    stop, datain := NextByte(port, count % 2 == 0, base, Nibbles(bytes));
    CheckedNext(looks, seen, port.looks, checks, count % 2 == 0, stop.OutOfData?);
    checks' := ChecksAfter(checks, count % 2 == 0, |seen|);
    bytes' := bytes;
    if stop.Complete? {
      Store(buffer, start + count, datain, before, start, bytes);
      NibblesAppend(bytes, datain);
      bytes' := bytes + [datain];
    }
  }

  /** Read len bytes to buffer[start..]. `bytes` arrive; on a timeout their number is the
      return value and the port is back in compatibility mode, otherwise the return value is
      len. That is the number of bytes stored unless the peripheral ran out of data, which is
      so exactly if one of the looks in `checks`, one for every even count, saw nFault high. */
  method NibbleRead(port: Port, buffer: array<byte>, start: nat, len: nat)
    returns (ret: nat, ghost bytes: seq<byte>, ghost stop: NibbleStop, ghost checks: seq<nat>)
    requires start + len <= buffer.Length
    modifies port, buffer
    ensures |bytes| <= len && ret == (if stop.TimedOut? then |bytes| else len)
    ensures stop.Complete? <==> |bytes| == len
    ensures ret == |bytes| <==> !stop.OutOfData?
    ensures |checks| == if stop.Complete? then (len + 1) / 2 else |bytes| / 2 + 1
    ensures Checked(old(port.looks), port.looks, checks, stop.OutOfData?)
    ensures ret == |bytes| <==> AllLow(port.looks, checks)
    ensures Holds(buffer[..], old(buffer[..]), start, bytes)
    ensures stop.TimedOut? <==> port.timeouts > old(port.timeouts)
    ensures port.hazards == old(port.hazards)
    ensures stop.TimedOut? ==> port.current_mode == M1284_COMPAT && Ended(port)
    ensures stop.TimedOut? ==>
              LeavesReverse(old(port.current_phase), old(port.cable).reversed, port.current_phase, port.cable.reversed)
    ensures !stop.TimedOut? ==>
              && unchanged(port`current_mode, port`current_channel, port`current_phase)
              && port.cable.reversed == old(port.cable).reversed
    ensures !stop.TimedOut? ==> port.cable.lines.nSelectIn == (|bytes| > 0 || old(port.cable).lines.nSelectIn)
    ensures old(port.cable).lines.nStrobe ==> port.cable.lines.nStrobe
    ensures stop.OutOfData? ==> |bytes| % 2 == 0 && port.Seen().nFault && !port.cable.lines.nAutoFd
    ensures SenderReady(NibbleMode, old(port.device), old(port.cable)) ==>
              if stop.TimedOut? then Parted(old(port.device), port.device, Nibbles(bytes), 2)
              else Resting(NibbleMode, old(port.device), port.device, port.cable, Nibbles(bytes))
  {
    ghost var d0, looks, before := port.device, port.looks, buffer[..];
    ghost var good := SenderReady(NibbleMode, d0, port.cable);
    bytes, checks := [], [];
    var count := 0;
    while count < len
      invariant count <= len && count == |bytes| && Holds(buffer[..], before, start, bytes)
      invariant |checks| == (count + 1) / 2 && Checked(looks, port.looks, checks, false)
      invariant count == 0 ==> port.looks == looks
      invariant unchanged(port`current_mode, port`current_channel, port`current_phase, port`hazards, port`timeouts)
      invariant port.cable.reversed == old(port.cable).reversed
      invariant if count > 0 then port.cable.lines == EVENT4
                else port.cable.lines == old(port.cable).lines
      invariant good ==> Resting(NibbleMode, d0, port.device, port.cable, Nibbles(bytes))
    {
      var how;
      how, bytes, checks := NextStored(port, buffer, start, count, d0, before, bytes, looks, checks);
      CheckedTells(looks, port.looks, checks, how.OutOfData?);
      if !how.Complete? {
        return if how.TimedOut? then count else len, bytes, how, checks;
      }
      count := count + 1;
    }
    CheckedTells(looks, port.looks, checks, false);
    return len, bytes, Complete, checks;
  }
}
