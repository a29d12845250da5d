/** What can sit at the other end of the cable.

    A Device watches every change of the wires and keeps what the real device
    would have latched or handed over. Nothing here restricts the peripheral:
    it may move its lines in any way, and a device of an interlocked protocol
    that breaks its own protocol merely loses the `conforms` flag. The Referee
    is not a peripheral but an observer that follows the numbered events of
    IEEE Std 1284. */
module Devices {
  import opened Signals

  /** A transferred byte, with the level of the line that says what it is (in ECP: high for
      data, low for a command). One that the host did not drive has no byte of the host. */
  datatype Cell = Cell(tag: bool, byte: byte, driven: bool := true)

  /** The cable: the control lines and the data register of the host, the status lines and
      the data levels of the peripheral, and whether the data drivers of the host are off. */
  datatype Wires = Wires(lines: Lines, dout: byte, status: Status, din: byte, reversed: bool) {
    /** What is on the data lines, for either end to see. */
    function Data(): byte {
      if reversed then din else dout
    }

    /** What the host gives to a receiver that takes a byte now. */
    function Given(tag: bool): Cell {
      GivenCell(reversed, tag, dout)
    }
  }

  /** A byte put out with the drivers off or on. */
  function GivenCell(reversed: bool, tag: bool, b: byte): Cell {
    if reversed then Cell(tag, 0, false) else Cell(tag, b)
  }

  /** The cells of bytes that all carry the same tag. */
  ghost function Tagged(tag: bool, bytes: seq<byte>): (cells: seq<Cell>)
    ensures |cells| == |bytes|
  {
    if bytes == [] then []
    else Tagged(tag, bytes[..|bytes| - 1]) + [Cell(tag, bytes[|bytes| - 1])]
  }

  lemma TaggedAppend(tag: bool, bytes: seq<byte>, b: byte)
    ensures Tagged(tag, bytes + [b]) == Tagged(tag, bytes) + [Cell(tag, b)]
  {
    assert (bytes + [b])[..|bytes|] == bytes;
  }

  /** One byte more of a buffer. */
  lemma TaggedNext(tag: bool, buffer: seq<byte>, n: nat)
    requires n < |buffer|
    ensures buffer[..n + 1] == buffer[..n] + [buffer[n]]
    ensures Tagged(tag, buffer[..n + 1]) == Tagged(tag, buffer[..n]) + [Cell(tag, buffer[n])]
  {
    assert buffer[..n + 1] == buffer[..n] + [buffer[n]];
    TaggedAppend(tag, buffer[..n], buffer[n]);
  }

  /** What a receiver is given of bytes that the host puts out with its drivers off or on. */
  ghost function GivenAll(reversed: bool, tag: bool, bytes: seq<byte>): (cells: seq<Cell>)
    ensures |cells| == |bytes|
    ensures forall i :: 0 <= i < |bytes| ==> cells[i] == GivenCell(reversed, tag, bytes[i])
  {
    seq(|bytes|, i requires 0 <= i < |bytes| => GivenCell(reversed, tag, bytes[i]))
  }

  // ---------------------------------------------------------------- edges

  /** What was on the data lines at some clock edges. */
  ghost function OnLines(edges: seq<Wires>): (bytes: seq<byte>)
    ensures |bytes| == |edges|
  {
    if edges == [] then [] else OnLines(edges[..|edges| - 1]) + [edges[|edges| - 1].Data()]
  }

  /** At the i-th edge the i-th byte was in the data register. */
  ghost predicate PutOut(edges: seq<Wires>, bytes: seq<byte>, reversed: bool) {
    |edges| == |bytes| && forall i :: 0 <= i < |edges| ==> edges[i].dout == bytes[i] && edges[i].reversed == reversed
  }

  lemma PutOutNext(edges: seq<Wires>, bytes: seq<byte>, reversed: bool, edge: Wires)
    requires PutOut(edges, bytes, reversed) && edge.reversed == reversed
    ensures PutOut(edges + [edge], bytes + [edge.dout], reversed)
    ensures OnLines(edges + [edge]) == OnLines(edges) + [edge.Data()]
  {
    assert (edges + [edge])[..|edges|] == edges;
  }

  lemma {:induction false} OnLinesBoth(a: seq<Wires>, b: seq<Wires>)
    ensures OnLines(a + b) == OnLines(a) + OnLines(b)
    decreases |b|
  {
    if b == [] {
      assert a + b == a;
    } else {
      var n := |b| - 1;
      OnLinesBoth(a, b[..n]);
      assert (a + b)[..|a| + n] == a + b[..n] && (a + b)[|a| + n] == b[n];
    }
  }

  lemma PutOutBoth(a: seq<Wires>, b: seq<Wires>, s: seq<byte>, t: seq<byte>, reversed: bool)
    requires PutOut(a, s, reversed) && PutOut(b, t, reversed)
    ensures PutOut(a + b, s + t, reversed)
  {
    forall i | 0 <= i < |a| + |b|
      ensures (a + b)[i].dout == (s + t)[i] && (a + b)[i].reversed == reversed
    {
      if i < |a| {
        assert (a + b)[i] == a[i] && (s + t)[i] == s[i];
      } else {
        assert (a + b)[i] == b[i - |a|] && (s + t)[i] == t[i - |a|];
      }
    }
  }

  /** With the drivers on the bytes were on the lines; with the drivers off, whatever levels
      the peripheral had there. */
  lemma {:induction false} LinesOf(edges: seq<Wires>, bytes: seq<byte>, reversed: bool)
    requires PutOut(edges, bytes, reversed)
    ensures !reversed ==> OnLines(edges) == bytes
    ensures reversed ==> forall i :: 0 <= i < |edges| ==> OnLines(edges)[i] == edges[i].din
    decreases |edges|
  {
    if edges != [] {
      LinesOf(edges[..|edges| - 1], bytes[..|edges| - 1], reversed);
      assert bytes == bytes[..|edges| - 1] + [bytes[|edges| - 1]];
    }
  }

  // ---------------------------------------------------------------- buffers

  /** A buffer in which at most element n was changed. */
  lemma SliceUpdate(before: seq<byte>, after: seq<byte>, n: nat)
    requires n < |before| == |after| && after == before[n := after[n]]
    ensures after[..n] == before[..n] && after[..n + 1] == before[..n] + [after[n]]
    ensures after[n + 1..] == before[n + 1..]
  {
  }

  // ---------------------------------------------------------------- printer

  /** Compatibility mode: latches the data lines on every falling edge of nStrobe.
      `ready` when the host has seen Busy low since the last edge; `clean` as long as
      the host strobed only then and never changed the data or their direction while nStrobe
      was low. */
  datatype Printer = Printer(latched: seq<byte>, ready: bool, clean: bool) {
    function Controlled(w: Wires, lines: Lines, reverse: bool): Printer {
      if w.lines.nStrobe && !lines.nStrobe then Printer(latched + [w.Data()], false, clean && ready)
      else Printer(latched, ready, clean && (reverse == w.reversed || w.lines.nStrobe))
    }

    function Loaded(w: Wires, dout: byte): Printer {
      Printer(latched, ready, clean && (dout == w.dout || w.lines.nStrobe))
    }

    function Sampled(s: Status): Printer {
      Printer(latched, ready || !s.busy, clean)
    }

    ghost predicate Waited(p: Printer, w: Wires) {
      p.latched == latched && p.clean == clean && (ready || !w.status.busy ==> p.ready)
    }
  }

  // ---------------------------------------------------------------- receiver

  /** The line that clocks a receiver: nStrobe in ECP, nAutoFd in EPP. */
  datatype Clock = HostClk | NDStrb {
    function Level(lines: Lines): bool {
      if HostClk? then lines.nStrobe else lines.nAutoFd
    }

    /** The line that says what a received byte is. */
    function Tag(lines: Lines): bool {
      if HostClk? then lines.nAutoFd else lines.nStrobe
    }
  }

  /** An interlocked receiver: takes the byte by raising Busy while its clock is low,
      and lowers Busy while its clock is high. `acked` has the bytes it took that way,
      `clocked` those on the data lines at the rising edges of its clock; `steady` as
      long as the host never changed the data or their direction while the clock was low. */
  datatype Receiver = Receiver(clock: Clock, conforms: bool, steady: bool, acked: seq<Cell>, clocked: seq<byte>) {
    predicate May(w: Wires, status: Status) {
      w.status.busy != status.busy ==> status.busy != clock.Level(w.lines)
    }

    function Moved(w: Wires, status: Status): Receiver {
      Receiver(clock, conforms && May(w, status), steady,
               if status.busy && !w.status.busy then acked + [w.Given(clock.Tag(w.lines))] else acked,
               clocked)
    }

    function Controlled(w: Wires, lines: Lines, reverse: bool): Receiver {
      Receiver(clock, conforms, steady && (reverse == w.reversed || clock.Level(w.lines)), acked,
               if !clock.Level(w.lines) && clock.Level(lines) then clocked + [w.Data()] else clocked)
    }

    function Loaded(w: Wires, dout: byte): Receiver {
      Receiver(clock, conforms, steady && (dout == w.dout || clock.Level(w.lines)), acked, clocked)
    }

    ghost predicate Waited(w: Wires, r: Receiver, w': Wires) {
      && r.clock == clock && r.steady == steady && r.clocked == clocked
      && (r.conforms ==> conforms && r == Moved(w, w'.status))
    }
  }

  // ---------------------------------------------------------------- sender

  datatype Protocol = EcpReverse | NibbleMode | ByteMode | EppRead {
    /** Does the peripheral present a byte? */
    predicate Offering(status: Status) {
      if EppRead? then status.busy else !status.nAck
    }

    /** What it presents. */
    function Offer(status: Status, din: byte): Cell {
      if EcpReverse? then Cell(status.busy, din)
      else if NibbleMode? then Cell(true, NibbleOn(status))
      else Cell(true, din)
    }
  }

  /** The nibble on nFault, Select, PError (bits 0-2) and Busy (bit 3). */
  function NibbleOn(s: Status): byte {
    (if s.nFault then 1 else 0) + (if s.select then 2 else 0) + (if s.pError then 4 else 0) + (if s.busy then 8 else 0)
  }

  /** An interlocked sender: presents a byte (or nibble) while nAutoFd is low, holds it,
      and withdraws it while nAutoFd is high; then the byte counts as sent. It is `live`
      until the host drops nSelectIn (which in EPP is the address strobe). `pulses` counts the
      falling edges of nStrobe, with which the host finishes a byte in byte mode. */
  datatype Sender = Sender(protocol: Protocol, conforms: bool, live: bool, sent: seq<Cell>, pulses: nat) {
    predicate Offering(w: Wires) {
      protocol.Offering(w.status)
    }

    predicate May(w: Wires, status: Status, din: byte) {
      if Offering(w) then
        if protocol.Offering(status) then protocol.Offer(status, din) == protocol.Offer(w.status, w.din)
        else w.lines.nAutoFd
      else protocol.Offering(status) ==> !w.lines.nAutoFd
    }

    function Moved(w: Wires, status: Status, din: byte): Sender {
      if live then
        Sender(protocol, conforms && May(w, status, din), true,
               if Offering(w) && !protocol.Offering(status)
               then sent + [protocol.Offer(w.status, w.din)] else sent, pulses)
      else this
    }

    function Controlled(w: Wires, lines: Lines): Sender {
      Sender(protocol, conforms, live && (protocol.EppRead? || !w.lines.nSelectIn || lines.nSelectIn), sent,
             if w.lines.nStrobe && !lines.nStrobe then pulses + 1 else pulses)
    }

    ghost predicate Waited(w: Wires, s: Sender, w': Wires) {
      && s.protocol == protocol && s.live == live && s.pulses == pulses
      && (s.conforms ==> conforms && s == Moved(w, w'.status, w'.din))
    }
  }

  // ---------------------------------------------------------------- referee

  datatype Stage =
    | Quiet
    | Asked(req: byte)                       // event 1 done, event 2 owed
    | Acknowledged(req: byte)                // event 2 seen
    | Strobed(req: byte)                     // event 3 done
    | Released(req: byte)                    // event 4 done, event 6 owed
    | Ready(req: byte)                       // event 6 seen
    | Answered(req: byte, select: bool)      // event 5 read
    | EcpSetup(req: byte)                    // event 30 done, event 31 owed
    | EcpForward(req: byte)                  // event 31 seen
    | Dropped                               // event 22 done, event 24 owed
    | DropSeen                              // event 24 seen
    | Pulsed                                // event 25 done, event 27 owed
    | PulseSeen                             // event 27 seen
    | Home                                  // event 28 done

  const EVENT1 := Lines(true, false, true, true)
  const EVENT3 := Lines(false, false, true, true)
  const EVENT4 := Lines(true, true, true, true)
  const EVENT22 := Lines(true, true, true, false)
  const EVENT25 := Lines(true, false, true, false)

  const NACK_LINE := Status(false, false, false, true, false)
  const PERROR_LINE := Status(false, false, true, false, false)
  const NO_LINE := Status(false, false, false, false, false)

  /** Follows negotiation (events 0-6, 30, 31) and termination (events 22-28), and stops
      watching at the first host action that is not the next event. */
  datatype Referee = Referee(stage: Stage, watching: bool) {
    function Controlled(w: Wires, lines: Lines): Referee {
      if !watching then this
      else match stage
           case Quiet =>
             if lines == EVENT1 then Referee(Asked(w.Data()), true)
             else if lines == EVENT22 then Referee(Dropped, true)
             else this
           case Acknowledged(req) => Expect(lines == EVENT3, Strobed(req))
           case Strobed(req) => Expect(lines == EVENT4, Released(req))
           case Answered(req, _) => Expect(lines == EVENT1 && w.lines == EVENT4, EcpSetup(req))
           case DropSeen => Expect(lines == EVENT25, Pulsed)
           case PulseSeen => Expect(lines == EVENT22, Home)
           case _ => Referee(stage, false)
    }

    function Expect(next: bool, to: Stage): Referee {
      if next then Referee(to, true) else Referee(stage, false)
    }

    function Loaded(): Referee {
      Referee(stage, watching && stage.Quiet?)
    }

    /** The status lines the stage waits for, as the mask and the value of a wait. */
    predicate Awaits(mask: Status, val: Status) {
      match stage
      case Asked(_) => mask == Status(true, true, true, true, false) && val == Status(true, true, true, false, false)
      case Released(_) => mask == NACK_LINE && val == NACK_LINE
      case EcpSetup(_) => mask == PERROR_LINE && val == PERROR_LINE
      case Dropped => mask == NACK_LINE && val == NO_LINE
      case Pulsed => mask == NACK_LINE && val == NACK_LINE
      case _ => false
    }

    /** What the stage waits for is there. */
    predicate Arrived(s: Status) {
      match stage
      case Asked(_) => s.pError && s.select && s.nFault && !s.nAck
      case Released(_) => s.nAck
      case EcpSetup(_) => s.pError
      case Dropped => !s.nAck
      case Pulsed => s.nAck
      case _ => false
    }

    function Next(): Stage {
      match stage
      case Asked(req) => Acknowledged(req)
      case Released(req) => Ready(req)
      case EcpSetup(req) => EcpForward(req)
      case Dropped => DropSeen
      case Pulsed => PulseSeen
      case _ => stage
    }

    function Sampled(s: Status): Referee {
      if !watching then this
      else if stage.Ready? then Referee(Answered(stage.req, s.select), true)
      else if Arrived(s) then Referee(Next(), true)
      else this
    }

    ghost predicate Waited(r: Referee, mask: Status, val: Status, ok: bool) {
      && (!watching || stage.Quiet? ==> r == this)
      && (watching && Awaits(mask, val) ==> r == Referee(if ok then Next() else stage, true))
    }
  }

  // ---------------------------------------------------------------- device

  datatype Device =
    | Printing(printer: Printer)
    | Receiving(receiver: Receiver)
    | Sending(sender: Sender)
    | Refereed(referee: Referee)
  {
    /** The peripheral moves its status and data lines. */
    function Moved(w: Wires, status: Status, din: byte): Device {
      if Sending? then Sending(sender.Moved(w, status, din))
      else if Receiving? then Receiving(receiver.Moved(w, status))
      else this
    }

    /** The host drives new levels on the control lines, or turns its data drivers. */
    function Controlled(w: Wires, lines: Lines, reverse: bool): Device {
      match this
      case Printing(p) => Printing(p.Controlled(w, lines, reverse))
      case Receiving(r) => Receiving(r.Controlled(w, lines, reverse))
      case Sending(s) => Sending(s.Controlled(w, lines))
      case Refereed(r) => Refereed(r.Controlled(w, lines))
    }

    /** The host writes its data register. */
    function Loaded(w: Wires, dout: byte): Device {
      match this
      case Printing(p) => Printing(p.Loaded(w, dout))
      case Receiving(r) => Receiving(r.Loaded(w, dout))
      case Sending(_) => this
      case Refereed(r) => Refereed(r.Loaded())
    }

    /** The host samples the status lines. */
    function Sampled(s: Status): Device {
      if Printing? then Printing(printer.Sampled(s))
      else if Refereed? then Refereed(referee.Sampled(s))
      else this
    }

    /** What a wait may have done, whatever the number of polls and of moves between
        them. */
    ghost predicate Waited(w: Wires, d: Device, w': Wires, mask: Status, val: Status, ok: bool) {
      match this
      case Printing(p) => d.Printing? && p.Waited(d.printer, w')
      case Receiving(r) => d.Receiving? && r.Waited(w, d.receiver, w')
      case Sending(s) => d.Sending? && s.Waited(w, d.sender, w')
      case Refereed(r) => d.Refereed? && r.Waited(d.referee, mask, val, ok)
    }

    ghost predicate Conforms() {
      match this
      case Receiving(r) => r.conforms
      case Sending(s) => s.conforms
      case _ => true
    }
  }

  /** The peripheral moves, then the host drives the control lines and the direction of w'. */
  function Driven(d: Device, w: Wires, w': Wires): Device {
    d.Moved(w, w'.status, w'.din).Controlled(w'.(lines := w.lines, reversed := w.reversed), w'.lines,
                                                w'.reversed)
  }

  /** A poll. */
  function Polled(d: Device, w: Wires, s: Status, n: byte): Device {
    d.Moved(w, s, n).Sampled(s)
  }

  lemma WaitedOnce(d: Device, w: Wires, s: Status, n: byte, mask: Status, val: Status)
    ensures d.Waited(w, Polled(d, w, s, n), w.(status := s, din := n), mask, val, Matches(s, mask, val))
  {
  }

  lemma WaitedMore(d: Device, w: Wires, d': Device, w': Wires, s: Status, n: byte, mask: Status, val: Status)
    requires d.Waited(w, d', w', mask, val, false)
    requires w'.lines == w.lines && w'.dout == w.dout && w'.reversed == w.reversed
    ensures d.Waited(w, Polled(d', w', s, n), w'.(status := s, din := n), mask, val, Matches(s, mask, val))
  {
  }

  /** The peripheral makes any number of moves while the host holds its lines. */
  ghost function MovedOften(d: Device, w: Wires, moves: seq<(Status, byte)>): (Device, Wires)
    decreases |moves|
  {
    if moves == [] then (d, w)
    else
      var (status, din) := moves[0];
      MovedOften(d.Moved(w, status, din), w.(status := status, din := din), moves[1..])
  }

  /** How often a conforming peripheral moved between two host actions cannot be
      told: any number of moves is one move to where it ended. */
  lemma {:induction false} MovesCollapse(d: Device, w: Wires, moves: seq<(Status, byte)>)
    requires MovedOften(d, w, moves).0.Conforms()
    ensures d.Conforms()
    ensures var (d', w') := MovedOften(d, w, moves);
            d' == d.Moved(w, w'.status, w'.din) && w' == w.(status := w'.status, din := w'.din)
    decreases |moves|
  {
    if moves != [] {
      var (status, din) := moves[0];
      MovesCollapse(d.Moved(w, status, din), w.(status := status, din := din), moves[1..]);
    }
  }

  /** The status levels by which a peripheral shows a nibble, nAck aside. */
  function ShowNibble(n: byte): Status {
    Status(n % 2 == 1, n / 2 % 2 == 1, n / 4 % 2 == 1, false, n / 8 % 2 == 1)
  }

  /** The sixteen nibbles and the levels of the four lines correspond one to one. */
  lemma NibbleLines(s: Status, n: byte)
    requires n < 16
    ensures NibbleOn(s) < 16
    ensures NibbleOn(s) == n <==> s.(nAck := false) == ShowNibble(n)
  {
  }
}
