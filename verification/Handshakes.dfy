/** How far a handshake has come, as seen from the other end of the cable, and how
    each host action moves it on. Every predicate compares a device with what it was
    at some earlier time; every lemma is one host action. */
module Handshakes {
  import opened Signals
  import opened Devices

  // ---------------------------------------------------------------- sender

  /** The sender of protocol p is still live and, if it still conforms, it conformed
      before and has since sent exactly `cells`. */
  ghost predicate Sent(p: Protocol, d0: Device, d: Device, cells: seq<Cell>) {
    && d0.Sending? && d.Sending? && d.sender.protocol == p && d.sender.live
    && (d.Conforms() ==> d0.Conforms() && d.sender.sent == d0.sender.sent + cells)
  }

  /** No byte is under way: either nothing is presented, or it is not acknowledged. */
  ghost predicate Resting(p: Protocol, d0: Device, d: Device, w: Wires, cells: seq<Cell>) {
    Sent(p, d0, d, cells) && (d.Conforms() && w.lines.nAutoFd ==> !p.Offering(w.status))
  }

  /** The host asks for a byte. */
  ghost predicate Asking(p: Protocol, d0: Device, d: Device, w: Wires, cells: seq<Cell>) {
    Sent(p, d0, d, cells) && !w.lines.nAutoFd
  }

  /** The host asks for a byte and `cell` is presented. */
  ghost predicate Offered(p: Protocol, d0: Device, d: Device, w: Wires, cells: seq<Cell>, cell: Cell) {
    Asking(p, d0, d, w, cells) &&
    (d.Conforms() ==> p.Offering(w.status) && p.Offer(w.status, w.din) == cell)
  }

  /** The host has acknowledged `cell`, which the sender has yet to withdraw. */
  ghost predicate Taken(p: Protocol, d0: Device, d: Device, w: Wires, cells: seq<Cell>, cell: Cell) {
    && Sent(p, d0, d, cells) && w.lines.nAutoFd
    && (d.Conforms() ==> p.Offering(w.status) && p.Offer(w.status, w.din) == cell)
  }

  /** A sender in the middle of nothing. */
  ghost predicate SenderReady(p: Protocol, d: Device, w: Wires) {
    && d.Sending? && d.sender.protocol == p && d.sender.live
    && (d.Conforms() && w.lines.nAutoFd ==> !p.Offering(w.status))
  }

  /** w' differs from w in the peripheral's lines only. */
  predicate SameHost(w: Wires, w': Wires) {
    w' == w.(status := w'.status, din := w'.din)
  }

  predicate Stays(p: Protocol, w: Wires, w': Wires) {
    p.EppRead? || !w.lines.nSelectIn || w'.lines.nSelectIn
  }

  /** The host asks for a byte, and one that was on offer in w0 is on offer still. */
  ghost predicate Keeps(p: Protocol, d0: Device, w0: Wires, d: Device, w: Wires) {
    && Asking(p, d0, d, w, [])
    && (p.Offering(w0.status) ==> Offered(p, d0, d, w, [], p.Offer(w0.status, w0.din)))
  }

  lemma KeepsLower(p: Protocol, d: Device, w: Wires, w': Wires)
    requires SenderReady(p, d, w) && Stays(p, w, w') && !w'.lines.nAutoFd
    ensures Keeps(p, d, w, Driven(d, w, w'), w')
  {
  }

  lemma KeepsDrive(p: Protocol, d0: Device, w0: Wires, d: Device, w: Wires, w': Wires)
    requires Keeps(p, d0, w0, d, w) && Stays(p, w, w') && !w'.lines.nAutoFd
    ensures Keeps(p, d0, w0, Driven(d, w, w'), w')
  {
  }

  lemma KeepsWait(p: Protocol, d0: Device, w0: Wires, d: Device, w: Wires, d': Device, w': Wires,
                  m: Status, v: Status, ok: bool)
    requires Keeps(p, d0, w0, d, w)
    requires d.Waited(w, d', w', m, v, ok) && SameHost(w, w')
    ensures Keeps(p, d0, w0, d', w')
  {
  }

  lemma Lower(p: Protocol, d0: Device, d: Device, w: Wires, w': Wires, cells: seq<Cell>)
    requires Resting(p, d0, d, w, cells) && Stays(p, w, w') && !w'.lines.nAutoFd
    ensures Asking(p, d0, Driven(d, w, w'), w', cells)
    ensures Driven(d, w, w').Conforms() ==> d.Conforms()
  {
  }

  lemma AskWait(p: Protocol, d0: Device, d: Device, w: Wires, d': Device, w': Wires,
                m: Status, v: Status, ok: bool, cells: seq<Cell>)
    requires Asking(p, d0, d, w, cells)
    requires d.Waited(w, d', w', m, v, ok) && SameHost(w, w')
    ensures Asking(p, d0, d', w', cells)
    ensures d'.Conforms() ==> d.Conforms()
    ensures p.Offering(w'.status) ==> Offered(p, d0, d', w', cells, p.Offer(w'.status, w'.din))
    ensures p.Offering(w.status) ==> Offered(p, d0, d', w', cells, p.Offer(w.status, w.din))
  {
  }

  lemma OfferHeld(p: Protocol, d0: Device, d: Device, w: Wires, w': Wires, cells: seq<Cell>, cell: Cell)
    requires Offered(p, d0, d, w, cells, cell) && SameHost(w, w')
    ensures Offered(p, d0, d.Moved(w, w'.status, w'.din), w', cells, cell)
    ensures d.Moved(w, w'.status, w'.din).Conforms() ==> d.Conforms()
    ensures Polled(d, w, w'.status, w'.din) == d.Moved(w, w'.status, w'.din)
  {
  }

  lemma Raise(p: Protocol, d0: Device, d: Device, w: Wires, w': Wires, cells: seq<Cell>, cell: Cell)
    requires Offered(p, d0, d, w, cells, cell) && Stays(p, w, w') && w'.lines.nAutoFd
    ensures Taken(p, d0, Driven(d, w, w'), w', cells, cell)
    ensures Driven(d, w, w').Conforms() ==> d.Conforms()
  {
  }

  /** Raising nAutoFd although nothing was seen. */
  lemma RaiseAnyway(p: Protocol, d0: Device, d: Device, w: Wires, w': Wires, cells: seq<Cell>)
    requires Asking(p, d0, d, w, cells) && Stays(p, w, w') && w'.lines.nAutoFd
    ensures Sent(p, d0, Driven(d, w, w'), cells)
  {
  }

  lemma TakenWait(p: Protocol, d0: Device, d: Device, w: Wires, d': Device, w': Wires,
                  m: Status, v: Status, ok: bool, cells: seq<Cell>, cell: Cell)
    requires Taken(p, d0, d, w, cells, cell)
    requires d.Waited(w, d', w', m, v, ok) && SameHost(w, w')
    ensures !p.Offering(w'.status) ==> Resting(p, d0, d', w', cells + [cell])
    ensures p.Offering(w'.status) ==> Taken(p, d0, d', w', cells, cell)
    ensures d'.Conforms() ==> d.Conforms()
  {
    if !p.Offering(w'.status) && d'.Conforms() {
      assert d0.sender.sent + cells + [cell] == d0.sender.sent + (cells + [cell]);
    }
  }

  /** Control operations that do not touch nAutoFd. */
  lemma AskingHeld(p: Protocol, d0: Device, d: Device, w: Wires, w': Wires, cells: seq<Cell>)
    requires Asking(p, d0, d, w, cells) && Stays(p, w, w') && !w'.lines.nAutoFd
    ensures Asking(p, d0, Driven(d, w, w'), w', cells)
  {
  }

  lemma RestingHeld(p: Protocol, d0: Device, d: Device, w: Wires, w': Wires, cells: seq<Cell>)
    requires Resting(p, d0, d, w, cells) && Stays(p, w, w') && w'.lines.nAutoFd == w.lines.nAutoFd
    ensures Resting(p, d0, Driven(d, w, w'), w', cells)
  {
  }

  /** A control operation after the acknowledgement: the byte is withdrawn or it is not. */
  lemma TakenHeld(p: Protocol, d0: Device, d: Device, w: Wires, w': Wires, cells: seq<Cell>, cell: Cell)
    requires Taken(p, d0, d, w, cells, cell) && Stays(p, w, w') && w'.lines.nAutoFd
    ensures var d' := Driven(d, w, w');
            Sent(p, d0, d', cells) || Sent(p, d0, d', cells + [cell])
  {
    assert d0.sender.sent + cells + [cell] == d0.sender.sent + (cells + [cell]);
  }

  /** What is left of a sender the host has turned away from: at most one byte more,
      the one that was already acknowledged. */
  ghost predicate Trailing(d0: Device, d: Device, w: Wires) {
    && d0.Sending? && d.Sending? && !d.sender.protocol.EppRead? && d.sender.protocol == d0.sender.protocol
    && (d.Conforms() ==>
          && d0.Conforms() && OneMore(d0.sender.sent, d.sender.sent)
          && (d.sender.live ==> w.lines.nAutoFd && (d.sender.sent != d0.sender.sent ==> !d.sender.Offering(w))))
  }

  ghost predicate OneMore(s: seq<Cell>, t: seq<Cell>) {
    s <= t && |t| <= |s| + 1
  }

  /** The session is over. */
  ghost predicate Gone(d0: Device, d: Device) {
    && d0.Sending? && d.Sending? && !d.sender.live
    && (d.Conforms() ==> d0.Conforms() && OneMore(d0.sender.sent, d.sender.sent))
  }

  ghost predicate InSession(d: Device) {
    d.Sending? && !d.sender.protocol.EppRead?
  }

  lemma TrailStart(d: Device, w: Wires, w': Wires)
    requires InSession(d) && w'.lines.nAutoFd
    ensures Trailing(d, Driven(d, w, w'), w')
    ensures w.lines.nSelectIn && !w'.lines.nSelectIn ==> !Driven(d, w, w').sender.live
  {
  }

  lemma TrailDrive(d0: Device, d: Device, w: Wires, w': Wires)
    requires Trailing(d0, d, w) && (w'.lines.nAutoFd || !d.sender.live)
    ensures Trailing(d0, Driven(d, w, w'), w')
    ensures (w.lines.nSelectIn && !w'.lines.nSelectIn) || !d.sender.live ==> !Driven(d, w, w').sender.live
  {
  }

  lemma TrailWait(d0: Device, d: Device, w: Wires, d': Device, w': Wires, m: Status, v: Status, ok: bool)
    requires Trailing(d0, d, w)
    requires d.Waited(w, d', w', m, v, ok) && SameHost(w, w')
    ensures Trailing(d0, d', w') && d'.sender.live == d.sender.live
  {
  }

  lemma RestingPoll(p: Protocol, d0: Device, d: Device, w: Wires, w': Wires, cells: seq<Cell>)
    requires Resting(p, d0, d, w, cells) && SameHost(w, w')
    ensures Resting(p, d0, Polled(d, w, w'.status, w'.din), w', cells)
  {
  }

  /** Between two moments at which nStrobe is high, a sender saw n pulses of it. */
  ghost predicate SawPulses(d0: Device, w0: Wires, d: Device, w: Wires, n: nat) {
    d0.Sending? && w0.lines.nStrobe ==> d.Sending? && w.lines.nStrobe && d.sender.pulses == d0.sender.pulses + n
  }

  lemma PulsesDrive(d0: Device, w0: Wires, d: Device, w: Wires, w': Wires, n: nat)
    requires SawPulses(d0, w0, d, w, n) && w'.lines.nStrobe == w.lines.nStrobe
    ensures SawPulses(d0, w0, Driven(d, w, w'), w', n)
  {
  }

  lemma PulsesPoll(d0: Device, w0: Wires, d: Device, w: Wires, w': Wires, n: nat)
    requires SawPulses(d0, w0, d, w, n) && SameHost(w, w')
    ensures SawPulses(d0, w0, d.Moved(w, w'.status, w'.din), w', n)
    ensures SawPulses(d0, w0, Polled(d, w, w'.status, w'.din), w', n)
  {
  }

  lemma PulsesWait(d0: Device, w0: Wires, d: Device, w: Wires, d': Device, w': Wires,
                   m: Status, v: Status, ok: bool, n: nat)
    requires SawPulses(d0, w0, d, w, n)
    requires d.Waited(w, d', w', m, v, ok) && SameHost(w, w')
    ensures SawPulses(d0, w0, d', w', n)
  {
  }

  /** nStrobe low and high again. */
  lemma PulsesOnce(d: Device, w: Wires, w1: Wires, w2: Wires)
    requires !w1.lines.nStrobe && w2.lines.nStrobe
    ensures SawPulses(d, w, Driven(Driven(d, w, w1), w1, w2), w2, 1)
  {
  }

  lemma PulsesTwice(d0: Device, w0: Wires, d1: Device, w1: Wires, d2: Device, w2: Wires, m: nat, n: nat)
    requires SawPulses(d0, w0, d1, w1, m) && SawPulses(d1, w1, d2, w2, n)
    ensures SawPulses(d0, w0, d2, w2, m + n)
  {
  }

  lemma RestingChain(p: Protocol, d0: Device, d1: Device, w1: Wires, d2: Device, w2: Wires,
                     a: seq<Cell>, b: seq<Cell>)
    requires Resting(p, d0, d1, w1, a) && Resting(p, d1, d2, w2, b)
    ensures Resting(p, d0, d2, w2, a + b)
  {
    if d2.Conforms() {
      assert d0.sender.sent + a + b == d0.sender.sent + (a + b);
    }
  }

  // ---------------------------------------------------------------- receiver

  /** If it still conforms, the receiver conformed before and has since taken exactly
      `cells`; the bytes on the data lines at the rising clock edges were `bytes`. */
  ghost predicate Got(c: Clock, d0: Device, d: Device, cells: seq<Cell>, bytes: seq<byte>) {
    && d0.Receiving? && d.Receiving? && d.receiver.clock == c
    && d.receiver.clocked == d0.receiver.clocked + bytes
    && d.receiver.steady == d0.receiver.steady
    && (d.Conforms() ==> d0.Conforms() && d.receiver.acked == d0.receiver.acked + cells)
  }

  /** Clock high and Busy low: nothing under way. */
  ghost predicate Clear(c: Clock, d0: Device, d: Device, w: Wires, cells: seq<Cell>, bytes: seq<byte>) {
    Got(c, d0, d, cells, bytes) && c.Level(w.lines) && (d.Conforms() ==> !w.status.busy)
  }

  /** Clock low, `cell` given to the receiver: taken exactly when Busy is high. */
  ghost predicate Presented(c: Clock, d0: Device, d: Device, w: Wires, cells: seq<Cell>, bytes: seq<byte>, cell: Cell) {
    && !c.Level(w.lines) && cell == w.Given(c.Tag(w.lines))
    && Got(c, d0, d, if w.status.busy then cells + [cell] else cells, bytes)
  }

  /** Clock high again; Busy may still be high. */
  ghost predicate Closing(c: Clock, d0: Device, d: Device, w: Wires, cells: seq<Cell>, bytes: seq<byte>) {
    Got(c, d0, d, cells, bytes) && c.Level(w.lines)
  }

  /** A receiver in the middle of nothing. */
  ghost predicate ReceiverReady(c: Clock, d: Device, w: Wires) {
    && d.Receiving? && d.receiver.clock == c && c.Level(w.lines) && (d.Conforms() ==> !w.status.busy)
  }

  lemma GotChain(c: Clock, d0: Device, d1: Device, d2: Device,
                 cells1: seq<Cell>, bytes1: seq<byte>, cells2: seq<Cell>, bytes2: seq<byte>)
    requires Got(c, d0, d1, cells1, bytes1) && Got(c, d1, d2, cells2, bytes2)
    ensures Got(c, d0, d2, cells1 + cells2, bytes1 + bytes2)
  {
    assert d0.receiver.clocked + bytes1 + bytes2 == d0.receiver.clocked + (bytes1 + bytes2);
    if d2.Conforms() {
      assert d0.receiver.acked + cells1 + cells2 == d0.receiver.acked + (cells1 + cells2);
    }
  }

  lemma ClearLoad(c: Clock, d0: Device, d: Device, w: Wires, w': Wires, cells: seq<Cell>, bytes: seq<byte>)
    requires Clear(c, d0, d, w, cells, bytes) && w'.lines == w.lines
    ensures Clear(c, d0, d.Moved(w, w'.status, w'.din).Loaded(w, w'.dout), w', cells, bytes)
  {
  }

  lemma ClearDrive(c: Clock, d0: Device, d: Device, w: Wires, w': Wires, cells: seq<Cell>, bytes: seq<byte>)
    requires Clear(c, d0, d, w, cells, bytes) && c.Level(w'.lines)
    ensures Clear(c, d0, Driven(d, w, w'), w', cells, bytes)
  {
  }

  lemma ClearWait(c: Clock, d0: Device, d: Device, w: Wires, d': Device, w': Wires,
                  m: Status, v: Status, ok: bool, cells: seq<Cell>, bytes: seq<byte>)
    requires Clear(c, d0, d, w, cells, bytes)
    requires d.Waited(w, d', w', m, v, ok) && SameHost(w, w')
    ensures Clear(c, d0, d', w', cells, bytes)
  {
  }

  lemma Fall(c: Clock, d0: Device, d: Device, w: Wires, w': Wires, cells: seq<Cell>, bytes: seq<byte>)
    requires Clear(c, d0, d, w, cells, bytes) && !c.Level(w'.lines)
    ensures Presented(c, d0, Driven(d, w, w'), w', cells, bytes, w'.Given(c.Tag(w'.lines)))
  {
  }

  lemma PresentedDrive(c: Clock, d0: Device, d: Device, w: Wires, w': Wires,
                       cells: seq<Cell>, bytes: seq<byte>, cell: Cell)
    requires Presented(c, d0, d, w, cells, bytes, cell) && w'.dout == w.dout && w'.reversed == w.reversed
    requires !c.Level(w'.lines) && c.Tag(w'.lines) == c.Tag(w.lines)
    ensures Presented(c, d0, Driven(d, w, w'), w', cells, bytes, cell)
  {
  }

  lemma PresentedLoad(c: Clock, d0: Device, d: Device, w: Wires, w': Wires,
                      cells: seq<Cell>, bytes: seq<byte>, cell: Cell)
    requires Presented(c, d0, d, w, cells, bytes, cell) && SameHost(w, w')
    ensures Presented(c, d0, d.Moved(w, w'.status, w'.din).Loaded(w, w'.dout), w', cells, bytes, cell)
  {
  }

  lemma PresentedPoll(c: Clock, d0: Device, d: Device, w: Wires, w': Wires,
                      cells: seq<Cell>, bytes: seq<byte>, cell: Cell)
    requires Presented(c, d0, d, w, cells, bytes, cell) && SameHost(w, w')
    ensures Presented(c, d0, Polled(d, w, w'.status, w'.din), w', cells, bytes, cell)
  {
  }

  lemma PresentedWait(c: Clock, d0: Device, d: Device, w: Wires, d': Device, w': Wires,
                      m: Status, v: Status, ok: bool, cells: seq<Cell>, bytes: seq<byte>, cell: Cell)
    requires Presented(c, d0, d, w, cells, bytes, cell)
    requires d.Waited(w, d', w', m, v, ok) && SameHost(w, w')
    ensures Presented(c, d0, d', w', cells, bytes, cell)
  {
  }

  lemma Rise(c: Clock, d0: Device, d: Device, w: Wires, w': Wires,
             cells: seq<Cell>, bytes: seq<byte>, cell: Cell)
    requires Presented(c, d0, d, w, cells, bytes, cell) && w.status.busy
    requires c.Level(w'.lines) && w'.dout == w.dout && w'.reversed == w.reversed
    ensures Closing(c, d0, Driven(d, w, w'), w', cells + [cell], bytes + [w'.Data()])
  {
    assert d0.receiver.clocked + bytes + [w'.Data()] == d0.receiver.clocked + (bytes + [w'.Data()]);
  }

  lemma ClosingWait(c: Clock, d0: Device, d: Device, w: Wires, d': Device, w': Wires,
                    m: Status, v: Status, ok: bool, cells: seq<Cell>, bytes: seq<byte>)
    requires Closing(c, d0, d, w, cells, bytes)
    requires d.Waited(w, d', w', m, v, ok) && SameHost(w, w')
    ensures Closing(c, d0, d', w', cells, bytes)
  {
  }

  // ---------------------------------------------------------------- printer

  /** nStrobe is high, and the printer has since latched exactly `bytes`, the host
      behaving no worse than before. */
  ghost predicate Printed(d0: Device, d: Device, w: Wires, bytes: seq<byte>) {
    && d0.Printing? && d.Printing? && w.lines.nStrobe
    && d.printer.latched == d0.printer.latched + bytes && d.printer.clean == d0.printer.clean
  }

  lemma PrintedWait(d0: Device, d: Device, w: Wires, d': Device, w': Wires,
                    m: Status, v: Status, ok: bool, bytes: seq<byte>)
    requires Printed(d0, d, w, bytes)
    requires d.Waited(w, d', w', m, v, ok) && SameHost(w, w')
    ensures Printed(d0, d', w', bytes)
    ensures !w'.status.busy ==> d'.printer.ready
  {
  }

  /** Put a byte on the data lines and pulse nStrobe. */
  lemma Pulse(d0: Device, d: Device, w: Wires, w1: Wires, w2: Wires, w3: Wires, bytes: seq<byte>)
    requires Printed(d0, d, w, bytes) && d.printer.ready
    requires w1.lines == w.lines && !w2.lines.nStrobe && w3.lines.nStrobe
    requires w1.dout == w2.dout == w3.dout && w.reversed == w1.reversed == w2.reversed == w3.reversed
    ensures var d1 := d.Moved(w, w1.status, w1.din).Loaded(w, w1.dout);
            Printed(d0, Driven(Driven(d1, w1, w2), w2, w3), w3, bytes + [w2.Data()])
  {
    assert d0.printer.latched + bytes + [w2.Data()] == d0.printer.latched + (bytes + [w2.Data()]);
  }

  // ---------------------------------------------------------------- referee

  /** A negotiation the host may abandon here: what comes next, if anything, is owed
      by the peripheral, or the answer has been read. */
  predicate Abandonable(d: Device) {
    d.Refereed? && d.referee.watching &&
    (d.referee.stage.Asked? || d.referee.stage.Released? || d.referee.stage.EcpSetup? || d.referee.stage.Answered?)
  }

  predicate Watching(d: Device, stage: Stage) {
    d == Refereed(Referee(stage, true))
  }

  /** The referee stopped watching at this stage. */
  predicate Stopped(d: Device, stage: Stage) {
    d == Refereed(Referee(stage, false))
  }

  lemma Abandon(d: Device, w: Wires, w': Wires)
    requires Abandonable(d) && w'.lines != EVENT1
    ensures Stopped(Driven(d, w, w'), d.referee.stage)
  {
  }

  lemma StoppedDrive(d: Device, w: Wires, w': Wires, stage: Stage)
    requires Stopped(d, stage)
    ensures Stopped(Driven(d, w, w'), stage)
  {
  }

  lemma StoppedWait(d: Device, w: Wires, d': Device, w': Wires, m: Status, v: Status, ok: bool, stage: Stage)
    requires Stopped(d, stage) && d.Waited(w, d', w', m, v, ok)
    ensures Stopped(d', stage)
  {
  }

  /** Any control operation, and any wait, of a host that keeps nStrobe high and makes
      no step of a negotiation: what a printer, an abandoned referee and a sender out of
      session make of it. */
  ghost predicate Unmoved(d0: Device, d: Device, w: Wires) {
    && (d0.Printing? ==> Printed(d0, d, w, []))
    && (d0.Refereed? && !d0.referee.watching ==> d == d0)
    && (d0.Sending? && !d0.sender.live ==>
          d.Sending? && !d.sender.live && (d.Conforms() ==> d0.Conforms() && d.sender.sent == d0.sender.sent))
  }

  lemma UnmovedDrive(d0: Device, d: Device, w: Wires, w': Wires)
    requires Unmoved(d0, d, w) && w'.lines.nStrobe
    ensures Unmoved(d0, Driven(d, w, w'), w')
  {
  }

  lemma UnmovedWait(d0: Device, d: Device, w: Wires, d': Device, w': Wires, m: Status, v: Status, ok: bool)
    requires Unmoved(d0, d, w)
    requires d.Waited(w, d', w', m, v, ok) && SameHost(w, w')
    ensures Unmoved(d0, d', w')
  {
  }

  lemma UnmovedTwice(d0: Device, d1: Device, w1: Wires, d2: Device, w2: Wires)
    requires Unmoved(d0, d1, w1) && Unmoved(d1, d2, w2)
    ensures Unmoved(d0, d2, w2)
  {
  }

  lemma PrintedThenUnmoved(d0: Device, d: Device, w: Wires, d': Device, w': Wires, bytes: seq<byte>)
    requires Printed(d0, d, w, bytes) && Unmoved(d, d', w')
    ensures Printed(d0, d', w', bytes)
  {
  }
}
