/** Entering and leaving the IEEE 1284 modes: default_negotiate and default_terminate. */
module Negotiation {
  import opened Signals
  import opened Devices
  import opened Handshakes
  import opened Ports
  import opened EcpDirection

  // ---------------------------------------------------------------- termination

  /** What event 22 looks like from the other end. A sender that was already trailing
      behind `base` is still at most one byte ahead of it. */
  ghost predicate LetGo(base: Device, d0: Device, w0: Wires, d: Device, w: Wires) {
    && (w0.lines.nStrobe ==> Unmoved(d0, d, w))
    && (Abandonable(d0) ==> Stopped(d, d0.referee.stage))
    && (InSession(d0) && w0.lines.nSelectIn ==>
          && Gone(d0, d) && Trailing(d0, d, w)
          && (Trailing(base, d0, w0) ==> Gone(base, d) && Trailing(base, d, w)))
  }

  lemma LetGoDrive(base: Device, d0: Device, w0: Wires, w: Wires)
    requires w.lines == EVENT22
    ensures LetGo(base, d0, w0, Driven(d0, w0, w), w)
  {
    if Abandonable(d0) {
      Abandon(d0, w0, w);
    } else if InSession(d0) && w0.lines.nSelectIn {
      TrailStart(d0, w0, w);
      if Trailing(base, d0, w0) {
        TrailDrive(base, d0, w0, w);
      }
    }
    if w0.lines.nStrobe {
      UnmovedDrive(d0, d0, w0, w);
    }
  }

  lemma LetGoWait(base: Device, d0: Device, w0: Wires, d: Device, w: Wires, d': Device, w': Wires, ok: bool)
    requires LetGo(base, d0, w0, d, w)
    requires d.Waited(w, d', w', NACK_LINE, NO_LINE, ok) && SameHost(w, w')
    ensures LetGo(base, d0, w0, d', w')
  {
    if Abandonable(d0) {
      StoppedWait(d, w, d', w', NACK_LINE, NO_LINE, ok, d0.referee.stage);
    } else if InSession(d0) && w0.lines.nSelectIn {
      TrailWait(d0, d, w, d', w', NACK_LINE, NO_LINE, ok);
      if Trailing(base, d0, w0) {
        TrailWait(base, d, w, d', w', NACK_LINE, NO_LINE, ok);
      }
    }
    if w0.lines.nStrobe {
      UnmovedWait(d0, d, w, d', w', NACK_LINE, NO_LINE, ok);
    }
  }

  /** Event 22, and wait for event 24. */
  method DropSelectIn(port: Port, ghost base: Device) returns (r: int)
    modifies port
    ensures port.current_mode == M1284_COMPAT
    ensures unchanged(port`current_channel, port`current_phase)
    ensures port.cable.reversed == old(port.cable).reversed
    ensures port.cable.dout == old(port.cable).dout && port.cable.lines == EVENT22
    ensures r == E1284_OK || r == E1284_TIMEDOUT
    ensures old(port.looks) <= port.looks
    ensures port.Latest().lines == EVENT22 && (r == E1284_OK <==> !port.Latest().status.nAck)
    ensures port.timeouts == old(port.timeouts) + (if r == E1284_OK then 0 else 1)
    ensures port.hazards == old(port.hazards) + old(port.HazardBy(port.cable.lines, EVENT22))
    ensures LetGo(base, old(port.device), old(port.cable), port.device, port.cable)
    ensures Watching(old(port.device), Quiet) ==>
              Watching(port.device, if r == E1284_OK then DropSeen else Dropped)
  {
    ghost var d0, w0 := port.device, port.cable;
    port.WriteControl(C1284_NINIT | C1284_NAUTOFD | C1284_NSTROBE);
    port.current_mode := M1284_COMPAT;
    ghost var d1, w1 := port.device, port.cable;
    LetGoDrive(base, d0, w0, w1);
    assert Watching(d0, Quiet) ==> Watching(d1, Dropped);
    r := port.WaitStatus(S1284_NACK, 0);
    LetGoWait(base, d0, w0, d1, w1, port.device, port.cable, r == E1284_OK);
  }

  /** Events 25-28. */
  method FinishDrop(port: Port)
    requires port.cable.lines == EVENT22
    modifies port
    ensures unchanged(port`current_mode, port`current_channel, port`current_phase, port`hazards)
    ensures port.cable.reversed == old(port.cable).reversed
    ensures port.cable.dout == old(port.cable).dout
    ensures port.cable.lines == if port.timeouts == old(port.timeouts) then EVENT22 else EVENT25
    ensures old(port.timeouts) <= port.timeouts <= old(port.timeouts) + 1
    ensures port.Latest().lines == EVENT25
    ensures port.Latest().status.nAck <==> port.timeouts == old(port.timeouts)
    ensures old(port.looks) <= port.looks
    ensures Unmoved(old(port.device), port.device, port.cable)
    ensures Watching(old(port.device), DropSeen) ==>
              Watching(port.device, if port.timeouts == old(port.timeouts) then Home else Pulsed)
  {
    ghost var d0, w0 := port.device, port.cable;
    port.WriteControl(C1284_NINIT | C1284_NSTROBE);
    ghost var d1, w1 := port.device, port.cable;
    var r := port.WaitStatus(S1284_NACK, S1284_NACK);
    ghost var d2, w2 := port.device, port.cable;
    UnmovedDrive(d0, d0, w0, w1);
    UnmovedWait(d0, d1, w1, d2, w2, NACK_LINE, NACK_LINE, r == E1284_OK);
    if r != E1284_OK {
      return;
    }
    port.WriteControl(C1284_NINIT | C1284_NAUTOFD | C1284_NSTROBE);
    UnmovedDrive(d0, d2, w2, port.cable);
  }

  /** How a closing handshake watched from the start ends: complete, or waiting for an
      event the peripheral owes. */
  ghost predicate Closed(d: Device, w: Wires) {
    || (Watching(d, Home) && w.lines == EVENT22)
    || (Watching(d, Dropped) && w.lines == EVENT22)
    || (Watching(d, Pulsed) && w.lines == EVENT25)
  }

  /** Where the closing handshake got, by the last look at the peripheral: event 24 did not come
      (nAck still high after event 22), or event 27 did not (still low after event 25), or it
      did and event 28 is done. */
  ghost predicate Ended(port: Port)
    reads port
  {
    var last := port.Latest();
    || (last.lines == EVENT22 && last.status.nAck && port.cable.lines == EVENT22)
    || (last.lines == EVENT25 && port.cable.lines == if last.status.nAck then EVENT22 else EVENT25)
  }

  /** From reverse idle phase the channel has been turned forward, or that failed and the
      direction is as before; from any other phase nothing has changed. */
  predicate LeavesReverse(phase: Phase, reversed: bool, phase': Phase, reversed': bool) {
    if phase == PH1284_REV_IDLE then
      if phase' == PH1284_FWD_IDLE then !reversed' else phase' == PH1284_ECP_DIR_UNKNOWN && reversed' == reversed
    else phase' == phase && reversed' == reversed
  }

  /** Whatever the peripheral does, compatibility mode. From reverse idle the channel is
      first turned forward, or at least that is tried. */
  method Terminate(port: Port)
    modifies port
    ensures port.current_mode == M1284_COMPAT && port.current_channel == old(port.current_channel)
    ensures port.cable.dout == old(port.cable).dout
    ensures Ended(port)
    ensures port.hazards == old(port.hazards) && port.timeouts >= old(port.timeouts)
    ensures old(port.looks) <= port.looks
    ensures LeavesReverse(old(port.current_phase), old(port.cable).reversed, port.current_phase, port.cable.reversed)
    ensures port.current_phase == PH1284_ECP_DIR_UNKNOWN && old(port.current_phase) == PH1284_REV_IDLE ==>
              port.timeouts > old(port.timeouts)
    ensures old(port.cable).lines.nStrobe ==> Unmoved(old(port.device), port.device, port.cable)
    ensures InSession(old(port.device)) && old(port.cable).lines.nSelectIn && old(port.cable).lines.nStrobe ==>
              Gone(old(port.device), port.device)
    ensures Abandonable(old(port.device)) && old(port.cable).lines.nStrobe ==>
              Stopped(port.device, old(port.device).referee.stage)
    ensures
      var turnFailed := old(port.current_phase) == PH1284_REV_IDLE && port.current_phase == PH1284_ECP_DIR_UNKNOWN;
      && Watching(old(port.device), Quiet)
      && (old(port.current_phase) == PH1284_REV_IDLE ==> old(port.cable).lines.nSelectIn) ==>
        && Closed(port.device, port.cable)
        && (Watching(port.device, Home) <==> port.timeouts == old(port.timeouts) + if turnFailed then 1 else 0)
  {
    ghost var d0, w0 := port.device, port.cable;
    if port.current_phase == PH1284_REV_IDLE {
      var _ := RevToFwd(port);
    }
    ghost var d1, w1 := port.device, port.cable;
    var r := DropSelectIn(port, d0);
    ghost var d2, w2 := port.device, port.cable;
    if r == E1284_OK {
      FinishDrop(port);
      if w0.lines.nStrobe {
        UnmovedTwice(d1, d2, w2, port.device, port.cable);
      }
    }
    if w0.lines.nStrobe {
      UnmovedTwice(d0, d1, w1, port.device, port.cable);
    }
  }

  // ---------------------------------------------------------------- negotiation

  /** The extensibility request for a mode, as an int before it is cut to a byte. */
  function RequestFor(mode: int): int {
    if HasBit(mode, M1284_FLAG_EXT_LINK) then 0x80
    else if mode == M1284_ECPSWE then M1284_ECP
    else if mode == M1284_EPPSL || mode == M1284_EPPSWE then M1284_EPP
    else if mode == M1284_BECP then 0x18
    else mode
  }

  function RequestByte(mode: int): byte {
    RequestFor(mode) % 256
  }

  /** What is asked for in each mode. A software-emulated or variant mode asks for what its base
      mode asks for; the extensibility link, bounded ECP and every other mode have requests of
      their own. Events 30 and 31 go with exactly the requests that have bit 4 set. */
  lemma Requests(mode: int)
    ensures HasBit(mode, 0x4000) ==> RequestByte(mode) == 0x80
    ensures mode == M1284_ECPSWE ==> RequestByte(mode) == RequestByte(M1284_ECP) == 0x10
    ensures mode == M1284_EPPSL || mode == M1284_EPPSWE ==> RequestByte(mode) == RequestByte(M1284_EPP) == 0x40
    ensures mode == M1284_BECP ==> RequestByte(mode) == 0x18
    ensures !HasBit(mode, 0x4000) && mode != M1284_ECPSWE && mode != M1284_EPPSL && mode != M1284_EPPSWE
            && mode != M1284_BECP ==>
              RequestByte(mode) == mode % 0x100
    ensures IsEcp(mode) <==> RequestByte(mode) / 0x10 % 2 == 1
  {
    LowByteBit(RequestFor(mode));
  }

  lemma LowByteBit(m: int)
    ensures m / 0x10 % 2 == m % 0x100 / 0x10 % 2
  {
    var h, low := m / 0x100, m % 0x100;
    var a, b := low / 0x10, low % 0x10;
    Sixteens(0x10 * h + a, b);
    assert m == 0x10 * (0x10 * h + a) + b;
    Twos(0x08 * h, a);
  }

  lemma Sixteens(x: int, r: nat)
    requires r < 0x10
    ensures (0x10 * x + r) / 0x10 == x
  {
  }

  lemma Twos(x: int, a: int)
    ensures (2 * x + a) % 2 == a % 2
  {
  }

  /** Events 0 and 1, and the wait for event 2. The request is what is on the data lines when
      the peripheral is selected. */
  method AskForMode(port: Port, m: byte) returns (r: int, ghost edge: Wires)
    modifies port
    ensures unchanged(port`current_mode, port`current_channel, port`current_phase)
    ensures port.cable.reversed == old(port.cable).reversed
    ensures r == E1284_OK || r == E1284_TIMEDOUT
    ensures port.timeouts == old(port.timeouts) + (if r == E1284_OK then 0 else 1)
    ensures port.hazards == old(port.hazards)
    ensures port.cable.dout == m && port.cable.lines == EVENT1
    ensures edge.dout == m && edge.reversed == old(port.cable).reversed && edge.lines == EVENT1
    ensures Watching(old(port.device), Quiet) ==>
              Watching(port.device, if r == E1284_OK then Acknowledged(edge.Data()) else Asked(edge.Data()))
  {
    port.WriteData(m);
    assert Watching(old(port.device), Quiet) ==> Watching(port.device, Quiet);
    port.FrobControl(C1284_NSELECTIN | C1284_NSTROBE | C1284_NINIT | C1284_NAUTOFD,
                     C1284_NSELECTIN | C1284_NSTROBE | C1284_NINIT);
    edge := port.cable;
    assert Watching(old(port.device), Quiet) ==> Watching(port.device, Asked(edge.Data()));
    r := port.WaitStatus(S1284_PERROR | S1284_SELECT | S1284_NFAULT | S1284_NACK,
                         S1284_PERROR | S1284_SELECT | S1284_NFAULT);
  }

  /** Events 3 and 4, and the wait for event 6. */
  method StrobeMode(port: Port, ghost m: byte) returns (r: int)
    requires port.cable.lines == EVENT1
    modifies port
    ensures unchanged(port`current_mode, port`current_channel, port`current_phase)
    ensures port.cable.reversed == old(port.cable).reversed
    ensures r == E1284_OK || r == E1284_TIMEDOUT
    ensures port.timeouts == old(port.timeouts) + (if r == E1284_OK then 0 else 1)
    ensures port.hazards == old(port.hazards)
    ensures port.cable.dout == old(port.cable).dout && port.cable.lines == EVENT4
    ensures Watching(old(port.device), Acknowledged(m)) ==>
              Watching(port.device, if r == E1284_OK then Ready(m) else Released(m))
  {
    port.FrobControl(C1284_NSTROBE, 0);
    port.FrobControl(C1284_NSTROBE | C1284_NAUTOFD, C1284_NSTROBE | C1284_NAUTOFD);
    r := port.WaitStatus(S1284_NACK, S1284_NACK);
  }

  /** Events 0 to 6. */
  method Request(port: Port, m: byte) returns (r: int, ghost edge: Wires)
    modifies port
    ensures unchanged(port`current_mode, port`current_channel, port`current_phase, port`hazards)
    ensures port.cable.reversed == old(port.cable).reversed
    ensures r == E1284_OK || r == E1284_TIMEDOUT
    ensures port.timeouts == old(port.timeouts) + (if r == E1284_OK then 0 else 1)
    ensures port.cable.lines == EVENT4 || (r != E1284_OK && port.cable.lines == EVENT1)
    ensures port.cable.dout == m
    ensures edge.dout == m && edge.reversed == old(port.cable).reversed && edge.lines == EVENT1
    ensures Watching(old(port.device), Quiet) ==>
              if r == E1284_OK then Watching(port.device, Ready(edge.Data()))
              else Watching(port.device, Asked(edge.Data())) || Watching(port.device, Released(edge.Data()))
  {
    r, edge := AskForMode(port, m);
    if r == E1284_OK {
      r := StrobeMode(port, edge.Data());
    }
  }

  /** Event 30, and the wait for event 31. */
  method SetUpEcp(port: Port, ghost m: byte) returns (r: int)
    requires port.cable.lines == EVENT4
    modifies port
    ensures unchanged(port`current_mode, port`hazards)
    ensures port.cable.reversed == old(port.cable).reversed
    ensures r == E1284_OK || r == E1284_TIMEDOUT
    ensures port.timeouts == old(port.timeouts) + (if r == E1284_OK then 0 else 1)
    ensures port.cable.dout == old(port.cable).dout && port.cable.lines == EVENT1
    ensures port.current_channel == (if r == E1284_OK then 0 else old(port.current_channel))
    ensures port.current_phase == (if r == E1284_OK then PH1284_FWD_IDLE else old(port.current_phase))
    ensures forall select :: Watching(old(port.device), Answered(m, select)) ==>
              Watching(port.device, if r == E1284_OK then EcpForward(m) else EcpSetup(m))
  {
    port.FrobControl(C1284_NAUTOFD, 0);
    r := port.WaitStatus(S1284_PERROR, S1284_PERROR);
    if r == E1284_OK {
      port.current_channel := 0;
      port.current_phase := PH1284_FWD_IDLE;
    }
  }

  /** Does the mode need the extra signalling of ECP? */
  predicate IsEcp(mode: int) {
    HasBit(RequestFor(mode), M1284_ECP)
  }

  /** The stage that ends a successful negotiation with this request. */
  function Agreed(mode: int, req: byte): Stage {
    if IsEcp(mode) then EcpForward(req) else Answered(req, mode != 0)
  }

  /** A stage at which an event owed by the peripheral did not come in time. */
  ghost predicate Owed(stage: Stage, m: byte) {
    stage == Asked(m) || stage == Released(m) || stage == EcpSetup(m)
  }

  /** The events of a negotiation, up to where it is settled or abandoned. */
  method Attempt(port: Port, mode: int) returns (ret: int, ghost edge: Wires)
    modifies port
    ensures ret == E1284_OK || ret == E1284_NEGFAILED || ret == E1284_REJECTED
    ensures edge.dout == RequestByte(mode) && edge.reversed == old(port.cable).reversed && edge.lines == EVENT1
    ensures port.cable.reversed == old(port.cable).reversed && port.hazards == old(port.hazards)
    ensures port.timeouts == old(port.timeouts) + (if ret == E1284_NEGFAILED then 1 else 0)
    ensures port.cable.lines.nSelectIn && port.cable.lines.nStrobe && port.cable.dout == edge.dout
    ensures ret == E1284_OK ==>
              && port.current_mode == mode && port.cable.lines == (if IsEcp(mode) then EVENT1 else EVENT4)
              && (IsEcp(mode) ==> port.current_channel == 0)
    ensures port.current_phase == if ret == E1284_OK && IsEcp(mode) then PH1284_FWD_IDLE else old(port.current_phase)
    ensures Watching(old(port.device), Quiet) ==>
              && port.device.Refereed? && port.device.referee.watching
              && var stage := port.device.referee.stage;
                 if ret == E1284_OK then stage == Agreed(mode, edge.Data())
                 else if ret == E1284_REJECTED then stage == Answered(edge.Data(), mode == 0)
                 else Owed(stage, edge.Data())
  {
    ghost var quiet := Watching(port.device, Quiet);
    var r;
    r, edge := Request(port, RequestByte(mode));
    ghost var m := edge.Data();
    if r != E1284_OK {
      return E1284_NEGFAILED, edge;
    }
    port.current_mode := if mode == 0 then 1 else 0;
    var s := port.ReadStatus();
    assert quiet ==> Watching(port.device, Answered(m, s.select));
    if s.select != (mode != 0) {
      return E1284_REJECTED, edge;
    }
    port.current_mode := mode;
    if IsEcp(mode) {
      r := SetUpEcp(port, m);
      if r != E1284_OK {
        return E1284_NEGFAILED, edge;
      }
    }
    return E1284_OK, edge;
  }

  /** Negotiate a mode. The three outcomes are told apart exactly by how far the handshake
      came, as a referee on the cable sees it. The request it sees is the one for the mode if
      the data drivers are on; otherwise it is the peripheral's own levels at event 1. */
  method Negotiate(port: Port, mode: int) returns (ret: int, ghost edge: Wires)
    modifies port
    ensures edge.dout == RequestByte(mode) && edge.reversed == old(port.cable).reversed
    ensures edge.Data() == if old(port.cable).reversed then edge.din else RequestByte(mode)
    ensures mode != old(port.current_mode) && mode != M1284_COMPAT ==>
              edge.lines == EVENT1 && port.cable.dout == edge.dout
    ensures IsEcp(mode) <==> edge.dout / 0x10 % 2 == 1
    ensures port.cable.reversed ==> old(port.cable).reversed
    ensures ret == E1284_OK || ret == E1284_NEGFAILED || ret == E1284_REJECTED
    ensures port.current_mode == if ret == E1284_OK then mode else M1284_COMPAT
    ensures port.hazards == old(port.hazards) && port.timeouts >= old(port.timeouts)
    ensures mode == old(port.current_mode) ==>
              ret == E1284_OK && unchanged(port)
    ensures mode != old(port.current_mode) ==>
              (port.cable.lines.nSelectIn <==> port.current_mode != M1284_COMPAT) && port.cable.lines.nStrobe
    ensures mode == M1284_COMPAT ==> ret == E1284_OK
    ensures mode != old(port.current_mode) && (mode == M1284_COMPAT || ret != E1284_OK) ==> Ended(port)
    ensures mode != old(port.current_mode) && mode != M1284_COMPAT && Watching(old(port.device), Quiet) ==>
              && (ret == E1284_OK <==> Watching(port.device, Agreed(mode, edge.Data())))
              && (ret == E1284_REJECTED <==> Stopped(port.device, Answered(edge.Data(), mode == 0)))
              && (ret == E1284_NEGFAILED <==>
                    port.device.Refereed? && !port.device.referee.watching
                    && Owed(port.device.referee.stage, edge.Data()))
    ensures ret == E1284_OK && mode != old(port.current_mode) && mode != M1284_COMPAT ==>
              && port.timeouts == old(port.timeouts)
              && port.cable.reversed == old(port.cable).reversed
              && (IsEcp(mode) ==> port.current_channel == 0)
              && port.current_phase == (if IsEcp(mode) then PH1284_FWD_IDLE else old(port.current_phase))
    ensures ret == E1284_OK && mode != old(port.current_mode) && mode != M1284_COMPAT ==>
              port.cable.lines == if IsEcp(mode) then EVENT1 else EVENT4
    ensures ret != E1284_OK || (mode == M1284_COMPAT && mode != old(port.current_mode)) ==>
              LeavesReverse(old(port.current_phase), old(port.cable).reversed, port.current_phase, port.cable.reversed)
    ensures ret == E1284_NEGFAILED ==> port.timeouts > old(port.timeouts)
  {
    edge := port.cable.(dout := RequestByte(mode));
    Requests(mode);
    if mode == port.current_mode {
      return E1284_OK, edge;
    }
    if mode == M1284_COMPAT {
      Terminate(port);
      return E1284_OK, edge;
    }
    ret, edge := Attempt(port, mode);
    if ret != E1284_OK {
      Terminate(port);
    }
  }
}
