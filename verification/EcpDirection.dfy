/** Turning the ECP channel round: default_ecp_fwd_to_rev and default_ecp_rev_to_fwd. */
module EcpDirection {
  import opened Signals
  import opened Devices
  import opened Handshakes
  import opened Ports

  /** Events 38-40. */
  method FwdToRev(port: Port) returns (retval: int)
    modifies port
    ensures retval == E1284_OK || retval == E1284_TIMEDOUT
    ensures port.timeouts == old(port.timeouts) + (if retval == E1284_OK then 0 else 1)
    ensures unchanged(port`current_mode, port`current_channel, port`hazards)
    ensures port.current_phase == if retval == E1284_OK then PH1284_REV_IDLE else PH1284_ECP_DIR_UNKNOWN
    ensures retval == E1284_OK <==> !port.cable.status.pError
    ensures port.cable.reversed
    ensures port.cable.lines == old(port.cable).lines.(nAutoFd := false, nInit := false)
    ensures port.cable.dout == old(port.cable).dout
    ensures SenderReady(EcpReverse, old(port.device), old(port.cable)) ==>
              Keeps(EcpReverse, old(port.device), old(port.cable), port.device, port.cable)
  {
    ghost var d0, w0 := port.device, port.cable;
    ghost var ready := SenderReady(EcpReverse, d0, w0);
    port.FrobControl(C1284_NAUTOFD, 0);
    ghost var d1, w1 := port.device, port.cable;
    if ready { KeepsLower(EcpReverse, d0, w0, w1); }
    port.DataDir(true);
    ghost var d2, w2 := port.device, port.cable;
    if ready { KeepsDrive(EcpReverse, d0, w0, d1, w1, w2); }
    port.FrobControl(C1284_NINIT, 0);
    ghost var d3, w3 := port.device, port.cable;
    if ready { KeepsDrive(EcpReverse, d0, w0, d2, w2, w3); }
    retval := port.WaitStatus(S1284_PERROR, 0);
    if ready {
      KeepsWait(EcpReverse, d0, w0, d3, w3, port.device, port.cable, PERROR_LINE, NO_LINE, retval == E1284_OK);
    }
    port.current_phase := if retval == E1284_OK then PH1284_REV_IDLE else PH1284_ECP_DIR_UNKNOWN;
  }

  /** What events 47-49 look like from the other end: the lines of w1 are driven, PError
      is awaited and, if it came, the data drivers are switched on. */
  ghost predicate TurnedForward(d0: Device, w0: Wires, d: Device, w: Wires) {
    && (ReceiverReady(HostClk, d0, w0) ==> Clear(HostClk, d0, d, w, [], []))
    && (InSession(d0) ==> Trailing(d0, d, w))
    && (w0.lines.nStrobe ==> Unmoved(d0, d, w))
    && (Abandonable(d0) ==> Stopped(d, d0.referee.stage))
    && (Watching(d0, Quiet) && w0.lines.nSelectIn ==> Watching(d, Quiet))
  }

  lemma ForwardDrive(d0: Device, w0: Wires, w: Wires)
    requires w.lines == w0.lines.(nAutoFd := true, nInit := true)
    ensures TurnedForward(d0, w0, Driven(d0, w0, w), w)
  {
    if ReceiverReady(HostClk, d0, w0) {
      ClearDrive(HostClk, d0, d0, w0, w, [], []);
    } else if InSession(d0) {
      TrailStart(d0, w0, w);
    } else if Abandonable(d0) {
      Abandon(d0, w0, w);
    } else if w0.lines.nStrobe {
      UnmovedDrive(d0, d0, w0, w);
    }
  }

  lemma ForwardWait(d0: Device, w0: Wires, d: Device, w: Wires, d': Device, w': Wires, ok: bool)
    requires TurnedForward(d0, w0, d, w) && w.lines == w0.lines.(nAutoFd := true, nInit := true)
    requires d.Waited(w, d', w', PERROR_LINE, PERROR_LINE, ok) && SameHost(w, w')
    ensures TurnedForward(d0, w0, d', w')
  {
    if ReceiverReady(HostClk, d0, w0) {
      ClearWait(HostClk, d0, d, w, d', w', PERROR_LINE, PERROR_LINE, ok, [], []);
    } else if InSession(d0) {
      TrailWait(d0, d, w, d', w', PERROR_LINE, PERROR_LINE, ok);
    } else if Abandonable(d0) {
      StoppedWait(d, w, d', w', PERROR_LINE, PERROR_LINE, ok, d0.referee.stage);
    } else if w0.lines.nStrobe {
      UnmovedWait(d0, d, w, d', w', PERROR_LINE, PERROR_LINE, ok);
    }
  }

  lemma ForwardSwitch(d0: Device, w0: Wires, d: Device, w: Wires, w': Wires)
    requires TurnedForward(d0, w0, d, w) && w.lines == w0.lines.(nAutoFd := true, nInit := true)
    requires w'.lines == w.lines
    ensures TurnedForward(d0, w0, Driven(d, w, w'), w')
  {
    if ReceiverReady(HostClk, d0, w0) {
      ClearDrive(HostClk, d0, d, w, w', [], []);
    } else if InSession(d0) {
      TrailDrive(d0, d, w, w');
    } else if Abandonable(d0) {
      StoppedDrive(d, w, w', d0.referee.stage);
    } else if w0.lines.nStrobe {
      UnmovedDrive(d0, d, w, w');
    }
  }

  /** Events 47-49. */
  method RevToFwd(port: Port) returns (retval: int)
    modifies port
    ensures retval == E1284_OK || retval == E1284_TIMEDOUT
    ensures port.timeouts == old(port.timeouts) + (if retval == E1284_OK then 0 else 1)
    ensures unchanged(port`current_mode, port`current_channel, port`hazards)
    ensures port.current_phase == if retval == E1284_OK then PH1284_FWD_IDLE else PH1284_ECP_DIR_UNKNOWN
    ensures old(port.looks) < port.looks && (retval == E1284_OK <==> port.Seen().pError)
    ensures port.cable.reversed == (retval != E1284_OK && old(port.cable).reversed)
    ensures port.cable.lines == old(port.cable).lines.(nAutoFd := true, nInit := true)
    ensures port.cable.dout == old(port.cable).dout
    ensures TurnedForward(old(port.device), old(port.cable), port.device, port.cable)
  {
    ghost var d0, w0 := port.device, port.cable;
    port.FrobControl(C1284_NINIT | C1284_NAUTOFD, C1284_NINIT | C1284_NAUTOFD);
    ghost var d1, w1 := port.device, port.cable;
    ForwardDrive(d0, w0, w1);
    retval := port.WaitStatus(S1284_PERROR, S1284_PERROR);
    ghost var d2, w2 := port.device, port.cable;
    ForwardWait(d0, w0, d1, w1, d2, w2, retval == E1284_OK);
    if retval == E1284_OK {
      port.DataDir(false);
      ForwardSwitch(d0, w0, d2, w2, port.cable);
      port.current_phase := PH1284_FWD_IDLE;
    } else {
      port.current_phase := PH1284_ECP_DIR_UNKNOWN;
    }
  }
}
