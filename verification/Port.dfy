/** The port as the protocol engine sees it, on a cable whose peripheral moves
    freely: the pin operations of src/access_io.c at the level of lines. */
module Ports {
  import opened Signals
  import opened Devices

  /** A reading of the status lines, and the control lines at that time. */
  datatype Look = Look(lines: Lines, status: Status)

  class Port {
    // The hardware: the cable, whose status and input data belong to the peripheral.
    var cable: Wires

    // struct parport_internal
    var current_mode: int
    var current_channel: int
    var current_phase: Phase

    // What the other end of the cable saw, every look the host took at the status lines,
    // how many waits timed out, and how often the host broke a rule of the ECP channel.
    ghost var device: Device
    ghost var looks: seq<Look>
    ghost var timeouts: nat
    ghost var hazards: nat

    /** The last look. */
    ghost function Latest(): Look
      reads this`looks
    {
      if looks == [] then Look(Lines(false, false, false, false), NO_LINE) else looks[|looks| - 1]
    }

    /** The status lines as last read. */
    ghost function Seen(): Status
      reads this`looks
    {
      Latest().status
    }

    /** The peripheral moves its lines as it likes. One move stands for any number of
        them (Devices.MovesCollapse). */
    method PeripheralMoves()
      modifies this`cable, this`device
      ensures cable == old(cable).(status := cable.status, din := cable.din)
      ensures device == old(device).Moved(old(cable), cable.status, cable.din)
    {
      ghost var before := cable;
      var status: Status := *;
      var din: byte := *;
      cable := cable.(status := status, din := din);
      device := device.Moved(before, status, din);
    }

    /** The rules broken by a change of the control lines: nSelectIn is not dropped in reverse
        idle phase, and nInit does not go low while the data drivers are on, except for Host
        Transfer Recovery in forward data phase. */
    ghost function HazardBy(from: Lines, to: Lines): nat
      reads this`current_phase, this`cable
    {
      (if current_phase.PH1284_REV_IDLE? && from.nSelectIn && !to.nSelectIn then 1 else 0) +
      (if !current_phase.PH1284_FWD_DATA? && !cable.reversed && from.nInit && !to.nInit then 1 else 0)
    }

    /** A new value of the control register: levels of the control lines, and a direction. */
    method Drive(levels: Lines, reverse: bool)
      modifies this`cable, this`device, this`hazards
      ensures cable == Wires(levels, old(cable).dout, cable.status, cable.din, reverse)
      ensures device == Driven(old(device), old(cable), cable)
      ensures hazards == old(hazards) + old(HazardBy(cable.lines, levels))
    {
      PeripheralMoves();
      device := device.Controlled(cable, levels, reverse);
      hazards := hazards + HazardBy(cable.lines, levels);
      cable := cable.(lines := levels, reversed := reverse);
    }

    /** What the other end sees of an operation with these control register bits: the direction
        bit, if it is named, turns the drivers first. */
    ghost predicate Passed(d: Device, w: Wires, named: bool)
      reads this`cable, this`device
    {
      if named then exists mid: Wires ::
        && mid == w.(status := mid.status, din := mid.din, reversed := cable.reversed)
        && device == Driven(Driven(d, w, mid), mid, cable)
      else device == Driven(d, w, cable)
    }

    method FrobControl(mask: bv8, val: bv8)
      modifies this`cable, this`device, this`hazards
      ensures cable == Wires(Frob(old(cable).lines, ControlPins(mask), ControlPins(val)), old(cable).dout,
                             cable.status, cable.din,
                             if mask & DIRECTION != 0 then val & DIRECTION != 0 else old(cable).reversed)
      ensures Passed(old(device), old(cable), mask & DIRECTION != 0)
      ensures hazards == old(hazards) + HazardBy(old(cable).lines, cable.lines)
    {
      ghost var d, w := device, cable;
      if mask & DIRECTION != 0 {
        DataDir(val & DIRECTION != 0);
      }
      ghost var mid := cable;
      Drive(Frob(cable.lines, ControlPins(mask), ControlPins(val)), cable.reversed);
      assert mask & DIRECTION != 0 ==> device == Driven(Driven(d, w, mid), mid, cable);
    }

    method WriteControl(reg: bv8)
      modifies this`cable, this`device, this`hazards
      ensures cable == Wires(ControlPins(reg), old(cable).dout, cable.status, cable.din,
                             reg & DIRECTION != 0 || old(cable).reversed)
      ensures Passed(old(device), old(cable), reg & DIRECTION != 0)
      ensures hazards == old(hazards) + HazardBy(old(cable).lines, cable.lines)
    {
      ghost var d, w := device, cable;
      if reg & DIRECTION != 0 {
        DataDir(true);
      }
      ghost var mid := cable;
      Drive(ControlPins(reg), cable.reversed);
      assert reg & DIRECTION != 0 ==> device == Driven(Driven(d, w, mid), mid, cable);
    }

    method DataDir(reverse: bool)
      modifies this`cable, this`device, this`hazards
      ensures cable == old(cable).(status := cable.status, din := cable.din, reversed := reverse)
      ensures device == Driven(old(device), old(cable), cable)
      ensures hazards == old(hazards)
    {
      Drive(cable.lines, reverse);
    }

    method WriteData(datum: byte)
      modifies this`cable, this`device
      ensures cable == old(cable).(dout := datum, status := cable.status, din := cable.din)
      ensures device == old(device).Moved(old(cable), cable.status, cable.din).Loaded(old(cable), datum)
    {
      PeripheralMoves();
      device := device.Loaded(cable, datum);
      cable := cable.(dout := datum);
    }

    /** What is on the data lines: while the drivers are on, the host's own data. */
    method ReadData() returns (datum: byte)
      modifies this`cable, this`device
      ensures cable == old(cable).(status := cable.status, din := cable.din)
      ensures datum == cable.Data()
      ensures device == old(device).Moved(old(cable), cable.status, cable.din)
    {
      PeripheralMoves();
      datum := cable.Data();
    }

    method ReadStatus() returns (s: Status)
      modifies this`cable, this`device, this`looks
      ensures looks == old(looks) + [Look(cable.lines, s)]
      ensures cable == old(cable).(status := s, din := cable.din)
      ensures device == Polled(old(device), old(cable), s, cable.din)
    {
      PeripheralMoves();
      s := cable.status;
      looks := looks + [Look(cable.lines, s)];
      device := device.Sampled(s);
    }

    /** Poll the status lines until those in mask have the levels in val; how often
        before the deadline is not determined, but at least once. */
    method WaitStatus(mask: bv8, val: bv8) returns (r: int)
      modifies this`cable, this`device, this`looks, this`timeouts
      ensures cable == old(cable).(status := cable.status, din := cable.din)
      ensures r == E1284_OK || r == E1284_TIMEDOUT
      ensures r == E1284_OK <==> Matches(cable.status, StatusPins(mask), StatusPins(val))
      ensures timeouts == old(timeouts) + (if r == E1284_OK then 0 else 1)
      ensures old(looks) < looks && Latest() == Look(cable.lines, cable.status)
      ensures old(device).Waited(old(cable), device, cable, StatusPins(mask), StatusPins(val), r == E1284_OK)
    {
      ghost var d, w := device, cable;
      ghost var want, level := StatusPins(mask), StatusPins(val);
      var polls: nat := *;
      var s := ReadStatus();
      WaitedOnce(d, w, s, cable.din, want, level);
      while !Matches(s, StatusPins(mask), StatusPins(val)) && polls > 0
        invariant cable == w.(status := s, din := cable.din)
        invariant d.Waited(w, device, cable, want, level, Matches(s, want, level))
        invariant timeouts == old(timeouts) && old(looks) < looks && Latest() == Look(cable.lines, s)
        decreases polls
      {
        ghost var d', w' := device, cable;
        s := ReadStatus();
        WaitedMore(d, w, d', w', s, cable.din, want, level);
        polls := polls - 1;
      }
      if Matches(s, StatusPins(mask), StatusPins(val)) {
        return E1284_OK;
      }
      timeouts := timeouts + 1;
      return E1284_TIMEDOUT;
    }
  }
}
