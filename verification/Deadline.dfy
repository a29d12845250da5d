/** The timed polling loops of wait_status and default_wait_data. */
module Deadline {
  import opened Signals

  datatype TimeVal = TimeVal(sec: int, usec: int) {
    predicate Normal() {
      0 <= usec < 1000000
    }

    function Micros(): int {
      sec * 1000000 + usec
    }
  }

  /** The deadline, computed as in the source from a clock reading. */
  method ComputeDeadline(now: TimeVal, timeout: TimeVal) returns (deadline: TimeVal)
    ensures deadline.Normal()
    ensures deadline.Micros() == now.Micros() + timeout.Micros()
  {
    var sec := now.sec + timeout.sec;
    var usec := now.usec + timeout.usec;
    sec := sec + usec / 1000000;
    usec := usec % 1000000;
    deadline := TimeVal(sec, usec);
  }

  /** The comparison of the source: on normalised times it is that of the times in
      microseconds. */
  method Earlier(now: TimeVal, deadline: TimeVal) returns (r: bool)
    requires now.Normal() && deadline.Normal()
    ensures r <==> now.Micros() < deadline.Micros()
  {
    r := now.sec < deadline.sec || (now.sec == deadline.sec && now.usec < deadline.usec);
  }

  /** Poll until a sample matches or the clock has reached the deadline. hits[i] says whether
      sample i, of the status or of the data lines, has under the mask the value asked for;
      it is read just before clock reading i. The clock does advance past the deadline. */
  method PollUntil(hits: seq<bool>, clock: seq<TimeVal>, start: TimeVal, timeout: TimeVal)
    returns (r: int, polls: nat)
    requires start.Normal() && timeout.sec >= 0 && timeout.usec >= 0
    requires |hits| == |clock| > 0 && forall i :: 0 <= i < |clock| ==> clock[i].Normal()
    requires clock[|clock| - 1].Micros() >= start.Micros() + timeout.Micros()
    ensures 1 <= polls <= |hits|
    ensures r == E1284_OK || r == E1284_TIMEDOUT
    ensures r == E1284_OK <==> exists i :: 0 <= i < polls && hits[i]
    ensures r == E1284_OK <==> hits[polls - 1]
    ensures forall i :: 0 <= i < polls - 1 ==> clock[i].Micros() < start.Micros() + timeout.Micros()
    ensures r == E1284_TIMEDOUT ==> clock[polls - 1].Micros() >= start.Micros() + timeout.Micros()
  {
    ghost var due := start.Micros() + timeout.Micros();
    var deadline := ComputeDeadline(start, timeout);
    assert clock[|clock| - 1].Micros() >= due;
    polls := 0;
    while true
      invariant polls < |hits|
      invariant forall i :: 0 <= i < polls ==> !hits[i]
      invariant forall i :: 0 <= i < polls ==> clock[i].Micros() < due
      decreases |hits| - polls
    {
      var hit, now := hits[polls], clock[polls];
      polls := polls + 1;
      if hit {
        return E1284_OK, polls;
      }
      var early := Earlier(now, deadline);
      if !early {
        return E1284_TIMEDOUT, polls;
      }
    }
  }
}
