/** Lifetime of a port: the reference count of src/ports.c, src/interface.c and src/state.c. */
module Lifetime {
  import opened Signals

  class PortHandle {
    // struct parport_internal
    var refs: int
    var isOpen: bool
    var claimed: bool

    // Who holds a reference: the list the port was found in, and the callers of
    // ieee1284_ref. How often the port was destroyed.
    ghost var listed: bool
    ghost var extra: nat
    ghost var deaths: nat

    ghost function Holders(): nat
      reads this
    {
      (if listed then 1 else 0) + extra + (if isOpen then 1 else 0)
    }

    ghost predicate Alive()
      reads this
    {
      deaths == 0
    }

    /** The count is the number of holders, and the port was destroyed, once, exactly if
        there are none left. */
    ghost predicate Valid()
      reads this
    {
      refs == Holders() && deaths == if Holders() == 0 then 1 else 0
    }

    /** add_port */
    constructor ()
      ensures Valid() && Alive() && listed && extra == 0 && !isOpen && !claimed
    {
      refs, isOpen, claimed := 1, false, false;
      listed, extra, deaths := true, 0, 0;
    }

    /** deref_port: the caller has given up one reference already. */
    method Deref() returns (count: int)
      requires Alive() && refs == Holders() + 1
      modifies this
      ensures Valid() && count == Holders()
      ensures unchanged(`listed, `extra, `isOpen, `claimed)
    {
      refs := refs - 1;
      count := refs;
      if count == 0 {
        deaths := deaths + 1;
      }
    }

    method Ref() returns (count: int)
      requires Valid() && Alive()
      modifies this
      ensures Valid() && Alive() && count == Holders()
      ensures extra == old(extra) + 1 && unchanged(`listed, `isOpen, `claimed)
    {
      refs := refs + 1;
      extra := extra + 1;
      count := refs;
    }

    /** Cleaning up the access method cannot fail. */
    method Close() returns (r: int)
      requires Valid() && Alive()
      modifies this
      ensures Valid() && !isOpen && unchanged(`listed, `extra, `claimed)
      ensures r == if old(isOpen) then E1284_OK else E1284_INVALIDPORT
    {
      if !isOpen {
        return E1284_INVALIDPORT;
      }
      isOpen := false;
      var _ := Deref();
      r := E1284_OK;
    }

    /** Give up an extra reference; or, when there is none, that of the list; or, when the port
        is open and that is the only reference left, close it. */
    method Unref() returns (count: int)
      requires Valid() && Alive()
      modifies this
      ensures Valid() && count == Holders() == old(Holders()) - 1
      ensures claimed == old(claimed)
      ensures if old(extra) > 0 then extra == old(extra) - 1 && unchanged(`listed, `isOpen)
              else if old(listed) then extra == 0 && !listed && isOpen == old(isOpen)
              else !isOpen && !Alive()
    {
      if isOpen && refs == 1 {
        var r := Close();
        return if r == E1284_OK then 0 else 1;
      }
      if extra > 0 {
        extra := extra - 1;
      } else {
        listed := false;
      }
      count := Deref();
    }

    /** `init` is what the access method's own init returned. */
    method Open(init: int) returns (r: int)
      requires Valid() && Alive()
      modifies this
      ensures Valid() && Alive() && unchanged(`listed, `extra, `claimed)
      ensures r == if old(isOpen) then E1284_INVALIDPORT else init
      ensures isOpen == (old(isOpen) || init == E1284_OK)
    {
      if isOpen {
        return E1284_INVALIDPORT;
      }
      if init != E1284_OK {
        return init;
      }
      isOpen := true;
      refs := refs + 1;
      r := E1284_OK;
    }

    /** `granted` is what the access method's own claim returned, or OK if it has none. */
    method Claim(granted: int) returns (r: int)
      requires Valid() && Alive()
      modifies this`claimed
      ensures r == if !isOpen || old(claimed) then E1284_INVALIDPORT else granted
      ensures claimed == (old(claimed) || (isOpen && granted == E1284_OK))
    {
      if !isOpen || claimed {
        return E1284_INVALIDPORT;
      }
      if granted == E1284_OK {
        claimed := true;
      }
      r := granted;
    }

    method Release()
      requires Valid() && Alive()
      modifies this`claimed
      ensures !claimed
    {
      claimed := false;
    }
  }

  // ---------------------------------------------------------------- lists

  class PortList {
    var portv: seq<PortHandle>

    /** ieee1284_free_ports: every port loses the reference of the list. */
    method FreePorts()
      requires forall i, j :: 0 <= i < j < |portv| ==> portv[i] != portv[j]
      requires forall i :: 0 <= i < |portv| ==> portv[i].Valid() && portv[i].listed
      modifies this, portv
      ensures portv == []
      ensures forall h :: h in old(portv) ==>
                && h.Valid() && !h.listed
                && h.extra == old(h.extra) && h.isOpen == old(h.isOpen) && h.claimed == old(h.claimed)
                && (h.Alive() <==> old(h.extra) > 0 || old(h.isOpen))
    {
      var i := 0;
      while i < |portv|
        invariant 0 <= i <= |portv| && portv == old(portv)
        invariant forall k :: i <= k < |portv| ==> portv[k].Valid() && portv[k].listed
        invariant forall k :: 0 <= k < i ==> portv[k].Valid() && !portv[k].listed
        invariant forall k :: 0 <= k < |portv| ==>
                    && portv[k].extra == old(portv[k].extra) && portv[k].isOpen == old(portv[k].isOpen)
                    && portv[k].claimed == old(portv[k].claimed)
      {
        portv[i].listed := false;
        var _ := portv[i].Deref();
        i := i + 1;
      }
      portv := [];
    }
  }

  // ---------------------------------------------------------------- runs

  /** Who holds the port and whether it is claimed, without the port. */
  datatype Books = Books(listed: bool, extra: nat, isOpen: bool, claimed: bool) {
    function Holders(): nat {
      (if listed then 1 else 0) + extra + (if isOpen then 1 else 0)
    }
  }

  datatype HandleOp = DoRef | DoUnref | DoOpen(init: int) | DoClose | DoClaim(granted: int) | DoRelease | DropList

  /** No destroyed port is used, and a list is freed at most once and only if its reference
      was not given up before. */
  predicate MayDo(b: Books, op: HandleOp) {
    && b.Holders() > 0
    && (op.DropList? ==> b.listed)
  }

  function Step(b: Books, op: HandleOp): Books {
    match op
    case DoRef => b.(extra := b.extra + 1)
    case DoUnref =>
      if b.extra > 0 then b.(extra := b.extra - 1)
      else if b.listed then b.(listed := false)
      else b.(isOpen := false)
    case DoOpen(init) => b.(isOpen := b.isOpen || init == E1284_OK)
    case DoClose => b.(isOpen := false)
    case DoClaim(granted) => b.(claimed := b.claimed || (b.isOpen && granted == E1284_OK))
    case DoRelease => b.(claimed := false)
    case DropList => b.(listed := false)
  }

  predicate Disciplined(b: Books, ops: seq<HandleOp>)
    decreases |ops|
  {
    ops == [] || (MayDo(b, ops[0]) && Disciplined(Step(b, ops[0]), ops[1..]))
  }

  function StepAll(b: Books, ops: seq<HandleOp>): Books
    decreases |ops|
  {
    if ops == [] then b else StepAll(Step(b, ops[0]), ops[1..])
  }

  ghost function BooksOf(h: PortHandle): Books
    reads h
  {
    Books(h.listed, h.extra, h.isOpen, h.claimed)
  }

  method Do(h: PortHandle, op: HandleOp)
    requires h.Valid() && MayDo(BooksOf(h), op)
    modifies h
    ensures h.Valid() && BooksOf(h) == Step(old(BooksOf(h)), op)
  {
    match op
    case DoRef => var _ := h.Ref();
    case DoUnref => var _ := h.Unref();
    case DoOpen(init) => var _ := h.Open(init);
    case DoClose => var _ := h.Close();
    case DoClaim(granted) => var _ := h.Claim(granted);
    case DoRelease => h.Release();
    case DropList => h.listed := false; var _ := h.Deref();
  }

  /** Over every disciplined run the count is the number of holders on the books, the port is
      claimed when the books say so, and it is destroyed exactly once, when the last holder
      lets go. */
  method Run(h: PortHandle, ops: seq<HandleOp>)
    requires h.Valid() && Disciplined(BooksOf(h), ops)
    modifies h
    ensures h.refs == StepAll(old(BooksOf(h)), ops).Holders()
    ensures h.claimed == StepAll(old(BooksOf(h)), ops).claimed
    ensures h.deaths == if StepAll(old(BooksOf(h)), ops).Holders() == 0 then 1 else 0
  {
    ghost var b0 := BooksOf(h);
    var i := 0;
    while i < |ops|
      invariant i <= |ops| && h.Valid()
      invariant Disciplined(BooksOf(h), ops[i..])
      invariant StepAll(BooksOf(h), ops[i..]) == StepAll(b0, ops)
    {
      assert ops[i..][0] == ops[i] && ops[i..][1..] == ops[i + 1..];
      Do(h, ops[i]);
      i := i + 1;
    }
  }

  /** A run that destroys the port ends there. */
  lemma {:induction false} NothingAfterDeath(b: Books, ops: seq<HandleOp>, n: nat)
    requires Disciplined(b, ops) && n <= |ops| && StepAll(b, ops[..n]).Holders() == 0
    ensures n == |ops|
    decreases n
  {
    if n > 0 {
      assert ops[..n][0] == ops[0] && ops[..n][1..] == ops[1..][..n - 1];
      NothingAfterDeath(Step(b, ops[0]), ops[1..], n - 1);
    }
  }

  predicate NoRelease(ops: seq<HandleOp>) {
    forall i :: 0 <= i < |ops| ==> !ops[i].DoRelease?
  }

  /** Operation i is a claim of an open port that the access method grants, and no release
      follows. */
  predicate ClaimsForGood(b: Books, ops: seq<HandleOp>, i: int) {
    && 0 <= i < |ops| && ops[i] == DoClaim(E1284_OK)
    && StepAll(b, ops[..i]).isOpen && NoRelease(ops[i + 1..])
  }

  lemma {:induction false} StepLast(b: Books, ops: seq<HandleOp>)
    requires ops != []
    ensures StepAll(b, ops) == Step(StepAll(b, ops[..|ops| - 1]), ops[|ops| - 1])
    decreases |ops|
  {
    var n := |ops| - 1;
    if n == 0 {
      assert ops[1..] == [] && ops[..0] == [];
    } else {
      StepLast(Step(b, ops[0]), ops[1..]);
      assert ops[1..][..n - 1] == ops[..n][1..] && ops[..n][0] == ops[0] && ops[1..][n - 1] == ops[n];
    }
  }

  lemma ClaimKept(b: Books, front: seq<HandleOp>, op: HandleOp, i: nat)
    requires !op.DoRelease? && i < |front|
    ensures ClaimsForGood(b, front + [op], i) <==> ClaimsForGood(b, front, i)
  {
    var ops := front + [op];
    var before, after := front[i + 1..], ops[i + 1..];
    assert ops[..i] == front[..i] && after == before + [op];
    assert forall k :: 0 <= k < |before| ==> before[k] == after[k];
  }

  /** A port is claimed exactly if a claim was granted, or it was claimed to begin with, and it
      was not released since. Closing it in between makes no difference. */
  lemma {:induction false} ClaimedUntilReleased(b: Books, ops: seq<HandleOp>)
    ensures StepAll(b, ops).claimed <==> (b.claimed && NoRelease(ops)) || exists i :: ClaimsForGood(b, ops, i)
    decreases |ops|
  {
    if ops != [] {
      var n := |ops| - 1;
      var front, op := ops[..n], ops[n];
      assert ops == front + [op];
      StepLast(b, ops);
      ClaimedUntilReleased(b, front);
      if op.DoRelease? {
        forall i | 0 <= i < n
          ensures !ClaimsForGood(b, ops, i)
        {
          assert ops[i + 1..][n - i - 1] == op;
        }
      } else {
        forall i | 0 <= i < n
          ensures ClaimsForGood(b, ops, i) <==> ClaimsForGood(b, front, i)
        {
          ClaimKept(b, front, op, i);
        }
        assert NoRelease(ops) <==> NoRelease(front);
        assert ops[n + 1..] == [];
        assert ClaimsForGood(b, ops, n) <==> op == DoClaim(E1284_OK) && StepAll(b, front).isOpen;
      }
    }
  }
}
