/** The shadow control register of src/access_io.c at the level of bits, and why the rest
    of the model may speak of lines. */
module ControlRegisters {
  import opened Signals

  const C1284_INVERTED: bv8 := 0x0b
  const WRITABLE: bv8 := 0x0f

  /** The lines that a register value puts on the cable: the hardware inverts all of them but
      nInit. */
  function LinesOf(c: bv8): Lines {
    Lines(c & 0x01 == 0, c & 0x02 == 0, c & 0x04 != 0, c & 0x08 == 0)
  }

  predicate ReverseOf(c: bv8) {
    c & DIRECTION != 0
  }

  function RawFrob(c: bv8, mask: bv8, val: bv8): bv8 {
    (c & !mask) ^ (val ^ (mask & C1284_INVERTED))
  }

  /** Through the inversions, the register arithmetic is the documented frob of the lines;
      the direction bit is frobbed in the same way. */
  lemma RawFrobRefines(c: bv8, mask: bv8, val: bv8)
    ensures LinesOf(RawFrob(c, mask, val)) == Frob(LinesOf(c), ControlPins(mask), ControlPins(val))
    ensures ReverseOf(RawFrob(c, mask, val)) ==
              FrobLine(ReverseOf(c), mask & DIRECTION != 0, val & DIRECTION != 0)
    ensures (RawFrob(c, mask, val) ^ c) & !(mask | val) == 0
  {
  }

  lemma MasksRefine(b: bv8)
    ensures ControlPins(b & WRITABLE) == ControlPins(b)
    ensures (b & WRITABLE) & DIRECTION == 0
  {
  }

  /** A masked comparison of the status byte is a comparison of lines, for masks that name
      status lines only. */
  lemma MatchRefines(s: bv8, mask: bv8, val: bv8)
    requires mask & 0x07 == 0 && val & 0x07 == 0
    ensures s & mask == val <==> Matches(StatusPins(s), StatusPins(mask), StatusPins(val))
  {
  }

  /** What a client sees of the register: four lines and the direction. */
  datatype View = View(lines: Lines, reverse: bool)

  datatype ControlOp = FrobOp(mask: bv8, val: bv8) | WriteOp(reg: bv8) | DirOp(reverse: bool)

  /** The documented effect of an operation. Direction bits in the arguments of frob and
      write are honoured by way of data_dir. */
  function Apply(v: View, op: ControlOp): View {
    match op
    case FrobOp(mask, val) =>
      View(Frob(v.lines, ControlPins(mask), ControlPins(val)),
           if mask & DIRECTION != 0 then val & DIRECTION != 0 else v.reverse)
    case WriteOp(reg) => View(ControlPins(reg), v.reverse || reg & DIRECTION != 0)
    case DirOp(reverse) => View(v.lines, reverse)
  }

  function ApplyAll(v: View, ops: seq<ControlOp>): View {
    if ops == [] then v else Apply(ApplyAll(v, ops[..|ops| - 1]), ops[|ops| - 1])
  }

  /** Operations that do not name the direction bit leave the direction alone. */
  lemma {:induction false} DirectionKept(v: View, ops: seq<ControlOp>)
    requires forall i :: 0 <= i < |ops| ==>
               match ops[i]
               case FrobOp(mask, _) => mask & DIRECTION == 0
               case WriteOp(reg) => reg & DIRECTION == 0
               case DirOp(_) => false
    ensures ApplyAll(v, ops).reverse == v.reverse
  {
    if ops != [] {
      DirectionKept(v, ops[..|ops| - 1]);
    }
  }

  class ControlRegister {
    var ctr: bv8       // the shadow
    var register: bv8  // what was last written to base + 2

    function Seen(): View
      reads this
    {
      View(LinesOf(ctr), ReverseOf(ctr))
    }

    /** Whatever the inversions, the lines and the direction are frobbed as documented, and a
        bit named neither by the mask nor by the value stays. */
    method RawFrobControl(mask: bv8, val: bv8)
      modifies this
      ensures ctr == register
      ensures Seen().lines == Frob(old(Seen()).lines, ControlPins(mask), ControlPins(val))
      ensures Seen().reverse == FrobLine(old(Seen()).reverse, mask & DIRECTION != 0, val & DIRECTION != 0)
      ensures (ctr ^ old(ctr)) & !(mask | val) == 0
    {
      RawFrobRefines(ctr, mask, val);
      var c := RawFrob(ctr, mask, val);
      register := c;
      ctr := c;
    }

    method ReadControl() returns (r: bv8)
      ensures ControlPins(r) == Seen().lines && r & !WRITABLE == 0
    {
      r := (ctr ^ C1284_INVERTED) & WRITABLE;
      MasksRefine(ctr ^ C1284_INVERTED);
    }

    method DataDir(reverse: bool)
      modifies this
      ensures ctr == register
      ensures Seen() == Apply(old(Seen()), DirOp(reverse))
    {
      var val: bv8 := if reverse then 0x20 else 0x00;
      RawFrobControl(0x20, val);
    }

    method WriteControl(reg: bv8)
      modifies this
      ensures ctr == register
      ensures Seen() == Apply(old(Seen()), WriteOp(reg))
    {
      if reg & DIRECTION != 0 {
        DataDir(true);
      }
      MasksRefine(reg);
      RawFrobControl(WRITABLE, reg & WRITABLE);
    }

    method FrobControl(mask: bv8, val: bv8)
      modifies this
      ensures ctr == register
      ensures Seen() == Apply(old(Seen()), FrobOp(mask, val))
    {
      if mask & DIRECTION != 0 {
        DataDir(val & DIRECTION != 0);
      }
      MasksRefine(mask);
      MasksRefine(val);
      RawFrobControl(mask & WRITABLE, val & WRITABLE);
    }

    /** Any sequence of operations: the shadow is what the hardware has, and the lines and
        the direction are what the documentation says. */
    method Run(ops: seq<ControlOp>)
      modifies this
      ensures ops != [] ==> ctr == register
      ensures Seen() == ApplyAll(old(Seen()), ops)
    {
      for i := 0 to |ops|
        invariant i > 0 ==> ctr == register
        invariant Seen() == ApplyAll(old(Seen()), ops[..i])
      {
        match ops[i] {
          case FrobOp(mask, val) => FrobControl(mask, val);
          case WriteOp(reg) => WriteControl(reg);
          case DirOp(reverse) => DataDir(reverse);
        }
        assert ops[..i + 1][..i] == ops[..i];
      }
      assert ops[..|ops|] == ops;
    }
  }

  /** A read after a write returns the four bits written. */
  lemma ReadBack(v: View, reg: bv8, c: bv8)
    requires LinesOf(c) == Apply(v, WriteOp(reg)).lines
    ensures (c ^ C1284_INVERTED) & WRITABLE == reg & WRITABLE
  {
  }
}
