/** The vocabulary of the library: pin masks, modes, phases and return codes,
    with the values of include/ieee1284.h.in and src/detect.h. */
module Signals {

  const C1284_NSTROBE: bv8 := 0x01
  const C1284_NAUTOFD: bv8 := 0x02
  const C1284_NINIT: bv8 := 0x04
  const C1284_NSELECTIN: bv8 := 0x08

  /** The bit of the control register that turns the data drivers off. */
  const DIRECTION: bv8 := 0x20

  const S1284_NFAULT: bv8 := 0x08
  const S1284_SELECT: bv8 := 0x10
  const S1284_PERROR: bv8 := 0x20
  const S1284_NACK: bv8 := 0x40
  const S1284_BUSY: bv8 := 0x80

  const M1284_NIBBLE := 0
  const M1284_BYTE := 0x0001
  const M1284_FLAG_DEVICEID := 0x0004
  const M1284_ECP := 0x0010
  const M1284_EPP := 0x0040
  const M1284_COMPAT := 0x0100
  const M1284_BECP := 0x0200
  const M1284_ECPSWE := 0x0400
  const M1284_EPPSL := 0x0800
  const M1284_EPPSWE := 0x1000
  const M1284_FLAG_EXT_LINK := 0x4000

  const E1284_OK := 0
  const E1284_NOTIMPL := -1
  const E1284_NOTAVAIL := -2
  const E1284_TIMEDOUT := -3
  const E1284_REJECTED := -4
  const E1284_NEGFAILED := -5
  const E1284_NOID := -9
  const E1284_INVALIDPORT := -10

  /** An unsigned char that carries data. */
  type byte = x: int | 0 <= x < 256

  /** Is the bit of this weight set in the int m (two's complement)? */
  predicate HasBit(m: int, weight: int)
    requires weight > 0
  {
    m / weight % 2 == 1
  }

  datatype Phase =
    | PH1284_FWD_DATA
    | PH1284_FWD_IDLE
    | PH1284_TERMINATE
    | PH1284_NEGOTIATION
    | PH1284_HBUSY_DNA
    | PH1284_REV_IDLE
    | PH1284_HBUSY_DAVAIL
    | PH1284_REV_DATA
    | PH1284_ECP_SETUP
    | PH1284_ECP_FWD_TO_REV
    | PH1284_ECP_REV_TO_FWD
    | PH1284_ECP_DIR_UNKNOWN

  /** The four control lines as the cable carries them: true is high. */
  datatype Lines = Lines(nStrobe: bool, nAutoFd: bool, nInit: bool, nSelectIn: bool)

  /** The five status lines as the cable carries them: true is high. */
  datatype Status = Status(nFault: bool, select: bool, pError: bool, nAck: bool, busy: bool)

  /** The control lines named by the bits of b. */
  function ControlPins(b: bv8): Lines {
    Lines(b & 0x01 != 0, b & 0x02 != 0, b & 0x04 != 0, b & 0x08 != 0)
  }

  /** The status lines named by the bits of b. */
  function StatusPins(b: bv8): Status {
    Status(b & 0x08 != 0, b & 0x10 != 0, b & 0x20 != 0, b & 0x40 != 0, b & 0x80 != 0)
  }

  /** The byte ieee1284_read_status returns for the status lines. */
  function StatusByte(s: Status): byte {
    (if s.nFault then 0x08 else 0) + (if s.select then 0x10 else 0) + (if s.pError then 0x20 else 0) +
    (if s.nAck then 0x40 else 0) + (if s.busy then 0x80 else 0)
  }

  function FrobLine(level: bool, masked: bool, val: bool): bool {
    (level && !masked) != val
  }

  /** The documented frob, line by line: out = (in & ~mask) ^ val. */
  function Frob(lines: Lines, mask: Lines, val: Lines): Lines {
    Lines(FrobLine(lines.nStrobe, mask.nStrobe, val.nStrobe),
          FrobLine(lines.nAutoFd, mask.nAutoFd, val.nAutoFd),
          FrobLine(lines.nInit, mask.nInit, val.nInit),
          FrobLine(lines.nSelectIn, mask.nSelectIn, val.nSelectIn))
  }

  /** The lines in mask have the levels in val, and val names no other line. */
  predicate Matches(s: Status, mask: Status, val: Status) {
    && (if mask.nFault then s.nFault == val.nFault else !val.nFault)
    && (if mask.select then s.select == val.select else !val.select)
    && (if mask.pError then s.pError == val.pError else !val.pError)
    && (if mask.nAck then s.nAck == val.nAck else !val.nAck)
    && (if mask.busy then s.busy == val.busy else !val.busy)
  }
}
