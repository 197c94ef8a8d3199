/** The run-state bitmask of a stackful coroutine
    (examples/stackful_coroutine/co/State.h).  The mask type is
    `unsigned char`, hence `bv8`. */
module CoState {

  type Bitmask = bv8

  const MAIN: Bitmask := 1
  const IDLE: Bitmask := 2
  const RUNNING: Bitmask := 4
  const EXIT: Bitmask := 8

  /** A `State` value: the `flag` byte and its operators.  The binary
      operators read `flag`; the compound assignments update it in place. */
  class State {
    var flag: Bitmask

    /** `State _runtime {}` value-initialises the flag to 0. */
    constructor ()
      ensures flag == 0
    {
      flag := 0;
    }

    function And(mask: Bitmask): (r: Bitmask)
      reads this
      ensures r & flag == r && r & mask == r
    {
      flag & mask
    }

    function Or(mask: Bitmask): (r: Bitmask)
      reads this
      ensures r & flag == flag && r & mask == mask
    {
      flag | mask
    }

    function Xor(mask: Bitmask): (r: Bitmask)
      reads this
      ensures r ^ mask == flag
    {
      flag ^ mask
    }

    /** `&=`: the new flag is what `&` would have returned. */
    method AndAssign(mask: Bitmask)
      modifies this
      ensures flag == old(And(mask))
    {
      flag := flag & mask;
    }

    /** `|=`: the new flag is what `|` would have returned. */
    method OrAssign(mask: Bitmask)
      modifies this
      ensures flag == old(Or(mask))
    {
      flag := flag | mask;
    }

    /** `^=`: the new flag is what `^` would have returned. */
    method XorAssign(mask: Bitmask)
      modifies this
      ensures flag == old(Xor(mask))
    {
      flag := flag ^ mask;
    }
  }

  /** A mask with exactly one bit set. */
  predicate SingleBit(m: Bitmask)
  {
    m != 0 && m & (m - 1) == 0
  }

  /** The four state constants are single, pairwise distinct bits. */
  lemma StateBitsDistinct()
    ensures SingleBit(MAIN) && SingleBit(IDLE) && SingleBit(RUNNING) && SingleBit(EXIT)
    ensures MAIN & IDLE == 0 && MAIN & RUNNING == 0 && MAIN & EXIT == 0
    ensures IDLE & RUNNING == 0 && IDLE & EXIT == 0 && RUNNING & EXIT == 0
  {
  }

  /** Applying the same `^` twice gives back the original flag. */
  lemma XorTwiceRestores(f: Bitmask, mask: Bitmask)
    ensures (f ^ mask) ^ mask == f
  {
  }

  /** The completion flip of `routineWrapper`: on a running, not yet
      exited coroutine, `^= (EXIT | RUNNING)` sets EXIT, clears RUNNING and
      keeps every other bit. */
  lemma ExitFlip(f: Bitmask)
    requires f & RUNNING != 0 && f & EXIT == 0
    ensures (f ^ (EXIT | RUNNING)) & EXIT != 0
    ensures (f ^ (EXIT | RUNNING)) & RUNNING == 0
    ensures (f ^ (EXIT | RUNNING)) & !(EXIT | RUNNING) == f & !(EXIT | RUNNING)
  {
  }

  /** Setting RUNNING with `|=` keeps the other bits and leaves EXIT as it
      was. */
  lemma SetRunning(f: Bitmask)
    ensures (f | RUNNING) & RUNNING != 0
    ensures (f | RUNNING) & EXIT == f & EXIT
    ensures (f | RUNNING) & !RUNNING == f & !RUNNING
  {
  }
}
