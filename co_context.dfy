/** The saved machine context of a coroutine
    (examples/stackful_coroutine/co/Context.h): fourteen register slots and a
    private stack of `STACK_SIZE` bytes.  Addresses are 64-bit; `base` is the
    address of the first byte of the stack buffer.  The context switches
    themselves are assembly and are only named here. */
module CoContext {

  const ADDRESS_SPACE: nat := 0x1_0000_0000_0000_0000

  /** A 64-bit machine word: an address, a function pointer or a register
      value. */
  type Word = w: int | 0 <= w < ADDRESS_SPACE
  type Byte = b: int | 0 <= b < 256

  const STACK_SIZE: nat := 0x2_0000   // 1 << 17
  const REGISTER_COUNT: nat := 14
  const RDI: nat := 7
  const RET: nat := 9
  const RSP: nat := 13
  const WORD_SIZE: nat := 8

  /** The stack buffer starting at `base`, and its end pointer, lie inside
      the address space. */
  predicate FitsAt(base: Word)
  {
    base + STACK_SIZE < ADDRESS_SPACE
  }

  /** `getSp`: one word below the end of the stack, with the low four bits
      cleared (`& ~0xF` on an unsigned address rounds it down to a multiple
      of 16). */
  function StackPointer(base: Word): (sp: Word)
    requires FitsAt(base)
    ensures sp % 16 == 0
    ensures base + STACK_SIZE - 23 <= sp <= base + STACK_SIZE - WORD_SIZE
  {
    var a := base + STACK_SIZE - WORD_SIZE;
    a - a % 16
  }

  function Pow256(n: nat): (p: nat)
    ensures p >= 1
  {
    if n == 0 then 1 else 256 * Pow256(n - 1)
  }

  /** The `n` low bytes of `w` in memory order (x86-64 is little-endian). */
  function LittleEndian(w: nat, n: nat): (bs: seq<Byte>)
    ensures |bs| == n
  {
    if n == 0 then [] else [w % 256] + LittleEndian(w / 256, n - 1)
  }

  /** The number stored in little-endian bytes. */
  function FromLittleEndian(bs: seq<Byte>): nat
  {
    if bs == [] then 0 else bs[0] + 256 * FromLittleEndian(bs[1..])
  }

  /** Reading back `n` stored bytes gives the stored value when it fits. */
  lemma {:induction false} LittleEndianRoundTrip(w: nat, n: nat)
    requires w < Pow256(n)
    ensures FromLittleEndian(LittleEndian(w, n)) == w
  {
    if n > 0 {
      assert w / 256 < Pow256(n - 1);
      LittleEndianRoundTrip(w / 256, n - 1);
      assert LittleEndian(w, n)[1..] == LittleEndian(w / 256, n - 1);
    }
  }

  lemma WordFits(w: Word)
    ensures w < Pow256(WORD_SIZE)
  {
    assert Pow256(WORD_SIZE) == ADDRESS_SPACE;
  }

  /** The register file `prepare` leaves: every slot zero except the stack
      pointer, the return address and the first argument. */
  function PreparedRegisters(sp: Word, ret: Word, rdi: Word): (regs: seq<Word>)
    ensures |regs| == REGISTER_COUNT
  {
    seq(REGISTER_COUNT, i => if i == RSP then sp else if i == RET then ret else if i == RDI then rdi else 0)
  }

  /** The three slots `prepare` sets are distinct, so each holds its own
      value, and the other eleven slots are zero. */
  lemma PreparedSlots(sp: Word, ret: Word, rdi: Word)
    ensures var regs := PreparedRegisters(sp, ret, rdi);
      && regs[RSP] == sp && regs[RET] == ret && regs[RDI] == rdi
      && forall i :: 0 <= i < REGISTER_COUNT && i != RSP && i != RET && i != RDI ==> regs[i] == 0
  {
  }

  /** The abstract control transfers of `switchFrom`/`switchOnly`. */
  datatype Transfer =
    | SwitchFrom(saveInto: Context?, resume: Context?)   // save registers, then load
    | SwitchOnly(resume: Context?)                        // load without saving

  class Context {
    const base: Word
    const registers: array<Word>
    const stack: array<Byte>

    ghost predicate Valid()
    {
      registers.Length == REGISTER_COUNT && stack.Length == STACK_SIZE
      && FitsAt(base)
    }

    /** A context whose stack buffer is placed at `base` by the allocator. */
    constructor (base: Word)
      requires FitsAt(base)
      ensures Valid() && this.base == base
      ensures fresh(registers) && fresh(stack)
    {
      this.base := base;
      registers := new Word[REGISTER_COUNT](_ => 0);
      stack := new Byte[STACK_SIZE](_ => 0);
    }

    /** `getSp`. */
    function GetSp(): (sp: Word)
      requires Valid()
      ensures sp % 16 == 0
      ensures base <= sp && sp + WORD_SIZE <= base + STACK_SIZE
    {
      StackPointer(base)
    }

    /** The word stored at address `at` of this stack. */
    ghost function ReadWord(at: Word): nat
      requires Valid()
      requires base <= at && at + WORD_SIZE <= base + STACK_SIZE
      reads stack
    {
      FromLittleEndian(stack[at - base .. at - base + WORD_SIZE])
    }

    /** The state `prepare(ret, rdi)` establishes. */
    ghost predicate Prepared(ret: Word, rdi: Word)
      requires Valid()
      reads this, registers, stack
    {
      && registers[..] == PreparedRegisters(GetSp(), ret, rdi)
      && ReadWord(GetSp()) == ret
    }

    /** `test`: the distance from the start of the stack to the probe
        address (a local variable of the running code), as a signed
        `ptrdiff_t`, lies in `[0, STACK_SIZE)`.  When the buffer fits in the
        address space, that is exactly "the probe is inside the stack". */
    function Test(probe: Word): (inside: bool)
      ensures FitsAt(base) ==> (inside <==> base <= probe < base + STACK_SIZE)
    {
      var d := (probe - base) % ADDRESS_SPACE;
      var diff := if d >= 0x8000_0000_0000_0000 then d - ADDRESS_SPACE else d;
      0 <= diff < STACK_SIZE
    }

    /** The store of the callback word at the stack pointer: its eight
        bytes, least significant first, at offset `off`; the other bytes are
        untouched. */
    method StoreWord(off: nat, w: Word)
      requires stack.Length >= off + WORD_SIZE
      modifies stack
      ensures stack[off .. off + WORD_SIZE] == LittleEndian(w, WORD_SIZE)
      ensures stack[..off] == old(stack[..off])
      ensures stack[off + WORD_SIZE..] == old(stack[off + WORD_SIZE..])
    {
      var bytes := LittleEndian(w, WORD_SIZE);
      for k := 0 to WORD_SIZE
        invariant forall j :: 0 <= j < k ==> stack[off + j] == bytes[j]
        invariant stack[..off] == old(stack[..off])
        invariant stack[off + WORD_SIZE..] == old(stack[off + WORD_SIZE..])
      {
        stack[off + k] := bytes[k];
      }
      assert stack[off .. off + WORD_SIZE] == bytes;
    }

    /** `prepare` = `getSp` then `fillRegisters`: clear all slots, store
        the callback at the stack pointer, read it back into the return
        slot, set the stack pointer and the first argument.  The rest of the
        stack is untouched. */
    method Prepare(ret: Word, rdi: Word)
      requires Valid()
      modifies registers, stack
      ensures Valid() && Prepared(ret, rdi)
      ensures var off := GetSp() - base;
        && stack[..off] == old(stack[..off])
        && stack[off + WORD_SIZE..] == old(stack[off + WORD_SIZE..])
    {
      var sp := GetSp();
      // clear all fourteen slots
      for i := 0 to REGISTER_COUNT
        invariant forall j :: 0 <= j < i ==> registers[j] == 0
        invariant stack[..] == old(stack[..])
      {
        registers[i] := 0;
      }
      var off := sp - base;
      StoreWord(off, ret);
      WordFits(ret);
      LittleEndianRoundTrip(ret, WORD_SIZE);
      registers[RSP] := sp;
      registers[RET] := FromLittleEndian(stack[off .. off + WORD_SIZE]);
      registers[RDI] := rdi;
      assert registers[..] == PreparedRegisters(sp, ret, rdi);
    }
  }
}
