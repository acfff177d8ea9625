/** The finsh byte code and its stack machine, restricted to the DWORD operations:
    components/finsh/finsh_ops.h, finsh_ops.c and finsh_vm.c.

    What C leaves undefined, and what would leave the machine's own arrays, is a
    fault: division by zero, the one overflowing quotient, shift counts of 32 and
    more, unmapped addresses, stack overflow and underflow, and unknown operations.
  */
module FinshMachine {
  import opened Sequences

  newtype Byte = x: int | 0 <= x < 0x100
  newtype Word = x: int | 0 <= x < 0x1_0000_0000

  const WORD_SPAN := 0x1_0000_0000

  const FINSH_STACK_MAX := 64
  const FINSH_TEXT_MAX := 128

  const OP_NOOP: Byte := 0x00
  const OP_ADD: Byte := 0x03
  const OP_SUB: Byte := 0x06
  const OP_DIV: Byte := 0x09
  const OP_MOD: Byte := 0x0c
  const OP_MUL: Byte := 0x0f
  const OP_AND: Byte := 0x12
  const OP_OR: Byte := 0x15
  const OP_XOR: Byte := 0x18
  const OP_BITWISE: Byte := 0x1b
  const OP_SHL: Byte := 0x1e
  const OP_SHR: Byte := 0x21
  const OP_LD: Byte := 0x24
  const OP_LD_VALUE: Byte := 0x27
  const OP_ST: Byte := 0x2a
  const OP_POP: Byte := 0x2b
  const OP_LD_VALUE_STACK: Byte := 0x2f

  datatype BinaryOp = Add | Sub | Mul | Div | Mod | And | Or | Xor | Shl | Shr

  // ---------------------------------------------------------------- arithmetic

  /** A long is 32 bits wide and wraps around. */
  function Wrap(x: int): Word {
    (x % WORD_SPAN) as Word
  }

  function Signed(w: Word): int {
    if w < 0x8000_0000 then w as int else w as int - WORD_SPAN
  }

  function Abs(x: int): nat {
    if x < 0 then -x else x
  }

  /** C's quotient: rounded towards zero. */
  function Quotient(a: int, b: int): int
    requires b != 0
  {
    var q := Abs(a) / Abs(b);
    if (a < 0) == (b < 0) then q else -q
  }

  /** C's remainder: it has the sign of the dividend. */
  function Remainder(a: int, b: int): int
    requires b != 0
  {
    var r := Abs(a) % Abs(b);
    if a < 0 then -r else r
  }

  lemma DivisionLaw(a: int, b: int)
    requires b != 0
    ensures Quotient(a, b) * b + Remainder(a, b) == a
    ensures Abs(Remainder(a, b)) < Abs(b)
  {
    var q, r := Abs(a) / Abs(b), Abs(a) % Abs(b);
    assert q * Abs(b) + r == Abs(a);
    if b < 0 { assert q * b == -(q * Abs(b)); }
    assert -q * b == -(q * b);
  }

  function Power2(n: nat): nat {
    if n == 0 then 1 else 2 * Power2(n - 1)
  }

  /** &, | and ^ on the lowest k bits. */
  function BitByBit(op: BinaryOp, a: nat, b: nat, k: nat): nat
    requires op.And? || op.Or? || op.Xor?
  {
    if k == 0 then 0
    else
      var x, y := a % 2 == 1, b % 2 == 1;
      var bit := if op.And? then x && y else if op.Or? then x || y else x != y;
      (if bit then 1 else 0) + 2 * BitByBit(op, a / 2, b / 2, k - 1)
  }

  /** The binary operations of the target on longs; the right shift keeps the sign. */
  function Arithmetic(op: BinaryOp, a: Word, b: Word): Option<Word> {
    match op
    case Add => Some(Wrap(a as int + b as int))
    case Sub => Some(Wrap(a as int - b as int))
    case Mul => Some(Wrap(a as int * b as int))
    case Div => if b == 0 || (a == 0x8000_0000 && b == 0xffff_ffff) then None
                else Some(Wrap(Quotient(Signed(a), Signed(b))))
    case Mod => if b == 0 || (a == 0x8000_0000 && b == 0xffff_ffff) then None
                else Some(Wrap(Remainder(Signed(a), Signed(b))))
    case And => Some(Wrap(BitByBit(op, a as int, b as int, 32)))
    case Or => Some(Wrap(BitByBit(op, a as int, b as int, 32)))
    case Xor => Some(Wrap(BitByBit(op, a as int, b as int, 32)))
    case Shl => if b < 32 then Some(Wrap(a as int * Power2(b as int))) else None
    case Shr => if b < 32 then Some(ShiftRight(a, b as int)) else None
  }

  lemma {:induction false} Power2Positive(n: nat)
    ensures Power2(n) > 0
  {
    if n > 0 { Power2Positive(n - 1); }
  }

  function ShiftRight(a: Word, n: nat): Word {
    Power2Positive(n);
    Wrap(Signed(a) / Power2(n))
  }

  function Complement(w: Word): Word {
    0xffff_ffff - w
  }

  function Opcode(op: BinaryOp): Byte {
    match op
    case Add => OP_ADD case Sub => OP_SUB case Mul => OP_MUL case Div => OP_DIV case Mod => OP_MOD
    case And => OP_AND case Or => OP_OR case Xor => OP_XOR case Shl => OP_SHL case Shr => OP_SHR
  }

  function Decode(op: Byte): Option<BinaryOp> {
    if op == OP_ADD then Some(Add) else if op == OP_SUB then Some(Sub)
    else if op == OP_MUL then Some(Mul) else if op == OP_DIV then Some(Div)
    else if op == OP_MOD then Some(Mod) else if op == OP_AND then Some(And)
    else if op == OP_OR then Some(Or) else if op == OP_XOR then Some(Xor)
    else if op == OP_SHL then Some(Shl) else if op == OP_SHR then Some(Shr)
    else None
  }

  // ---------------------------------------------------------------- bytes and memory

  /** FINSH_SET32: least significant byte first. */
  function Dword(w: Word): seq<Byte> {
    [(w % 0x100) as Byte, (w / 0x100 % 0x100) as Byte, (w / 0x1_0000 % 0x100) as Byte, (w / 0x100_0000) as Byte]
  }

  /** FINSH_GET32. */
  function Join(b0: Byte, b1: Byte, b2: Byte, b3: Byte): Word {
    b0 as Word + 0x100 * b1 as Word + 0x1_0000 * b2 as Word + 0x100_0000 * b3 as Word
  }

  lemma JoinDword(w: Word)
    ensures Join(Dword(w)[0], Dword(w)[1], Dword(w)[2], Dword(w)[3]) == w
  {
    assert w / 0x1_0000 == w / 0x100 / 0x100 && w / 0x100_0000 == w / 0x1_0000 / 0x100;
  }

  type Memory = map<Word, Byte>

  function Next(a: Word, k: nat): Word {
    Wrap(a as int + k)
  }

  predicate Mapped(m: Memory, a: Word) {
    a in m && Next(a, 1) in m && Next(a, 2) in m && Next(a, 3) in m
  }

  function Load(m: Memory, a: Word): Option<Word> {
    if Mapped(m, a) then Some(Join(m[a], m[Next(a, 1)], m[Next(a, 2)], m[Next(a, 3)])) else None
  }

  function Store(m: Memory, a: Word, w: Word): Option<Memory> {
    if Mapped(m, a) then
      var d := Dword(w);
      Some(m[a := d[0]][Next(a, 1) := d[1]][Next(a, 2) := d[2]][Next(a, 3) := d[3]])
    else None
  }

  lemma LoadAfterStore(m: Memory, a: Word, w: Word)
    requires Store(m, a, w).Some?
    ensures Load(Store(m, a, w).value, a) == Some(w)
  {
    JoinDword(w);
    var d := Dword(w);
    assert |d| == 4;
    hide Dword;
    hide Join;
    var s := Store(m, a, w).value;
    assert a != Next(a, 1) && a != Next(a, 2) && a != Next(a, 3);
    assert Next(a, 1) != Next(a, 2) && Next(a, 1) != Next(a, 3) && Next(a, 2) != Next(a, 3);
    hide Next;
    assert s[a] == d[0] && s[Next(a, 1)] == d[1] && s[Next(a, 2)] == d[2] && s[Next(a, 3)] == d[3];
  }

  // ---------------------------------------------------------------- the machine

  datatype Vm = Vm(pc: nat, stack: seq<Word>, mem: Memory)

  function Push(vm: Vm, w: Word): Option<Vm> {
    if |vm.stack| < FINSH_STACK_MAX then Some(vm.(stack := vm.stack + [w])) else None
  }

  /** Replaces the top k values by w. */
  function Replace(vm: Vm, k: nat, w: Word): Vm
    requires k <= |vm.stack|
  {
    vm.(stack := vm.stack[..|vm.stack| - k] + [w])
  }

  function Top(vm: Vm, k: nat): Word
    requires k < |vm.stack|
  {
    vm.stack[|vm.stack| - 1 - k]
  }

  function Operand(text: seq<Byte>, pc: nat): Option<Word> {
    if pc + 4 <= |text| then Some(Join(text[pc], text[pc + 1], text[pc + 2], text[pc + 3])) else None
  }

  // One function for each operation of op_table.

  function OpLd(text: seq<Byte>, vm: Vm): Option<Vm> {
    match Operand(text, vm.pc)
    case None => None
    case Some(w) => Push(vm.(pc := vm.pc + 4), w)
  }

  function OpLdValue(text: seq<Byte>, vm: Vm): Option<Vm> {
    match Operand(text, vm.pc)
    case None => None
    case Some(a) =>
      match Load(vm.mem, a)
      case None => None
      case Some(w) => Push(vm.(pc := vm.pc + 4), w)
  }

  function OpLdValueStack(vm: Vm): Option<Vm> {
    if |vm.stack| < 1 then None
    else
      match Load(vm.mem, Top(vm, 0))
      case None => None
      case Some(w) => Some(Replace(vm, 1, w))
  }

  function OpBitwise(vm: Vm): Option<Vm> {
    if |vm.stack| < 1 then None else Some(Replace(vm, 1, Complement(Top(vm, 0))))
  }

  function OpPop(vm: Vm): Option<Vm> {
    if |vm.stack| < 1 then None else Some(vm.(stack := vm.stack[..|vm.stack| - 1]))
  }

  function OpSt(vm: Vm): Option<Vm> {
    if |vm.stack| < 2 then None
    else
      match Store(vm.mem, Top(vm, 1), Top(vm, 0))
      case None => None
      case Some(m) => Some(vm.(stack := vm.stack[..|vm.stack| - 1], mem := m))
  }

  function OpBinary(bin: BinaryOp, vm: Vm): Option<Vm> {
    if |vm.stack| < 2 then None
    else
      match Arithmetic(bin, Top(vm, 1), Top(vm, 0))
      case None => None
      case Some(w) => Some(Replace(vm, 2, w))
  }

  /** op_table[op](), once op has been fetched. */
  function Perform(text: seq<Byte>, op: Byte, vm: Vm): (r: Option<Vm>)
    ensures r.Some? ==> r.value.pc >= vm.pc
  {
    if op == OP_NOOP then Some(vm)
    else if op == OP_LD then OpLd(text, vm)
    else if op == OP_LD_VALUE then OpLdValue(text, vm)
    else if op == OP_BITWISE then OpBitwise(vm)
    else if op == OP_LD_VALUE_STACK then OpLdValueStack(vm)
    else if op == OP_POP then OpPop(vm)
    else if op == OP_ST then OpSt(vm)
    else if Decode(op).Some? then OpBinary(Decode(op).value, vm)
    else None
  }

  function Step(text: seq<Byte>, vm: Vm): (r: Option<Vm>)
    requires vm.pc < |text|
    ensures r.Some? ==> r.value.pc > vm.pc
  {
    Perform(text, text[vm.pc], vm.(pc := vm.pc + 1))
  }

  /** finsh_vm_run's loop: until pc leaves the text segment. */
  function Run(text: seq<Byte>, vm: Vm): Option<Vm>
    decreases if vm.pc <= |text| then |text| - vm.pc else 0
  {
    if vm.pc >= |text| then Some(vm)
    else
      match Step(text, vm)
      case None => None
      case Some(next) => Run(text, next)
  }

  // ---------------------------------------------------------------- the object

  class Machine {
    const text: array<Byte>
    const stack: array<Word>
    var sp: nat
    var pc: nat
    var mem: Memory

    ghost predicate Valid()
      reads this, text, stack
    {
      && text.Length == FINSH_TEXT_MAX
      && stack.Length == FINSH_STACK_MAX
      && sp <= FINSH_STACK_MAX
    }

    ghost function Value(): Vm
      reads this, stack
      requires sp <= stack.Length
    {
      Vm(pc, stack[..sp], mem)
    }

    constructor (text: array<Byte>, mem: Memory)
      requires text.Length == FINSH_TEXT_MAX
      ensures Valid() && fresh(stack) && this.text == text && this.mem == mem && sp == pc == 0
    {
      this.text := text;
      stack := new Word[FINSH_STACK_MAX];
      sp, pc, this.mem := 0, 0, mem;
    }

    method PushWord(w: Word) returns (ok: bool)
      requires Valid()
      modifies this`sp, stack
      ensures Valid()
      ensures ok == Push(old(Value()), w).Some?
      ensures ok ==> Value() == Push(old(Value()), w).value
    {
      ok := sp < FINSH_STACK_MAX;
      if ok {
        stack[sp] := w;
        sp := sp + 1;
      }
    }

    /** Overwrites the top k values by w. */
    method ReplaceTop(k: nat, w: Word)
      requires Valid() && 1 <= k <= sp
      modifies this`sp, stack
      ensures Valid() && Value() == Replace(old(Value()), k, w)
    {
      stack[sp - k] := w;
      sp := sp - k + 1;
    }

    method LoadOperand() returns (ok: bool)
      requires Valid()
      modifies this, stack
      ensures Valid() && ok == OpLd(text[..], old(Value())).Some?
      ensures ok ==> Value() == OpLd(text[..], old(Value())).value
    {
      if pc + 4 > FINSH_TEXT_MAX { return false; }
      ok := PushWord(Join(text[pc], text[pc + 1], text[pc + 2], text[pc + 3]));
      pc := pc + 4;
    }

    method LoadValue() returns (ok: bool)
      requires Valid()
      modifies this, stack
      ensures Valid() && ok == OpLdValue(text[..], old(Value())).Some?
      ensures ok ==> Value() == OpLdValue(text[..], old(Value())).value
    {
      if pc + 4 > FINSH_TEXT_MAX { return false; }
      var w := Load(mem, Join(text[pc], text[pc + 1], text[pc + 2], text[pc + 3]));
      if w.None? { return false; }
      ok := PushWord(w.value);
      pc := pc + 4;
    }

    method LoadValueStack() returns (ok: bool)
      requires Valid()
      modifies this, stack
      ensures Valid() && ok == OpLdValueStack(old(Value())).Some?
      ensures ok ==> Value() == OpLdValueStack(old(Value())).value
    {
      if sp < 1 { return false; }
      var w := Load(mem, stack[sp - 1]);
      if w.None? { return false; }
      ReplaceTop(1, w.value);
      ok := true;
    }

    method Bitwise() returns (ok: bool)
      requires Valid()
      modifies this, stack
      ensures Valid() && ok == OpBitwise(old(Value())).Some?
      ensures ok ==> Value() == OpBitwise(old(Value())).value
    {
      if sp < 1 { return false; }
      ReplaceTop(1, Complement(stack[sp - 1]));
      ok := true;
    }

    method Pop() returns (ok: bool)
      requires Valid()
      modifies this
      ensures Valid() && ok == OpPop(old(Value())).Some?
      ensures ok ==> Value() == OpPop(old(Value())).value
    {
      if sp < 1 { return false; }
      sp := sp - 1;
      ok := true;
    }

    method StoreTop() returns (ok: bool)
      requires Valid()
      modifies this
      ensures Valid() && ok == OpSt(old(Value())).Some?
      ensures ok ==> Value() == OpSt(old(Value())).value
    {
      if sp < 2 { return false; }
      var m := Store(mem, stack[sp - 2], stack[sp - 1]);
      if m.None? { return false; }
      mem := m.value;
      sp := sp - 1;
      ok := true;
    }

    method BinaryTop(bin: BinaryOp) returns (ok: bool)
      requires Valid()
      modifies this, stack
      ensures Valid() && ok == OpBinary(bin, old(Value())).Some?
      ensures ok ==> Value() == OpBinary(bin, old(Value())).value
    {
      if sp < 2 { return false; }
      var w := Arithmetic(bin, stack[sp - 2], stack[sp - 1]);
      if w.None? { return false; }
      ReplaceTop(2, w.value);
      ok := true;
    }

    /** op_table[op](). */
    method Dispatch(op: Byte) returns (ok: bool)
      requires Valid()
      modifies this, stack
      ensures Valid() && ok == Perform(text[..], op, old(Value())).Some?
      ensures ok ==> Value() == Perform(text[..], op, old(Value())).value
    {
      if op == OP_NOOP {
        ok := true;
      } else if op == OP_LD {
        ok := LoadOperand();
      } else if op == OP_LD_VALUE {
        ok := LoadValue();
      } else if op == OP_BITWISE {
        ok := Bitwise();
      } else if op == OP_LD_VALUE_STACK {
        ok := LoadValueStack();
      } else if op == OP_POP {
        ok := Pop();
      } else if op == OP_ST {
        ok := StoreTop();
      } else {
        var bin := Decode(op);
        if bin.None? { return false; }
        ok := BinaryTop(bin.value);
      }
    }

    method RunProgram() returns (ok: bool)
      requires Valid()
      modifies this, stack
      ensures Valid()
      ensures var r := Run(text[..], Vm(0, [], old(mem)));
              ok == r.Some? && (ok ==> Value() == r.value)
    {
      hide Perform;
      sp, pc := 0, 0;
      assert stack[..0] == [];
      while pc < FINSH_TEXT_MAX
        invariant Valid()
        invariant Run(text[..], Value()) == Run(text[..], Vm(0, [], old(mem)))
        decreases FINSH_TEXT_MAX - pc
      {
        ghost var before := Value();
        var op := text[pc];
        pc := pc + 1;
        ok := Dispatch(op);
        assert text[..][before.pc] == op;
        assert Step(text[..], before) == Perform(text[..], op, before.(pc := before.pc + 1));
        if !ok { return; }
      }
      ok := true;
    }
  }
}
