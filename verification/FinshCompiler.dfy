/** The finsh type check and compiler for DWORD expressions,
    components/finsh/finsh_compiler.c, and its correctness: the compiled code, run on
    the machine of FinshMachine, computes what the expression means.
  */
module FinshCompiler {
  import opened Sequences
  import opened FinshMachine

  // ---------------------------------------------------------------- trees

  datatype Kind =
    | Id | ValueLong
    | Binary(op: BinaryOp) | Bitwise
    | AssignNode | PreInc | PreDec | Inc | Dec
    | GetValue | GetAddr

  /** A node in first-child, next-sibling form; Null is NULL. `isAddress` is the
      FINSH_IDTYPE_ADDRESS bit of idtype and `typed` says that data_type is DWORD.
      `word` is the value of a constant or the address of a variable. */
  datatype Node =
    | Null
    | Node(kind: Kind, isAddress: bool, typed: bool, word: Word, child: Node, sibling: Node)

  function Fresh(kind: Kind, word: Word, child: Node, sibling: Node): Node {
    Node(kind, false, false, word, child, sibling)
  }

  predicate TakesAddress(kind: Kind) {
    kind in {AssignNode, PreInc, PreDec, GetAddr}
  }

  /** finsh_type_check on a tree whose variables are all longs: every node becomes DWORD and
      the nodes that stand for addresses are marked. */
  function TypeCheck(n: Node, isAddr: bool): Node {
    if n.Null? then Null
    else
      var child :=
        if TakesAddress(n.kind) then TypeCheck(n.child, true)
        else if n.kind.GetValue? && isAddr then TypeCheck(n.child, false)
        else TypeCheck(n.child, isAddr);
      var typed := if child.Node? then child.typed else n.kind.Id? || n.kind.ValueLong?;
      Node(n.kind, n.isAddress || isAddr, typed, n.word, child, TypeCheck(n.sibling, false))
  }

  // ---------------------------------------------------------------- code

  /** Adds 1 to, or subtracts 1 from, the variable at a; leaves a on the stack. */
  function StepTail(op: Byte, a: Word): seq<Byte> {
    [OP_LD_VALUE] + Dword(a) + ([OP_LD] + Dword(1) + ([op] + [OP_ST]))
  }

  function StepOpcode(kind: Kind): Byte {
    if kind.PreInc? || kind.Inc? then OP_ADD else OP_SUB
  }

  /** What finsh_compile emits for a node after its child. */
  function Own(n: Node): seq<Byte>
    requires n.Node?
  {
    match n.kind
    case Id => [if n.isAddress then OP_LD else OP_LD_VALUE] + Dword(n.word)
    case ValueLong => [OP_LD] + Dword(n.word)
    case Binary(op) => if n.typed then [Opcode(op)] else []
    case Bitwise => if n.typed then [OP_BITWISE] else []
    case AssignNode =>
      if n.child.Node? && (n.child.kind.Id? || n.child.kind.GetValue?) && n.child.typed
      then [OP_ST] + [OP_LD_VALUE_STACK] else []
    case PreInc | PreDec =>
      if n.child.Node? && n.child.kind.Id? && n.typed
      then StepTail(StepOpcode(n.kind), n.child.word) + [OP_LD_VALUE_STACK] else []
    case Inc | Dec =>
      if n.child.Node? && n.child.kind.Id? && n.typed
      then [OP_LD] + Dword(n.child.word) + (StepTail(StepOpcode(n.kind), n.child.word) + [OP_POP]) else []
    case GetValue => if n.isAddress || !n.typed then [] else [OP_LD_VALUE_STACK]
    case GetAddr => []
  }

  /** finsh_compile: child, node, sibling. */
  function Code(n: Node): seq<Byte> {
    if n.Null? then [] else Code(n.child) + Own(n) + Code(n.sibling)
  }

  function StatementCode(n: Node, last: bool): seq<Byte> {
    Code(n) + if last then [] else [OP_POP]
  }

  /** The statements of finsh_compiler_run: siblings cut apart, a pop between two. */
  function ProgramCode(n: Node): seq<Byte> {
    if n.Null? then []
    else StatementCode(n.(sibling := Null), n.sibling.Null?) + ProgramCode(n.sibling)
  }

  // ---------------------------------------------------------------- expressions and their meaning

  datatype LValue = Variable(addr: Word) | Pointee(e: Expr)

  datatype Expr =
    | Const(w: Word)
    | Read(from: LValue)
    | AddressOf(of: LValue)
    | Assign(to: LValue, e: Expr)
    | Stepped(kind: Kind, v: Word)
    | Bin(op: BinaryOp, l: Expr, r: Expr)
    | Not(e: Expr)

  predicate StepKind(kind: Kind) {
    kind in {PreInc, PreDec, Inc, Dec}
  }

  /** ++ and -- are those applied to variables. */
  predicate InFragment(e: Expr) {
    match e
    case Const(_) => true
    case Read(lv) => LValueInFragment(lv)
    case AddressOf(lv) => LValueInFragment(lv)
    case Assign(lv, r) => LValueInFragment(lv) && InFragment(r)
    case Stepped(kind, _) => StepKind(kind)
    case Bin(_, l, r) => InFragment(l) && InFragment(r)
    case Not(r) => InFragment(r)
  }

  predicate LValueInFragment(lv: LValue) {
    lv.Pointee? ==> InFragment(lv.e)
  }

  datatype Outcome = Fault | Done(value: Word, mem: Memory)

  /** The meaning of an expression: its value and its stores, as in C, evaluated from left
      to right. */
  function Eval(e: Expr, m: Memory): Outcome
    decreases e
  {
    match e
    case Const(w) => Done(w, m)
    case Read(lv) =>
      (match EvalAddress(lv, m)
       case Fault => Fault
       case Done(a, m1) => if Load(m1, a).Some? then Done(Load(m1, a).value, m1) else Fault)
    case AddressOf(lv) => EvalAddress(lv, m)
    case Assign(lv, r) =>
      (match EvalAddress(lv, m)
       case Fault => Fault
       case Done(a, m1) =>
         match Eval(r, m1)
         case Fault => Fault
         case Done(w, m2) => if Store(m2, a, w).Some? then Done(w, Store(m2, a, w).value) else Fault)
    case Stepped(kind, a) =>
      if Load(m, a).None? then Fault
      else
        var was := Load(m, a).value;
        var now := StepValue(kind, was);
        if Store(m, a, now).None? then Fault
        else Done(if kind.PreInc? || kind.PreDec? then now else was, Store(m, a, now).value)
    case Bin(op, l, r) =>
      (match Eval(l, m)
       case Fault => Fault
       case Done(x, m1) =>
         match Eval(r, m1)
         case Fault => Fault
         case Done(y, m2) => if Arithmetic(op, x, y).Some? then Done(Arithmetic(op, x, y).value, m2) else Fault)
    case Not(r) =>
      (match Eval(r, m)
       case Fault => Fault
       case Done(x, m1) => Done(Complement(x), m1))
  }

  function EvalAddress(lv: LValue, m: Memory): Outcome
    decreases lv
  {
    match lv
    case Variable(a) => Done(a, m)
    case Pointee(e) => Eval(e, m)
  }

  /** A statement list: the value of the last statement, the stores of all. */
  function EvalAll(es: seq<Expr>, m: Memory): Outcome
    requires es != []
  {
    match Eval(es[0], m)
    case Fault => Fault
    case Done(w, m1) => if |es| == 1 then Done(w, m1) else EvalAll(es[1..], m1)
  }

  /** Stack slots an expression needs. */
  function Depth(e: Expr): nat {
    match e
    case Const(_) => 1
    case Read(lv) => LValueDepth(lv)
    case AddressOf(lv) => LValueDepth(lv)
    case Assign(lv, r) => Max(LValueDepth(lv), 1 + Depth(r))
    case Stepped(kind, _) => if kind.PreInc? || kind.PreDec? then 3 else 4
    case Bin(_, l, r) => Max(Depth(l), 1 + Depth(r))
    case Not(r) => Depth(r)
  }

  function LValueDepth(lv: LValue): nat {
    match lv
    case Variable(_) => 1
    case Pointee(e) => Depth(e)
  }

  function Max(a: nat, b: nat): nat {
    if a < b then b else a
  }

  // ---------------------------------------------------------------- expressions as trees

  /** The tree the parser builds for an expression. */
  function Tree(e: Expr, sibling: Node): (n: Node)
    ensures n.Node?
  {
    match e
    case Const(w) => Fresh(ValueLong, w, Null, sibling)
    case Read(lv) => LValueTree(lv, sibling)
    case AddressOf(lv) => Fresh(GetAddr, 0, LValueTree(lv, Null), sibling)
    case Assign(lv, r) => Fresh(AssignNode, 0, LValueTree(lv, Tree(r, Null)), sibling)
    case Stepped(kind, a) => Fresh(kind, 0, Fresh(Id, a, Null, Null), sibling)
    case Bin(op, l, r) => Fresh(Binary(op), 0, Tree(l, Tree(r, Null)), sibling)
    case Not(r) => Fresh(Bitwise, 0, Tree(r, Null), sibling)
  }

  function LValueTree(lv: LValue, sibling: Node): (n: Node)
    ensures n.Node? && (n.kind.Id? || n.kind.GetValue?)
  {
    match lv
    case Variable(a) => Fresh(Id, a, Null, sibling)
    case Pointee(e) => Fresh(GetValue, 0, Tree(e, Null), sibling)
  }

  function Statements(es: seq<Expr>): Node {
    if es == [] then Null else Tree(es[0], Statements(es[1..]))
  }

  /** Code for an expression, written directly. */
  function Gen(e: Expr): seq<Byte> {
    match e
    case Const(w) => [OP_LD] + Dword(w)
    case Read(Variable(a)) => [OP_LD_VALUE] + Dword(a)
    case Read(Pointee(p)) => Gen(p) + [OP_LD_VALUE_STACK]
    case AddressOf(lv) => GenAddress(lv)
    case Assign(lv, r) => GenAddress(lv) + Gen(r) + ([OP_ST] + [OP_LD_VALUE_STACK])
    case Stepped(kind, a) =>
      if kind.PreInc? || kind.PreDec? then
        [OP_LD] + Dword(a) + (StepTail(StepOpcode(kind), a) + [OP_LD_VALUE_STACK])
      else
        [OP_LD_VALUE] + Dword(a) + ([OP_LD] + Dword(a) + (StepTail(StepOpcode(kind), a) + [OP_POP]))
    case Bin(op, l, r) => Gen(l) + Gen(r) + [Opcode(op)]
    case Not(r) => Gen(r) + [OP_BITWISE]
  }

  function GenAddress(lv: LValue): seq<Byte> {
    match lv
    case Variable(a) => [OP_LD] + Dword(a)
    case Pointee(e) => Gen(e)
  }

  function GenAll(es: seq<Expr>): seq<Byte> {
    if es == [] then []
    else Gen(es[0]) + (if |es| == 1 then [] else [OP_POP]) + GenAll(es[1..])
  }

  lemma CodeNode(n: Node)
    requires n.Node?
    ensures Code(n) == Code(n.child) + Own(n) + Code(n.sibling)
  {
  }

  lemma NoCode(isAddr: bool)
    ensures TypeCheck(Null, isAddr) == Null && Code(Null) == []
  {
  }

  /** The code of a checked inner node in value mode, from that of its child. */
  lemma InnerCode(kind: Kind, child: Node, sibling: Node, code: seq<Byte>)
    requires child.Node? && !kind.Id? && !kind.ValueLong?
    requires var c := TypeCheck(child, TakesAddress(kind));
             c.typed && Code(c) == code
    ensures var n := TypeCheck(Fresh(kind, 0, child, sibling), false);
            && n.Node? && n.typed && !n.isAddress && n.kind == kind
            && n.child == TypeCheck(child, TakesAddress(kind))
            && Code(n) == code + Own(n) + Code(TypeCheck(sibling, false))
  {
    hide Own;
    hide Code;
    CodeNode(TypeCheck(Fresh(kind, 0, child, sibling), false));
  }

  lemma LeafCode(kind: Kind, word: Word, sibling: Node, isAddr: bool)
    requires kind.Id? || kind.ValueLong?
    ensures var n := TypeCheck(Fresh(kind, word, Null, sibling), isAddr);
            && n.Node? && n.typed && n.kind == kind && n.word == word && n.isAddress == isAddr
            && Code(n) == Own(n) + Code(TypeCheck(sibling, false))
  {
    hide Own;
    NoCode(true);
    NoCode(false);
    hide Code;
    var n := TypeCheck(Fresh(kind, word, Null, sibling), isAddr);
    CodeNode(n);
    assert [] + Own(n) == Own(n);
  }

  /** Type checking and compiling the tree of e yields Gen(e), with the siblings' code after it,
      and types every node. */
  lemma {:induction false} TreeCode(e: Expr, sibling: Node)
    requires InFragment(e)
    ensures Code(TypeCheck(Tree(e, sibling), false)) == Gen(e) + Code(TypeCheck(sibling, false))
    ensures TypeCheck(Tree(e, sibling), false).typed
    decreases e, 0
  {
    NoCode(false);
    match e
    case Const(w) => LeafCode(ValueLong, w, sibling, false);
    case Read(lv) => LValueCode(lv, sibling);
    case AddressOf(lv) =>
      LValueCode(lv, Null);
      assert GenAddress(lv) + [] == GenAddress(lv);
      InnerCode(GetAddr, LValueTree(lv, Null), sibling, GenAddress(lv));
    case Assign(lv, r) =>
      TreeCode(r, Null);
      AssignCode(lv, Tree(r, Null), sibling, Gen(r));
    case Stepped(kind, a) => SteppedCode(kind, a, sibling);
    case Bin(op, l, r) =>
      TreeCode(l, Tree(r, Null));
      TreeCode(r, Null);
      assert Gen(l) + (Gen(r) + []) == Gen(l) + Gen(r);
      InnerCode(Binary(op), Tree(l, Tree(r, Null)), sibling, Gen(l) + Gen(r));
    case Not(r) =>
      TreeCode(r, Null);
      assert Gen(r) + [] == Gen(r);
      InnerCode(Bitwise, Tree(r, Null), sibling, Gen(r));
  }

  lemma {:induction false} AssignCode(lv: LValue, right: Node, sibling: Node, code: seq<Byte>)
    requires LValueInFragment(lv) && Code(TypeCheck(right, false)) == code + []
    ensures var n := TypeCheck(Fresh(AssignNode, 0, LValueTree(lv, right), sibling), false);
            && n.Node? && n.typed
            && Code(n) == GenAddress(lv) + code + ([OP_ST] + [OP_LD_VALUE_STACK]) + Code(TypeCheck(sibling, false))
    decreases lv, 1
  {
    LValueCode(lv, right);
    assert code + [] == code;
    InnerCode(AssignNode, LValueTree(lv, right), sibling, GenAddress(lv) + code);
    var c := TypeCheck(LValueTree(lv, right), true);
    assert c.kind == LValueTree(lv, right).kind;
  }

  lemma SteppedCode(kind: Kind, a: Word, sibling: Node)
    requires StepKind(kind)
    ensures Code(TypeCheck(Tree(Stepped(kind, a), sibling), false))
         == Gen(Stepped(kind, a)) + Code(TypeCheck(sibling, false))
    ensures TypeCheck(Tree(Stepped(kind, a), sibling), false).typed
  {
    var id := Fresh(Id, a, Null, Null);
    var addr := TakesAddress(kind);
    LeafCode(Id, a, Null, addr);
    NoCode(false);
    var c := TypeCheck(id, addr);
    assert Own(c) + [] == Own(c);
    InnerCode(kind, id, sibling, Own(c));
    SteppedOwn(kind, a, TypeCheck(Fresh(kind, 0, id, sibling), false));
  }

  lemma SteppedOwn(kind: Kind, a: Word, n: Node)
    requires StepKind(kind) && n.Node? && n.typed && n.kind == kind && n.child.Node?
    requires n.child.kind.Id? && n.child.word == a && n.child.isAddress == TakesAddress(kind)
    ensures Own(n.child) + Own(n) == Gen(Stepped(kind, a))
  {
  }

  /** An lvalue compiles to its address under address mode and to its value otherwise. */
  lemma {:induction false} LValueCode(lv: LValue, sibling: Node)
    requires LValueInFragment(lv)
    ensures Code(TypeCheck(LValueTree(lv, sibling), true)) == GenAddress(lv) + Code(TypeCheck(sibling, false))
    ensures Code(TypeCheck(LValueTree(lv, sibling), false)) == Gen(Read(lv)) + Code(TypeCheck(sibling, false))
    ensures TypeCheck(LValueTree(lv, sibling), true).typed && TypeCheck(LValueTree(lv, sibling), false).typed
    decreases lv, 0
  {
    match lv
    case Variable(a) =>
      LeafCode(Id, a, sibling, true);
      LeafCode(Id, a, sibling, false);
    case Pointee(e) =>
      TreeCode(e, Null);
      NoCode(false);
      assert Gen(e) + [] == Gen(e);
      InnerCode(GetValue, Tree(e, Null), sibling, Gen(e));
      PointeeAddress(Tree(e, Null), sibling, Gen(e));
  }

  /** A dereference in address mode leaves its operand, a value, as the address. */
  lemma PointeeAddress(child: Node, sibling: Node, code: seq<Byte>)
    requires child.Node? && TypeCheck(child, false).typed && Code(TypeCheck(child, false)) == code
    ensures var n := TypeCheck(Fresh(GetValue, 0, child, sibling), true);
            n.Node? && n.typed && Code(n) == code + Code(TypeCheck(sibling, false))
  {
    hide Code;
    var n := TypeCheck(Fresh(GetValue, 0, child, sibling), true);
    CodeNode(n);
    assert Own(n) == [];
    assert code + [] == code;
  }

  lemma {:induction false} ProgramCodeIsGenAll(es: seq<Expr>)
    requires forall e <- es :: InFragment(e)
    ensures ProgramCode(TypeCheck(Statements(es), false)) == GenAll(es)
  {
    if es != [] {
      var n := TypeCheck(Statements(es), false);
      TreeCode(es[0], Null);
      assert Code(TypeCheck(Null, false)) == [];
      CutSibling(es[0], Statements(es[1..]));
      assert Code(n.(sibling := Null)) == Gen(es[0]);
      ProgramCodeIsGenAll(es[1..]);
    }
  }

  lemma CutSibling(e: Expr, sibling: Node)
    ensures var n := TypeCheck(Tree(e, sibling), false);
            n.Node? && n.(sibling := Null) == TypeCheck(Tree(e, Null), false)
    ensures TypeCheck(Tree(e, sibling), false).sibling == TypeCheck(sibling, false)
  {
  }

  // ---------------------------------------------------------------- running the code

  /** `code` stands at pc. */
  ghost predicate CodeAt(text: seq<Byte>, pc: nat, code: seq<Byte>) {
    pc + |code| <= |text| && text[pc..pc + |code|] == code
  }

  lemma CodeAtSplit(text: seq<Byte>, pc: nat, a: seq<Byte>, b: seq<Byte>)
    requires CodeAt(text, pc, a + b)
    ensures CodeAt(text, pc, a) && CodeAt(text, pc + |a|, b)
  {
    var c := text[pc..pc + |a + b|];
    assert text[pc..pc + |a|] == c[..|a|] == a;
    assert text[pc + |a|..pc + |a| + |b|] == c[|a|..] == b;
  }

  lemma CodeAtSplit3(text: seq<Byte>, pc: nat, a: seq<Byte>, b: seq<Byte>, c: seq<Byte>)
    requires CodeAt(text, pc, a + b + c)
    ensures CodeAt(text, pc, a) && CodeAt(text, pc + |a|, b) && CodeAt(text, pc + |a| + |b|, c)
  {
    CodeAtSplit(text, pc, a + b, c);
    CodeAtSplit(text, pc, a, b);
  }

  /** Running from vm gets to the outcome with `next` as program counter and the value pushed. */
  ghost predicate Computes(text: seq<Byte>, vm: Vm, next: nat, out: Outcome) {
    Run(text, vm) == match out
                     case Fault => None
                     case Done(w, m) => Run(text, Vm(next, vm.stack + [w], m))
  }

  lemma ByteAt(text: seq<Byte>, pc: nat, op: Byte)
    requires CodeAt(text, pc, [op])
    ensures pc < |text| && text[pc] == op
  {
    assert text[pc] == text[pc..pc + 1][0];
  }

  lemma OperandAt(text: seq<Byte>, pc: nat, op: Byte, w: Word)
    requires CodeAt(text, pc, [op] + Dword(w))
    ensures pc < |text| && text[pc] == op && Operand(text, pc + 1) == Some(w)
  {
    CodeAtSplit(text, pc, [op], Dword(w));
    ByteAt(text, pc, op);
    JoinDword(w);
    var d := text[pc + 1..pc + 1 + |Dword(w)|];
    assert forall k :: 0 <= k < 4 ==> text[pc + 1 + k] == d[k];
  }

  lemma RunLoad(text: seq<Byte>, vm: Vm, w: Word)
    requires CodeAt(text, vm.pc, [OP_LD] + Dword(w)) && |vm.stack| < FINSH_STACK_MAX
    ensures Computes(text, vm, vm.pc + 5, Done(w, vm.mem))
  {
    OperandAt(text, vm.pc, OP_LD, w);
  }

  lemma RunLoadValue(text: seq<Byte>, vm: Vm, a: Word)
    requires CodeAt(text, vm.pc, [OP_LD_VALUE] + Dword(a)) && |vm.stack| < FINSH_STACK_MAX
    ensures Run(text, vm) == if Load(vm.mem, a).None? then None
                             else Run(text, Vm(vm.pc + 5, vm.stack + [Load(vm.mem, a).value], vm.mem))
    ensures Computes(text, vm, vm.pc + 5, Eval(Read(Variable(a)), vm.mem))
  {
    OperandAt(text, vm.pc, OP_LD_VALUE, a);
  }

  lemma RunBinary(text: seq<Byte>, vm: Vm, op: BinaryOp, x: Word, y: Word)
    requires CodeAt(text, vm.pc, [Opcode(op)])
    ensures Run(text, vm.(stack := vm.stack + [x] + [y]))
         == match Arithmetic(op, x, y) case None => None
            case Some(w) => Run(text, Vm(vm.pc + 1, vm.stack + [w], vm.mem))
  {
    hide Arithmetic;
    ByteAt(text, vm.pc, Opcode(op));
    var s := vm.stack + [x] + [y];
    assert s[..|s| - 2] == vm.stack;
  }

  lemma RunTop(text: seq<Byte>, vm: Vm, x: Word)
    ensures CodeAt(text, vm.pc, [OP_BITWISE]) ==>
              Run(text, vm.(stack := vm.stack + [x])) == Run(text, Vm(vm.pc + 1, vm.stack + [Complement(x)], vm.mem))
    ensures CodeAt(text, vm.pc, [OP_POP]) ==>
              Run(text, vm.(stack := vm.stack + [x])) == Run(text, Vm(vm.pc + 1, vm.stack, vm.mem))
    ensures CodeAt(text, vm.pc, [OP_LD_VALUE_STACK]) ==>
              Run(text, vm.(stack := vm.stack + [x]))
              == if Load(vm.mem, x).None? then None
                 else Run(text, Vm(vm.pc + 1, vm.stack + [Load(vm.mem, x).value], vm.mem))
  {
    var s := vm.stack + [x];
    assert s[..|s| - 1] == vm.stack;
    if CodeAt(text, vm.pc, [OP_BITWISE]) {
      ByteAt(text, vm.pc, OP_BITWISE);
    } else if CodeAt(text, vm.pc, [OP_POP]) {
      ByteAt(text, vm.pc, OP_POP);
    } else if CodeAt(text, vm.pc, [OP_LD_VALUE_STACK]) {
      ByteAt(text, vm.pc, OP_LD_VALUE_STACK);
    }
  }

  /** A store leaves the address it stored to on the stack. */
  lemma RunStore(text: seq<Byte>, vm: Vm, a: Word, w: Word)
    requires CodeAt(text, vm.pc, [OP_ST])
    ensures Run(text, vm.(stack := vm.stack + [a] + [w]))
         == if Store(vm.mem, a, w).None? then None
            else Run(text, Vm(vm.pc + 1, vm.stack + [a], Store(vm.mem, a, w).value))
  {
    ByteAt(text, vm.pc, OP_ST);
    var s := vm.stack + [a] + [w];
    assert s[..|s| - 1] == vm.stack + [a];
  }

  /** The store that ends an assignment and the load that follows it leave the value stored. */
  lemma RunStoreLoad(text: seq<Byte>, vm: Vm, a: Word, w: Word)
    requires CodeAt(text, vm.pc, [OP_ST] + [OP_LD_VALUE_STACK])
    ensures Run(text, vm.(stack := vm.stack + [a] + [w]))
         == if Store(vm.mem, a, w).None? then None
            else Run(text, Vm(vm.pc + 2, vm.stack + [w], Store(vm.mem, a, w).value))
  {
    hide Run;
    CodeAtSplit(text, vm.pc, [OP_ST], [OP_LD_VALUE_STACK]);
    RunStore(text, vm, a, w);
    if Store(vm.mem, a, w).Some? {
      LoadAfterStore(vm.mem, a, w);
      RunTop(text, Vm(vm.pc + 1, vm.stack, Store(vm.mem, a, w).value), a);
    }
  }

  /** What ++ and -- make of a variable's value. */
  function StepValue(kind: Kind, was: Word): Word {
    if kind.PreInc? || kind.Inc? then Wrap(was as int + 1) else Wrap(was as int - 1)
  }

  lemma RunStepArithmetic(text: seq<Byte>, vm: Vm, kind: Kind, was: Word)
    requires StepKind(kind) && |vm.stack| + 2 <= FINSH_STACK_MAX
    requires CodeAt(text, vm.pc, [OP_LD] + Dword(1)) && CodeAt(text, vm.pc + 5, [StepOpcode(kind)])
    ensures Run(text, vm.(stack := vm.stack + [was]))
         == Run(text, Vm(vm.pc + 6, vm.stack + [StepValue(kind, was)], vm.mem))
  {
    hide Run;
    RunLoad(text, vm.(stack := vm.stack + [was]), 1);
    RunBinary(text, vm.(pc := vm.pc + 5), if kind.PreInc? || kind.Inc? then Add else Sub, was, 1);
  }

  /** From an address on the stack, the common part of ++ and --. */
  lemma RunStepTail(text: seq<Byte>, vm: Vm, kind: Kind, a: Word)
    requires StepKind(kind) && |vm.stack| + 3 <= FINSH_STACK_MAX
    requires CodeAt(text, vm.pc, StepTail(StepOpcode(kind), a))
    ensures Run(text, vm.(stack := vm.stack + [a]))
         == match Eval(Stepped(kind, a), vm.mem)
            case Fault => None
            case Done(_, m) => Run(text, Vm(vm.pc + 12, vm.stack + [a], m))
  {
    hide Run;
    var op := StepOpcode(kind);
    CodeAtSplit(text, vm.pc, [OP_LD_VALUE] + Dword(a), [OP_LD] + Dword(1) + ([op] + [OP_ST]));
    CodeAtSplit(text, vm.pc + 5, [OP_LD] + Dword(1), [op] + [OP_ST]);
    CodeAtSplit(text, vm.pc + 10, [op], [OP_ST]);
    hide CodeAt;
    hide StepTail;
    var stack := vm.stack + [a];
    RunLoadValue(text, vm.(stack := stack), a);
    if Load(vm.mem, a).Some? {
      var was := Load(vm.mem, a).value;
      RunStepArithmetic(text, Vm(vm.pc + 5, stack, vm.mem), kind, was);
      RunStore(text, Vm(vm.pc + 11, vm.stack, vm.mem), a, StepValue(kind, was));
    }
  }

  lemma RunPreStep(text: seq<Byte>, vm: Vm, kind: Kind, a: Word)
    requires (kind.PreInc? || kind.PreDec?) && |vm.stack| + 3 <= FINSH_STACK_MAX
    requires CodeAt(text, vm.pc, Gen(Stepped(kind, a)))
    ensures Computes(text, vm, vm.pc + 18, Eval(Stepped(kind, a), vm.mem))
  {
    hide Run;
    var tail := StepTail(StepOpcode(kind), a);
    CodeAtSplit(text, vm.pc, [OP_LD] + Dword(a), tail + [OP_LD_VALUE_STACK]);
    CodeAtSplit(text, vm.pc + 5, tail, [OP_LD_VALUE_STACK]);
    RunLoad(text, vm, a);
    RunStepTail(text, vm.(pc := vm.pc + 5), kind, a);
    var out := Eval(Stepped(kind, a), vm.mem);
    if out.Done? {
      LoadAfterStore(vm.mem, a, out.value);
      RunTop(text, Vm(vm.pc + 17, vm.stack, out.mem), a);
    }
  }

  lemma RunPostStep(text: seq<Byte>, vm: Vm, kind: Kind, a: Word)
    requires (kind.Inc? || kind.Dec?) && |vm.stack| + 4 <= FINSH_STACK_MAX
    requires CodeAt(text, vm.pc, Gen(Stepped(kind, a)))
    ensures Computes(text, vm, vm.pc + 23, Eval(Stepped(kind, a), vm.mem))
  {
    hide Run;
    var tail := StepTail(StepOpcode(kind), a);
    CodeAtSplit(text, vm.pc, [OP_LD_VALUE] + Dword(a), [OP_LD] + Dword(a) + (tail + [OP_POP]));
    CodeAtSplit(text, vm.pc + 5, [OP_LD] + Dword(a), tail + [OP_POP]);
    CodeAtSplit(text, vm.pc + 10, tail, [OP_POP]);
    RunLoadValue(text, vm, a);
    if Load(vm.mem, a).Some? {
      var stack := vm.stack + [Load(vm.mem, a).value];
      RunLoad(text, Vm(vm.pc + 5, stack, vm.mem), a);
      RunStepTail(text, Vm(vm.pc + 10, stack, vm.mem), kind, a);
      var out := Eval(Stepped(kind, a), vm.mem);
      if out.Done? {
        RunTop(text, Vm(vm.pc + 22, stack, out.mem), a);
      }
    }
  }

  /** The central lemma: the code of e, wherever it stands and whatever is on the stack below,
      computes what e means, faults included. */
  lemma {:induction false} RunExpr(text: seq<Byte>, vm: Vm, e: Expr)
    requires InFragment(e) && |vm.stack| + Depth(e) <= FINSH_STACK_MAX
    requires CodeAt(text, vm.pc, Gen(e))
    ensures Computes(text, vm, vm.pc + |Gen(e)|, Eval(e, vm.mem))
    decreases e, 1
  {
    hide Run;
    hide CodeAt;
    hide Computes;
    match e
    case Const(w) => RunLoad(text, vm, w);
    case Read(Variable(a)) => RunLoadValue(text, vm, a);
    case Read(Pointee(p)) => RunPointee(text, vm, p);
    case AddressOf(lv) => RunAddress(text, vm, lv);
    case Assign(lv, r) => RunAssign(text, vm, lv, r);
    case Stepped(kind, a) =>
      if kind.PreInc? || kind.PreDec? { RunPreStep(text, vm, kind, a); } else { RunPostStep(text, vm, kind, a); }
    case Bin(op, l, r) => RunBin(text, vm, op, l, r);
    case Not(r) => RunNot(text, vm, r);
  }

  lemma FinishPointee(text: seq<Byte>, vm: Vm, q: nat, p: Expr)
    requires Computes(text, vm, q, Eval(p, vm.mem)) && CodeAt(text, q, [OP_LD_VALUE_STACK])
    ensures Computes(text, vm, q + 1, Eval(Read(Pointee(p)), vm.mem))
  {
    hide Run;
    hide CodeAt;
    hide Load;
    assert EvalAddress(Pointee(p), vm.mem) == Eval(p, vm.mem);
    var out := Eval(p, vm.mem);
    if out.Done? {
      RunTop(text, Vm(q, vm.stack, out.mem), out.value);
    }
  }

  lemma {:induction false} RunPointee(text: seq<Byte>, vm: Vm, p: Expr)
    requires InFragment(p) && |vm.stack| + Depth(p) <= FINSH_STACK_MAX
    requires CodeAt(text, vm.pc, Gen(p) + [OP_LD_VALUE_STACK])
    ensures Computes(text, vm, vm.pc + |Gen(p)| + 1, Eval(Read(Pointee(p)), vm.mem))
    decreases p, 2
  {
    CodeAtSplit(text, vm.pc, Gen(p), [OP_LD_VALUE_STACK]);
    hide *;
    RunExpr(text, vm, p);
    FinishPointee(text, vm, vm.pc + |Gen(p)|, p);
  }

  /** What is known once the code of both operands has run: the first ends at p, the second at q. */
  ghost predicate BothComputed(text: seq<Byte>, vm: Vm, p: nat, q: nat, l: Expr, r: Expr) {
    && Computes(text, vm, p, Eval(l, vm.mem))
    && (Eval(l, vm.mem).Done? ==>
          var first := Eval(l, vm.mem);
          Computes(text, Vm(p, vm.stack + [first.value], first.mem), q, Eval(r, first.mem)))
  }

  lemma FinishBin(text: seq<Byte>, vm: Vm, op: BinaryOp, p: nat, q: nat, l: Expr, r: Expr)
    requires BothComputed(text, vm, p, q, l, r) && CodeAt(text, q, [Opcode(op)])
    ensures Computes(text, vm, q + 1, Eval(Bin(op, l, r), vm.mem))
  {
    hide Run;
    hide CodeAt;
    hide Arithmetic;
    var first := Eval(l, vm.mem);
    if first.Done? {
      var second := Eval(r, first.mem);
      if second.Done? {
        RunBinary(text, Vm(q, vm.stack, second.mem), op, first.value, second.value);
      }
    }
  }

  lemma {:induction false} RunBin(text: seq<Byte>, vm: Vm, op: BinaryOp, l: Expr, r: Expr)
    requires InFragment(l) && InFragment(r)
    requires |vm.stack| + Depth(l) <= FINSH_STACK_MAX && |vm.stack| + 1 + Depth(r) <= FINSH_STACK_MAX
    requires CodeAt(text, vm.pc, Gen(l) + Gen(r) + [Opcode(op)])
    ensures Computes(text, vm, vm.pc + |Gen(l)| + |Gen(r)| + 1, Eval(Bin(op, l, r), vm.mem))
    decreases Bin(op, l, r), 0
  {
    hide *;
    CodeAtSplit3(text, vm.pc, Gen(l), Gen(r), [Opcode(op)]);
    var p := vm.pc + |Gen(l)|;
    RunBoth(text, vm, p, op, l, r);
    FinishBin(text, vm, op, p, p + |Gen(r)|, l, r);
  }

  lemma {:induction false} RunBoth(text: seq<Byte>, vm: Vm, p: nat, op: BinaryOp, l: Expr, r: Expr)
    requires InFragment(l) && InFragment(r)
    requires |vm.stack| + Depth(l) <= FINSH_STACK_MAX && |vm.stack| + 1 + Depth(r) <= FINSH_STACK_MAX
    requires CodeAt(text, vm.pc, Gen(l)) && p == vm.pc + |Gen(l)| && CodeAt(text, p, Gen(r))
    ensures BothComputed(text, vm, p, p + |Gen(r)|, l, r)
    decreases Bin(op, l, r), -1
  {
    hide *;
    RunExpr(text, vm, l);
    var first := Eval(l, vm.mem);
    if first.Done? {
      RunAbove(text, p, vm.stack, first.value, first.mem, r);
    }
    BothFrom(text, vm, p, p + |Gen(r)|, l, r);
  }

  /** The code of r, with one more value on the stack. */
  lemma {:induction false} RunAbove(text: seq<Byte>, pc: nat, stack: seq<Word>, w: Word, m: Memory, r: Expr)
    requires InFragment(r) && |stack| + 1 + Depth(r) <= FINSH_STACK_MAX && CodeAt(text, pc, Gen(r))
    ensures Computes(text, Vm(pc, stack + [w], m), pc + |Gen(r)|, Eval(r, m))
    decreases r, 2
  {
    hide *;
    RunExpr(text, Vm(pc, stack + [w], m), r);
  }

  lemma BothFrom(text: seq<Byte>, vm: Vm, p: nat, q: nat, l: Expr, r: Expr)
    requires Computes(text, vm, p, Eval(l, vm.mem))
    requires Eval(l, vm.mem).Done? ==>
               Computes(text, Vm(p, vm.stack + [Eval(l, vm.mem).value], Eval(l, vm.mem).mem), q, Eval(r, Eval(l, vm.mem).mem))
    ensures BothComputed(text, vm, p, q, l, r)
  {
    hide Run;
    hide Eval;
  }

  lemma {:induction false} RunNot(text: seq<Byte>, vm: Vm, r: Expr)
    requires InFragment(r) && |vm.stack| + Depth(r) <= FINSH_STACK_MAX
    requires CodeAt(text, vm.pc, Gen(r) + [OP_BITWISE])
    ensures Computes(text, vm, vm.pc + |Gen(r)| + 1, Eval(Not(r), vm.mem))
    decreases r, 2
  {
    hide Run;
    CodeAtSplit(text, vm.pc, Gen(r), [OP_BITWISE]);
    hide CodeAt;
    hide Gen;
    hide Complement;
    RunExpr(text, vm, r);
    match Eval(r, vm.mem) {
      case Fault =>
      case Done(x, m) => RunTop(text, Vm(vm.pc + |Gen(r)|, vm.stack, m), x);
    }
  }

  lemma {:induction false} RunAddress(text: seq<Byte>, vm: Vm, lv: LValue)
    requires LValueInFragment(lv) && |vm.stack| + LValueDepth(lv) <= FINSH_STACK_MAX
    requires CodeAt(text, vm.pc, GenAddress(lv))
    ensures Computes(text, vm, vm.pc + |GenAddress(lv)|, EvalAddress(lv, vm.mem))
    decreases lv, 0
  {
    hide Run;
    match lv
    case Variable(a) => RunLoad(text, vm, a);
    case Pointee(e) => RunExpr(text, vm, e);
  }

  lemma {:induction false} RunAssign(text: seq<Byte>, vm: Vm, lv: LValue, r: Expr)
    requires InFragment(Assign(lv, r)) && |vm.stack| + Depth(Assign(lv, r)) <= FINSH_STACK_MAX
    requires CodeAt(text, vm.pc, GenAddress(lv) + Gen(r) + ([OP_ST] + [OP_LD_VALUE_STACK]))
    ensures Computes(text, vm, vm.pc + |GenAddress(lv)| + |Gen(r)| + 2, Eval(Assign(lv, r), vm.mem))
    decreases Assign(lv, r), 0
  {
    hide Run;
    hide CodeAt;
    hide Gen;
    hide GenAddress;
    hide Store;
    hide Load;
    CodeAtSplit3(text, vm.pc, GenAddress(lv), Gen(r), [OP_ST] + [OP_LD_VALUE_STACK]);
    var p := vm.pc + |GenAddress(lv)|;
    RunAddress(text, vm, lv);
    match EvalAddress(lv, vm.mem) {
      case Fault =>
      case Done(a, m1) =>
        RunExpr(text, Vm(p, vm.stack + [a], m1), r);
        match Eval(r, m1) {
          case Fault =>
          case Done(w, m2) =>
            RunStoreLoad(text, Vm(p + |Gen(r)|, vm.stack, m2), a, w);
        }
    }
  }

  // ---------------------------------------------------------------- whole programs

  lemma {:induction false} RunNoops(text: seq<Byte>, vm: Vm)
    requires vm.pc <= |text| && forall k :: vm.pc <= k < |text| ==> text[k] == OP_NOOP
    ensures Run(text, vm) == Some(vm.(pc := |text|))
    decreases |text| - vm.pc
  {
    if vm.pc < |text| { RunNoops(text, vm.(pc := vm.pc + 1)); }
  }

  lemma {:induction false} RunAll(text: seq<Byte>, pc: nat, es: seq<Expr>, m: Memory)
    requires es != [] && forall e <- es :: InFragment(e) && Depth(e) <= FINSH_STACK_MAX
    requires CodeAt(text, pc, GenAll(es))
    ensures Computes(text, Vm(pc, [], m), pc + |GenAll(es)|, EvalAll(es, m))
    decreases |es|
  {
    hide Run, CodeAt, Gen, GenAll, EvalAll, Eval, InFragment, Depth;
    var e, vm, rest := es[0], Vm(pc, [], m), es[1..];
    var pop := if |es| == 1 then [] else [OP_POP];
    AllIs(es, m);
    CodeAtSplit(text, pc, Gen(e) + pop, GenAll(rest));
    CodeAtSplit(text, pc, Gen(e), pop);
    RunExpr(text, vm, e);
    match Eval(e, m) {
      case Fault =>
      case Done(w, m1) =>
        if |es| > 1 {
          var after := pc + |Gen(e)|;
          RunTop(text, Vm(after, [], m1), w);
          RunAll(text, after + 1, rest, m1);
        }
    }
  }

  lemma AllIs(es: seq<Expr>, m: Memory)
    requires es != []
    ensures GenAll(es) == Gen(es[0]) + (if |es| == 1 then [] else [OP_POP]) + GenAll(es[1..])
    ensures |es| == 1 ==> GenAll(es[1..]) == []
    ensures EvalAll(es, m) == match Eval(es[0], m)
                              case Fault => Fault
                              case Done(w, m1) => if |es| == 1 then Done(w, m1) else EvalAll(es[1..], m1)
    ensures Eval(es[0], m).Done? && |es| > 1 ==> EvalAll(es[1..], Eval(es[0], m).mem) == EvalAll(es, m)
  {
    hide Gen, Eval;
  }

  /** The text segment finsh_compiler_run leaves: the code, then zeros. */
  function TextSegment(n: Node): seq<Byte>
    requires |ProgramCode(TypeCheck(n, false))| <= FINSH_TEXT_MAX
  {
    var code := ProgramCode(TypeCheck(n, false));
    code + seq(FINSH_TEXT_MAX - |code|, i => OP_NOOP)
  }

  /** Compiler correctness. A statement list whose code fits the text segment and whose
      statements fit the stack, type checked, compiled and run, faults exactly when its
      meaning is undefined; otherwise it leaves the last value alone on the stack and has made
      exactly the stores the statements make. */
  lemma CompilerCorrect(es: seq<Expr>, m: Memory)
    requires es != [] && forall e <- es :: InFragment(e) && Depth(e) <= FINSH_STACK_MAX
    requires |ProgramCode(TypeCheck(Statements(es), false))| <= FINSH_TEXT_MAX
    ensures Run(TextSegment(Statements(es)), Vm(0, [], m))
         == match EvalAll(es, m)
            case Fault => None
            case Done(w, m') => Some(Vm(FINSH_TEXT_MAX, [w], m'))
  {
    hide Run, TextSegment, ProgramCode, TypeCheck, Statements, GenAll, EvalAll, InFragment, Depth;
    ProgramCodeIsGenAll(es);
    var text, n := TextSegment(Statements(es)), |GenAll(es)|;
    SegmentIs(Statements(es));
    assert text[0..0 + n] == GenAll(es);
    RunAll(text, 0, es, m);
    match EvalAll(es, m) {
      case Fault =>
      case Done(w, m') =>
        RunNoops(text, Vm(n, [w], m'));
        assert [] + [w] == [w];
    }
  }

  // ---------------------------------------------------------------- steps, and what they are applied to

  /** The tree of ++ or -- applied to an l-value. */
  function StepTree(kind: Kind, lv: LValue): Node {
    Fresh(kind, 0, LValueTree(lv, Null), Null)
  }

  /** What C makes of it: the l-value is evaluated once, and stored to. */
  function StepMeaning(kind: Kind, lv: LValue, m: Memory): Outcome {
    match EvalAddress(lv, m)
    case Fault => Fault
    case Done(a, m1) => Eval(Stepped(kind, a), m1)
  }

  /** The expression that the code for it computes: of a pointee, the operand and nothing else. */
  function StepCompiled(kind: Kind, lv: LValue): Expr {
    match lv
    case Variable(a) => Stepped(kind, a)
    case Pointee(e) => if kind.PreInc? || kind.PreDec? then e else Read(Pointee(e))
  }

  lemma StepCode(kind: Kind, lv: LValue)
    requires StepKind(kind) && LValueInFragment(lv)
    ensures Code(TypeCheck(StepTree(kind, lv), false)) == Gen(StepCompiled(kind, lv))
    ensures InFragment(StepCompiled(kind, lv))
  {
    NoCode(false);
    match lv
    case Variable(a) =>
      TreeCode(Stepped(kind, a), Null);
      assert StepTree(kind, lv) == Tree(Stepped(kind, a), Null);
    case Pointee(e) =>
      LValueCode(lv, Null);
      var n := TypeCheck(StepTree(kind, lv), false);
      assert n.child == TypeCheck(LValueTree(lv, Null), kind.PreInc? || kind.PreDec?);
      assert Code(n) == Code(n.child) + [] + [];
  }

  /** A program of one statement whose code is that of e. */
  lemma RunOne(n: Node, e: Expr, m: Memory)
    requires n.Node? && n.sibling == Null && InFragment(e) && Depth(e) <= FINSH_STACK_MAX
    requires Code(TypeCheck(n, false)) == Gen(e) && |ProgramCode(TypeCheck(n, false))| <= FINSH_TEXT_MAX
    ensures Run(TextSegment(n), Vm(0, [], m))
         == match Eval(e, m)
            case Fault => None
            case Done(w, m') => Some(Vm(FINSH_TEXT_MAX, [w], m'))
  {
    hide Run, TextSegment, ProgramCode, TypeCheck, Gen, InFragment, Depth, Code;
    OneStatement(n);
    var text, l := TextSegment(n), |Gen(e)|;
    SegmentIs(n);
    assert text[0..0 + l] == Gen(e);
    RunExpr(text, Vm(0, [], m), e);
    match Eval(e, m) {
      case Fault =>
      case Done(w, m') =>
        RunNoops(text, Vm(l, [w], m'));
        assert [] + [w] == [w];
    }
  }

  /** The code, and then zeros. */
  lemma SegmentIs(n: Node)
    requires |ProgramCode(TypeCheck(n, false))| <= FINSH_TEXT_MAX
    ensures var text, code := TextSegment(n), ProgramCode(TypeCheck(n, false));
            && |text| == FINSH_TEXT_MAX && text[..|code|] == code
            && forall k :: |code| <= k < |text| ==> text[k] == OP_NOOP
  {
    hide ProgramCode, TypeCheck;
  }

  lemma OneStatement(n: Node)
    requires n.Node? && n.sibling == Null
    ensures ProgramCode(TypeCheck(n, false)) == Code(TypeCheck(n, false))
  {
    hide Code;
    NoCode(false);
    var c := TypeCheck(n, false);
    assert c.sibling == Null && c.(sibling := Null) == c;
    assert Code(c) + [] + [] == Code(c);
  }

  /** The store of a step changes the memory. */
  lemma StepStores(kind: Kind, a: Word, m: Memory)
    requires Eval(Stepped(kind, a), m).Done?
    ensures Load(m, a).Some? && Eval(Stepped(kind, a), m).mem != m
  {
    hide Load, Store, StepValue;
    if Load(m, a).Some? {
      var was := Load(m, a).value;
      StepDiffers(kind, was);
      if Store(m, a, StepValue(kind, was)).Some? { LoadAfterStore(m, a, StepValue(kind, was)); }
    }
  }

  lemma StepDiffers(kind: Kind, was: Word)
    ensures StepValue(kind, was) != was
  {
  }

  /** A ++ or -- with a meaning, compiled and run, has this meaning exactly if it is applied to a variable.
      Applied to *e it makes the stores of e, and not its own. */
  lemma StepCorrectIff(kind: Kind, lv: LValue, m: Memory)
    requires StepKind(kind) && LValueInFragment(lv) && LValueDepth(lv) <= FINSH_STACK_MAX
    requires |ProgramCode(TypeCheck(StepTree(kind, lv), false))| <= FINSH_TEXT_MAX && StepMeaning(kind, lv, m).Done?
    ensures var after := Run(TextSegment(StepTree(kind, lv)), Vm(0, [], m));
            var out := StepMeaning(kind, lv, m);
            && (after == Some(Vm(FINSH_TEXT_MAX, [out.value], out.mem)) <==> lv.Variable?)
            && (lv.Pointee? ==> after.Some? && after.value.mem == Eval(lv.e, m).mem != out.mem)
  {
    hide Run, TextSegment, ProgramCode, TypeCheck, Gen, Code, InFragment, LValueTree;
    StepCode(kind, lv);
    CompiledDepth(kind, lv);
    RunOne(StepTree(kind, lv), StepCompiled(kind, lv), m);
    var a := EvalAddress(lv, m);
    StepStores(kind, a.value, a.mem);
  }

  lemma CompiledDepth(kind: Kind, lv: LValue)
    requires LValueDepth(lv) <= FINSH_STACK_MAX
    ensures Depth(StepCompiled(kind, lv)) <= FINSH_STACK_MAX
  {
  }

  // ---------------------------------------------------------------- the object

  /** A text segment after `code` has been written at `at`. */
  function Write(t: seq<Byte>, at: nat, code: seq<Byte>): seq<Byte>
    requires at + |code| <= |t|
  {
    t[..at] + code + t[at + |code|..]
  }

  lemma WriteWrite(t: seq<Byte>, at: nat, a: seq<Byte>, b: seq<Byte>)
    requires at + |a| + |b| <= |t|
    ensures Write(Write(t, at, a), at + |a|, b) == Write(t, at, a + b)
  {
  }

  lemma ProgramIs(n: Node)
    ensures ProgramCode(n) == if n.Null? then []
                              else StatementCode(n.(sibling := Null), n.sibling.Null?) + ProgramCode(n.sibling)
  {
    hide StatementCode;
  }

  lemma WriteNothing(t: seq<Byte>, at: nat)
    requires at <= |t|
    ensures Write(t, at, []) == t
  {
  }

  lemma WriteLength(t: seq<Byte>, at: nat, code: seq<Byte>)
    requires at + |code| <= |t|
    ensures |Write(t, at, code)| == |t|
  {
  }

  class Compiler {
    const text: array<Byte>
    var pc: nat

    constructor ()
      ensures text.Length == FINSH_TEXT_MAX && fresh(text) && pc == 0
    {
      text := new Byte[FINSH_TEXT_MAX];
      pc := 0;
    }

    method CodeByte(b: Byte)
      requires pc < text.Length
      modifies this, text
      ensures pc == old(pc) + 1 && text[..] == Write(old(text[..]), old(pc), [b])
    {
      text[pc] := b;
      pc := pc + 1;
    }

    /** An operation with a dword operand. */
    method CodeLoad(op: Byte, w: Word)
      requires pc + 5 <= text.Length
      modifies this, text
      ensures pc == old(pc) + 5 && text[..] == Write(old(text[..]), old(pc), [op] + Dword(w))
    {
      ghost var t, p := text[..], pc;
      CodeByte(op);
      CodeFour(Dword(w));
      WriteWrite(t, p, [op], Dword(w));
    }

    method CodeFour(d: seq<Byte>)
      requires |d| == 4 && pc + 4 <= text.Length
      modifies this, text
      ensures pc == old(pc) + 4 && text[..] == Write(old(text[..]), old(pc), d)
    {
      text[pc], text[pc + 1], text[pc + 2], text[pc + 3] := d[0], d[1], d[2], d[3];
      pc := pc + 4;
    }

    method CodeStepTail(op: Byte, a: Word)
      requires pc + 12 <= text.Length
      modifies this, text
      ensures pc == old(pc) + 12 && text[..] == Write(old(text[..]), old(pc), StepTail(op, a))
    {
      ghost var t, p := text[..], pc;
      var l1, l2 := [OP_LD_VALUE] + Dword(a), [OP_LD] + Dword(1);
      assert |l1| == 5 && |l2| == 5 && l1 + l2 + [op] + [OP_ST] == StepTail(op, a);
      hide *;
      CodeLoad(OP_LD_VALUE, a);
      CodeLoad(OP_LD, 1);
      WriteWrite(t, p, l1, l2);
      CodeByte(op);
      WriteWrite(t, p, l1 + l2, [op]);
      CodeByte(OP_ST);
      WriteWrite(t, p, l1 + l2 + [op], [OP_ST]);
    }

    method CodeStep(op: Byte, a: Word, last: Byte)
      requires pc + 13 <= text.Length
      modifies this, text
      ensures pc == old(pc) + 13 && text[..] == Write(old(text[..]), old(pc), StepTail(op, a) + [last])
    {
      ghost var t, p, tail := text[..], pc, StepTail(op, a);
      assert |tail| == 12;
      hide *;
      CodeStepTail(op, a);
      CodeByte(last);
      WriteWrite(t, p, tail, [last]);
    }

    /** The cases of finsh_compile for ++ and --. */
    method CompileStep(n: Node)
      requires n.Node? && StepKind(n.kind) && pc + |Own(n)| <= text.Length
      modifies this, text
      ensures pc == old(pc) + |Own(n)| && text[..] == Write(old(text[..]), old(pc), Own(n))
    {
      if n.child.Node? && n.child.kind.Id? && n.typed {
        var op, a := StepOpcode(n.kind), n.child.word;
        if n.kind.PreInc? || n.kind.PreDec? {
          CodeStep(op, a, OP_LD_VALUE_STACK);
        } else {
          CodePostStep(op, a);
        }
      }
    }

    method CodePostStep(op: Byte, a: Word)
      requires pc + 18 <= text.Length
      modifies this, text
      ensures pc == old(pc) + 18
      ensures text[..] == Write(old(text[..]), old(pc), [OP_LD] + Dword(a) + (StepTail(op, a) + [OP_POP]))
    {
      ghost var t, p, load, step := text[..], pc, [OP_LD] + Dword(a), StepTail(op, a) + [OP_POP];
      assert |load| == 5 && |step| == 13;
      hide *;
      CodeLoad(OP_LD, a);
      CodeStep(op, a, OP_POP);
      WriteWrite(t, p, load, step);
    }

    /** The other cases of finsh_compile. */
    method CompileOther(n: Node)
      requires n.Node? && !StepKind(n.kind) && pc + |Own(n)| <= text.Length
      modifies this, text
      ensures pc == old(pc) + |Own(n)| && text[..] == Write(old(text[..]), old(pc), Own(n))
    {
      if n.kind.Id? {
        CodeLoad(if n.isAddress then OP_LD else OP_LD_VALUE, n.word);
      } else if n.kind.ValueLong? {
        CodeLoad(OP_LD, n.word);
      } else if n.kind.Binary? && n.typed {
        CodeByte(Opcode(n.kind.op));
      } else if n.kind.Bitwise? && n.typed {
        CodeByte(OP_BITWISE);
      } else if n.kind.AssignNode? && n.child.Node? && (n.child.kind.Id? || n.child.kind.GetValue?) && n.child.typed {
        CodeByte(OP_ST);
        CodeByte(OP_LD_VALUE_STACK);
      } else if n.kind.GetValue? && !n.isAddress && n.typed {
        CodeByte(OP_LD_VALUE_STACK);
      }
    }

    /** The switch of finsh_compile. */
    method CompileOwn(n: Node)
      requires n.Node? && pc + |Own(n)| <= text.Length
      modifies this, text
      ensures pc == old(pc) + |Own(n)| && text[..] == Write(old(text[..]), old(pc), Own(n))
    {
      hide Own;
      if StepKind(n.kind) {
        CompileStep(n);
      } else {
        CompileOther(n);
      }
    }

    method Compile(n: Node)
      requires pc + |Code(n)| <= text.Length
      modifies this, text
      ensures pc == old(pc) + |Code(n)| && text[..] == Write(old(text[..]), old(pc), Code(n))
      decreases n
    {
      hide Own, Code, Write;
      if n.Null? {
        NoCode(false);
        WriteNothing(text[..], pc);
      } else {
        ghost var t, p, child, own, sibling := text[..], pc, Code(n.child), Own(n), Code(n.sibling);
        CodeNode(n);
        WriteLength(t, p, child);
        WriteLength(t, p, child + own);
        Compile(n.child);
        CompileOwn(n);
        WriteWrite(t, p, child, own);
        Compile(n.sibling);
        WriteWrite(t, p, child + own, sibling);
      }
    }

    /** finsh_compiler_run: the text segment holds the whole program, padded with zeros. */
    method Run(node: Node)
      requires text.Length == FINSH_TEXT_MAX && |ProgramCode(TypeCheck(node, false))| <= FINSH_TEXT_MAX
      modifies this, text
      ensures text[..] == TextSegment(node)
    {
      hide TypeCheck;
      hide ProgramCode;
      var checked := TypeCheck(node, false);
      forall i | 0 <= i < text.Length {
        text[i] := OP_NOOP;
      }
      pc := 0;
      CompileStatements(checked);
    }

    /** One statement, popped unless it is the last. */
    method CompileStatement(current: Node, last: bool)
      requires pc + |StatementCode(current, last)| <= text.Length
      modifies this, text
      ensures pc == old(pc) + |StatementCode(current, last)|
      ensures text[..] == Write(old(text[..]), old(pc), StatementCode(current, last))
    {
      hide Own;
      hide Code;
      ghost var t, p, code := text[..], pc, Code(current);
      Compile(current);
      if !last {
        CodeByte(OP_POP);
        WriteWrite(t, p, code, [OP_POP]);
      } else {
        assert code + [] == code;
      }
    }

    /** The loop of finsh_compiler_run over the statements. */
    method CompileStatements(checked: Node)
      requires pc == 0 && |ProgramCode(checked)| <= text.Length
      modifies this, text
      ensures text[..] == Write(old(text[..]), 0, ProgramCode(checked))
    {
      hide Own, Code, StatementCode, Write, ProgramCode;
      ghost var t, goal, done := text[..], ProgramCode(checked), [];
      WriteNothing(t, 0);
      assert [] + goal == goal;
      var sibling := checked;
      while sibling.Node?
        invariant pc == |done| && done + ProgramCode(sibling) == goal
        invariant |done| <= |t| == text.Length && text[..] == Write(t, 0, done)
        decreases sibling
      {
        var current := sibling.(sibling := Null);
        ghost var code, rest := StatementCode(current, sibling.sibling.Null?), ProgramCode(sibling.sibling);
        ProgramIs(sibling);
        assert done + (code + rest) == (done + code) + rest;
        sibling := sibling.sibling;
        CompileStatement(current, sibling.Null?);
        WriteWrite(t, 0, done, code);
        done := done + code;
      }
      ProgramIs(sibling);
      assert done + [] == done;
    }
  }
}
