/** How many values a line of the shell leaves on the machine's stack. The parser lets any operand stand on the
    left of =, and the compiler emits nothing for an assignment to what has no address
    (components/finsh/finsh_parser.c:442-461, finsh_compiler.c:311-372). */
module FinshValues {
  import opened Sequences
  import opened FinshMachine
  import opened FinshCompiler
  import A = FinshArithmetic
  import P = FinshParser

  // ---------------------------------------------------------------- trees

  predicate Storable(n: Node) {
    n.Node? && (n.kind.Id? || n.kind.GetValue?)
  }

  /** The nodes of a list of siblings. */
  function Count(n: Node): nat {
    if n.Null? then 0 else 1 + Count(n.sibling)
  }

  function Operands(kind: Kind): nat {
    match kind
    case Id | ValueLong => 0
    case Binary(_) | AssignNode => 2
    case _ => 1
  }

  /** Every node has the operands that it needs. */
  predicate Complete(n: Node) {
    n.Node? ==> Count(n.child) == Operands(n.kind) && Complete(n.child) && Complete(n.sibling)
  }

  predicate Typed(n: Node) {
    n.Node? ==> n.typed && Typed(n.child) && Typed(n.sibling)
  }

  /** The assignments in the tree, and in those beside it, that have nowhere to store. */
  function Misses(n: Node): nat {
    if n.Null? then 0
    else (if n.kind.AssignNode? && !Storable(n.child) then 1 else 0) + Misses(n.child) + Misses(n.sibling)
  }

  lemma {:induction false} CheckedTree(n: Node, isAddr: bool)
    requires Complete(n)
    ensures var c := TypeCheck(n, isAddr);
            && Complete(c) && Typed(c) && Count(c) == Count(n) && Misses(c) == Misses(n)
            && (c.Node? <==> n.Node?) && (n.Node? ==> c.kind == n.kind)
  {
    if n.Node? {
      CheckedTree(n.child, true);
      CheckedTree(n.child, false);
      CheckedTree(n.sibling, false);
    }
  }

  // ---------------------------------------------------------------- what the code does to the stack

  /** By how much an operation changes the height of the stack. */
  function Change(op: Byte): int {
    if op == OP_LD || op == OP_LD_VALUE then 1
    else if op == OP_POP || op == OP_ST || Decode(op).Some? then -1
    else 0
  }

  /** Running from vm gets, if there is no fault, to `next` with the height changed by d. */
  ghost predicate Leads(text: seq<Byte>, vm: Vm, next: nat, d: int) {
    Run(text, vm).Some? ==>
      exists v: Vm :: Run(text, v) == Run(text, vm) && v.pc == next && |v.stack| == |vm.stack| + d
  }

  lemma LeadsNowhere(text: seq<Byte>, vm: Vm)
    ensures Leads(text, vm, vm.pc, 0)
  {
    hide Run;
    assert Run(text, vm) == Run(text, vm) && |vm.stack| == |vm.stack| + 0;
  }

  /** What runs from the one to the other, and from there on, does both. */
  ghost predicate LeadsAnyway(text: seq<Byte>, pc: nat, next: nat, d: int) {
    forall vm: Vm :: vm.pc == pc ==> Leads(text, vm, next, d)
  }

  lemma Both(text: seq<Byte>, p: nat, q: nat, r: nat, d: int, e: int)
    requires LeadsAnyway(text, p, q, d) && LeadsAnyway(text, q, r, e)
    ensures LeadsAnyway(text, p, r, d + e)
  {
    hide Run;
    forall vm: Vm | vm.pc == p
      ensures Leads(text, vm, r, d + e)
    {
      assert Leads(text, vm, q, d);
      if Run(text, vm).Some? {
        var v: Vm :| Run(text, v) == Run(text, vm) && v.pc == q && |v.stack| == |vm.stack| + d;
        assert Leads(text, v, r, e);
      }
    }
  }

  /** One operation, with its operand. */
  lemma OneStep(text: seq<Byte>, pc: nat)
    requires pc < |text|
    ensures var op := text[pc]; LeadsAnyway(text, pc, pc + (if op == OP_LD || op == OP_LD_VALUE then 5 else 1), Change(op))
  {
    hide Decode, Load, Store, Arithmetic, Join;
    var op := text[pc];
    var next := pc + (if op == OP_LD || op == OP_LD_VALUE then 5 else 1);
    forall vm: Vm | vm.pc == pc
      ensures Leads(text, vm, next, Change(op))
    {
      OperationIs(text, vm);
      hide Step;
      if Run(text, vm).Some? {
        var v := Step(text, vm).value;
        assert Run(text, v) == Run(text, vm) && v.pc == next && |v.stack| == |vm.stack| + Change(op);
      }
    }
  }

  lemma OperationIs(text: seq<Byte>, vm: Vm)
    requires vm.pc < |text|
    ensures var op, r := text[vm.pc], Step(text, vm);
            r.Some? ==> && r.value.pc == vm.pc + (if op == OP_LD || op == OP_LD_VALUE then 5 else 1)
                        && |r.value.stack| == |vm.stack| + Change(op)
  {
    hide Load, Store, Arithmetic, Join;
    NoOperators();
  }

  lemma NoOperators()
    ensures Decode(OP_LD).None? && Decode(OP_LD_VALUE).None? && Decode(OP_POP).None? && Decode(OP_ST).None?
    ensures Decode(OP_BITWISE).None? && Decode(OP_LD_VALUE_STACK).None? && Decode(OP_NOOP).None?
    ensures forall bin :: Decode(Opcode(bin)).Some?
  {
  }

  lemma Single(text: seq<Byte>, pc: nat, op: Byte)
    requires CodeAt(text, pc, [op]) && op != OP_LD && op != OP_LD_VALUE
    ensures LeadsAnyway(text, pc, pc + 1, Change(op))
  {
    ByteAt(text, pc, op);
    OneStep(text, pc);
  }

  lemma Loading(text: seq<Byte>, pc: nat, op: Byte, w: Word)
    requires CodeAt(text, pc, [op] + Dword(w)) && (op == OP_LD || op == OP_LD_VALUE)
    ensures LeadsAnyway(text, pc, pc + 5, 1)
  {
    OperandAt(text, pc, op, w);
    OneStep(text, pc);
  }

  /** The common part of ++ and -- leaves the height as it was. */
  lemma Stepping(text: seq<Byte>, pc: nat, kind: Kind, a: Word)
    requires CodeAt(text, pc, StepTail(StepOpcode(kind), a))
    ensures LeadsAnyway(text, pc, pc + 12, 0)
  {
    hide LeadsAnyway, CodeAt;
    NoOperators();
    var op := StepOpcode(kind);
    var bin := if kind.PreInc? || kind.Inc? then Add else Sub;
    assert op == Opcode(bin);
    CodeAtSplit(text, pc, [OP_LD_VALUE] + Dword(a), [OP_LD] + Dword(1) + ([op] + [OP_ST]));
    CodeAtSplit(text, pc + 5, [OP_LD] + Dword(1), [op] + [OP_ST]);
    CodeAtSplit(text, pc + 10, [op], [OP_ST]);
    Loading(text, pc, OP_LD_VALUE, a);
    Loading(text, pc + 5, OP_LD, 1);
    Single(text, pc + 10, op);
    Single(text, pc + 11, OP_ST);
    Both(text, pc, pc + 5, pc + 10, 1, 1);
    Both(text, pc, pc + 10, pc + 11, 2, -1);
    Both(text, pc, pc + 11, pc + 12, 1, -1);
  }

  /** What the code of a node adds to the values of its operands. */
  function Gain(n: Node): int
    requires n.Node?
  {
    match n.kind
    case Id | ValueLong => 1
    case Binary(_) => -1
    case AssignNode => if Storable(n.child) then -1 else 0
    case _ => 0
  }

  lemma StayHere(text: seq<Byte>, pc: nat)
    ensures LeadsAnyway(text, pc, pc, 0)
  {
    hide Leads;
    forall vm: Vm | vm.pc == pc
      ensures Leads(text, vm, pc, 0)
    {
      LeadsNowhere(text, vm);
    }
  }

  lemma OwnGains(text: seq<Byte>, pc: nat, n: Node)
    requires n.Node? && n.typed && Typed(n.child) && CodeAt(text, pc, Own(n))
    ensures LeadsAnyway(text, pc, pc + |Own(n)|, Gain(n))
  {
    hide LeadsAnyway, CodeAt;
    StayHere(text, pc);
    NoOperators();
    match n.kind
    case Id => Loading(text, pc, if n.isAddress then OP_LD else OP_LD_VALUE, n.word);
    case ValueLong => Loading(text, pc, OP_LD, n.word);
    case Binary(op) => Single(text, pc, Opcode(op));
    case Bitwise => Single(text, pc, OP_BITWISE);
    case AssignNode =>
      if Storable(n.child) {
        CodeAtSplit(text, pc, [OP_ST], [OP_LD_VALUE_STACK]);
        Single(text, pc, OP_ST);
        Single(text, pc + 1, OP_LD_VALUE_STACK);
        Both(text, pc, pc + 1, pc + 2, -1, 0);
      }
    case PreInc | PreDec => if n.child.Node? && n.child.kind.Id? { PreStepGains(text, pc, n.kind, n.child.word); }
    case Inc | Dec => if n.child.Node? && n.child.kind.Id? { PostStepGains(text, pc, n.kind, n.child.word); }
    case GetValue => if !n.isAddress { Single(text, pc, OP_LD_VALUE_STACK); }
    case GetAddr =>
  }

  lemma PreStepGains(text: seq<Byte>, pc: nat, kind: Kind, a: Word)
    requires CodeAt(text, pc, StepTail(StepOpcode(kind), a) + [OP_LD_VALUE_STACK])
    ensures LeadsAnyway(text, pc, pc + 13, 0)
  {
    var tail := StepTail(StepOpcode(kind), a);
    assert |tail| == 12;
    hide LeadsAnyway, CodeAt, StepTail, StepOpcode;
    CodeAtSplit(text, pc, tail, [OP_LD_VALUE_STACK]);
    Stepping(text, pc, kind, a);
    NoOperators();
    Single(text, pc + 12, OP_LD_VALUE_STACK);
    Both(text, pc, pc + 12, pc + 13, 0, 0);
  }

  lemma PostStepGains(text: seq<Byte>, pc: nat, kind: Kind, a: Word)
    requires CodeAt(text, pc, [OP_LD] + Dword(a) + (StepTail(StepOpcode(kind), a) + [OP_POP]))
    ensures LeadsAnyway(text, pc, pc + 18, 0)
  {
    var load, tail := [OP_LD] + Dword(a), StepTail(StepOpcode(kind), a);
    assert |load| == 5 && |tail| == 12;
    hide LeadsAnyway, CodeAt, StepTail, StepOpcode;
    CodeAtSplit(text, pc, load, tail + [OP_POP]);
    CodeAtSplit(text, pc + 5, tail, [OP_POP]);
    Loading(text, pc, OP_LD, a);
    Stepping(text, pc + 5, kind, a);
    Single(text, pc + 17, OP_POP);
    Both(text, pc, pc + 5, pc + 17, 1, 0);
    Both(text, pc, pc + 17, pc + 18, 1, -1);
  }

  /** The code of a list of trees leaves a value for each, and one for each assignment with nowhere to store. */
  lemma {:induction false} CodeGains(text: seq<Byte>, pc: nat, n: Node)
    requires Complete(n) && Typed(n) && CodeAt(text, pc, Code(n))
    ensures LeadsAnyway(text, pc, pc + |Code(n)|, Count(n) + Misses(n))
    decreases n
  {
    hide LeadsAnyway, CodeAt, Own, Code;
    NoCode(false);
    StayHere(text, pc);
    if n.Node? {
      CodeNode(n);
      CodeAtSplit3(text, pc, Code(n.child), Own(n), Code(n.sibling));
      var p := pc + |Code(n.child)|;
      var q := p + |Own(n)|;
      CodeGains(text, pc, n.child);
      OwnGains(text, p, n);
      CodeGains(text, q, n.sibling);
      var a, b := Count(n.child) + Misses(n.child), Count(n.sibling) + Misses(n.sibling);
      Both(text, pc, p, q, a, Gain(n));
      Both(text, pc, q, q + |Code(n.sibling)|, a + Gain(n), b);
    }
  }

  /** The values of all statements but the last are popped, one for each. */
  lemma {:induction false} ProgramGains(text: seq<Byte>, pc: nat, n: Node)
    requires n.Node? && Complete(n) && Typed(n) && CodeAt(text, pc, ProgramCode(n))
    ensures LeadsAnyway(text, pc, pc + |ProgramCode(n)|, 1 + Misses(n))
    decreases n
  {
    hide LeadsAnyway, CodeAt, Code, ProgramCode;
    ProgramIs(n);
    var current, last := n.(sibling := Null), n.sibling.Null?;
    var code, rest := StatementCode(current, last), ProgramCode(n.sibling);
    CodeAtSplit(text, pc, code, rest);
    var pop := if last then [] else [OP_POP];
    CodeAtSplit(text, pc, Code(current), pop);
    CodeGains(text, pc, current);
    ProgramIs(n.sibling);
    if !last {
      var p := pc + |Code(current)|;
      Single(text, p, OP_POP);
      ProgramGains(text, p + 1, n.sibling);
      Both(text, pc, p, p + 1, 1 + Misses(current), -1);
      Both(text, pc, p + 1, p + 1 + |rest|, Misses(current), 1 + Misses(n.sibling));
    }
  }

  lemma ProgramLeaves(n: Node, m: Memory)
    requires n.Node? && Complete(n) && |ProgramCode(TypeCheck(n, false))| <= FINSH_TEXT_MAX
    ensures var r := Run(TextSegment(n), Vm(0, [], m)); r.Some? ==> |r.value.stack| == 1 + Misses(n)
  {
    hide Run, TextSegment, ProgramCode, TypeCheck;
    CheckedTree(n, false);
    SegmentIs(n);
    var text, code, vm := TextSegment(n), ProgramCode(TypeCheck(n, false)), Vm(0, [], m);
    assert text[0..0 + |code|] == code;
    ProgramGains(text, 0, TypeCheck(n, false));
    assert Leads(text, vm, |code|, 1 + Misses(n));
    if Run(text, vm).Some? {
      var v: Vm :| Run(text, v) == Run(text, vm) && v.pc == |code| && |v.stack| == 1 + Misses(n);
      RunNoops(text, v);
    }
  }

  // ---------------------------------------------------------------- lines

  /** A variable or a dereference, with any number of plus signs before it. */
  predicate HasAddress(s: P.Syntax) {
    match s
    case Named(_) => true
    case Prefixed(p, x) => p == P.Deref || (p == P.Positive && HasAddress(x))
    case _ => false
  }

  /** Every assignment in it is to what has an address. */
  predicate Proper(s: P.Syntax) {
    match s
    case Literal(_) | Named(_) => true
    case Postfixed(x, _) => Proper(x)
    case Prefixed(_, x) => Proper(x)
    case Infix(_, l, r) => Proper(l) && Proper(r)
    case Set(l, r) => HasAddress(l) && Proper(l) && Proper(r)
  }

  /** The assignments in it that are not. */
  function Improper(s: P.Syntax): nat {
    match s
    case Literal(_) | Named(_) => 0
    case Postfixed(x, _) => Improper(x)
    case Prefixed(_, x) => Improper(x)
    case Infix(_, l, r) => Improper(l) + Improper(r)
    case Set(l, r) => (if HasAddress(l) then 0 else 1) + Improper(l) + Improper(r)
  }

  function ImproperIn(ss: seq<P.Syntax>): nat {
    if ss == [] then 0 else Improper(ss[0]) + ImproperIn(ss[1..])
  }

  lemma {:induction false} ProperIff(s: P.Syntax)
    ensures Improper(s) == 0 <==> Proper(s)
  {
    match s
    case Literal(_) | Named(_) =>
    case Postfixed(x, _) => ProperIff(x);
    case Prefixed(_, x) => ProperIff(x);
    case Infix(_, l, r) => ProperIff(l); ProperIff(r);
    case Set(l, r) => ProperIff(l); ProperIff(r);
  }

  lemma {:induction false} AllProperIff(ss: seq<P.Syntax>)
    ensures ImproperIn(ss) == 0 <==> forall s <- ss :: Proper(s)
  {
    if ss != [] {
      ProperIff(ss[0]);
      AllProperIff(ss[1..]);
      assert ss == [ss[0]] + ss[1..];
    }
  }

  /** A tree with a list beside it. */
  lemma Beside(a: Node, b: Node)
    requires a.Node? && a.sibling == Null
    ensures var n := a.(sibling := b);
            && Count(n) == 1 + Count(b) && (Complete(n) <==> Complete(a) && Complete(b))
            && Misses(n) == Misses(a) + Misses(b) && (Storable(n) <==> Storable(a))
  {
    var n := a.(sibling := b);
    CompleteIs(n);
    CompleteIs(a);
  }

  lemma CompleteIs(n: Node)
    requires n.Node?
    ensures Complete(n) <==> Count(n.child) == Operands(n.kind) && Complete(n.child) && Complete(n.sibling)
    ensures Count(n) == 1 + Count(n.sibling)
    ensures Misses(n) == (if n.kind.AssignNode? && !Storable(n.child) then 1 else 0) + Misses(n.child) + Misses(n.sibling)
  {
  }

  lemma Nothing()
    ensures Count(Null) == 0 && Complete(Null) && Misses(Null) == 0
  {
  }

  /** A node over one tree, or over two. */
  lemma Over(kind: Kind, a: Node, b: Node)
    requires a.Node? && a.sibling == Null && Complete(a) && Complete(b) && 1 + Count(b) == Operands(kind)
    ensures var n := P.Inner(kind, a, b);
            && n.Node? && n.kind == kind && n.sibling == Null && Count(n) == 1 && Complete(n)
            && Misses(n) == (if kind.AssignNode? && !Storable(a) then 1 else 0) + Misses(a) + Misses(b)
  {
    hide Complete, Count, Misses;
    Nothing();
    Beside(a, b);
    CompleteIs(P.Inner(kind, a, b));
  }

  lemma AtLeaf(kind: Kind, w: Word)
    requires kind.Id? || kind.ValueLong?
    ensures var n := P.Leaf(kind, w); Count(n) == 1 && Complete(n) && Misses(n) == 0
  {
    hide Complete, Count, Misses;
    Nothing();
    CompleteIs(P.Leaf(kind, w));
  }

  lemma {:induction false} TreeMisses(s: P.Syntax)
    ensures var n := P.TreeOf(s); Count(n) == 1 && Complete(n) && Misses(n) == Improper(s) && (Storable(n) <==> HasAddress(s))
  {
    hide Complete, Count, Misses, P.Inner, P.Leaf;
    Nothing();
    match s
    case Literal(w) => AtLeaf(ValueLong, w); KindOfLeaf(ValueLong, w);
    case Named(v) => AtLeaf(Id, v); KindOfLeaf(Id, v);
    case Postfixed(x, down) =>
      TreeMisses(x);
      Over(if down then Dec else Inc, P.TreeOf(x), Null);
    case Prefixed(p, x) =>
      TreeMisses(x);
      PrefixMisses(p, x);
    case Infix(op, l, r) =>
      TreeMisses(l);
      TreeMisses(r);
      Over(Binary(op), P.TreeOf(l), P.TreeOf(r));
    case Set(l, r) =>
      TreeMisses(l);
      TreeMisses(r);
      Over(AssignNode, P.TreeOf(l), P.TreeOf(r));
  }

  lemma KindOfLeaf(kind: Kind, w: Word)
    ensures P.Leaf(kind, w).kind == kind
  {
  }

  lemma PrefixMisses(p: P.Prefix, x: P.Syntax)
    requires var n := P.TreeOf(x); Count(n) == 1 && Complete(n) && Misses(n) == Improper(x) && (Storable(n) <==> HasAddress(x))
    ensures var s := P.Prefixed(p, x); var n := P.TreeOf(s);
            Count(n) == 1 && Complete(n) && Misses(n) == Improper(s) && (Storable(n) <==> HasAddress(s))
  {
    hide Complete, Count, Misses, P.Inner, P.Leaf;
    Nothing();
    var t := P.TreeOf(x);
    match p
    case Positive =>
    case Negative =>
      AtLeaf(ValueLong, 0);
      SiblingOfLeaf(ValueLong, 0);
      Over(Binary(Sub), P.Leaf(ValueLong, 0), t);
    case Increment => Over(PreInc, t, Null);
    case Decrement => Over(PreDec, t, Null);
    case Inverse => Over(Bitwise, t, Null);
    case Deref => Over(GetValue, t, Null);
    case Address => Over(GetAddr, t, Null);
  }

  lemma SiblingOfLeaf(kind: Kind, w: Word)
    ensures P.Leaf(kind, w).Node? && P.Leaf(kind, w).sibling == Null
  {
  }

  lemma {:induction false} ChainMisses(ss: seq<P.Syntax>)
    ensures var n := P.Chain(P.Trees(ss)); Complete(n) && Misses(n) == ImproperIn(ss) && (ss != [] ==> n.Node?)
  {
    if ss != [] {
      hide P.TreeOf;
      TreeMisses(ss[0]);
      ChainMisses(ss[1..]);
      assert P.Trees(ss)[1..] == P.Trees(ss[1..]);
    }
  }

  /** Every line that the parser accepts: if it runs without a fault, it leaves one value more than it has assignments
      to what has no address. It leaves exactly one if and only if it has none. */
  lemma ValuesLeft(ss: seq<P.Syntax>, m: Memory)
    requires ss != [] && (forall s <- ss :: P.WellFormed(s)) && P.NodesOfAll(ss) <= P.NODES
    requires |ProgramCode(TypeCheck(P.Chain(P.Trees(ss)), false))| <= FINSH_TEXT_MAX
    ensures var line := P.ReadLine([], P.State(P.PrintAll(ss), P.NODES, false));
            && !line.s.error && line.nodes == P.Trees(ss)
            && var r := Run(TextSegment(P.Chain(line.nodes)), Vm(0, [], m));
               r.Some? ==> && |r.value.stack| == 1 + ImproperIn(ss)
                           && (|r.value.stack| == 1 <==> forall s <- ss :: Proper(s))
  {
    hide P.ReadLine, P.Trees, P.PrintAll, P.Chain, P.WellFormed, Run, TextSegment, ProgramCode, TypeCheck, ImproperIn;
    P.LineBack(ss);
    ChainMisses(ss);
    AllProperIff(ss);
    ProgramLeaves(P.Chain(P.Trees(ss)), m);
  }

  /** A line of two numbers with an operator between them leaves the result that the law of the operator says, or
      faults where C does not define one. */
  lemma OperatorsCompute(op: BinaryOp, a: Word, b: Word, m: Memory)
    ensures var n := P.TreeOf(P.Infix(op, P.Literal(a), P.Literal(b)));
            && P.ReadLine([], P.State([P.Value(a), P.Sign(op), P.Value(b), P.Semicolon], P.NODES, false)).nodes == [n]
            && |ProgramCode(TypeCheck(n, false))| <= FINSH_TEXT_MAX
            && var r := Run(TextSegment(n), Vm(0, [], m));
               if A.Defined(op, a, b)
               then r.Some? && r.value.mem == m && |r.value.stack| == 1 && A.Means(op, a, b, r.value.stack[0])
               else r.None?
  {
    hide Run, TextSegment, ProgramCode, TypeCheck, P.ReadLine, P.TreeOf, Code, Gen, Arithmetic, A.Means, A.Defined;
    var s := P.Infix(op, P.Literal(a), P.Literal(b));
    OneLine(s);
    assert P.Print(s) + [P.Semicolon] == [P.Value(a), P.Sign(op), P.Value(b), P.Semicolon];
    OperatorCode(op, a, b);
    A.ArithmeticMeans(op, a, b);
    RunOne(P.TreeOf(s), Bin(op, Const(a), Const(b)), m);
  }

  lemma OneLine(s: P.Syntax)
    requires P.WellFormed(s) && P.Nodes(s) <= P.NODES
    ensures P.ReadLine([], P.State(P.Print(s) + [P.Semicolon], P.NODES, false)).nodes == [P.TreeOf(s)]
  {
    hide P.ReadLine, P.Print, P.TreeOf, P.Nodes, P.WellFormed;
    assert [s][1..] == [] && P.Trees([s][1..]) == [];
    assert P.NodesOfAll([s]) == P.Nodes(s);
    assert P.Trees([s]) == [P.TreeOf(s)] + [];
    assert P.PrintAll([s]) == P.Print(s) + [P.Semicolon];
    P.LineBack([s]);
  }

  lemma OperatorCode(op: BinaryOp, a: Word, b: Word)
    ensures var n := P.TreeOf(P.Infix(op, P.Literal(a), P.Literal(b)));
            && n.Node? && n.sibling == Null && Code(TypeCheck(n, false)) == Gen(Bin(op, Const(a), Const(b)))
            && |ProgramCode(TypeCheck(n, false))| <= FINSH_TEXT_MAX
  {
    var s := P.Infix(op, P.Literal(a), P.Literal(b));
    P.MeaningTree(s);
    TreeCode(Bin(op, Const(a), Const(b)), Null);
    NoCode(false);
    hide Code, TypeCheck;
    OneStatement(P.TreeOf(s));
  }

  /** The line 1=2; runs, stores nothing, and leaves both numbers. */
  lemma TwoValuesLeft(m: Memory)
    ensures var s := P.Set(P.Literal(1), P.Literal(2));
            && P.WellFormed(s) && !Proper(s) && |ProgramCode(TypeCheck(P.TreeOf(s), false))| <= FINSH_TEXT_MAX
            && Run(TextSegment(P.TreeOf(s)), Vm(0, [], m)) == Some(Vm(FINSH_TEXT_MAX, [1, 2], m))
  {
    hide Run, TextSegment, ProgramCode, TypeCheck, Code, CodeAt, Dword, P.TreeOf;
    var n := P.TreeOf(P.Set(P.Literal(1), P.Literal(2)));
    AssignmentCode(n);
    OneStatement(n);
    SegmentIs(n);
    RunTwoLoads(TextSegment(n), m);
  }

  lemma RunTwoLoads(text: seq<Byte>, m: Memory)
    requires var code := [OP_LD] + Dword(1) + ([OP_LD] + Dword(2));
             && |code| == 10 <= |text| && text[..|code|] == code
             && forall k :: |code| <= k < |text| ==> text[k] == OP_NOOP
    ensures Run(text, Vm(0, [], m)) == Some(Vm(|text|, [1, 2], m))
  {
    var one, two := [OP_LD] + Dword(1), [OP_LD] + Dword(2);
    assert |one| == 5;
    hide Run, CodeAt, Dword;
    CodeAtStart(text, one + two);
    CodeAtSplit(text, 0, one, two);
    RunLoad(text, Vm(0, [], m), 1);
    RunLoad(text, Vm(5, [1], m), 2);
    assert [] + [1] == [1 as Word] && [1] + [2] == [1 as Word, 2];
    RunNoops(text, Vm(10, [1, 2], m));
  }

  lemma CodeAtStart(text: seq<Byte>, code: seq<Byte>)
    requires |code| <= |text| && text[..|code|] == code
    ensures CodeAt(text, 0, code)
  {
    assert text[0..0 + |code|] == code;
  }

  lemma AssignmentCode(n: Node)
    requires n == P.TreeOf(P.Set(P.Literal(1), P.Literal(2)))
    ensures n.Node? && n.sibling == Null
    ensures Code(TypeCheck(n, false)) == [OP_LD] + Dword(1) + ([OP_LD] + Dword(2))
    ensures |[OP_LD] + Dword(1) + ([OP_LD] + Dword(2))| == 10
  {
    NoCode(false);
    NoCode(true);
    var right := Fresh(ValueLong, 2, Null, Null);
    LeafCode(ValueLong, 2, Null, false);
    LeafCode(ValueLong, 1, right, true);
    var c := TypeCheck(n, false);
    CodeNode(c);
    assert c.child == TypeCheck(Fresh(ValueLong, 1, Null, right), true);
    assert c.sibling == Null && Own(c) == [];
  }
}
