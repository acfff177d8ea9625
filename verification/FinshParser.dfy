/** The expression parser of the shell, components/finsh/finsh_parser.c: recursive descent with one token
    of replay. It accepts exactly the printed forms of the grammar below, and builds the tree that
    FinshCompiler starts from. */
module FinshParser {
  import M = FinshMachine
  import opened Sequences
  import opened FinshCompiler

  type Word = M.Word

  /** What the scanner delivers. A name is known by the address of the variable that the symbol lookup
      finds for it. */
  datatype Token =
    | Name(v: Word) | UnknownName | Value(w: Word)
    | Plus | Minus | Star | Slash | Percent | Amp | Bar | Caret | Tilde | ShiftLeft | ShiftRight
    | PlusPlus | MinusMinus | Equals | Semicolon | Comma | Bad | Eof

  /** FINSH_NODE_MAX. */
  const NODES := 16

  // ---------------------------------------------------------------- the grammar

  datatype Prefix = Positive | Negative | Increment | Decrement | Inverse | Deref | Address

  /** An expression without parentheses, as written. */
  datatype Syntax =
    | Literal(w: Word) | Named(v: Word)
    | Postfixed(s: Syntax, down: bool)
    | Prefixed(p: Prefix, s: Syntax)
    | Infix(op: M.BinaryOp, l: Syntax, r: Syntax)
    | Set(l: Syntax, r: Syntax)

  /** The level of an operator in the grammar: | ^ & shifts sums products. */
  function Level(op: M.BinaryOp): int {
    match op
    case Or => 0
    case Xor => 1
    case And => 2
    case Shl | Shr => 3
    case Add | Sub => 4
    case Mul | Div | Mod => 5
  }

  function Rank(s: Syntax): int {
    match s
    case Literal(_) | Named(_) => 8
    case Postfixed(_, _) => 7
    case Prefixed(_, _) => 6
    case Infix(op, _, _) => Level(op)
    case Set(_, _) => -1
  }

  /** Binary operators group to the left, the assignment to the right. */
  predicate WellFormed(s: Syntax) {
    match s
    case Literal(_) | Named(_) => true
    case Postfixed(x, _) => Rank(x) >= 7 && WellFormed(x)
    case Prefixed(_, x) => Rank(x) >= 6 && WellFormed(x)
    case Infix(op, l, r) => Rank(l) >= Level(op) && Rank(r) > Level(op) && WellFormed(l) && WellFormed(r)
    case Set(l, r) => Rank(l) >= 0 && WellFormed(l) && WellFormed(r)
  }

  function Sign(op: M.BinaryOp): Token {
    match op
    case Or => Bar
    case Xor => Caret
    case And => Amp
    case Shl => ShiftLeft
    case Shr => ShiftRight
    case Add => Plus
    case Sub => Minus
    case Mul => Star
    case Div => Slash
    case Mod => Percent
  }

  function PrefixSign(p: Prefix): Token {
    match p
    case Positive => Plus
    case Negative => Minus
    case Increment => PlusPlus
    case Decrement => MinusMinus
    case Inverse => Tilde
    case Deref => Star
    case Address => Amp
  }

  function Print(s: Syntax): (ts: seq<Token>)
    ensures ts != []
  {
    match s
    case Literal(w) => [Value(w)]
    case Named(v) => [Name(v)]
    case Postfixed(x, down) => Print(x) + [if down then MinusMinus else PlusPlus]
    case Prefixed(p, x) => [PrefixSign(p)] + Print(x)
    case Infix(op, l, r) => Print(l) + ([Sign(op)] + Print(r))
    case Set(l, r) => Print(l) + ([Equals] + Print(r))
  }

  function Leaf(kind: Kind, w: Word): Node { Fresh(kind, w, Null, Null) }

  function Inner(kind: Kind, a: Node, b: Node): Node
    requires a.Node?
  {
    Fresh(kind, 0, a.(sibling := b), Null)
  }

  /** The tree of an expression; a negative is a difference from 0. */
  function TreeOf(s: Syntax): (n: Node)
    ensures n.Node? && n.sibling == Null
  {
    match s
    case Literal(w) => Leaf(ValueLong, w)
    case Named(v) => Leaf(Id, v)
    case Postfixed(x, down) => Inner(if down then Dec else Inc, TreeOf(x), Null)
    case Prefixed(p, x) =>
      (match p
       case Positive => TreeOf(x)
       case Negative => Inner(Binary(M.Sub), Leaf(ValueLong, 0), TreeOf(x))
       case Increment => Inner(PreInc, TreeOf(x), Null)
       case Decrement => Inner(PreDec, TreeOf(x), Null)
       case Inverse => Inner(Bitwise, TreeOf(x), Null)
       case Deref => Inner(GetValue, TreeOf(x), Null)
       case Address => Inner(GetAddr, TreeOf(x), Null))
    case Infix(op, l, r) => Inner(Binary(op), TreeOf(l), TreeOf(r))
    case Set(l, r) => Inner(AssignNode, TreeOf(l), TreeOf(r))
  }

  /** How many nodes the tree needs. */
  function Nodes(s: Syntax): nat {
    match s
    case Literal(_) | Named(_) => 1
    case Postfixed(x, _) => Nodes(x) + 1
    case Prefixed(p, x) => Nodes(x) + (if p == Positive then 0 else if p == Negative then 2 else 1)
    case Infix(_, l, r) => Nodes(l) + Nodes(r) + 1
    case Set(l, r) => Nodes(l) + Nodes(r) + 1
  }

  // ---------------------------------------------------------------- the parser as functions

  /** The tokens still to come, the free nodes, and whether an error has been set. */
  datatype State = State(rest: seq<Token>, room: nat, error: bool)

  datatype Parsed = Parsed(node: Node, s: State)

  function Head(s: State): Token { if s.rest == [] then Eof else s.rest[0] }

  function Tail(s: State): State { if s.rest == [] then s else s.(rest := s.rest[1..]) }

  function Failed(s: State): State { s.(error := true) }

  function NewLeaf(kind: Kind, w: Word, s: State): Parsed {
    if s.room == 0 then Parsed(Null, Failed(s)) else Parsed(Leaf(kind, w), s.(room := s.room - 1))
  }

  /** make_sys_node. */
  function MakeNode(kind: Kind, a: Node, b: Node, s: State): (p: Parsed)
    ensures p.s.rest == s.rest && (s.error ==> p.s.error)
    ensures !p.s.error ==> p.node.Node?
  {
    if s.room == 0 then Parsed(Null, Failed(s))
    else if a.Null? then Parsed(Leaf(kind, 0), Failed(s.(room := s.room - 1)))
    else Parsed(Inner(kind, a, b), s.(room := s.room - 1))
  }

  /** proc_primary_expr. */
  function Primary(s: State): (p: Parsed)
    ensures |p.s.rest| <= |s.rest| && (s.rest != [] ==> |p.s.rest| < |s.rest|)
    ensures s.error ==> p.s.error
  {
    match Head(s)
    case Name(v) => NewLeaf(Id, v, Tail(s))
    case Value(w) => NewLeaf(ValueLong, w, Tail(s))
    case _ => Parsed(Null, Failed(Tail(s)))
  }

  function Steps(x: Node, s: State): (p: Parsed)
    ensures |p.s.rest| <= |s.rest| && (s.error ==> p.s.error)
    decreases |s.rest|
  {
    var t := Head(s);
    if t.PlusPlus? || t.MinusMinus? then
      var m := MakeNode(if t.PlusPlus? then Inc else Dec, x, Null, Tail(s));
      Steps(m.node, m.s)
    else Parsed(x, s)
  }

  /** proc_postfix_expr. */
  function Postfix(s: State): (p: Parsed)
    ensures |p.s.rest| <= |s.rest| && (s.rest != [] ==> |p.s.rest| < |s.rest|)
    ensures s.error ==> p.s.error
  {
    var x := Primary(s);
    Steps(x.node, x.s)
  }

  function PrefixOf(t: Token): Option<Prefix> {
    match t
    case Plus => Some(Positive)
    case Minus => Some(Negative)
    case PlusPlus => Some(Increment)
    case MinusMinus => Some(Decrement)
    case Tilde => Some(Inverse)
    case Star => Some(Deref)
    case Amp => Some(Address)
    case _ => None
  }

  /** What proc_unary_expr makes of an operator and its operand. */
  function Apply(p: Prefix, x: Node, s: State): (r: Parsed)
    ensures r.s.rest == s.rest && (s.error ==> r.s.error)
  {
    match p
    case Positive => Parsed(x, s)
    case Negative => (var zero := NewLeaf(ValueLong, 0, s); MakeNode(Binary(M.Sub), zero.node, x, zero.s))
    case Increment => MakeNode(PreInc, x, Null, s)
    case Decrement => MakeNode(PreDec, x, Null, s)
    case Inverse => MakeNode(Bitwise, x, Null, s)
    case Deref => MakeNode(GetValue, x, Null, s)
    case Address => MakeNode(GetAddr, x, Null, s)
  }

  /** proc_cast_expr and proc_unary_expr. */
  function Unary(s: State): (p: Parsed)
    ensures |p.s.rest| <= |s.rest| && (s.rest != [] ==> |p.s.rest| < |s.rest|)
    ensures s.error ==> p.s.error
    decreases |s.rest|
  {
    match PrefixOf(Head(s))
    case Some(op) => (var x := Unary(Tail(s)); Apply(op, x.node, x.s))
    case None => Postfix(s)
  }

  /** The operators that the function of a level takes. */
  function OperatorAt(k: nat, t: Token): (r: Option<M.BinaryOp>)
    ensures forall op :: r == Some(op) <==> Level(op) == k && t == Sign(op)
  {
    match t
    case Bar => if k == 0 then Some(M.Or) else None
    case Caret => if k == 1 then Some(M.Xor) else None
    case Amp => if k == 2 then Some(M.And) else None
    case ShiftLeft => if k == 3 then Some(M.Shl) else None
    case ShiftRight => if k == 3 then Some(M.Shr) else None
    case Plus => if k == 4 then Some(M.Add) else None
    case Minus => if k == 4 then Some(M.Sub) else None
    case Star => if k == 5 then Some(M.Mul) else None
    case Slash => if k == 5 then Some(M.Div) else None
    case Percent => if k == 5 then Some(M.Mod) else None
    case _ => None
  }

  /** The function of level k, from proc_inclusive_or_expr (0) to proc_multiplicative_expr (5). */
  function Operands(k: nat, s: State): (p: Parsed)
    requires k <= 6
    ensures |p.s.rest| <= |s.rest| && (s.rest != [] ==> |p.s.rest| < |s.rest|)
    ensures s.error ==> p.s.error
    decreases |s.rest|, 6 - k, 1
  {
    if k == 6 then Unary(s) else (var x := Operands(k + 1, s); More(k, x.node, x.s))
  }

  /** Its loop, when x has been read. */
  function More(k: nat, x: Node, s: State): (p: Parsed)
    requires k <= 5
    ensures |p.s.rest| <= |s.rest| && (s.error ==> p.s.error)
    decreases |s.rest|, 6 - k, 0
  {
    match OperatorAt(k, Head(s))
    case None => Parsed(x, s)
    case Some(op) =>
      var y := Operands(k + 1, Tail(s));
      if y.node.Null? then More(k, x, Failed(y.s))
      else (var m := MakeNode(Binary(op), x, y.node, y.s); More(k, m.node, m.s))
  }

  /** proc_expr and proc_assign_expr. */
  function Expression(s: State): (p: Parsed)
    ensures |p.s.rest| <= |s.rest| && (s.rest != [] ==> |p.s.rest| < |s.rest|)
    ensures s.error ==> p.s.error
    decreases |s.rest|
  {
    var x := Operands(0, s);
    if Head(x.s).Equals? then
      var y := Expression(Tail(x.s));
      MakeNode(AssignNode, x.node, y.node, y.s)
    else x
  }

  /** proc_expr_statement. */
  function Statement(s: State): (p: Parsed)
    ensures |p.s.rest| <= |s.rest| && (s.rest != [] ==> |p.s.rest| < |s.rest|)
    ensures s.error ==> p.s.error
  {
    if Head(s).Semicolon? then Parsed(Null, Tail(s))
    else
      var x := Expression(s);
      if Head(x.s).Semicolon? then Parsed(x.node, Tail(x.s)) else Parsed(x.node, Failed(x.s))
  }

  datatype Line = Line(nodes: seq<Node>, s: State)

  /** The loop of finsh_parser_run on expression statements, when the statements of `nodes` have been read.
      A statement without a tree ends it at the beginning; later, unless it begins with a name, it takes
      the token behind it away. */
  function ReadLine(nodes: seq<Node>, s: State): Line
    decreases |s.rest|
  {
    var t := Head(s);
    if t.Eof? || t.Bad? then Line(nodes, Tail(s))
    else
      var x := Statement(s);
      if x.node.Node? then ReadLine(nodes + [x.node], x.s)
      else if nodes == [] then Line(nodes, x.s)
      else if t.Name? || t.UnknownName? then ReadLine(nodes, x.s)
      else ReadLine(nodes, Tail(x.s))
  }

  /** The statements as siblings. */
  function Chain(nodes: seq<Node>): Node
    requires forall n <- nodes :: n.Node?
  {
    if nodes == [] then Null else nodes[0].(sibling := Chain(nodes[1..]))
  }

  // ---------------------------------------------------------------- printed expressions parse back

  /** How tightly a token takes the operand before it. */
  function Grip(t: Token): int {
    match t
    case PlusPlus | MinusMinus => 7
    case Star | Slash | Percent => 5
    case Plus | Minus => 4
    case ShiftLeft | ShiftRight => 3
    case Amp => 2
    case Caret => 1
    case Bar => 0
    case Equals => -1
    case _ => -2
  }

  function Before(s: Syntax, rest: seq<Token>, room: nat, error: bool): State {
    State(Print(s) + rest, room, error)
  }

  function After(s: Syntax, rest: seq<Token>, room: nat, error: bool): State
    requires Nodes(s) <= room
  {
    State(rest, room - Nodes(s), error)
  }

  lemma Cut(a: seq<Token>, t: Token, b: seq<Token>, room: nat, error: bool)
    ensures Head(State([t] + a + b, room, error)) == t
    ensures Tail(State([t] + a + b, room, error)) == State(a + b, room, error)
    ensures Head(State([t] + b, room, error)) == t && Tail(State([t] + b, room, error)) == State(b, room, error)
  {
    assert ([t] + a + b)[1..] == a + b && ([t] + b)[1..] == b;
  }

  lemma InfixIs(op: M.BinaryOp, l: Syntax, r: Syntax)
    ensures var s := Infix(op, l, r);
            && Print(s) == Print(l) + ([Sign(op)] + Print(r)) && TreeOf(s) == Inner(Binary(op), TreeOf(l), TreeOf(r))
            && Nodes(s) == Nodes(l) + Nodes(r) + 1 && Rank(s) == Level(op)
            && (WellFormed(s) <==> Rank(l) >= Level(op) && Rank(r) > Level(op) && WellFormed(l) && WellFormed(r))
  {
  }

  lemma SetIs(l: Syntax, r: Syntax)
    ensures var s := Set(l, r);
            && Print(s) == Print(l) + ([Equals] + Print(r)) && TreeOf(s) == Inner(AssignNode, TreeOf(l), TreeOf(r))
            && Nodes(s) == Nodes(l) + Nodes(r) + 1
            && (WellFormed(s) <==> Rank(l) >= 0 && WellFormed(l) && WellFormed(r))
  {
  }

  lemma PrefixedIs(p: Prefix, x: Syntax)
    ensures var s := Prefixed(p, x);
            && Print(s) == [PrefixSign(p)] + Print(x) && (WellFormed(s) <==> Rank(x) >= 6 && WellFormed(x)) && Rank(s) == 6
            && Nodes(s) == Nodes(x) + (if p == Positive then 0 else if p == Negative then 2 else 1)
    ensures forall room: nat, rest, error :: Nodes(Prefixed(p, x)) <= room + Nodes(x) ==>
              Apply(p, TreeOf(x), State(rest, room, error))
              == Parsed(TreeOf(Prefixed(p, x)), State(rest, room + Nodes(x) - Nodes(Prefixed(p, x)), error))
  {
  }

  lemma PostfixedIs(x: Syntax, down: bool)
    ensures var s := Postfixed(x, down);
            && Print(s) == Print(x) + [if down then MinusMinus else PlusPlus]
            && TreeOf(s) == Inner(if down then Dec else Inc, TreeOf(x), Null)
            && Nodes(s) == Nodes(x) + 1 && (WellFormed(s) <==> Rank(x) >= 7 && WellFormed(x)) && Rank(s) == 7
  {
  }

  lemma MoreTakes(k: nat, op: M.BinaryOp, x: Node, s: State)
    requires k <= 5 && Level(op) == k && Head(s) == Sign(op)
    ensures var y := Operands(k + 1, Tail(s));
            y.node.Node? ==> var m := MakeNode(Binary(op), x, y.node, y.s); More(k, x, s) == More(k, m.node, m.s)
  {
    hide Operands;
  }

  lemma MadeNode(kind: Kind, a: Node, b: Node, s: State)
    requires a.Node? && s.room > 0
    ensures MakeNode(kind, a, b, s) == Parsed(Inner(kind, a, b), s.(room := s.room - 1))
  {
  }

  lemma {:induction false} PostfixBack(s: Syntax, rest: seq<Token>, room: nat, error: bool)
    requires WellFormed(s) && Rank(s) >= 7 && Nodes(s) <= room
    ensures Postfix(Before(s, rest, room, error)) == Steps(TreeOf(s), After(s, rest, room, error))
    ensures PrefixOf(Head(Before(s, rest, room, error))).None?
    decreases s, 0
  {
    hide Print, TreeOf, Nodes, WellFormed, Postfix, PrefixOf, Steps;
    match s
    case Literal(w) => LeafBack(s, Value(w), ValueLong, rest, room, error);
    case Named(v) => LeafBack(s, Name(v), Id, rest, room, error);
    case Postfixed(x, down) => PostfixedBack(x, down, rest, room, error);
  }

  lemma LeafBack(s: Syntax, t: Token, kind: Kind, rest: seq<Token>, room: nat, error: bool)
    requires (s.Literal? && t == Value(s.w) && kind == ValueLong) || (s.Named? && t == Name(s.v) && kind == Id)
    requires room >= Nodes(s)
    ensures Nodes(s) == 1
    ensures Postfix(Before(s, rest, room, error)) == Steps(TreeOf(s), State(rest, room - 1, error))
    ensures PrefixOf(Head(Before(s, rest, room, error))).None?
  {
    hide Steps;
    Cut([], t, rest, room, error);
  }

  lemma StepsTake(x: Node, down: bool, s: State)
    requires Head(s) == if down then MinusMinus else PlusPlus
    requires x.Node? && s.room > 0
    ensures Steps(x, s) == Steps(Inner(if down then Dec else Inc, x, Null), Tail(s).(room := s.room - 1))
  {
  }

  lemma {:induction false} PostfixedBack(x: Syntax, down: bool, rest: seq<Token>, room: nat, error: bool)
    requires var s := Postfixed(x, down); WellFormed(s) && Nodes(s) <= room
    ensures var s := Postfixed(x, down);
            && Postfix(Before(s, rest, room, error)) == Steps(TreeOf(s), After(s, rest, room, error))
            && PrefixOf(Head(Before(s, rest, room, error))).None?
    decreases x, 1
  {
    hide Print, TreeOf, Nodes, WellFormed, Postfix, Rank, PrefixOf, Steps;
    var s, t := Postfixed(x, down), if down then MinusMinus else PlusPlus;
    PostfixedIs(x, down);
    PostfixBack(x, [t] + rest, room, error);
    assert Print(s) + rest == Print(x) + ([t] + rest);
    Cut([], t, rest, room - Nodes(x), error);
    StepsTake(TreeOf(x), down, State([t] + rest, room - Nodes(x), error));
  }

  lemma {:induction false} UnaryBack(s: Syntax, rest: seq<Token>, room: nat, error: bool)
    requires WellFormed(s) && Rank(s) >= 6 && Nodes(s) <= room
    requires Grip(Head(State(rest, room, error))) < 7
    ensures Unary(Before(s, rest, room, error)) == Parsed(TreeOf(s), After(s, rest, room, error))
  {
    hide Print, TreeOf, Nodes, WellFormed, Unary, Postfix, Rank, PrefixOf, Apply;
    if s.Prefixed? {
      PrefixedIs(s.p, s.s);
      Cut(Print(s.s), PrefixSign(s.p), rest, room, error);
      UnaryBack(s.s, rest, room, error);
      UnaryTakes(s.p, Before(s, rest, room, error));
    } else {
      NotPrefixed(s);
      PostfixBack(s, rest, room, error);
      UnaryPasses(Before(s, rest, room, error));
      NoSteps(TreeOf(s), After(s, rest, room, error));
    }
  }

  lemma NotPrefixed(s: Syntax)
    requires Rank(s) >= 6 && !s.Prefixed?
    ensures Rank(s) >= 7
  {
  }

  lemma UnaryTakes(p: Prefix, s: State)
    requires Head(s) == PrefixSign(p)
    ensures var x := Unary(Tail(s)); Unary(s) == Apply(p, x.node, x.s)
  {
    assert PrefixOf(Head(s)) == Some(p);
    hide Postfix, Apply;
  }

  lemma UnaryPasses(s: State)
    requires PrefixOf(Head(s)).None?
    ensures Unary(s) == Postfix(s)
  {
  }

  lemma NoSteps(x: Node, s: State)
    requires Grip(Head(s)) < 7
    ensures Steps(x, s) == Parsed(x, s)
  {
  }

  lemma {:induction false} OperandsBack(k: nat, s: Syntax, rest: seq<Token>, room: nat, error: bool)
    requires k <= 6 && WellFormed(s) && Rank(s) >= k && Nodes(s) <= room
    requires Grip(Head(State(rest, room, error))) < k
    ensures Operands(k, Before(s, rest, room, error)) == Parsed(TreeOf(s), After(s, rest, room, error))
    decreases s, 6 - k, 1
  {
    hide Print, TreeOf, Nodes, WellFormed, More, Rank, Grip;
    if k == 6 {
      UnaryBack(s, rest, room, error);
    } else {
      MoreBack(k, s, rest, room, error);
      MoreStops(k, TreeOf(s), After(s, rest, room, error));
    }
  }

  lemma NoOperator(k: nat, t: Token)
    requires k <= 5
    ensures OperatorAt(k, t).None? <==> Grip(t) != k
  {
  }

  /** The function of a level comes to its loop with the whole left operand, however long. */
  lemma {:induction false} MoreBack(k: nat, s: Syntax, rest: seq<Token>, room: nat, error: bool)
    requires k <= 5 && WellFormed(s) && Rank(s) >= k && Nodes(s) <= room
    requires Grip(Head(State(rest, room, error))) < k + 1
    ensures Operands(k, Before(s, rest, room, error)) == More(k, TreeOf(s), After(s, rest, room, error))
    decreases s, 6 - k, 0
  {
    hide Print, TreeOf, Nodes, WellFormed, Operands, More, Rank, Sign, Level, Grip, MakeNode;
    if s.Infix? && Level(s.op) == k {
      var t := Sign(s.op);
      InfixIs(s.op, s.l, s.r);
      SignGrip(s.op);
      var left := room - Nodes(s.l);
      assert Print(s) + rest == Print(s.l) + ([t] + Print(s.r) + rest);
      Cut(Print(s.r), t, rest, left, error);
      MoreBack(k, s.l, [t] + Print(s.r) + rest, room, error);
      OperandsBack(k + 1, s.r, rest, left, error);
      MoreTakes(k, s.op, TreeOf(s.l), State([t] + Print(s.r) + rest, left, error));
      MadeNode(Binary(s.op), TreeOf(s.l), TreeOf(s.r), State(rest, left - Nodes(s.r), error));
    } else {
      HigherRank(k, s);
      OperandsBack(k + 1, s, rest, room, error);
      OperandsGoOn(k, Before(s, rest, room, error));
    }
  }

  lemma SignGrip(op: M.BinaryOp)
    ensures Grip(Sign(op)) == Level(op)
  {
  }

  lemma HigherRank(k: nat, s: Syntax)
    requires k <= 5 && Rank(s) >= k && !(s.Infix? && Level(s.op) == k)
    ensures Rank(s) >= k + 1
  {
  }

  lemma OperandsGoOn(k: nat, s: State)
    requires k <= 5
    ensures var x := Operands(k + 1, s); Operands(k, s) == More(k, x.node, x.s)
  {
  }

  lemma MoreStops(k: nat, x: Node, s: State)
    requires k <= 5 && Grip(Head(s)) < k
    ensures More(k, x, s) == Parsed(x, s)
  {
    NoOperator(k, Head(s));
  }

  /** An expression, printed, parses back to its tree. */
  lemma {:induction false} ExpressionBack(s: Syntax, rest: seq<Token>, room: nat, error: bool)
    requires WellFormed(s) && Nodes(s) <= room
    requires Grip(Head(State(rest, room, error))) < -1
    ensures Expression(Before(s, rest, room, error)) == Parsed(TreeOf(s), After(s, rest, room, error))
  {
    hide Print, TreeOf, Nodes, WellFormed, Operands, Rank, MakeNode, Expression;
    ExpressionIs(Before(s, rest, room, error));
    if s.Set? {
      var left := room - Nodes(s.l);
      SetIs(s.l, s.r);
      assert Print(s) + rest == Print(s.l) + ([Equals] + Print(s.r) + rest);
      Cut(Print(s.r), Equals, rest, left, error);
      OperandsBack(0, s.l, [Equals] + Print(s.r) + rest, room, error);
      ExpressionBack(s.r, rest, left, error);
      MadeNode(AssignNode, TreeOf(s.l), TreeOf(s.r), State(rest, left - Nodes(s.r), error));
    } else {
      NotSet(s);
      OperandsBack(0, s, rest, room, error);
    }
  }

  lemma NotSet(s: Syntax)
    requires !s.Set?
    ensures Rank(s) >= 0
  {
  }

  lemma ExpressionIs(s: State)
    ensures var x := Operands(0, s);
            Expression(s) ==
              if Head(x.s).Equals? then (var y := Expression(Tail(x.s)); MakeNode(AssignNode, x.node, y.node, y.s)) else x
  {
  }

  // ---------------------------------------------------------------- nothing else parses

  /** From s to t the tokens of x have been read, and its tree built. */
  predicate Reads(s: State, x: Syntax, p: Parsed) {
    && WellFormed(x) && s.rest == Print(x) + p.s.rest && p.node == TreeOf(x)
    && s.room == p.s.room + Nodes(x) && !s.error && !p.s.error
  }

  /** The same, if what was read before is the left part of x. */
  predicate ReadsOn(was: Syntax, s: State, x: Syntax, p: Parsed) {
    && WellFormed(x) && Print(was) + s.rest == Print(x) + p.s.rest && p.node == TreeOf(x)
    && s.room + Nodes(was) == p.s.room + Nodes(x) && !s.error && !p.s.error
  }

  lemma HeadTail(s: State)
    requires !Head(s).Eof?
    ensures s.rest == [Head(s)] + Tail(s).rest && Tail(s).room == s.room && Tail(s).error == s.error
  {
  }

  lemma {:induction false} StepsRead(was: Syntax, s: State) returns (x: Syntax)
    requires WellFormed(was) && Rank(was) >= 7 && !Steps(TreeOf(was), s).s.error
    ensures ReadsOn(was, s, x, Steps(TreeOf(was), s)) && Rank(x) >= 7
    ensures Grip(Head(Steps(TreeOf(was), s).s)) < 7
    decreases |s.rest|
  {
    x := was;
    var t := Head(s);
    if t.PlusPlus? || t.MinusMinus? {
      HeadTail(s);
      var now := Postfixed(was, t.MinusMinus?);
      var m := MakeNode(if t.PlusPlus? then Inc else Dec, TreeOf(was), Null, Tail(s));
      if !m.s.error {
        assert Print(was) + s.rest == Print(now) + m.s.rest;
        x := StepsRead(now, m.s);
      }
    }
  }

  lemma PostfixReads(s: State) returns (x: Syntax)
    requires !Postfix(s).s.error
    ensures Reads(s, x, Postfix(s)) && Rank(x) >= 7 && Grip(Head(Postfix(s).s)) < 7
  {
    var t := Head(s);
    x := Literal(0);
    if t.Name? || t.Value? {
      HeadTail(s);
      var first := if t.Name? then Named(t.v) else Literal(t.w);
      assert Primary(s).node == TreeOf(first) || Primary(s).s.error;
      if !Primary(s).s.error { x := StepsRead(first, Primary(s).s); }
    }
  }

  lemma {:induction false} UnaryReads(s: State) returns (x: Syntax)
    requires !Unary(s).s.error
    ensures Reads(s, x, Unary(s)) && Rank(x) >= 6 && Grip(Head(Unary(s).s)) < 7
    decreases |s.rest|
  {
    hide Print, TreeOf, Nodes, WellFormed, Unary, Postfix, Rank, Apply, Grip;
    match PrefixOf(Head(s))
    case None =>
      UnaryPasses(s);
      x := PostfixReads(s);
    case Some(p) =>
      HeadTail(s);
      UnaryTakes(p, s);
      var y := UnaryReads(Tail(s));
      var q := Unary(Tail(s));
      x := Prefixed(p, y);
      PrefixedIs(p, y);
      ApplyReads(p, y, q.s);
      assert s.rest == Print(x) + q.s.rest;
      NoError(s);
  }

  lemma NoError(s: State)
    requires !Unary(s).s.error
    ensures !s.error
  {
  }

  lemma ApplyReads(p: Prefix, y: Syntax, s: State)
    requires !Apply(p, TreeOf(y), s).s.error
    ensures Nodes(Prefixed(p, y)) <= s.room + Nodes(y) && !s.error
    ensures Apply(p, TreeOf(y), s) ==
              Parsed(TreeOf(Prefixed(p, y)), State(s.rest, s.room + Nodes(y) - Nodes(Prefixed(p, y)), false))
  {
  }

  lemma {:induction false} OperandsRead(k: nat, s: State) returns (x: Syntax)
    requires k <= 6 && !Operands(k, s).s.error
    ensures Reads(s, x, Operands(k, s)) && Rank(x) >= k
    ensures Grip(Head(Operands(k, s).s)) < k
    decreases |s.rest|, 6 - k, 1
  {
    hide Print, TreeOf, Nodes, WellFormed, Rank, Unary, More, Grip;
    if k == 6 {
      x := UnaryReads(s);
      NoSix(Head(Unary(s).s));
    } else {
      var p := Operands(k + 1, s);
      var first := OperandsRead(k + 1, s);
      x := MoreRead(k, first, p.s);
    }
  }

  lemma NoSix(t: Token)
    requires Grip(t) < 7
    ensures Grip(t) < 6
  {
  }

  lemma {:induction false} MoreRead(k: nat, was: Syntax, s: State) returns (x: Syntax)
    requires k <= 5 && WellFormed(was) && Rank(was) >= k && !More(k, TreeOf(was), s).s.error
    requires Grip(Head(s)) <= k
    ensures ReadsOn(was, s, x, More(k, TreeOf(was), s)) && Rank(x) >= k
    ensures Grip(Head(More(k, TreeOf(was), s).s)) < k
    decreases |s.rest|, 6 - k, 0
  {
    hide Print, TreeOf, Nodes, WellFormed, Operands, More, Rank, MakeNode, Grip;
    NoOperator(k, Head(s));
    x := was;
    match OperatorAt(k, Head(s))
    case None => MoreStops(k, TreeOf(was), s);
    case Some(op) =>
      HeadTail(s);
      MoreTakes(k, op, TreeOf(was), s);
      var y := Operands(k + 1, Tail(s));
      MoreErrs(k, op, TreeOf(was), s);
      var right := OperandsRead(k + 1, Tail(s));
      var m := MakeNode(Binary(op), TreeOf(was), y.node, y.s);
      MakeErrs(Binary(op), TreeOf(was), y.node, y.s);
      var now := Infix(op, was, right);
      InfixIs(op, was, right);
      assert Print(was) + s.rest == Print(now) + m.s.rest;
      x := MoreRead(k, now, m.s);
  }

  lemma MoreErrs(k: nat, op: M.BinaryOp, x: Node, s: State)
    requires k <= 5 && Level(op) == k && Head(s) == Sign(op) && !More(k, x, s).s.error
    ensures var y := Operands(k + 1, Tail(s)); y.node.Node? && !y.s.error && !MakeNode(Binary(op), x, y.node, y.s).s.error
    ensures !s.error
  {
    hide Operands;
  }

  lemma MakeErrs(kind: Kind, a: Node, b: Node, s: State)
    requires !MakeNode(kind, a, b, s).s.error
    ensures s.room > 0 && a.Node? && MakeNode(kind, a, b, s) == Parsed(Inner(kind, a, b), s.(room := s.room - 1))
  {
  }

  lemma {:induction false} ExpressionReads(s: State) returns (x: Syntax)
    requires !Expression(s).s.error
    ensures Reads(s, x, Expression(s)) && Grip(Head(Expression(s).s)) < -1
    decreases |s.rest|
  {
    var p := Operands(0, s);
    x := OperandsRead(0, s);
    if Head(p.s).Equals? {
      HeadTail(p.s);
      var y := ExpressionReads(Tail(p.s));
      var left := x;
      x := Set(left, y);
      assert s.rest == Print(x) + Expression(s).s.rest;
    }
  }

  /** The parser reads an expression without an error exactly if its tokens are those of an expression of
      the grammar, there are nodes enough, and what follows cannot go on with it; and it yields its tree. */
  lemma ParsesExactly(ts: seq<Token>, room: nat, node: Node, rest: seq<Token>, left: nat)
    ensures Expression(State(ts, room, false)) == Parsed(node, State(rest, left, false))
            <==> exists x :: Reads(State(ts, room, false), x, Parsed(node, State(rest, left, false)))
                             && Grip(Head(State(rest, left, false))) < -1
  {
    var s, p := State(ts, room, false), Parsed(node, State(rest, left, false));
    if Expression(s) == p {
      var x := ExpressionReads(s);
    }
    if x :| Reads(s, x, p) && Grip(Head(p.s)) < -1 {
      ExpressionBack(x, rest, room, false);
    }
  }

  // ---------------------------------------------------------------- statements

  function PrintAll(ss: seq<Syntax>): seq<Token> {
    if ss == [] then [] else Print(ss[0]) + ([Semicolon] + PrintAll(ss[1..]))
  }

  function NodesOfAll(ss: seq<Syntax>): nat {
    if ss == [] then 0 else Nodes(ss[0]) + NodesOfAll(ss[1..])
  }

  function Trees(ss: seq<Syntax>): (ns: seq<Node>)
    ensures forall n <- ns :: n.Node?
  {
    if ss == [] then [] else [TreeOf(ss[0])] + Trees(ss[1..])
  }

  lemma {:induction false} PrintHead(s: Syntax)
    ensures !(Print(s)[0] in {Semicolon, Bad, Eof})
  {
    match s
    case Literal(_) | Named(_) =>
    case Postfixed(x, _) => PrintHead(x);
    case Prefixed(_, _) =>
    case Infix(_, l, _) => PrintHead(l);
    case Set(l, _) => PrintHead(l);
  }

  lemma StatementBack(s: Syntax, rest: seq<Token>, room: nat)
    requires WellFormed(s) && Nodes(s) <= room
    ensures !(Head(Before(s, [Semicolon] + rest, room, false)) in {Semicolon, Bad, Eof})
    ensures Statement(Before(s, [Semicolon] + rest, room, false)) == Parsed(TreeOf(s), After(s, rest, room, false))
  {
    hide Print, TreeOf, Nodes, WellFormed, Expression;
    PrintHead(s);
    ExpressionBack(s, [Semicolon] + rest, room, false);
    Cut([], Semicolon, rest, room - Nodes(s), false);
  }

  lemma LineTakes(nodes: seq<Node>, s: State)
    requires !Head(s).Eof? && !Head(s).Bad? && Statement(s).node.Node?
    ensures ReadLine(nodes, s) == ReadLine(nodes + [Statement(s).node], Statement(s).s)
  {
    hide Statement;
  }

  lemma {:induction false} ProgramBack(done: seq<Node>, ss: seq<Syntax>, room: nat)
    requires (forall s <- ss :: WellFormed(s)) && NodesOfAll(ss) <= room
    ensures ReadLine(done, State(PrintAll(ss), room, false))
            == Line(done + Trees(ss), State([], room - NodesOfAll(ss), false))
    decreases |ss|
  {
    hide Print, TreeOf, Nodes, WellFormed, Statement, ReadLine, PrintAll, NodesOfAll, Trees;
    if ss == [] {
      LineEnds(done, room);
      assert done + Trees([]) == done;
    } else {
      AllOf(ss);
      var rest := PrintAll(ss[1..]);
      StatementBack(ss[0], rest, room);
      LineTakes(done, Before(ss[0], [Semicolon] + rest, room, false));
      ProgramBack(done + [TreeOf(ss[0])], ss[1..], room - Nodes(ss[0]));
      assert done + [TreeOf(ss[0])] + Trees(ss[1..]) == done + Trees(ss);
    }
  }

  lemma LineEnds(done: seq<Node>, room: nat)
    ensures PrintAll([]) == [] && NodesOfAll([]) == 0 && Trees([]) == []
    ensures ReadLine(done, State([], room, false)) == Line(done, State([], room, false))
  {
  }

  lemma AllOf(ss: seq<Syntax>)
    requires ss != []
    ensures PrintAll(ss) == Print(ss[0]) + ([Semicolon] + PrintAll(ss[1..]))
    ensures NodesOfAll(ss) == Nodes(ss[0]) + NodesOfAll(ss[1..])
    ensures Trees(ss) == [TreeOf(ss[0])] + Trees(ss[1..])
  {
  }

  /** A line of statements parses, without an error, to the list of their trees. */
  lemma LineBack(ss: seq<Syntax>)
    requires (forall s <- ss :: WellFormed(s)) && NodesOfAll(ss) <= NODES
    ensures ReadLine([], State(PrintAll(ss), NODES, false)) == Line(Trees(ss), State([], NODES - NodesOfAll(ss), false))
  {
    hide ReadLine, Trees, PrintAll;
    ProgramBack([], ss, NODES);
    assert [] + Trees(ss) == Trees(ss);
  }

  // ---------------------------------------------------------------- what the shell computes

  /** The expression that a written one stands for, if ++, --, & and = are applied to what has an address. */
  function Meaning(s: Syntax): Option<Expr> {
    match s
    case Literal(w) => Some(Const(w))
    case Named(v) => Some(Read(Variable(v)))
    case Postfixed(x, down) => Step(if down then Dec else Inc, Meaning(x))
    case Prefixed(p, x) => PrefixMeaning(p, Meaning(x))
    case Infix(op, l, r) =>
      if Meaning(l).Some? && Meaning(r).Some? then Some(Bin(op, Meaning(l).value, Meaning(r).value)) else None
    case Set(l, r) =>
      if Meaning(l).Some? && Meaning(l).value.Read? && Meaning(r).Some? then
        Some(Assign(Meaning(l).value.from, Meaning(r).value))
      else None
  }

  function Step(kind: Kind, x: Option<Expr>): Option<Expr> {
    if x.Some? && x.value.Read? && x.value.from.Variable? then Some(Stepped(kind, x.value.from.addr)) else None
  }

  function PrefixMeaning(p: Prefix, x: Option<Expr>): Option<Expr> {
    if x.None? then None
    else
      match p
      case Positive => x
      case Negative => Some(Bin(M.Sub, Const(0), x.value))
      case Increment => Step(PreInc, x)
      case Decrement => Step(PreDec, x)
      case Inverse => Some(Not(x.value))
      case Deref => Some(Read(Pointee(x.value)))
      case Address => if x.value.Read? then Some(AddressOf(x.value.from)) else None
  }

  lemma {:induction false} TreeSibling(e: Expr, sibling: Node)
    ensures var n := Tree(e, Null); n.Node? && n.sibling == Null && Tree(e, sibling) == n.(sibling := sibling)
  {
  }

  /** The parser's tree is the one that the compiler is proved for. */
  lemma {:induction false} MeaningTree(s: Syntax)
    requires Meaning(s).Some?
    ensures TreeOf(s) == Tree(Meaning(s).value, Null)
    ensures InFragment(Meaning(s).value) && Depth(Meaning(s).value) <= 2 * Nodes(s)
  {
    match s
    case Literal(_) | Named(_) =>
    case Postfixed(x, _) => MeaningTree(x);
    case Prefixed(p, x) =>
      MeaningTree(x);
      PrefixTree(p, x);
    case Infix(_, l, r) =>
      MeaningTree(l);
      MeaningTree(r);
      TreeSibling(Meaning(l).value, TreeOf(r));
    case Set(l, r) =>
      MeaningTree(l);
      MeaningTree(r);
      TreeSibling(Meaning(l).value, TreeOf(r));
  }

  lemma PrefixTree(p: Prefix, x: Syntax)
    requires Meaning(x).Some? && Meaning(Prefixed(p, x)).Some?
    requires var e := Meaning(x).value; TreeOf(x) == Tree(e, Null) && InFragment(e) && Depth(e) <= 2 * Nodes(x)
    ensures var s := Prefixed(p, x);
            var e := Meaning(s).value;
            TreeOf(s) == Tree(e, Null) && InFragment(e) && Depth(e) <= 2 * Nodes(s)
  {
    TreeSibling(Const(0), TreeOf(x));
    SomeNodes(x);
  }

  lemma SomeNodes(s: Syntax)
    ensures Nodes(s) >= 1
  {
  }

  lemma {:induction false} MeaningsTree(ss: seq<Syntax>, es: seq<Expr>)
    requires |es| == |ss| && forall i :: 0 <= i < |ss| ==> Meaning(ss[i]) == Some(es[i])
    ensures Chain(Trees(ss)) == FinshCompiler.Statements(es)
    ensures forall e <- es :: InFragment(e) && Depth(e) <= 2 * NodesOfAll(ss)
  {
    if ss != [] {
      hide TreeOf, Tree, Meaning, InFragment, Depth, Nodes;
      MeaningsTree(ss[1..], es[1..]);
      MeaningTree(ss[0]);
      TreeSibling(es[0], Chain(Trees(ss[1..])));
      assert Trees(ss)[1..] == Trees(ss[1..]);
      assert forall e <- es :: e == es[0] || e in es[1..];
    }
  }

  /** A line of the shell, from its tokens to the machine: parsed, checked, compiled and run, it does what
      its statements mean. */
  lemma LineComputes(ss: seq<Syntax>, es: seq<Expr>, m: M.Memory)
    requires ss != [] && (forall s <- ss :: WellFormed(s)) && NodesOfAll(ss) <= NODES
    requires |es| == |ss| && forall i :: 0 <= i < |ss| ==> Meaning(ss[i]) == Some(es[i])
    requires |ProgramCode(TypeCheck(FinshCompiler.Statements(es), false))| <= M.FINSH_TEXT_MAX
    ensures var line := ReadLine([], State(PrintAll(ss), NODES, false));
            && !line.s.error && line.nodes == Trees(ss) && Chain(line.nodes) == FinshCompiler.Statements(es)
            && M.Run(TextSegment(Chain(line.nodes)), M.Vm(0, [], m))
               == match EvalAll(es, m)
                  case Fault => None
                  case Done(w, m') => Some(M.Vm(M.FINSH_TEXT_MAX, [w], m'))
  {
    hide ReadLine, Trees, PrintAll, Meaning, InFragment, Depth, Chain, M.Run, TextSegment, ProgramCode, TypeCheck, EvalAll;
    LineBack(ss);
    MeaningsTree(ss, es);
    CompilerCorrect(es, m);
  }

  // ---------------------------------------------------------------- the parser

  lemma {:induction false} OnlyNodes(nodes: seq<Node>, s: State)
    requires forall n <- nodes :: n.Node?
    ensures forall n <- ReadLine(nodes, s).nodes :: n.Node?
    decreases |s.rest|
  {
    hide Statement, Tail, Head;
    StatementShrinks(s);
    var t := Head(s);
    if !(t.Eof? || t.Bad?) {
      var x := Statement(s);
      if x.node.Node? { OnlyNodes(nodes + [x.node], x.s); }
      else if nodes != [] {
        if t.Name? || t.UnknownName? { OnlyNodes(nodes, x.s); } else { OnlyNodes(nodes, Tail(x.s)); }
      }
    }
  }

  lemma StatementShrinks(s: State)
    ensures !Head(s).Eof? ==> |Statement(s).s.rest| < |s.rest| && |Tail(Statement(s).s).rest| < |s.rest|
  {
  }

  lemma UnaryIs(s: State)
    ensures Unary(s) == match PrefixOf(Head(s))
                        case Some(op) => (var x := Unary(Tail(s)); Apply(op, x.node, x.s))
                        case None => Postfix(s)
    ensures PrefixOf(Head(s)).Some? ==> |Tail(s).rest| < |s.rest|
  {
    hide Postfix, Apply;
  }

  lemma StatementIs(s: State)
    ensures var x := Expression(s);
            Statement(s) == if Head(s).Semicolon? then Parsed(Null, Tail(s))
                            else if Head(x.s).Semicolon? then Parsed(x.node, Tail(x.s))
                            else Parsed(x.node, Failed(x.s))
  {
    hide Expression;
  }

  lemma OperandsAre(s: State)
    ensures Operands(6, s) == Unary(s)
  {
  }

  lemma MoreIs(k: nat, x: Node, s: State)
    requires k <= 5
    ensures var o, y := OperatorAt(k, Head(s)), Operands(k + 1, Tail(s));
            var m := if o.Some? then MakeNode(Binary(o.value), x, y.node, y.s) else y;
            && (o.Some? ==> |Tail(s).rest| < |s.rest| && |y.s.rest| < |s.rest|)
            && More(k, x, s) ==
               if o.None? then Parsed(x, s)
               else if y.node.Null? then More(k, x, Failed(y.s))
               else More(k, m.node, m.s)
  {
    hide Operands;
  }

  class Parser {
    const tokens: seq<Token>
    var position: nat
    var current: Token
    var replay: bool
    var room: nat
    var error: bool

    ghost predicate Valid()
      reads this
    {
      position <= |tokens| && Eof !in tokens && (current.Eof? ==> position == |tokens|)
    }

    /** The state as the functions have it: a replayed token is the next one again. */
    ghost function View(): State
      reads this
      requires Valid()
    {
      State((if replay && !current.Eof? then [current] else []) + tokens[position..], room, error)
    }

    /** The last token read is the first of s. */
    ghost predicate Peeked(s: State)
      reads this
    {
      Valid() && !replay && current == Head(s) && View() == Tail(s) && (current.Eof? ==> s.rest == [])
    }

    constructor (tokens: seq<Token>)
      requires Eof !in tokens
      ensures Valid() && View() == State(tokens, NODES, false)
    {
      this.tokens := tokens;
      position, current, replay, room, error := 0, Bad, false, NODES, false;
    }

    /** finsh_token_token. */
    method NextToken() returns (token: Token)
      requires Valid()
      modifies this
      ensures Peeked(old(View())) && token == current
    {
      if replay {
        replay := false;
      } else if position < |tokens| {
        current := tokens[position];
        position := position + 1;
      } else {
        current := Eof;
      }
      token := current;
    }

    /** finsh_token_replay. It is only used with the last token read, and not twice. */
    method Replay(ghost s: State)
      requires Peeked(s)
      modifies this
      ensures Valid() && View() == s
    {
      replay := true;
      assert s.rest == [] || s.rest == [s.rest[0]] + s.rest[1..];
    }

    method Allocate(kind: Kind, w: Word) returns (node: Node)
      requires Valid()
      modifies this
      ensures Valid() && Parsed(node, View()) == NewLeaf(kind, w, old(View()))
    {
      if room == 0 {
        error := true;
        return Null;
      }
      room := room - 1;
      node := Leaf(kind, w);
    }

    method MakeSysNode(kind: Kind, a: Node, b: Node) returns (node: Node)
      requires Valid()
      modifies this
      ensures Valid() && Parsed(node, View()) == MakeNode(kind, a, b, old(View()))
    {
      node := Allocate(kind, 0);
      if a.Node? && node.Node? {
        node := node.(child := a.(sibling := b));
      } else {
        error := true;
      }
    }

    method ProcPrimary() returns (node: Node)
      requires Valid()
      modifies this
      ensures Valid() && Parsed(node, View()) == Primary(old(View()))
    {
      var token := NextToken();
      match token
      case Name(v) =>
        Replay(old(View()));
        var again := NextToken();
        node := Allocate(Id, v);
      case Value(w) => node := Allocate(ValueLong, w);
      case _ =>
        error := true;
        node := Null;
    }

    method ProcPostfix() returns (node: Node)
      requires Valid()
      modifies this
      ensures Valid() && Parsed(node, View()) == Postfix(old(View()))
    {
      hide Primary;
      node := ProcPrimary();
      ghost var s := View();
      var token := NextToken();
      while token.PlusPlus? || token.MinusMinus?
        invariant Peeked(s) && token == Head(s) && Steps(node, s) == Postfix(old(View()))
        decreases |s.rest|
      {
        node := MakeSysNode(if token.PlusPlus? then Inc else Dec, node, Null);
        s := View();
        token := NextToken();
      }
      Replay(s);
    }

    method ProcUnary() returns (node: Node)
      requires Valid()
      modifies this
      ensures Valid() && Parsed(node, View()) == Unary(old(View()))
      decreases |View().rest|, 0
    {
      hide Postfix, PrefixOf, Apply, Head, Tail;
      var token := NextToken();
      UnaryIs(old(View()));
      match PrefixOf(token)
      case Some(p) =>
        node := ProcCast();
        node := ApplyPrefix(p, node);
      case None =>
        Replay(old(View()));
        node := ProcPostfix();
    }

    /** The cases of proc_unary_expr, after their operand. */
    method ApplyPrefix(p: Prefix, cast: Node) returns (node: Node)
      requires Valid()
      modifies this
      ensures Valid() && Parsed(node, View()) == Apply(p, cast, old(View()))
    {
      hide MakeNode;
      match p
      case Positive => node := cast;
      case Negative =>
        var zero := Allocate(ValueLong, 0);
        node := MakeSysNode(Binary(M.Sub), zero, cast);
      case Increment => node := MakeSysNode(PreInc, cast, Null);
      case Decrement => node := MakeSysNode(PreDec, cast, Null);
      case Inverse => node := MakeSysNode(Bitwise, cast, Null);
      case Deref => node := MakeSysNode(GetValue, cast, Null);
      case Address => node := MakeSysNode(GetAddr, cast, Null);
    }

    method ProcCast() returns (node: Node)
      requires Valid()
      modifies this
      ensures Valid() && Parsed(node, View()) == Unary(old(View()))
      decreases |View().rest|, 1
    {
      hide Unary;
      var token := NextToken();
      Replay(old(View()));
      node := ProcUnary();
    }

    /** The procedures from proc_inclusive_or_expr (0) to proc_multiplicative_expr (5). */
    method ProcOperands(k: nat) returns (node: Node)
      requires Valid() && k <= 6
      modifies this
      ensures Valid() && Parsed(node, View()) == Operands(k, old(View()))
      decreases 6 - k
    {
      hide Unary, MakeNode, Operands, More, OperatorAt, Head, Tail;
      OperandsAre(View());
      if k == 6 {
        node := ProcCast();
        return;
      }
      OperandsGoOn(k, View());
      node := ProcOperands(k + 1);
      ghost var s := View();
      var token := NextToken();
      while OperatorAt(k, token).Some?
        invariant Peeked(s) && token == Head(s) && More(k, node, s) == Operands(k, old(View()))
        decreases |s.rest|
      {
        MoreIs(k, node, s);
        var right := ProcOperands(k + 1);
        if right.Null? {
          error := true;
        } else {
          node := MakeSysNode(Binary(OperatorAt(k, token).value), node, right);
        }
        s := View();
        token := NextToken();
      }
      MoreIs(k, node, s);
      Replay(s);
    }

    /** proc_assign_expr. */
    method ProcExpression() returns (node: Node)
      requires Valid()
      modifies this
      ensures Valid() && Parsed(node, View()) == Expression(old(View()))
      decreases |View().rest|
    {
      hide Operands, MakeNode;
      node := ProcOperands(0);
      ghost var s := View();
      var token := NextToken();
      if token.Equals? {
        var assign := ProcExpression();
        node := MakeSysNode(AssignNode, node, assign);
      } else {
        Replay(s);
      }
    }

    method ProcExprStatement() returns (node: Node)
      requires Valid()
      modifies this
      ensures Valid() && Parsed(node, View()) == Statement(old(View()))
    {
      hide Expression, Statement, Head, Tail;
      node := Null;
      StatementIs(View());
      var token := NextToken();
      if !token.Semicolon? {
        Replay(old(View()));
        node := ProcExpression();
        ghost var s := View();
        token := NextToken();
        if !token.Semicolon? {
          Replay(s);
          error := true;
        }
      }
    }

    /** finsh_parser_run. */
    method Run() returns (root: Node)
      requires Valid()
      modifies this
      ensures Valid()
      ensures var line := ReadLine([], old(View()));
              View() == line.s && (forall n <- line.nodes :: n.Node?) && root == Chain(line.nodes)
    {
      hide Statement, Chain, Head, Tail;
      ghost var s, start := View(), View();
      OnlyNodes([], s);
      var nodes: seq<Node> := [];
      var token := NextToken();
      while !token.Eof? && !token.Bad?
        invariant Peeked(s) && token == Head(s) && ReadLine(nodes, s) == ReadLine([], start)
        invariant forall n <- nodes :: n.Node?
        decreases |s.rest|
      {
        StatementShrinks(s);
        Replay(s);
        var node := ProcExprStatement();
        if node.Node? {
          nodes := nodes + [node];
        } else if nodes == [] {
          root := Chain([]);
          return;
        } else if !token.Name? && !token.UnknownName? {
          var dropped := NextToken();
        }
        s := View();
        token := NextToken();
      }
      root := Chain(nodes);
    }
  }
}
