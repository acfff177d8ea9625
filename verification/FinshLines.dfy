/** Lines of the shell with empty statements: for which of them finsh_parser_run, in
    components/finsh/finsh_parser.c, comes out with the trees of the other statements. */
module FinshLines {
  import M = FinshMachine
  import opened Sequences
  import opened FinshCompiler
  import opened FinshParser

  type Word = M.Word

  datatype Item = Empty | Stated(s: Syntax)

  function PrintItems(items: seq<Item>): seq<Token> {
    if items == [] then []
    else (if items[0].Empty? then [] else Print(items[0].s)) + ([Semicolon] + PrintItems(items[1..]))
  }

  /** The trees of the statements that are not empty. */
  function ItemTrees(items: seq<Item>): seq<Node> {
    if items == [] then []
    else if items[0].Empty? then ItemTrees(items[1..])
    else [TreeOf(items[0].s)] + ItemTrees(items[1..])
  }

  function ItemNodes(items: seq<Item>): nat {
    if items == [] then 0 else (if items[0].Empty? then 0 else Nodes(items[0].s)) + ItemNodes(items[1..])
  }

  function HowMany(items: seq<Item>): nat {
    if items == [] then 0 else (if items[0].Empty? then 0 else 1) + HowMany(items[1..])
  }

  predicate AllWellFormed(items: seq<Item>) {
    forall i <- items :: i.Stated? ==> WellFormed(i.s)
  }

  /** The statement keeps its tree without its first token: it begins with a sign +, or with the difference
      of 0 and a single operand. */
  predicate Sheds(s: Syntax) {
    match s
    case Prefixed(p, _) => p == Positive
    case Infix(op, l, r) => if op == M.Sub && l == Literal(0) then Rank(r) >= 6 else Sheds(l)
    case Set(l, _) => Sheds(l)
    case _ => false
  }

  /** Behind a statement, empty statements do no harm in pairs and at the end; a single one takes the first
      token of the next statement. */
  predicate HarmlessBehind(items: seq<Item>)
    decreases |items|
  {
    if items == [] then true
    else if items[0].Stated? then HarmlessBehind(items[1..])
    else if |items| == 1 then true
    else (items[1].Stated? ==> Sheds(items[1].s)) && HarmlessBehind(items[2..])
  }

  /** An empty statement at the beginning hides all others. */
  predicate Harmless(items: seq<Item>) {
    items == [] || if items[0].Empty? then HowMany(items) == 0 else HarmlessBehind(items[1..])
  }

  // A statement without its first token

  /** It begins with a sign +, or with 0 and a minus sign. */
  predicate Starts(s: Syntax) {
    match s
    case Prefixed(p, _) => p == Positive
    case Infix(op, l, _) => (op == M.Sub && l == Literal(0)) || Starts(l)
    case Set(l, _) => Starts(l)
    case _ => false
  }

  /** A minus sign before an expression belongs to its first operand. */
  function NegateFirst(s: Syntax): Syntax {
    if s.Infix? then Infix(s.op, NegateFirst(s.l), s.r) else Prefixed(Negative, s)
  }

  /** What is left of such a statement without its first token. */
  function Shed(s: Syntax): Syntax
    requires Starts(s)
  {
    match s
    case Prefixed(_, x) => x
    case Infix(op, l, r) => if op == M.Sub && l == Literal(0) then NegateFirst(r) else Infix(op, Shed(l), r)
    case Set(l, r) => Set(Shed(l), r)
  }

  lemma {:induction false} NegateFirstIs(s: Syntax)
    requires WellFormed(s) && Rank(s) >= 5
    ensures var x := NegateFirst(s);
            && WellFormed(x) && Rank(x) >= 5 && (Rank(s) >= 6 ==> x == Prefixed(Negative, s))
            && Print(x) == [Minus] + Print(s) && Nodes(x) == Nodes(s) + 2
            && (Rank(s) == 5 ==> TreeOf(x).kind != Binary(M.Sub))
  {
    hide Print, TreeOf, Nodes;
    if s.Infix? {
      NegateFirstIs(s.l);
      InfixIs(s.op, s.l, s.r);
      InfixIs(s.op, NegateFirst(s.l), s.r);
      var rest := [Sign(s.op)] + Print(s.r);
      assert [Minus] + (Print(s.l) + rest) == ([Minus] + Print(s.l)) + rest;
    } else {
      PrefixedIs(Negative, s);
    }
  }

  lemma SameInner(kind: Kind, a: Node, c: Node, b: Node)
    requires a.Node? && c.Node? && a.sibling == Null && c.sibling == Null
    ensures Inner(kind, a, b) == Inner(kind, c, b) <==> a == c
  {
    if Inner(kind, a, b) == Inner(kind, c, b) {
      assert a.(sibling := b) == c.(sibling := b);
      assert a == a.(sibling := b).(sibling := Null) && c == c.(sibling := b).(sibling := Null);
    }
  }

  predicate Shedding(s: Syntax, x: Syntax) {
    && WellFormed(x) && Rank(x) >= Rank(s) && Print(s)[1..] == Print(x)
    && (Sheds(s) ==> Nodes(x) == Nodes(s)) && (TreeOf(x) == TreeOf(s) <==> Sheds(s))
  }

  lemma {:induction false} ShedIs(s: Syntax)
    requires WellFormed(s) && Starts(s)
    ensures Shedding(s, Shed(s))
  {
    hide Print, TreeOf, Nodes, Shedding;
    match s
    case Prefixed(p, x) => ShedPlus(x);
    case Infix(op, l, r) =>
      if op == M.Sub && l == Literal(0) {
        ShedZero(r);
      } else {
        ShedIs(l);
        ShedInfix(op, l, r);
      }
    case Set(l, r) =>
      ShedIs(l);
      ShedSet(l, r);
  }

  lemma ShedPlus(x: Syntax)
    requires WellFormed(x) && Rank(x) >= 6
    ensures Shedding(Prefixed(Positive, x), x)
  {
  }

  lemma ShedZero(r: Syntax)
    requires WellFormed(r) && Rank(r) > 4
    ensures Shedding(Infix(M.Sub, Literal(0), r), NegateFirst(r))
  {
    hide Print, TreeOf, Nodes, WellFormed, NegateFirst, Rank;
    NegateFirstIs(r);
    ZeroIs();
    InfixIs(M.Sub, Literal(0), r);
    assert ([Value(0)] + ([Minus] + Print(r)))[1..] == [Minus] + Print(r);
    RankOrSix(r);
    if Rank(r) >= 6 { NegativeTree(r); }
  }

  lemma ZeroIs()
    ensures Print(Literal(0)) == [Value(0)] && Nodes(Literal(0)) == 1 && WellFormed(Literal(0)) && Rank(Literal(0)) == 8
  {
  }

  lemma RankOrSix(r: Syntax)
    ensures Rank(r) > 4 ==> Rank(r) == 5 || Rank(r) >= 6
  {
  }

  lemma NegativeTree(r: Syntax)
    ensures TreeOf(Prefixed(Negative, r)) == TreeOf(Infix(M.Sub, Literal(0), r))
  {
  }

  lemma ShedInfix(op: M.BinaryOp, l: Syntax, r: Syntax)
    requires WellFormed(Infix(op, l, r)) && Starts(l) && Shedding(l, Shed(l)) && !(op == M.Sub && l == Literal(0))
    ensures Shedding(Infix(op, l, r), Infix(op, Shed(l), r))
  {
    hide Print, TreeOf, Nodes, Shed;
    InfixIs(op, l, r);
    InfixIs(op, Shed(l), r);
    SameInner(Binary(op), TreeOf(Shed(l)), TreeOf(l), TreeOf(r));
    var rest := [Sign(op)] + Print(r);
    assert (Print(l) + rest)[1..] == Print(l)[1..] + rest;
  }

  lemma ShedSet(l: Syntax, r: Syntax)
    requires WellFormed(Set(l, r)) && Starts(l) && Shedding(l, Shed(l))
    ensures Shedding(Set(l, r), Set(Shed(l), r))
  {
    hide Print, TreeOf, Nodes, Shed;
    SetIs(l, r);
    SetIs(Shed(l), r);
    SameInner(AssignNode, TreeOf(Shed(l)), TreeOf(l), TreeOf(r));
    var rest := [Equals] + Print(r);
    assert (Print(l) + rest)[1..] == Print(l)[1..] + rest;
  }

  // What tokens say about the nodes of the tree

  function One(k: Kind, w: Word, kind: Kind, word: Word): nat { if k == kind && w == word then 1 else 0 }

  /** How many nodes of a kind, with a word, the tree has. */
  function Count(n: Node, k: Kind, w: Word): nat {
    if n.Null? then 0 else One(n.kind, n.word, k, w) + Count(n.child, k, w) + Count(n.sibling, k, w)
  }

  /** The nodes that come of a token, before an operand or behind one. */
  function Weight(t: Token, behind: bool, k: Kind, w: Word): nat {
    if behind then
      match t
      case PlusPlus => One(Inc, 0, k, w)
      case MinusMinus => One(Dec, 0, k, w)
      case Equals => One(AssignNode, 0, k, w)
      case Bar => One(Binary(M.Or), 0, k, w)
      case Caret => One(Binary(M.Xor), 0, k, w)
      case Amp => One(Binary(M.And), 0, k, w)
      case ShiftLeft => One(Binary(M.Shl), 0, k, w)
      case ShiftRight => One(Binary(M.Shr), 0, k, w)
      case Plus => One(Binary(M.Add), 0, k, w)
      case Minus => One(Binary(M.Sub), 0, k, w)
      case Star => One(Binary(M.Mul), 0, k, w)
      case Slash => One(Binary(M.Div), 0, k, w)
      case Percent => One(Binary(M.Mod), 0, k, w)
      case _ => 0
    else
      match t
      case Name(v) => One(Id, v, k, w)
      case Value(x) => One(ValueLong, x, k, w)
      case Minus => One(Binary(M.Sub), 0, k, w) + One(ValueLong, 0, k, w)
      case PlusPlus => One(PreInc, 0, k, w)
      case MinusMinus => One(PreDec, 0, k, w)
      case Tilde => One(Bitwise, 0, k, w)
      case Star => One(GetValue, 0, k, w)
      case Amp => One(GetAddr, 0, k, w)
      case _ => 0
  }

  function Behind(t: Token, behind: bool): bool {
    if behind then t.PlusPlus? || t.MinusMinus? else t.Name? || t.Value?
  }

  function Tally(ts: seq<Token>, behind: bool, k: Kind, w: Word): nat {
    if ts == [] then 0 else Weight(ts[0], behind, k, w) + Tally(ts[1..], Behind(ts[0], behind), k, w)
  }

  lemma TallyFirst(t: Token, ts: seq<Token>, behind: bool, k: Kind, w: Word)
    ensures Tally([t] + ts, behind, k, w) == Weight(t, behind, k, w) + Tally(ts, Behind(t, behind), k, w)
  {
    assert ([t] + ts)[1..] == ts;
  }

  lemma CountNode(n: Node, k: Kind, w: Word)
    requires n.Node?
    ensures Count(n, k, w) == One(n.kind, n.word, k, w) + Count(n.child, k, w) + Count(n.sibling, k, w)
    ensures Count(Null, k, w) == 0
  {
  }

  lemma CountInner(kind: Kind, a: Node, b: Node, k: Kind, w: Word)
    requires a.Node? && a.sibling == Null
    ensures Count(Inner(kind, a, b), k, w) == One(kind, 0, k, w) + Count(a, k, w) + Count(b, k, w)
  {
    hide Count;
    CountNode(a, k, w);
    CountNode(a.(sibling := b), k, w);
    CountNode(Inner(kind, a, b), k, w);
  }

  lemma {:induction false} TallyPrint(s: Syntax, rest: seq<Token>, k: Kind, w: Word)
    ensures Tally(Print(s) + rest, false, k, w) == Count(TreeOf(s), k, w) + Tally(rest, true, k, w)
  {
    hide Print, TreeOf, Count, Tally, Weight, Sign;
    match s
    case Literal(x) => TallyLeaf(s, Value(x), rest, k, w);
    case Named(v) => TallyLeaf(s, Name(v), rest, k, w);
    case Postfixed(x, down) =>
      var t := if down then MinusMinus else PlusPlus;
      TallyPrint(x, [t] + rest, k, w);
      TallyFirst(t, rest, true, k, w);
      CountInner(if down then Dec else Inc, TreeOf(x), Null, k, w);
      PostfixedIs(x, down);
      NoCount(k, w);
      TallyStep(down, k, w);
      assert Print(s) + rest == Print(x) + ([t] + rest);
    case Prefixed(p, x) =>
      TallyPrint(x, rest, k, w);
      TallyPrefixed(p, x, rest, k, w);
    case Infix(op, l, r) =>
      InfixIs(op, l, r);
      TallyPrint(l, [Sign(op)] + (Print(r) + rest), k, w);
      TallyPrint(r, rest, k, w);
      TallySign(op, k, w);
      TallyBoth(Sign(op), Binary(op), l, r, rest, k, w);
      assert Print(s) + rest == Print(l) + ([Sign(op)] + (Print(r) + rest));
    case Set(l, r) =>
      SetIs(l, r);
      TallyPrint(l, [Equals] + (Print(r) + rest), k, w);
      TallyPrint(r, rest, k, w);
      TallySign(M.Or, k, w);
      TallyBoth(Equals, AssignNode, l, r, rest, k, w);
      assert Print(s) + rest == Print(l) + ([Equals] + (Print(r) + rest));
  }

  lemma TallyBoth(t: Token, kind: Kind, l: Syntax, r: Syntax, rest: seq<Token>, k: Kind, w: Word)
    requires Weight(t, true, k, w) == One(kind, 0, k, w) && !Behind(t, true)
    requires Tally(Print(r) + rest, false, k, w) == Count(TreeOf(r), k, w) + Tally(rest, true, k, w)
    ensures Count(TreeOf(l), k, w) + Tally([t] + (Print(r) + rest), true, k, w)
            == Count(Inner(kind, TreeOf(l), TreeOf(r)), k, w) + Tally(rest, true, k, w)
  {
    hide Print, TreeOf, Count, Tally, Weight;
    TallyFirst(t, Print(r) + rest, true, k, w);
    CountInner(kind, TreeOf(l), TreeOf(r), k, w);
  }

  lemma NoCount(k: Kind, w: Word)
    ensures Count(Null, k, w) == 0
  {
  }

  lemma TallyLeaf(s: Syntax, t: Token, rest: seq<Token>, k: Kind, w: Word)
    requires (s.Literal? && t == Value(s.w)) || (s.Named? && t == Name(s.v))
    ensures Tally(Print(s) + rest, false, k, w) == Count(TreeOf(s), k, w) + Tally(rest, true, k, w)
  {
    hide Tally, Count;
    TallyFirst(t, rest, false, k, w);
    CountNode(TreeOf(s), k, w);
  }

  lemma TallyStep(down: bool, k: Kind, w: Word)
    ensures Weight(if down then MinusMinus else PlusPlus, true, k, w) == One(if down then Dec else Inc, 0, k, w)
  {
  }

  lemma TallySign(op: M.BinaryOp, k: Kind, w: Word)
    ensures Weight(Sign(op), true, k, w) == One(Binary(op), 0, k, w) && !Behind(Sign(op), true)
    ensures Weight(Equals, true, k, w) == One(AssignNode, 0, k, w) && !Behind(Equals, true)
  {
  }

  lemma TallyPrefixed(p: Prefix, x: Syntax, rest: seq<Token>, k: Kind, w: Word)
    requires Tally(Print(x) + rest, false, k, w) == Count(TreeOf(x), k, w) + Tally(rest, true, k, w)
    ensures var s := Prefixed(p, x);
            Tally(Print(s) + rest, false, k, w) == Count(TreeOf(s), k, w) + Tally(rest, true, k, w)
  {
    hide Print, Tally, Count, TreeOf;
    var s := Prefixed(p, x);
    PrefixedIs(p, x);
    TallyFirst(PrefixSign(p), Print(x) + rest, false, k, w);
    assert Print(s) + rest == [PrefixSign(p)] + (Print(x) + rest);
    CountPrefixed(p, x, k, w);
  }

  lemma CountPrefixed(p: Prefix, x: Syntax, k: Kind, w: Word)
    ensures Count(TreeOf(Prefixed(p, x)), k, w) == Weight(PrefixSign(p), false, k, w) + Count(TreeOf(x), k, w)
    ensures !Behind(PrefixSign(p), false)
  {
    hide Count, TreeOf, Weight;
    var x1 := TreeOf(x);
    NoCount(k, w);
    PrefixedTree(p, x);
    PrefixWeight(p, k, w);
    match p
    case Positive =>
    case Negative =>
      CountInner(Binary(M.Sub), Leaf(ValueLong, 0), x1, k, w);
      CountNode(Leaf(ValueLong, 0), k, w);
    case Increment => CountInner(PreInc, x1, Null, k, w);
    case Decrement => CountInner(PreDec, x1, Null, k, w);
    case Inverse => CountInner(Bitwise, x1, Null, k, w);
    case Deref => CountInner(GetValue, x1, Null, k, w);
    case Address => CountInner(GetAddr, x1, Null, k, w);
  }

  lemma PrefixedTree(p: Prefix, x: Syntax)
    ensures var n := TreeOf(x);
            n.Node? && n.sibling == Null && TreeOf(Prefixed(p, x)) ==
              match p
              case Positive => n
              case Negative => Inner(Binary(M.Sub), Leaf(ValueLong, 0), n)
              case Increment => Inner(PreInc, n, Null)
              case Decrement => Inner(PreDec, n, Null)
              case Inverse => Inner(Bitwise, n, Null)
              case Deref => Inner(GetValue, n, Null)
              case Address => Inner(GetAddr, n, Null)
  {
  }

  lemma PrefixWeight(p: Prefix, k: Kind, w: Word)
    ensures !Behind(PrefixSign(p), false)
    ensures Weight(PrefixSign(p), false, k, w) ==
              match p
              case Positive => 0
              case Negative => One(Binary(M.Sub), 0, k, w) + One(ValueLong, 0, k, w)
              case Increment => One(PreInc, 0, k, w)
              case Decrement => One(PreDec, 0, k, w)
              case Inverse => One(Bitwise, 0, k, w)
              case Deref => One(GetValue, 0, k, w)
              case Address => One(GetAddr, 0, k, w)
  {
  }

  /** The token can stand there: an operand or a prefix, or behind an operand an operator. */
  predicate Fits(ts: seq<Token>, behind: bool) {
    ts == [] ||
    (&& (if behind then Grip(ts[0]) >= -1 else ts[0].Name? || ts[0].Value? || PrefixOf(ts[0]).Some?)
     && Fits(ts[1..], Behind(ts[0], behind)))
  }

  lemma FitsFirst(t: Token, ts: seq<Token>, behind: bool)
    requires if behind then Grip(t) >= -1 else t.Name? || t.Value? || PrefixOf(t).Some?
    ensures Fits([t] + ts, behind) <==> Fits(ts, Behind(t, behind))
  {
    assert ([t] + ts)[1..] == ts;
  }

  lemma {:induction false} PrintFits(s: Syntax, rest: seq<Token>)
    requires Fits(rest, true)
    ensures Fits(Print(s) + rest, false)
  {
    hide Print, Fits, PrefixOf, Grip, Sign, PrefixSign, WellFormed, TreeOf, Nodes, Rank, Level, Inner, Apply;
    match s
    case Literal(x) => FitsLeaf(s, Value(x), rest);
    case Named(v) => FitsLeaf(s, Name(v), rest);
    case Postfixed(x, down) =>
      var t := if down then MinusMinus else PlusPlus;
      PostfixedIs(x, down);
      FitsOperator(t, rest);
      PrintFits(x, [t] + rest);
      assert Print(s) + rest == Print(x) + ([t] + rest);
    case Prefixed(p, x) =>
      PrefixedIs(p, x);
      PrintFits(x, rest);
      FitsPrefix(p, Print(x) + rest);
      assert Print(s) + rest == [PrefixSign(p)] + (Print(x) + rest);
    case Infix(op, l, r) =>
      InfixIs(op, l, r);
      PrintFits(r, rest);
      FitsSign(op, Print(r) + rest);
      PrintFits(l, [Sign(op)] + (Print(r) + rest));
      assert Print(s) + rest == Print(l) + ([Sign(op)] + (Print(r) + rest));
    case Set(l, r) =>
      SetIs(l, r);
      PrintFits(r, rest);
      FitsOperator(Equals, Print(r) + rest);
      PrintFits(l, [Equals] + (Print(r) + rest));
      assert Print(s) + rest == Print(l) + ([Equals] + (Print(r) + rest));
  }

  lemma FitsLeaf(s: Syntax, t: Token, rest: seq<Token>)
    requires ((s.Literal? && t == Value(s.w)) || (s.Named? && t == Name(s.v))) && Fits(rest, true)
    ensures Fits(Print(s) + rest, false)
  {
    FitsFirst(t, rest, false);
  }

  lemma FitsOperator(t: Token, rest: seq<Token>)
    requires (t.PlusPlus? || t.MinusMinus? || t.Equals?) && Fits(rest, !t.Equals?)
    ensures Fits([t] + rest, true)
  {
    FitsFirst(t, rest, true);
  }

  lemma FitsSign(op: M.BinaryOp, rest: seq<Token>)
    requires Fits(rest, false)
    ensures Fits([Sign(op)] + rest, true)
  {
    FitsFirst(Sign(op), rest, true);
  }

  lemma FitsPrefix(p: Prefix, rest: seq<Token>)
    requires Fits(rest, false)
    ensures Fits([PrefixSign(p)] + rest, false)
  {
    FitsFirst(PrefixSign(p), rest, false);
  }

  lemma NoTally(k: Kind, w: Word)
    ensures forall behind :: Tally([], behind, k, w) == 0 == Tally([], behind, Inc, 0) == Tally([], behind, Dec, 0)
  {
  }

  lemma TallyIs(ts: seq<Token>, k: Kind, w: Word)
    requires ts != [] && Fits(ts, true)
    ensures Grip(ts[0]) >= -1 && Fits(ts[1..], Behind(ts[0], true))
    ensures forall behind, kind, word {:trigger Tally(ts, behind, kind, word)} ::
              Tally(ts, behind, kind, word) == Weight(ts[0], behind, kind, word) + Tally(ts[1..], Behind(ts[0], behind), kind, word)
  {
  }

  lemma StepWeights(t: Token, k: Kind, w: Word)
    requires Grip(t) >= -1
    ensures Behind(t, true) <==> t in {PlusPlus, MinusMinus}
    ensures !Behind(t, false)
    ensures Weight(t, false, Inc, 0) == 0 == Weight(t, false, Dec, 0)
    ensures Weight(t, true, Inc, 0) + Weight(t, true, Dec, 0) == if t in {PlusPlus, MinusMinus} then 1 else 0
    ensures k.Id? || k.ValueLong? ==> Weight(t, true, k, w) == 0 && (t in {PlusPlus, MinusMinus} ==> Weight(t, false, k, w) == 0)
  {
    hide Weight;
    StepsBehind(t);
    StepsBefore(t);
    NoLeafBehind(t, k, w);
  }

  lemma StepsBehind(t: Token)
    ensures Weight(t, true, Inc, 0) == (if t.PlusPlus? then 1 else 0) && Weight(t, true, Dec, 0) == if t.MinusMinus? then 1 else 0
  {
  }

  lemma StepsBefore(t: Token)
    ensures Weight(t, false, Inc, 0) == 0 && Weight(t, false, Dec, 0) == 0
  {
  }

  lemma NoLeafBehind(t: Token, k: Kind, w: Word)
    requires Grip(t) >= -1
    ensures k.Id? || k.ValueLong? ==> Weight(t, true, k, w) == 0 && (t in {PlusPlus, MinusMinus} ==> Weight(t, false, k, w) == 0)
  {
  }

  lemma OtherWeights(t: Token, k: Kind, w: Word)
    requires Grip(t) >= -1 && (k.Id? || k.ValueLong?)
    ensures Weight(t, false, k, w) > 0 ==> k.ValueLong? && w == 0 && t == Minus
  {
  }

  /** Read as if no operand stood before them, tokens give another leaf only through a minus sign, and no
      more steps. */
  lemma {:induction false} TallyEither(ts: seq<Token>, k: Kind, w: Word)
    requires Fits(ts, true) && (k.Id? || k.ValueLong?)
    ensures Tally(ts, false, k, w) > Tally(ts, true, k, w) ==>
              ts != [] && k.ValueLong? && w == 0 && ts[0] in {Minus, PlusPlus, MinusMinus}
    ensures Tally(ts, false, Inc, 0) + Tally(ts, false, Dec, 0) <= Tally(ts, true, Inc, 0) + Tally(ts, true, Dec, 0)
    ensures ts != [] && ts[0] in {PlusPlus, MinusMinus} ==>
              Tally(ts, false, Inc, 0) + Tally(ts, false, Dec, 0) < Tally(ts, true, Inc, 0) + Tally(ts, true, Dec, 0)
  {
    hide Tally, Fits, Weight;
    if ts == [] {
      NoTally(k, w);
    } else {
      var t, rest := ts[0], ts[1..];
      TallyIs(ts, k, w);
      StepWeights(t, k, w);
      if t in {PlusPlus, MinusMinus} { TallyEither(rest, k, w); } else { OtherWeights(t, k, w); }
    }
  }

  lemma {:induction false} StartsIs(s: Syntax)
    requires WellFormed(s) && !Starts(s)
    ensures Print(s)[0] != Plus
    ensures |Print(s)| > 1 ==> !(Print(s)[0] == Value(0) && Print(s)[1] == Minus)
    ensures |Print(s)| == 1 ==> s.Literal? || s.Named?
  {
    match s
    case Literal(_) | Named(_) =>
    case Postfixed(x, _) => StartsIs(x);
    case Prefixed(_, _) =>
    case Infix(_, l, _) => StartsIs(l);
    case Set(l, _) => StartsIs(l);
  }

  /** Any other statement does not keep its tree without its first token. */
  lemma OthersDoNotShed(s: Syntax, x: Syntax)
    requires WellFormed(s) && !Starts(s) && Print(x) == Print(s)[1..]
    ensures TreeOf(x) != TreeOf(s)
  {
    hide Print, TreeOf, Tally, Count, WellFormed, Starts;
    var t, u := Print(s)[0], Print(x);
    if TreeOf(x) == TreeOf(s) {
      assert Print(s) == [t] + u;
      StartsIs(s);
      PrintFits(s, []);
      NoTokens(Print(s), u);
      var k, w := TalliesDiffer(t, u);
      SameTally(s, x, t, u, k, w);
    }
  }

  lemma NoTokens(ts: seq<Token>, us: seq<Token>)
    ensures ts + [] == ts && us + [] == us && Fits([], true)
  {
  }

  lemma SameTally(s: Syntax, x: Syntax, t: Token, u: seq<Token>, k: Kind, w: Word)
    requires Print(s) == [t] + u && Print(x) == u && TreeOf(x) == TreeOf(s)
    ensures Weight(t, false, k, w) + Tally(u, Behind(t, false), k, w) == Tally(u, false, k, w)
  {
    hide Print, TreeOf, Tally, Count;
    TallyPrint(s, [], k, w);
    TallyPrint(x, [], k, w);
    NoTokens(Print(s), u);
    TallyFirst(t, u, false, k, w);
  }

  lemma TalliesDiffer(t: Token, u: seq<Token>) returns (k: Kind, w: Word)
    requires Fits([t] + u, false) && t != Plus && !(t == Value(0) && u != [] && u[0] == Minus)
    ensures Weight(t, false, k, w) + Tally(u, Behind(t, false), k, w) != Tally(u, false, k, w)
  {
    hide Tally;
    assert ([t] + u)[1..] == u;
    w := 0;
    match t
    case Name(_) => k, w := LeavesDiffer(t, u);
    case Value(_) => k, w := LeavesDiffer(t, u);
    case Minus => k := Binary(M.Sub);
    case PlusPlus => k := PreInc;
    case MinusMinus => k := PreDec;
    case Tilde => k := Bitwise;
    case Star => k := GetValue;
    case Amp => k := GetAddr;
  }

  lemma LeavesDiffer(t: Token, u: seq<Token>) returns (k: Kind, w: Word)
    requires Fits(u, true) && (t.Name? || t.Value?) && !(t == Value(0) && u != [] && u[0] == Minus)
    ensures Weight(t, false, k, w) + Tally(u, true, k, w) != Tally(u, false, k, w)
  {
    hide Tally, Fits;
    var leaf, word := if t.Name? then Id else ValueLong, if t.Name? then t.v else t.w;
    TallyEither(u, leaf, word);
    k, w := leaf, word;
    if Tally(u, false, leaf, word) == 1 + Tally(u, true, leaf, word) {
      k, w := if Tally(u, false, Inc, 0) != Tally(u, true, Inc, 0) then Inc else Dec, 0;
    }
  }

  /** An empty statement ends a line that has no tree yet; behind others it makes the parser drop one more
      token, and the statement there loses its beginning. */
  lemma EmptyStatement(nodes: seq<Node>, t: Token, rest: seq<Token>, room: nat, error: bool)
    ensures ReadLine([], State([Semicolon] + rest, room, error)) == Line([], State(rest, room, error))
    ensures nodes != [] && !t.Eof? ==>
              ReadLine(nodes, State([Semicolon, t] + rest, room, error)) == ReadLine(nodes, State(rest, room, error))
  {
    Cut([], Semicolon, rest, room, error);
    Cut([], Semicolon, [t] + rest, room, error);
    Cut([], t, rest, room, error);
    assert [Semicolon, t] + rest == [Semicolon] + ([t] + rest);
  }

  // What the parser makes of such lines

  /** The number of statements, in the tokens to come, that are not empty. */
  function Segments(ts: seq<Token>, inside: bool): nat {
    if ts == [] then 0
    else if ts[0] == Semicolon then (if inside then 1 else 0) + Segments(ts[1..], false)
    else Segments(ts[1..], true)
  }

  predicate NoSemicolon(ts: seq<Token>) {
    forall t <- ts :: t != Semicolon
  }

  lemma {:induction false} SegmentsOf(ts: seq<Token>, rest: seq<Token>, inside: bool)
    requires NoSemicolon(ts)
    ensures Segments(ts + ([Semicolon] + rest), inside) == (if inside || ts != [] then 1 else 0) + Segments(rest, false)
  {
    var all := ts + ([Semicolon] + rest);
    if ts == [] {
      assert all == [Semicolon] + rest && all[1..] == rest;
    } else {
      assert all[0] == ts[0] && ts[0] in ts && all[1..] == ts[1..] + ([Semicolon] + rest);
      assert forall t <- ts[1..] :: t in ts;
      SegmentsOf(ts[1..], rest, true);
    }
  }

  lemma {:induction false} SegmentsInside(ts: seq<Token>)
    ensures Segments(ts, false) <= Segments(ts, true)
  {
  }

  lemma SegmentsTail(s: State)
    ensures Segments(Tail(s).rest, false) <= Segments(s.rest, false)
  {
    SegmentsInside(Tail(s).rest);
  }

  lemma {:induction false} PrintNoSemicolon(s: Syntax)
    ensures NoSemicolon(Print(s))
  {
    match s
    case Literal(_) | Named(_) =>
    case Postfixed(x, _) => PrintNoSemicolon(x);
    case Prefixed(_, x) => PrintNoSemicolon(x);
    case Infix(_, l, r) => PrintNoSemicolon(l); PrintNoSemicolon(r);
    case Set(l, r) => PrintNoSemicolon(l); PrintNoSemicolon(r);
  }

  /** A statement without an error is empty, or a printed expression and its semicolon. */
  lemma StatementReads(s: State) returns (x: Syntax)
    requires !Statement(s).s.error && Head(s) != Semicolon
    ensures WellFormed(x) && s.rest == Print(x) + ([Semicolon] + Statement(s).s.rest)
    ensures Statement(s).node == TreeOf(x) && !s.error
  {
    hide Expression, Print, TreeOf, WellFormed, Nodes;
    StatementErrs(s);
    x := ExpressionReads(s);
    HeadTail(Expression(s).s);
  }

  lemma StatementErrs(s: State)
    requires !Statement(s).s.error && Head(s) != Semicolon
    ensures !Expression(s).s.error && Head(Expression(s).s) == Semicolon
    ensures Statement(s) == Parsed(Expression(s).node, Tail(Expression(s).s))
  {
    hide Expression;
  }

  lemma ReadLineIs(nodes: seq<Node>, s: State)
    ensures var t, x := Head(s), Statement(s);
            ReadLine(nodes, s) ==
              if t.Eof? || t.Bad? then Line(nodes, Tail(s))
              else if x.node.Node? then ReadLine(nodes + [x.node], x.s)
              else if nodes == [] then Line(nodes, x.s)
              else if t.Name? || t.UnknownName? then ReadLine(nodes, x.s)
              else ReadLine(nodes, Tail(x.s))
  {
    hide Statement, Head, Tail;
    StatementShrinks(s);
  }

  lemma EmptyIs(s: State)
    requires Head(s) == Semicolon
    ensures Statement(s) == Parsed(Null, Tail(s))
  {
  }

  lemma TailError(s: State)
    ensures Tail(s).error == s.error
  {
  }

  lemma StatementError(s: State)
    ensures s.error ==> Statement(s).s.error
  {
  }

  /** Errors stay, and what has been read stays in front. */
  lemma {:induction false} ReadLineExtends(nodes: seq<Node>, s: State)
    ensures nodes <= ReadLine(nodes, s).nodes && (s.error ==> ReadLine(nodes, s).s.error)
    decreases |s.rest|
  {
    hide Statement, Head, Tail, ReadLine;
    ReadLineIs(nodes, s);
    StatementShrinks(s);
    StatementError(s);
    TailError(s);
    TailError(Statement(s).s);
    if !(Head(s).Eof? || Head(s).Bad?) {
      var x := Statement(s);
      if x.node.Node? { ReadLineExtends(nodes + [x.node], x.s); }
      else if nodes != [] {
        ReadLineExtends(nodes, x.s);
        ReadLineExtends(nodes, Tail(x.s));
      }
    }
  }

  /** Without an error no more trees come out than statements went in. */
  lemma {:induction false} NoMoreThanSegments(nodes: seq<Node>, s: State)
    requires !ReadLine(nodes, s).s.error
    ensures |ReadLine(nodes, s).nodes| <= |nodes| + Segments(s.rest, false)
    decreases |s.rest|
  {
    hide Statement, Head, Tail, ReadLine, Segments, Print, TreeOf;
    ReadLineIs(nodes, s);
    if !(Head(s).Eof? || Head(s).Bad?) {
      var p := Statement(s);
      StatementShrinks(s);
      if Head(s) == Semicolon {
        EmptyIs(s);
        SegmentsTail(s);
        SegmentsTail(p.s);
        if nodes != [] { NoMoreThanSegments(nodes, Tail(p.s)); }
      } else {
        ReadLineExtends(nodes + [p.node], p.s);
        ReadLineExtends(nodes, p.s);
        ReadLineExtends(nodes, Tail(p.s));
        TailError(p.s);
        var x := StatementReads(s);
        PrintNoSemicolon(x);
        SegmentsOf(Print(x), p.s.rest, false);
        NoMoreThanSegments(nodes + [p.node], p.s);
      }
    }
  }

  lemma {:induction false} SegmentsOfItems(items: seq<Item>)
    ensures Segments(PrintItems(items), false) == HowMany(items)
  {
    if items != [] {
      var ts := if items[0].Empty? then [] else Print(items[0].s);
      if items[0].Stated? { PrintNoSemicolon(items[0].s); }
      SegmentsOfItems(items[1..]);
      SegmentsOf(ts, PrintItems(items[1..]), false);
    }
  }

  // The theorem

  ghost predicate ComesOutRight(nodes: seq<Node>, items: seq<Item>, ts: seq<Token>, room: nat) {
    var line := ReadLine(nodes, State(ts, room, false));
    !line.s.error && line.nodes == nodes + ItemTrees(items)
  }

  lemma {:induction false} ShedsStarts(s: Syntax)
    ensures Sheds(s) ==> Starts(s)
  {
    match s
    case Infix(_, l, _) => ShedsStarts(l);
    case Set(l, _) => ShedsStarts(l);
    case _ =>
  }

  /** Two expressions that print alike have the same tree. */
  lemma Unambiguous(x: Syntax, y: Syntax)
    requires WellFormed(x) && WellFormed(y) && Print(x) == Print(y)
    ensures TreeOf(x) == TreeOf(y)
  {
    hide Print, TreeOf, Nodes, WellFormed, Expression;
    var room := Nodes(x) + Nodes(y);
    ExpressionBack(x, [], room, false);
    ExpressionBack(y, [], room, false);
  }

  /** An expression made of the tokens behind the first one has the same tree exactly if s sheds it. */
  lemma ShedsIff(s: Syntax, x: Syntax)
    requires WellFormed(s) && WellFormed(x) && Print(x) == Print(s)[1..]
    ensures TreeOf(x) == TreeOf(s) <==> Sheds(s)
  {
    hide Print, TreeOf, Nodes, WellFormed, Starts, Sheds, Shed;
    ShedsStarts(s);
    if Starts(s) {
      ShedIs(s);
      Unambiguous(x, Shed(s));
    } else {
      OthersDoNotShed(s, x);
    }
  }

  lemma {:induction false} SplitAtSemicolon(a: seq<Token>, b: seq<Token>, c: seq<Token>, d: seq<Token>)
    requires NoSemicolon(a) && NoSemicolon(c) && a + ([Semicolon] + b) == c + ([Semicolon] + d)
    ensures a == c && b == d
  {
    var l, r := a + ([Semicolon] + b), c + ([Semicolon] + d);
    assert forall i :: 0 <= i < |a| ==> a[i] in a && l[i] == a[i];
    assert forall i :: 0 <= i < |c| ==> c[i] in c && r[i] == c[i];
    assert l[|a|] == Semicolon && r[|c|] == Semicolon;
    assert |a| == |c|;
    assert a == l[..|a|] && c == r[..|c|] && b == l[|a| + 1..] && d == r[|c| + 1..];
  }

  lemma {:induction false} TreesStated(items: seq<Item>)
    ensures |ItemTrees(items)| == HowMany(items)
  {
    if items != [] { TreesStated(items[1..]); }
  }

  lemma ItemsIs(items: seq<Item>)
    requires items != []
    ensures var i, rest := items[0], items[1..];
            if i.Empty? then
              PrintItems(items) == [Semicolon] + PrintItems(rest) && ItemTrees(items) == ItemTrees(rest)
              && ItemNodes(items) == ItemNodes(rest) && HowMany(items) == HowMany(rest)
            else
              PrintItems(items) == Print(i.s) + ([Semicolon] + PrintItems(rest))
              && ItemTrees(items) == [TreeOf(i.s)] + ItemTrees(rest)
              && ItemNodes(items) == Nodes(i.s) + ItemNodes(rest) && HowMany(items) == 1 + HowMany(rest)
  {
    var rest := PrintItems(items[1..]);
    assert [] + ([Semicolon] + rest) == [Semicolon] + rest;
  }

  lemma WellFormedRest(items: seq<Item>)
    requires AllWellFormed(items) && items != []
    ensures AllWellFormed(items[1..]) && (items[0].Stated? ==> WellFormed(items[0].s))
  {
    hide WellFormed;
    assert items[0] in items && forall i <- items[1..] :: i in items;
  }

  /** A statement comes out with its tree, and the rest of the line goes on behind it. */
  lemma StatedGoesOn(nodes: seq<Node>, s: Syntax, rest: seq<Token>, room: nat)
    requires WellFormed(s) && Nodes(s) <= room
    ensures ReadLine(nodes, State(Print(s) + ([Semicolon] + rest), room, false))
            == ReadLine(nodes + [TreeOf(s)], State(rest, room - Nodes(s), false))
  {
    hide Print, TreeOf, Nodes, WellFormed, Statement, ReadLine;
    StatementBack(s, rest, room);
    LineTakes(nodes, Before(s, [Semicolon] + rest, room, false));
  }

  /** A line whose next statement has lost its first token. */
  ghost predicate Beheaded(nodes: seq<Node>, s: Syntax, items: seq<Item>, room: nat) {
    var line := ReadLine(nodes, State(Print(s)[1..] + ([Semicolon] + PrintItems(items)), room, false));
    !line.s.error && line.nodes == nodes + ([TreeOf(s)] + ItemTrees(items))
  }

  /** If s is a single token, there is nothing left of it, and a tree is missing at the end. */
  lemma BeheadedLeaf(nodes: seq<Node>, s: Syntax, items: seq<Item>, room: nat)
    requires Print(s)[1..] == []
    ensures !Beheaded(nodes, s, items, room)
  {
    hide Print, TreeOf, ReadLine, Segments, ItemTrees, PrintItems;
    var rest := PrintItems(items);
    var st := State([] + ([Semicolon] + rest), room, false);
    if !ReadLine(nodes, st).s.error {
      NoMoreThanSegments(nodes, st);
      SegmentsOf([], rest, false);
      SegmentsOfItems(items);
      TreesStated(items);
    }
  }

  /** Otherwise the line comes out right only if s sheds its first token. */
  lemma BeheadedTree(nodes: seq<Node>, s: Syntax, items: seq<Item>, room: nat)
    requires WellFormed(s) && Print(s)[1..] != [] && Beheaded(nodes, s, items, room)
    ensures Sheds(s)
  {
    hide Print, TreeOf, ReadLine, Segments, ItemTrees, PrintItems, WellFormed, Sheds, Statement, Nodes, NoSemicolon;
    var u, rest := Print(s)[1..], PrintItems(items);
    var st := State(u + ([Semicolon] + rest), room, false);
    PrintNoSemicolon(s);
    RestNoSemicolon(Print(s));
    ReadLineIs(nodes, st);
    var p := Statement(st);
    ReadLineExtends(nodes + [p.node], p.s);
    ReadLineExtends(nodes, p.s);
    ReadLineExtends(nodes, Tail(p.s));
    TailError(p.s);
    assert nodes + ([TreeOf(s)] + ItemTrees(items)) != nodes;
    assert Head(st) == u[0];
    if nodes == [] && p.node.Null? && !p.s.error {
      var y := StatementReads(st);
    } else {
      assert !p.s.error;
    }
    var x := StatementReads(st);
    PrintNoSemicolon(x);
    SplitAtSemicolon(Print(x), p.s.rest, u, rest);
    assert (nodes + [p.node])[|nodes|] == p.node;
    assert (nodes + ([TreeOf(s)] + ItemTrees(items)))[|nodes|] == TreeOf(s);
    ShedsIff(s, x);
  }

  lemma RestNoSemicolon(ts: seq<Token>)
    requires NoSemicolon(ts) && ts != []
    ensures NoSemicolon(ts[1..]) && (ts[1..] != [] ==> ts[1] != Semicolon)
  {
    assert forall t <- ts[1..] :: t in ts;
    assert |ts| > 1 ==> ts[1] in ts;
  }

  lemma ShedGoesOn(nodes: seq<Node>, s: Syntax, rest: seq<Token>, room: nat)
    requires WellFormed(s) && Sheds(s) && Nodes(s) <= room
    ensures ReadLine(nodes, State(Print(s)[1..] + ([Semicolon] + rest), room, false))
            == ReadLine(nodes + [TreeOf(s)], State(rest, room - Nodes(s), false))
  {
    hide Print, TreeOf, Nodes, WellFormed, Sheds, Starts, Shed, ReadLine;
    ShedsStarts(s);
    ShedIs(s);
    StatedGoesOn(nodes, Shed(s), rest, room);
  }

  lemma HarmlessIs(items: seq<Item>)
    ensures HarmlessBehind([])
    ensures items != [] && items[0].Stated? ==> (HarmlessBehind(items) <==> HarmlessBehind(items[1..]))
    ensures |items| == 1 && items[0].Empty? ==> HarmlessBehind(items)
    ensures |items| > 1 && items[0].Empty? ==>
              (HarmlessBehind(items) <==> (items[1].Stated? ==> Sheds(items[1].s)) && HarmlessBehind(items[2..]))
  {
    hide Sheds;
  }

  /** Behind a statement the rest of a line comes out right exactly if it is harmless. */
  lemma {:induction false} BehindIff(nodes: seq<Node>, items: seq<Item>, room: nat)
    requires nodes != [] && AllWellFormed(items) && ItemNodes(items) <= room
    ensures ComesOutRight(nodes, items, PrintItems(items), room) <==> HarmlessBehind(items)
    decreases |items|
  {
    hide Print, TreeOf, Nodes, WellFormed, Sheds, ReadLine, PrintItems, ItemTrees, ItemNodes, HarmlessBehind, AllWellFormed, HowMany;
    HarmlessIs(items);
    if items == [] {
      NoItems(nodes, room);
    } else {
      ItemsIs(items);
      WellFormedRest(items);
      var rest := items[1..];
      if items[0].Stated? {
        var s := items[0].s;
        StatedGoesOn(nodes, s, PrintItems(rest), room);
        BehindIff(nodes + [TreeOf(s)], rest, room - Nodes(s));
        assert nodes + [TreeOf(s)] + ItemTrees(rest) == nodes + ([TreeOf(s)] + ItemTrees(rest));
      } else if rest == [] {
        NoItems(nodes, room);
        LastEmpty(nodes, room);
      } else {
        ItemsIs(rest);
        WellFormedRest(rest);
        assert rest[1..] == items[2..];
        PairIff(nodes, rest, room);
      }
    }
  }

  lemma NoItems(nodes: seq<Node>, room: nat)
    ensures ComesOutRight(nodes, [], [], room) && PrintItems([]) == [] && ItemTrees([]) == []
  {
    assert nodes + [] == nodes;
  }

  lemma LastEmpty(nodes: seq<Node>, room: nat)
    requires nodes != []
    ensures ReadLine(nodes, State([Semicolon] + [], room, false)) == ReadLine(nodes, State([], room, false))
  {
    assert [Semicolon] + [] == [Semicolon];
  }

  /** An empty statement, and the item behind it. */
  lemma {:induction false} PairIff(nodes: seq<Node>, rest: seq<Item>, room: nat)
    requires nodes != [] && rest != [] && AllWellFormed(rest) && ItemNodes(rest) <= room
    ensures ComesOutRight(nodes, rest, [Semicolon] + PrintItems(rest), room)
            <==> (rest[0].Stated? ==> Sheds(rest[0].s)) && HarmlessBehind(rest[1..])
    decreases |rest|
  {
    hide Print, TreeOf, Nodes, WellFormed, Sheds, ReadLine, PrintItems, ItemTrees, ItemNodes, HarmlessBehind, AllWellFormed, HowMany;
    ItemsIs(rest);
    WellFormedRest(rest);
    var more := rest[1..];
    if rest[0].Empty? {
      EmptyStatement(nodes, Semicolon, PrintItems(more), room, false);
      assert [Semicolon, Semicolon] + PrintItems(more) == [Semicolon] + ([Semicolon] + PrintItems(more));
      BehindIff(nodes, more, room);
    } else {
      var s := rest[0].s;
      var t, u := Print(s)[0], Print(s)[1..];
      var tail := [Semicolon] + PrintItems(more);
      PrintHead(s);
      EmptyStatement(nodes, t, u + tail, room, false);
      assert Print(s) == [t] + u;
      assert [Semicolon, t] + (u + tail) == [Semicolon] + (Print(s) + tail);
      if Sheds(s) {
        ShedGoesOn(nodes, s, PrintItems(more), room);
        BehindIff(nodes + [TreeOf(s)], more, room - Nodes(s));
        assert nodes + [TreeOf(s)] + ItemTrees(more) == nodes + ([TreeOf(s)] + ItemTrees(more));
      } else if u == [] {
        BeheadedLeaf(nodes, s, more, room);
      } else if Beheaded(nodes, s, more, room) {
        BeheadedTree(nodes, s, more, room);
      }
    }
  }

  lemma {:induction false} NoneStated(items: seq<Item>)
    ensures ItemTrees(items) == [] <==> HowMany(items) == 0
  {
    TreesStated(items);
  }

  /** A line of statements, some of them empty, comes out with the trees of the others and without an error
      exactly if it is harmless. */
  lemma HarmlessIff(items: seq<Item>, room: nat)
    requires AllWellFormed(items) && ItemNodes(items) <= room
    ensures ComesOutRight([], items, PrintItems(items), room) <==> Harmless(items)
  {
    hide Print, TreeOf, Nodes, WellFormed, Sheds, ReadLine, PrintItems, ItemTrees, ItemNodes, HarmlessBehind, AllWellFormed, HowMany;
    if items == [] {
      NoItems([], room);
    } else {
      ItemsIs(items);
      WellFormedRest(items);
      var rest := items[1..];
      if items[0].Empty? {
        EmptyStatement([], Semicolon, PrintItems(rest), room, false);
        NoneStated(items);
      } else {
        var s := items[0].s;
        StatedGoesOn([], s, PrintItems(rest), room);
        BehindIff([TreeOf(s)], rest, room - Nodes(s));
        assert [] + [TreeOf(s)] == [TreeOf(s)] && [] + ([TreeOf(s)] + ItemTrees(rest)) == [TreeOf(s)] + ItemTrees(rest);
      }
    }
  }

  /** Two statements with an empty one between them. */
  lemma BetweenTwo(first: Syntax, last: Syntax)
    ensures Harmless([Stated(first), Empty, Stated(last)]) <==> Sheds(last)
  {
    hide Sheds, HarmlessBehind;
    var items := [Stated(first), Empty, Stated(last)];
    var rest := items[1..];
    assert rest == [Empty, Stated(last)] && rest[2..] == [];
    HarmlessIs(rest);
  }

  /** In `a;;b;` the statement b is lost without an error; */
  lemma LostStatement(a: Word, b: Word)
    ensures ReadLine([], State([Name(a), Semicolon, Semicolon, Name(b), Semicolon], NODES, false))
            == Line([Leaf(Id, a)], State([], NODES - 1, false))
    ensures !Harmless([Stated(Named(a)), Empty, Stated(Named(b))])
  {
    hide ReadLine, Harmless;
    BetweenTwo(Named(a), Named(b));
    var ts := [Semicolon, Name(b), Semicolon];
    StatedGoesOn([], Named(a), ts, NODES);
    assert [Name(a)] + ([Semicolon] + ts) == [Name(a), Semicolon, Semicolon, Name(b), Semicolon];
    assert [] + [Leaf(Id, a)] == [Leaf(Id, a)];
    EmptyStatement([Leaf(Id, a)], Name(b), [Semicolon], NODES - 1, false);
    assert ts == [Semicolon, Name(b)] + [Semicolon];
    LastEmpty([Leaf(Id, a)], NODES - 1);
    assert [Semicolon] + [] == [Semicolon];
    EmptyEnd([Leaf(Id, a)], NODES - 1);
  }

  /** `a;;+b;` and `a;;0-b;` come out right, `a;;0-b*b;` does not. */
  lemma ShedStatements(a: Word, b: Word)
    ensures Harmless([Stated(Named(a)), Empty, Stated(Prefixed(Positive, Named(b)))])
    ensures Harmless([Stated(Named(a)), Empty, Stated(Infix(M.Sub, Literal(0), Named(b)))])
    ensures !Harmless([Stated(Named(a)), Empty, Stated(Infix(M.Sub, Literal(0), Infix(M.Mul, Named(b), Named(b))))])
  {
    hide Harmless;
    BetweenTwo(Named(a), Prefixed(Positive, Named(b)));
    BetweenTwo(Named(a), Infix(M.Sub, Literal(0), Named(b)));
    BetweenTwo(Named(a), Infix(M.Sub, Literal(0), Infix(M.Mul, Named(b), Named(b))));
  }

  lemma EmptyEnd(nodes: seq<Node>, room: nat)
    ensures ReadLine(nodes, State([], room, false)) == Line(nodes, State([], room, false))
  {
  }
}
