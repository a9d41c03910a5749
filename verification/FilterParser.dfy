/** The reduction actions of the LDAP filter parser.  They edit one flat list of filters; the main
    results say that the list ends up holding the parse trees. */
module FilterParser {
  import opened Bison
  import opened FilterGrammar
  import opened SlpAttr

  const EXPR_PRESENT := 265

  datatype Filter = Filter(operator: int, nestingLevel: int, attrs: seq<Attr>, children: seq<Filter>)

  /** The parser's value union: what the lexer left in it, or a filter (null after a failure). */
  datatype Value = FromToken(tok: Token) | FromFilter(filter: Filter) | Null

  function AsInt(v: Value): int {
    if v.FromToken? then v.tok.num else 0
  }

  function AsString(v: Value): string {
    if v.FromToken? then v.tok.text else ""
  }

  /** The filters of a list that are at level `n`, and the others, both in list order. */
  function AtLevel(ring: seq<Filter>, n: int): seq<Filter> {
    if ring == [] then []
    else
      var last := ring[|ring| - 1];
      AtLevel(ring[..|ring| - 1], n) + (if last.nestingLevel == n then [last] else [])
  }

  function NotAtLevel(ring: seq<Filter>, n: int): seq<Filter> {
    if ring == [] then []
    else
      var last := ring[|ring| - 1];
      NotAtLevel(ring[..|ring| - 1], n) + (if last.nestingLevel == n then [] else [last])
  }

  /** What the actions work on: the value stack, `reducedFilters` and `nesting_level`. */
  datatype State = State(values: seq<Value>, ring: seq<Filter>, level: int)

  const INITIAL := State([], [], 1)

  function Comparison(op: Value, name: Value, value: AttrValue): Value {
    FromFilter(Filter(AsInt(op), 0, [Attr(AsString(name), value)], []))
  }

  /** The effect of the action of rule `r`, whose right-hand side has the values `args`. */
  function Perform(r: int, args: seq<Value>, lval: Token, ring: seq<Filter>, level: int): (Value, seq<Filter>, int)
    requires r < 19 && |args| == |FilterRules(r).rhs| > 0
  {
    match r
    case 4 =>
      if ring == [] then (Null, ring, level)
      else
        var f := Filter(AsInt(args[1]), level, [], AtLevel(ring, level + 1));
        (FromFilter(f), NotAtLevel(ring, level + 1) + [f], level)
    case 5 =>
      if args[1].FromFilter? then
        var f := args[1].filter.(nestingLevel := level);
        (FromFilter(f), ring + [f], level)
      else (args[1], ring, level)
    case 6 => (args[0], ring, level + 1)
    case 7 => (args[0], ring, level - 1)
    case 10 => (FromToken(lval), ring, level)
    case 11 => (FromFilter(Filter(EXPR_PRESENT, 0, [Attr(AsString(args[0]), StringVal("*"))], [])), ring, level)
    case 12 => (Comparison(args[1], args[0], IntegerVal(Unsigned(AsInt(args[2])))), ring, level)
    case 13 => (Comparison(args[1], args[0], BooleanVal(AsInt(args[2]))), ring, level)
    case 14 => (Comparison(args[1], args[0], StringVal(AsString(args[2]))), ring, level)
    case 18 => (FromToken(lval), ring, level)
    case _ => (args[0], ring, level)
  }

  function Apply(s: State, e: Event): State {
    match e
    case Shifted(tok) => s.(values := s.values + [FromToken(tok)])
    case Reduced(r, lval) =>
      var n := |FilterRules(r).rhs|;
      if n == 0 || |s.values| < n then s
      else
        var (v, ring, level) := Perform(r, s.values[|s.values| - n..], lval, s.ring, s.level);
        State(s.values[..|s.values| - n] + [v], ring, level)
  }

  function ApplyAll(s: State, es: seq<Event>): State
    decreases es
  {
    if es == [] then s else ApplyAll(Apply(s, es[0]), es[1..])
  }

  lemma {:induction false} ApplyConcat(s: State, a: seq<Event>, b: seq<Event>)
    ensures ApplyAll(s, a + b) == ApplyAll(ApplyAll(s, a), b)
    decreases a
  {
    if a == [] {
      assert a + b == b;
    } else {
      assert (a + b)[1..] == a[1..] + b;
      ApplyConcat(Apply(s, a[0]), a[1..], b);
    }
  }

  lemma {:induction false} ApplyOne(s: State, e: Event)
    ensures ApplyAll(s, [e]) == Apply(s, e)
  {
    assert [e][1..] == [];
    assert ApplyAll(Apply(s, e), []) == Apply(s, e);
  }

  // ----- Filter expressions -----

  /** An operator token carries its code, as the scanner stores it. */
  predicate CarriesCode(tok: Token) {
    OP_AND <= tok.sym <= OP_APPROX ==> tok.num == 255 + tok.sym
  }

  /** A filter as it is written, token by token. */
  datatype Expr =
    | Group(open: Token, op: Token, kids: seq<Expr>, close: Token)
    | Compare(open: Token, name: Token, op: Token, value: Token, close: Token)
    | Present(open: Token, name: Token, op: Token, close: Token)

  ghost predicate WfExpr(e: Expr) {
    && e.open.sym == L_PAREN && e.close.sym == R_PAREN
    && match e
       case Group(_, op, kids, _) =>
         op.sym in {OP_AND, OP_OR, OP_NOT} && kids != [] && forall k :: k in kids ==> WfExpr(k)
       case Compare(_, name, op, value, _) =>
         && name.sym == OPERAND && op.sym in {OP_EQU, OP_GT, OP_LT, OP_APPROX}
         && value.sym in {VAL_INT, VAL_BOOL, OPERAND}
       case Present(_, name, op, _) => name.sym == OPERAND && op.sym == OP_PRESENT
  }

  ghost predicate WfExprs(es: seq<Expr>) {
    es != [] && forall e :: e in es ==> WfExpr(e)
  }

  /** The tokens of a filter, as written. */
  function Print(e: Expr): seq<Token>
    decreases e, 1
  {
    match e
    case Group(open, op, kids, close) => [open, op] + PrintAll(kids) + [close]
    case Compare(open, name, op, value, close) => [open, name, op, value, close]
    case Present(open, name, op, close) => [open, name, op, close]
  }

  function PrintAll(es: seq<Expr>): seq<Token>
    decreases es, 0
  {
    if es == [] then [] else PrintAll(es[..|es| - 1]) + Print(es[|es| - 1])
  }

  function ValueOf(tok: Token): AttrValue {
    if tok.sym == VAL_INT then IntegerVal(Unsigned(tok.num))
    else if tok.sym == VAL_BOOL then BooleanVal(tok.num)
    else StringVal(tok.text)
  }

  /** The filter that an expression stands for when it is enclosed by `level - 1` groups. */
  function Meaning(e: Expr, level: int): Filter
    decreases e, 1
  {
    match e
    case Group(_, op, kids, _) => Filter(op.num, level, [], MeaningAll(kids, level + 1))
    case Compare(_, name, op, value, _) => Filter(op.num, level, [Attr(name.text, ValueOf(value))], [])
    case Present(_, name, _, _) => Filter(EXPR_PRESENT, level, [Attr(name.text, StringVal("*"))], [])
  }

  function MeaningAll(es: seq<Expr>, level: int): seq<Filter>
    decreases es, 0
  {
    if es == [] then [] else MeaningAll(es[..|es| - 1], level) + [Meaning(es[|es| - 1], level)]
  }

  /** A comparison becomes a filter with the code of its operator, the level, and one attribute: the text
      of the name, and the literal as a truth value, a text, or the `unsigned int` that its `int` is. */
  lemma {:induction false} LiteralMeaning(e: Expr, level: int)
    requires e.Compare?
    ensures var f, v := Meaning(e, level), e.value;
      && f.operator == e.op.num && f.nestingLevel == level && f.children == []
      && |f.attrs| == 1 && f.attrs[0].name == e.name.text
      && (v.sym == VAL_INT && 0 <= v.num < 0x8000_0000 ==> f.attrs[0].value == IntegerVal(v.num))
      && (v.sym == VAL_INT && -0x8000_0000 <= v.num < 0 ==> f.attrs[0].value == IntegerVal(v.num + 0x1_0000_0000))
      && (v.sym == VAL_BOOL ==> f.attrs[0].value == BooleanVal(v.num))
      && (v.sym == OPERAND ==> f.attrs[0].value == StringVal(v.text))
  {
  }

  /** A group becomes a filter with the code of its operator, its level and no attribute, over the filters it
      encloses in order, one level deeper; a presence test a filter with the code 265 and a star as its value. */
  lemma {:induction false} GroupMeaning(e: Expr, level: int, i: nat)
    ensures var f := Meaning(e, level); f.nestingLevel == level
    ensures e.Group? ==>
      var f := Meaning(e, level);
      && f.operator == e.op.num && f.attrs == [] && |f.children| == |e.kids|
      && (i < |e.kids| ==> f.children[i] == Meaning(e.kids[i], level + 1))
    ensures e.Present? ==> Meaning(e, level) == Filter(265, level, [Attr(e.name.text, StringVal("*"))], [])
  {
    if e.Group? {
      MeaningAt(e.kids, level + 1);
    }
  }

  lemma {:induction false} MeaningAt(es: seq<Expr>, level: int)
    ensures |MeaningAll(es, level)| == |es|
    ensures forall i :: 0 <= i < |es| ==> MeaningAll(es, level)[i] == Meaning(es[i], level)
    decreases es
  {
    if es != [] {
      MeaningAt(es[..|es| - 1], level);
    }
  }

  // ----- Expressions and derivations -----

  function Paren(r: int, tok: Token): Tree { Node(r, [Leaf(tok)]) }

  function OpRule(sym: int): int {
    if sym == OP_AND then 8 else if sym == OP_OR then 9 else if sym == OP_NOT then 10
    else if sym == OP_EQU then 15 else if sym == OP_GT then 16 else if sym == OP_LT then 17 else 18
  }

  function ValueRule(sym: int): int {
    if sym == VAL_INT then 12 else if sym == VAL_BOOL then 13 else 14
  }

  function TreeOf(e: Expr): Tree
    decreases e, 1
  {
    match e
    case Group(open, op, kids, close) =>
      Node(4, [Paren(6, open), Paren(OpRule(op.sym), op), TreeOfAll(kids), Paren(7, close)])
    case Compare(open, name, op, value, close) =>
      Node(5, [Paren(6, open),
               Node(ValueRule(value.sym), [Leaf(name), Paren(OpRule(op.sym), op), Leaf(value)]),
               Paren(7, close)])
    case Present(open, name, op, close) =>
      Node(5, [Paren(6, open), Node(11, [Leaf(name), Leaf(op)]), Paren(7, close)])
  }

  function TreeOfAll(es: seq<Expr>): Tree
    decreases es, 0
  {
    if |es| == 0 then Leaf(END_TOKEN)
    else if |es| == 1 then Node(2, [TreeOf(es[0])])
    else Node(3, [TreeOfAll(es[..|es| - 1]), TreeOf(es[|es| - 1])])
  }

  // ----- What the actions make of a derivation -----

  lemma {:induction false} YieldOfParen(r: int, tok: Token)
    ensures Yield(Paren(r, tok)) == [tok]
  {
    YieldAllOne(Leaf(tok));
  }

  lemma {:induction false} YieldOfFour(r: int, a: Tree, b: Tree, c: Tree, d: Tree)
    ensures Yield(Node(r, [a, b, c])) == Yield(a) + Yield(b) + Yield(c)
    ensures Yield(Node(r, [a, b, c, d])) == Yield(a) + Yield(b) + Yield(c) + Yield(d)
    ensures Yield(Node(r, [a, b])) == Yield(a) + Yield(b)
    ensures Yield(Node(r, [a])) == Yield(a)
  {
    assert [a, b, c, d] == [a, b, c] + [d] && [a, b, c] == [a, b] + [c] && [a, b] == [a] + [b];
    YieldAllConcat([a, b, c], [d]);
    YieldAllConcat([a, b], [c]);
    YieldAllConcat([a], [b]);
    YieldAllOne(a);
    YieldAllOne(b);
    YieldAllOne(c);
    YieldAllOne(d);
  }

  /** The derivation of an expression yields what it prints as. */
  lemma {:induction false} YieldOfExpr(e: Expr)
    requires WfExpr(e)
    ensures Yield(TreeOf(e)) == Print(e) != []
    decreases e, 1
  {
    var o, c := Paren(6, e.open), Paren(7, e.close);
    YieldOfParen(6, e.open);
    YieldOfParen(7, e.close);
    match e
    case Group(_, op, kids, _) =>
      var p := Paren(OpRule(op.sym), op);
      YieldOfParen(OpRule(op.sym), op);
      YieldOfExprs(kids);
      YieldOfFour(4, o, p, TreeOfAll(kids), c);
    case Compare(_, name, op, value, _) =>
      var p := Paren(OpRule(op.sym), op);
      YieldOfParen(OpRule(op.sym), op);
      YieldOfFour(ValueRule(value.sym), Leaf(name), p, Leaf(value), c);
      YieldOfFour(5, o, Node(ValueRule(value.sym), [Leaf(name), p, Leaf(value)]), c, c);
    case Present(_, name, op, _) =>
      YieldOfFour(11, Leaf(name), Leaf(op), c, c);
      YieldOfFour(5, o, Node(11, [Leaf(name), Leaf(op)]), c, c);
  }

  lemma {:induction false} YieldOfExprs(es: seq<Expr>)
    requires WfExprs(es)
    ensures Yield(TreeOfAll(es)) == PrintAll(es)
    decreases es, 0
  {
    var n := |es| - 1;
    YieldOfExpr(es[n]);
    if n == 0 {
      YieldOfFour(2, TreeOf(es[0]), Leaf(END_TOKEN), Leaf(END_TOKEN), Leaf(END_TOKEN));
    } else {
      YieldOfExprs(es[..n]);
      YieldOfFour(3, TreeOfAll(es[..n]), TreeOf(es[n]), Leaf(END_TOKEN), Leaf(END_TOKEN));
    }
  }

  function ApplyTree(s: State, tree: Tree): State {
    ApplyAll(s, Events(tree))
  }

  lemma {:induction false} ApplyTrees(s: State, a: seq<Tree>, b: seq<Tree>)
    ensures ApplyAll(s, EventsAll(a + b)) == ApplyAll(ApplyAll(s, EventsAll(a)), EventsAll(b))
  {
    YieldAllConcat(a, b);
    ApplyConcat(s, EventsAll(a), EventsAll(b));
  }

  /** A reduction after its right-hand side. */
  lemma {:induction false} ApplyNode(s: State, r: int, front: seq<Tree>, last: Tree)
    requires Yield(last) != []
    ensures ApplyTree(s, Node(r, front + [last])) ==
            Apply(ApplyTree(ApplyAll(s, EventsAll(front)), last), Reduced(r, LastToken(Yield(last))))
  {
    var kids := front + [last];
    YieldAllConcat(front, [last]);
    YieldAllOne(last);
    ApplyTrees(s, front, [last]);
    ApplyConcat(s, EventsAll(kids), [Reduced(r, LastToken(Yield(last)))]);
    ApplyOne(ApplyAll(s, EventsAll(kids)), Reduced(r, LastToken(Yield(last))));
  }

  lemma {:induction false} ApplyFront(s: State, front: seq<Tree>, last: Tree)
    ensures ApplyAll(s, EventsAll(front + [last])) == ApplyTree(ApplyAll(s, EventsAll(front)), last)
    ensures ApplyAll(s, EventsAll([])) == s
  {
    ApplyTrees(s, front, [last]);
    YieldAllOne(last);
  }

  lemma {:induction false} ApplyLeaf(s: State, tok: Token)
    ensures ApplyTree(s, Leaf(tok)) == s.(values := s.values + [FromToken(tok)])
  {
    ApplyOne(s, Shifted(tok));
  }

  /** Applies the actions of a right-hand side whose trees push the values `args`. */
  lemma {:induction false} ApplyReduce(s: State, r: int, below: seq<Value>, args: seq<Value>, lval: Token)
    requires r < 19 && |args| == |FilterRules(r).rhs| > 0 && s.values == below + args
    ensures Apply(s, Reduced(r, lval)) ==
            var a := Perform(r, args, lval, s.ring, s.level); State(below + [a.0], a.1, a.2)
  {
    assert s.values[|s.values| - |args|..] == args;
    assert s.values[..|s.values| - |args|] == below;
  }

  lemma {:induction false} PerformParen(r: int, tok: Token, ring: seq<Filter>, level: int)
    requires 6 <= r < 11 || 15 <= r < 19
    ensures |FilterRules(r).rhs| == 1
    ensures Perform(r, [FromToken(tok)], tok, ring, level) ==
            (FromToken(tok), ring, level + (if r == 6 then 1 else if r == 7 then -1 else 0))
  {
  }

  lemma {:induction false} ApplyParen(s: State, r: int, tok: Token)
    requires 6 <= r < 11 || 15 <= r < 19
    ensures ApplyTree(s, Paren(r, tok)) ==
            State(s.values + [FromToken(tok)], s.ring, s.level + (if r == 6 then 1 else if r == 7 then -1 else 0))
  {
    PerformParen(r, tok, s.ring, s.level);
    hide FilterRules, Perform, Apply, ApplyAll, ApplyTree, EventsAll, YieldAll;
    assert [] + [Leaf(tok)] == [Leaf(tok)] && Yield(Leaf(tok)) == [tok] && LastToken([tok]) == tok;
    ApplyNode(s, r, [], Leaf(tok));
    ApplyFront(s, [], Leaf(tok));
    ApplyLeaf(s, tok);
    ApplyReduce(s.(values := s.values + [FromToken(tok)]), r, s.values, [FromToken(tok)], tok);
  }

  ghost predicate Below(ring: seq<Filter>, level: int) {
    forall f :: f in ring ==> f.nestingLevel <= level
  }

  /** A filter is linked at the end of the list at the level it is read at. */
  ghost predicate Links(s: State, tree: Tree, fs: seq<Filter>) {
    fs != [] && ApplyTree(s, tree) == State(s.values + [FromFilter(fs[0])], s.ring + fs, s.level)
  }

  lemma {:induction false} LinkSimple(s: State, open: Token, expr: Tree, close: Token, f: Filter)
    requires ApplyTree(State(s.values + [FromToken(open)], s.ring, s.level + 1), expr) ==
             State(s.values + [FromToken(open), FromFilter(f)], s.ring, s.level + 1)
    ensures Links(s, Node(5, [Paren(6, open), expr, Paren(7, close)]), [f.(nestingLevel := s.level)])
  {
    var o, c := Paren(6, open), Paren(7, close);
    ApplyFront(s, [], o);
    ApplyParen(s, 6, open);
    ApplyFront(s, [o], expr);
    assert [] + [o] == [o] && [o] + [expr] == [o, expr] && [o, expr] + [c] == [o, expr, c];
    YieldOfParen(7, close);
    ApplyNode(s, 5, [o, expr], c);
    var s2 := State(s.values + [FromToken(open), FromFilter(f)], s.ring, s.level + 1);
    ApplyParen(s2, 7, close);
    var s3 := State(s2.values + [FromToken(close)], s.ring, s.level);
    var args := [FromToken(open), FromFilter(f), FromToken(close)];
    assert s3.values == s.values + args;
    ApplyReduce(s3, 5, s.values, args, close);
  }

  lemma {:induction false} LinkPresent(s: State, e: Expr)
    requires e.Present? && WfExpr(e)
    ensures Links(s, TreeOf(e), [Meaning(e, s.level)])
  {
    var n, o := Leaf(e.name), Leaf(e.op);
    var s1 := State(s.values + [FromToken(e.open)], s.ring, s.level + 1);
    var s2 := s1.(values := s1.values + [FromToken(e.name)]);
    assert [] + [n] == [n] && [n] + [o] == [n, o];
    ApplyFront(s1, [], n);
    ApplyLeaf(s1, e.name);
    ApplyNode(s1, 11, [n], o);
    ApplyLeaf(s2, e.op);
    var args := [FromToken(e.name), FromToken(e.op)];
    assert (s2.values + [FromToken(e.op)]) == s1.values + args;
    ApplyReduce(s2.(values := s1.values + args), 11, s1.values, args, e.op);
    var f := Filter(EXPR_PRESENT, 0, [Attr(e.name.text, StringVal("*"))], []);
    assert s1.values + [FromFilter(f)] == s.values + [FromToken(e.open), FromFilter(f)];
    LinkSimple(s, e.open, Node(11, [n, o]), e.close, f);
  }

  lemma {:induction false} LinkCompare(s: State, e: Expr)
    requires e.Compare? && WfExpr(e)
    ensures Links(s, TreeOf(e), [Meaning(e, s.level)])
  {
    hide ApplyTree, ApplyAll, Apply, Events, EventsAll, YieldAll, AtLevel, NotAtLevel, Links;
    var n, o, v := Leaf(e.name), Paren(OpRule(e.op.sym), e.op), Leaf(e.value);
    var s1 := State(s.values + [FromToken(e.open)], s.ring, s.level + 1);
    var s2 := s1.(values := s1.values + [FromToken(e.name)]);
    var s3 := s2.(values := s2.values + [FromToken(e.op)]);
    assert [] + [n] == [n] && [n] + [o] == [n, o] && [n, o] + [v] == [n, o, v];
    ApplyFront(s1, [], n);
    ApplyLeaf(s1, e.name);
    ApplyFront(s1, [n], o);
    ApplyParen(s2, OpRule(e.op.sym), e.op);
    var r := ValueRule(e.value.sym);
    ApplyNode(s1, r, [n, o], v);
    ApplyLeaf(s3, e.value);
    var args := [FromToken(e.name), FromToken(e.op), FromToken(e.value)];
    assert s3.values + [FromToken(e.value)] == s1.values + args;
    ApplyReduce(s3.(values := s1.values + args), r, s1.values, args, e.value);
    var f := Filter(e.op.num, 0, [Attr(e.name.text, ValueOf(e.value))], []);
    assert s1.values + [FromFilter(f)] == s.values + [FromToken(e.open), FromFilter(f)];
    LinkSimple(s, e.open, Node(r, [n, o, v]), e.close, f);
  }

  lemma {:induction false} LevelStep(ring: seq<Filter>, f: Filter, n: int)
    ensures AtLevel(ring + [f], n) == AtLevel(ring, n) + (if f.nestingLevel == n then [f] else [])
    ensures NotAtLevel(ring + [f], n) == NotAtLevel(ring, n) + (if f.nestingLevel == n then [] else [f])
  {
    assert (ring + [f])[..|ring|] == ring;
  }

  /** With no filter at level `n` in front, the filters at level `n` are exactly the last ones. */
  lemma {:induction false} Adoption(ring: seq<Filter>, kids: seq<Filter>, n: int)
    requires forall f :: f in ring ==> f.nestingLevel != n
    requires forall f :: f in kids ==> f.nestingLevel == n
    ensures AtLevel(ring + kids, n) == kids && NotAtLevel(ring + kids, n) == ring
    decreases |ring| + |kids|
  {
    hide AtLevel, NotAtLevel;
    if kids != [] {
      var front, last := kids[..|kids| - 1], kids[|kids| - 1];
      Adoption(ring, front, n);
      LevelStep(ring + front, last, n);
      assert ring + kids == (ring + front) + [last] && kids == front + [last];
    } else if ring != [] {
      var front, last := ring[..|ring| - 1], ring[|ring| - 1];
      Adoption(front, [], n);
      LevelStep(front, last, n);
      assert ring + kids == front + [last] && front + [] == front && ring == front + [last];
    } else {
      LevelOfNothing(n);
      assert ring + kids == [];
    }
  }

  lemma {:induction false} LevelOfNothing(n: int)
    ensures AtLevel([], n) == [] && NotAtLevel([], n) == []
  {
  }

  lemma {:induction false} MeaningsAtLevel(es: seq<Expr>, level: int)
    ensures |MeaningAll(es, level)| == |es|
    ensures forall f :: f in MeaningAll(es, level) ==> f.nestingLevel == level
    decreases es
  {
    if es != [] {
      MeaningsAtLevel(es[..|es| - 1], level);
    }
  }

  /** A group adopts exactly the filters read since its opening parenthesis. */
  lemma {:induction false} LinkGroup(s: State, e: Expr)
    requires e.Group? && WfExpr(e) && Below(s.ring, s.level)
    requires var s2 := State(s.values + [FromToken(e.open), FromToken(e.op)], s.ring, s.level + 1);
      Links(s2, TreeOfAll(e.kids), MeaningAll(e.kids, s.level + 1))
    ensures Links(s, TreeOf(e), [Meaning(e, s.level)])
  {
    hide ApplyTree, ApplyAll, Apply, Events, EventsAll, Yield, YieldAll, AtLevel, NotAtLevel, TreeOfAll;
    var o, p, l, c := Paren(6, e.open), Paren(OpRule(e.op.sym), e.op), TreeOfAll(e.kids), Paren(7, e.close);
    var kids := MeaningAll(e.kids, s.level + 1);
    var s1 := State(s.values + [FromToken(e.open)], s.ring, s.level + 1);
    var s2 := State(s.values + [FromToken(e.open), FromToken(e.op)], s.ring, s.level + 1);
    var s3 := State(s2.values + [FromFilter(kids[0])], s.ring + kids, s.level + 1);
    assert [] + [o] == [o] && [o] + [p] == [o, p] && [o, p] + [l] == [o, p, l] && [o, p, l] + [c] == [o, p, l, c];
    ApplyFront(s, [], o);
    ApplyParen(s, 6, e.open);
    ApplyFront(s, [o], p);
    ApplyParen(s1, OpRule(e.op.sym), e.op);
    assert s1.values + [FromToken(e.op)] == s2.values;
    ApplyFront(s, [o, p], l);
    YieldOfParen(7, e.close);
    ApplyNode(s, 4, [o, p, l], c);
    ApplyParen(s3, 7, e.close);
    var args := [FromToken(e.open), FromToken(e.op), FromFilter(kids[0]), FromToken(e.close)];
    assert s3.values + [FromToken(e.close)] == s.values + args;
    ApplyReduce(State(s.values + args, s.ring + kids, s.level), 4, s.values, args, e.close);
    MeaningsAtLevel(e.kids, s.level + 1);
    Adoption(s.ring, kids, s.level + 1);
  }

  lemma {:induction false} LinkExpr(s: State, e: Expr)
    requires WfExpr(e) && Below(s.ring, s.level)
    ensures Links(s, TreeOf(e), [Meaning(e, s.level)])
    decreases e, 1
  {
    match e
    case Present(_, _, _, _) => LinkPresent(s, e);
    case Compare(_, _, _, _, _) => LinkCompare(s, e);
    case Group(_, _, kids, _) =>
      LinkExprs(State(s.values + [FromToken(e.open), FromToken(e.op)], s.ring, s.level + 1), kids);
      LinkGroup(s, e);
  }

  /** Reading filters one after the other links them in source order. */
  lemma {:induction false} LinkExprs(s: State, es: seq<Expr>)
    requires WfExprs(es) && Below(s.ring, s.level)
    ensures Links(s, TreeOfAll(es), MeaningAll(es, s.level))
    decreases es, 0
  {
    hide ApplyAll, Apply, Events, EventsAll, Yield, YieldAll, TreeOf, AtLevel, NotAtLevel;
    var n := |es| - 1;
    var last := TreeOf(es[n]);
    YieldOfExpr(es[n]);
    if n == 0 {
      assert [] + [last] == [last];
      LinkExpr(s, es[0]);
      ApplyFront(s, [], last);
      ApplyNode(s, 2, [], last);
      var v := FromFilter(Meaning(es[0], s.level));
      ApplyReduce(ApplyTree(s, last), 2, s.values, [v], LastToken(Yield(last)));
    } else {
      var front := es[..n];
      LinkExprs(s, front);
      var s1 := ApplyTree(s, TreeOfAll(front));
      MeaningsAtLevel(front, s.level);
      LinkExpr(s1, es[n]);
      assert [] + [TreeOfAll(front)] == [TreeOfAll(front)];
      assert [TreeOfAll(front)] + [last] == [TreeOfAll(front), last];
      ApplyFront(s, [], TreeOfAll(front));
      ApplyNode(s, 3, [TreeOfAll(front)], last);
      var s2 := ApplyTree(s1, last);
      var args := [FromFilter(MeaningAll(front, s.level)[0]), FromFilter(Meaning(es[n], s.level))];
      assert s2.values == s.values + args;
      ApplyReduce(s2, 3, s.values, args, LastToken(Yield(last)));
    }
  }

  // ----- Reading expressions off derivations, and the other way round -----

  lemma {:induction false} ReadParen(t: Tree) returns (tok: Token)
    requires WfTree(FILTER_AUTOMATON, t) &&
              Sym(FILTER_AUTOMATON, t) in {FILTER_OPEN, FILTER_CLOSE, FILTER_OP, EXP_OPERATOR}
    ensures match Sym(FILTER_AUTOMATON, t)
      case 19 => tok.sym == L_PAREN && t == Paren(6, tok)
      case 20 => tok.sym == R_PAREN && t == Paren(7, tok)
      case 21 => tok.sym in {OP_AND, OP_OR, OP_NOT} && t == Paren(OpRule(tok.sym), tok)
      case _ => tok.sym in {OP_EQU, OP_GT, OP_LT, OP_APPROX} && t == Paren(OpRule(tok.sym), tok)
  {
    assert |t.kids| == 1 && t.kids[0].Leaf?;
    tok := t.kids[0].tok;
    assert t.kids == [Leaf(tok)];
  }

  lemma {:induction false} ReadSimple(open: Tree, x: Tree, close: Tree) returns (e: Expr)
    requires WfTree(FILTER_AUTOMATON, open) && Sym(FILTER_AUTOMATON, open) == FILTER_OPEN
    requires WfTree(FILTER_AUTOMATON, x) && Sym(FILTER_AUTOMATON, x) == EXPRESSION
    requires WfTree(FILTER_AUTOMATON, close) && Sym(FILTER_AUTOMATON, close) == FILTER_CLOSE
    ensures WfExpr(e) && TreeOf(e) == Node(5, [open, x, close])
  {
    var o := ReadParen(open);
    var c := ReadParen(close);
    assert 11 <= x.rule <= 14;
    if x.rule == 11 {
      assert x.kids == [Leaf(x.kids[0].tok), Leaf(x.kids[1].tok)];
      e := Present(o, x.kids[0].tok, x.kids[1].tok, c);
    } else {
      var p := ReadParen(x.kids[1]);
      assert x.kids == [Leaf(x.kids[0].tok), x.kids[1], Leaf(x.kids[2].tok)];
      e := Compare(o, x.kids[0].tok, p, x.kids[2].tok, c);
    }
  }

  /** Every derivation of a filter is the derivation of an expression. */
  lemma {:induction false} ReadFilter(t: Tree) returns (e: Expr)
    requires WfTree(FILTER_AUTOMATON, t) && Sym(FILTER_AUTOMATON, t) == FILTER
    ensures WfExpr(e) && TreeOf(e) == t
    decreases t
  {
    assert t.rule == 4 || t.rule == 5;
    if t.rule == 5 {
      assert t.kids == [t.kids[0], t.kids[1], t.kids[2]];
      e := ReadSimple(t.kids[0], t.kids[1], t.kids[2]);
    } else {
      assert t.kids == [t.kids[0], t.kids[1], t.kids[2], t.kids[3]];
      var o := ReadParen(t.kids[0]);
      var p := ReadParen(t.kids[1]);
      var kids := ReadFilters(t.kids[2]);
      var c := ReadParen(t.kids[3]);
      e := Group(o, p, kids, c);
    }
  }

  lemma {:induction false} ReadFilters(t: Tree) returns (es: seq<Expr>)
    requires WfTree(FILTER_AUTOMATON, t) && Sym(FILTER_AUTOMATON, t) == FILTER_LIST
    ensures WfExprs(es) && TreeOfAll(es) == t
    decreases t
  {
    assert t.rule == 2 || t.rule == 3;
    if t.rule == 2 {
      var e := ReadFilter(t.kids[0]);
      es := [e];
      assert t.kids == [t.kids[0]];
    } else {
      var front := ReadFilters(t.kids[0]);
      var e := ReadFilter(t.kids[1]);
      es := front + [e];
      assert es[..|es| - 1] == front;
      assert t.kids == [t.kids[0], t.kids[1]];
    }
  }

  lemma {:induction false} DeriveParen(r: int, tok: Token)
    requires 0 <= tok.sym < 16 && tok.sym != YYEOF && FilterRules(r).rhs == [tok.sym] && START <= r < 19
    ensures WfTree(FILTER_AUTOMATON, Paren(r, tok)) && Sym(FILTER_AUTOMATON, Paren(r, tok)) == FilterRules(r).lhs
  {
  }

  lemma {:induction false} DeriveCompare(name: Token, op: Token, value: Token)
    requires name.sym == OPERAND && op.sym in {OP_EQU, OP_GT, OP_LT, OP_APPROX} &&
              value.sym in {VAL_INT, VAL_BOOL, OPERAND}
    ensures var t := Node(ValueRule(value.sym), [Leaf(name), Paren(OpRule(op.sym), op), Leaf(value)]);
      WfTree(FILTER_AUTOMATON, t) && Sym(FILTER_AUTOMATON, t) == EXPRESSION
  {
    DeriveParen(OpRule(op.sym), op);
  }

  /** Every expression has a derivation. */
  lemma {:induction false} DeriveExpr(e: Expr)
    requires WfExpr(e)
    ensures WfTree(FILTER_AUTOMATON, TreeOf(e)) && Sym(FILTER_AUTOMATON, TreeOf(e)) == FILTER
    decreases e, 1
  {
    DeriveParen(6, e.open);
    DeriveParen(7, e.close);
    match e
    case Group(_, op, kids, _) =>
      DeriveParen(OpRule(op.sym), op);
      DeriveExprs(kids);
    case Compare(_, name, op, value, _) => DeriveCompare(name, op, value);
    case Present(_, _, _, _) =>
  }

  lemma {:induction false} DeriveExprs(es: seq<Expr>)
    requires WfExprs(es)
    ensures WfTree(FILTER_AUTOMATON, TreeOfAll(es)) && Sym(FILTER_AUTOMATON, TreeOfAll(es)) == FILTER_LIST
    decreases es, 0
  {
    DeriveExpr(es[|es| - 1]);
    if |es| > 1 {
      DeriveExprs(es[..|es| - 1]);
    }
  }

  // ----- Stack need -----

  /** The stack slots that parsing an expression takes. */
  function Room(e: Expr): nat
    decreases e, 1
  {
    match e
    case Group(_, _, kids, _) => Max(4, 2 + RoomAll(kids))
    case Compare(_, _, _, _, _) => 4
    case Present(_, _, _, _) => 3
  }

  function RoomAll(es: seq<Expr>): nat
    decreases es, 0
  {
    if es == [] then 1
    else if |es| == 1 then Room(es[0])
    else Max(RoomAll(es[..|es| - 1]), 1 + Room(es[|es| - 1]))
  }

  lemma {:induction false} NeedOfThree(a: Tree, b: Tree, c: Tree)
    ensures NeedAll([a]) == Need(a)
    ensures NeedAll([a, b]) == Max(Need(a), 1 + Need(b))
    ensures NeedAll([a, b, c]) == Max(Need(a), 1 + Max(Need(b), 1 + Need(c)))
  {
    YieldAllOne(a);
    YieldAllOne(b);
    YieldAllOne(c);
    assert [a, b][1..] == [b] && [b, c][1..] == [c] && [a, b, c][1..] == [b, c];
  }

  lemma {:induction false} NeedOfKids(a: Tree, b: Tree, c: Tree, d: Tree)
    ensures NeedAll([a]) == Need(a)
    ensures NeedAll([a, b]) == Max(Need(a), 1 + Need(b))
    ensures NeedAll([a, b, c]) == Max(Need(a), 1 + Max(Need(b), 1 + Need(c)))
    ensures NeedAll([a, b, c, d]) == Max(Need(a), 1 + Max(Need(b), 1 + Max(Need(c), 1 + Need(d))))
  {
    NeedOfThree(a, b, c);
    NeedOfThree(b, c, d);
    assert [a, b, c, d][1..] == [b, c, d];
  }

  lemma {:induction false} NeedOfExpr(e: Expr)
    requires WfExpr(e)
    ensures Need(TreeOf(e)) == Room(e) > 0
    decreases e, 1
  {
    var o, c := Paren(6, e.open), Paren(7, e.close);
    NeedOfKids(Leaf(e.open), o, o, o);
    NeedOfKids(Leaf(e.close), o, o, o);
    match e
    case Group(_, op, kids, _) =>
      var p := Paren(OpRule(op.sym), op);
      NeedOfKids(Leaf(op), o, o, o);
      NeedOfExprs(kids);
      NeedOfKids(o, p, TreeOfAll(kids), c);
    case Compare(_, name, op, value, _) =>
      var p := Paren(OpRule(op.sym), op);
      NeedOfKids(Leaf(op), o, o, o);
      NeedOfKids(Leaf(name), p, Leaf(value), c);
      NeedOfKids(o, Node(ValueRule(value.sym), [Leaf(name), p, Leaf(value)]), c, c);
    case Present(_, name, op, _) =>
      NeedOfKids(Leaf(name), Leaf(op), c, c);
      NeedOfKids(o, Node(11, [Leaf(name), Leaf(op)]), c, c);
  }

  lemma {:induction false} NeedOfExprs(es: seq<Expr>)
    requires WfExprs(es)
    ensures Need(TreeOfAll(es)) == RoomAll(es) > 0
    decreases es, 0
  {
    var n := |es| - 1;
    NeedOfExpr(es[n]);
    if n == 0 {
      NeedOfKids(TreeOf(es[0]), Leaf(END_TOKEN), Leaf(END_TOKEN), Leaf(END_TOKEN));
    } else {
      NeedOfExprs(es[..n]);
      NeedOfKids(TreeOfAll(es[..n]), TreeOf(es[n]), Leaf(END_TOKEN), Leaf(END_TOKEN));
    }
  }

  function Nesting(e: Expr): nat
    decreases e, 1
  {
    if e.Group? then 1 + NestingAll(e.kids) else 0
  }

  function NestingAll(es: seq<Expr>): nat
    decreases es, 0
  {
    if es == [] then 0 else Max(NestingAll(es[..|es| - 1]), Nesting(es[|es| - 1]))
  }

  /** The stack need grows by three slots per nested group, whatever the length of the input. */
  lemma {:induction false} RoomByNesting(es: seq<Expr>)
    ensures RoomAll(es) <= 3 * NestingAll(es) + 5
    decreases es
  {
    if es != [] {
      var last := es[|es| - 1];
      RoomByNesting(es[..|es| - 1]);
      if last.Group? {
        RoomByNesting(last.kids);
      }
    }
  }
}
