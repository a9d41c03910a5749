/** The LDAP filter parser as a whole: which inputs it accepts, and what list it leaves behind. */
module FilterReader {
  import opened Bison
  import opened FilterGrammar
  import opened FilterParser
  import opened SlpAttr

  ghost predicate IsTokens(w: seq<Token>) {
    IsInput(FILTER_AUTOMATON, w)
  }

  /** The outcome of a parse, and the state that its actions leave. */
  ghost function Parse(w: seq<Token>): (Outcome, State)
    requires IsTokens(w)
  {
    FilterAutomatonIsValid();
    var run := Run(FILTER_AUTOMATON, w, [0], 0);
    (run.0, ApplyAll(INITIAL, run.1))
  }

  function Root(es: seq<Expr>): Tree {
    Node(START, [TreeOfAll(es), Leaf(END_TOKEN)])
  }

  lemma {:induction false} RootDerives(w: seq<Token>, es: seq<Expr>)
    requires WfExprs(es) && PrintAll(es) == w
    ensures Derives(FILTER_AUTOMATON, Root(es), w)
    ensures Fits(Root(es)) <==> 1 + RoomAll(es) < YYMAXDEPTH
    ensures ApplyAll(INITIAL, EventsAll(Root(es).kids)).ring == MeaningAll(es, 1)
    ensures ApplyAll(INITIAL, EventsAll(Root(es).kids)).level == 1
  {
    var list, end := TreeOfAll(es), Leaf(END_TOKEN);
    DeriveExprs(es);
    YieldOfExprs(es);
    YieldOfFour(START, list, end, end, end);
    NeedOfExprs(es);
    NeedOfKids(list, end, end, end);
    RoomAtLeast(es);
    LinkExprs(INITIAL, es);
    assert [list] + [end] == [list, end] && [] + [list] == [list];
    ApplyFront(INITIAL, [list], end);
    ApplyFront(INITIAL, [], list);
    ApplyLeaf(ApplyTree(INITIAL, list), END_TOKEN);
    assert [] + MeaningAll(es, 1) == MeaningAll(es, 1);
  }

  lemma {:induction false} RoomAtLeast(es: seq<Expr>)
    requires es != []
    ensures RoomAll(es) >= 3
    decreases es
  {
    if |es| > 1 {
      RoomAtLeast(es[..|es| - 1]);
    }
  }

  lemma {:induction false} RootIsExprs(w: seq<Token>, tree: Tree) returns (es: seq<Expr>)
    requires Derives(FILTER_AUTOMATON, tree, w)
    ensures WfExprs(es) && PrintAll(es) == w && tree == Root(es)
  {
    es := ReadFilters(tree.kids[0]);
    assert FilterRules(START).rhs == [FILTER_LIST, YYEOF];
    assert Sym(FILTER_AUTOMATON, tree.kids[1]) == YYEOF && WfTree(FILTER_AUTOMATON, tree.kids[1]);
    assert tree.kids == [TreeOfAll(es), Leaf(END_TOKEN)];
    YieldOfFour(START, TreeOfAll(es), Leaf(END_TOKEN), Leaf(END_TOKEN), Leaf(END_TOKEN));
    YieldOfExprs(es);
    assert (PrintAll(es) + [END_TOKEN])[..|w|] == (w + [END_TOKEN])[..|w|];
  }

  /** The parser accepts exactly the non-empty lists of filters whose nesting fits its stack. */
  lemma {:induction false} FilterLanguage(w: seq<Token>)
    requires IsTokens(w)
    ensures Parse(w).0 == Accepted <==>
            exists es :: WfExprs(es) && PrintAll(es) == w && 1 + RoomAll(es) < YYMAXDEPTH
  {
    FilterAutomatonIsValid();
    if Parse(w).0 == Accepted {
      var tree := RunIsSound(FILTER_AUTOMATON, w);
      var es := RootIsExprs(w, tree);
      RootDerives(w, es);
      RunIsComplete(FILTER_AUTOMATON, w, tree);
    }
    forall es | WfExprs(es) && PrintAll(es) == w && 1 + RoomAll(es) < YYMAXDEPTH
      ensures Parse(w).0 == Accepted
    {
      FilterMeaning(w, es);
    }
  }

  /** After the parse of a list of filters, `reducedFilters` holds their trees in source order. */
  lemma {:induction false} FilterMeaning(w: seq<Token>, es: seq<Expr>)
    requires IsTokens(w) && WfExprs(es) && PrintAll(es) == w
    ensures Parse(w).0 == if 1 + RoomAll(es) < YYMAXDEPTH then Accepted else Exhausted
    ensures Parse(w).0 == Accepted ==> Parse(w).1.ring == MeaningAll(es, 1) && Parse(w).1.level == 1
  {
    FilterAutomatonIsValid();
    RootDerives(w, es);
    RunIsComplete(FILTER_AUTOMATON, w, Root(es));
  }

  /** What the parser returns: 0 for a list of filters that needs fewer than 10000 slots of its stack and 2 for
      any other, and for what is no such list 1, or 2 if the stack is full before the error is seen. */
  lemma {:induction false} ResultCodes(w: seq<Token>)
    requires IsTokens(w)
    ensures forall es :: WfExprs(es) && PrintAll(es) == w ==>
      ResultCode(Parse(w).0) == if 1 + RoomAll(es) < 10000 then 0 else 2
    ensures (forall es :: WfExprs(es) ==> PrintAll(es) != w) ==>
      ResultCode(Parse(w).0) == 1 || ResultCode(Parse(w).0) == 2
    ensures Parse(w).0 == SyntaxError ==> ResultCode(Parse(w).0) == 1
  {
    FilterLanguage(w);
    hide Parse, WfExprs, PrintAll, RoomAll;
    forall es | WfExprs(es) && PrintAll(es) == w
      ensures ResultCode(Parse(w).0) == if 1 + RoomAll(es) < 10000 then 0 else 2
    {
      FilterMeaning(w, es);
    }
  }

  /** Groups may be nested more than three thousand deep, whatever the length of the input. */
  lemma {:induction false} NestingLimit(w: seq<Token>, es: seq<Expr>)
    requires IsTokens(w) && WfExprs(es) && PrintAll(es) == w && NestingAll(es) <= 3331
    ensures Parse(w).0 == Accepted
  {
    RoomByNesting(es);
    FilterMeaning(w, es);
  }

  // ----- The list during a parse -----

  ghost predicate NonDecreasing(ring: seq<Filter>) {
    forall i, j :: 0 <= i < j < |ring| ==> ring[i].nestingLevel <= ring[j].nestingLevel
  }

  /** The list while the symbol `top` is on top of the stack: levels never go down along the list,
      and only between a closing parenthesis and its filter may they exceed `nesting_level`. */
  ghost predicate ListOk(s: State, top: int) {
    NonDecreasing(s.ring) && Below(s.ring, if top == FILTER_CLOSE then s.level + 1 else s.level)
  }

  lemma {:induction false} ReduceKeepsList(s: State, r: int, lval: Token)
    requires 11 <= r <= 14
    ensures Apply(s, Reduced(r, lval)).ring == s.ring && Apply(s, Reduced(r, lval)).level == s.level
  {
  }

  lemma {:induction false} OperandsKeepList(s: State, front: seq<Tree>)
    requires |front| == 1 || |front| == 2
    requires front[0].Leaf?
    requires |front| == 2 ==> WfTree(FILTER_AUTOMATON, front[1]) && Sym(FILTER_AUTOMATON, front[1]) == EXP_OPERATOR
    ensures ApplyAll(s, EventsAll(front)).ring == s.ring && ApplyAll(s, EventsAll(front)).level == s.level
  {
    hide ApplyAll, ApplyTree, Apply, Events, EventsAll, Yield, YieldAll;
    assert [] + [front[0]] == [front[0]];
    ApplyFront(s, [], front[0]);
    ApplyLeaf(s, front[0].tok);
    if |front| == 2 {
      assert front == [front[0]] + [front[1]];
      ApplyFront(s, [front[0]], front[1]);
      var tok := ReadParen(front[1]);
      ApplyParen(ApplyTree(s, front[0]), OpRule(tok.sym), tok);
    } else {
      assert front == [front[0]];
    }
  }

  lemma {:induction false} ExpressionKids(t: Tree)
    requires WfTree(FILTER_AUTOMATON, t) && Sym(FILTER_AUTOMATON, t) == EXPRESSION
    ensures var kids := t.kids;
      && t.Node? && 11 <= t.rule <= 14 && (|kids| == 2 || |kids| == 3) && kids[0].Leaf? && kids[|kids| - 1].Leaf?
      && |kids| == |FilterRules(t.rule).rhs| && Yield(kids[|kids| - 1]) != []
      && (|kids| == 3 ==> WfTree(FILTER_AUTOMATON, kids[1]) && Sym(FILTER_AUTOMATON, kids[1]) == EXP_OPERATOR)
  {
    var kids := t.kids;
    assert FilterRules(t.rule).lhs == EXPRESSION;
    assert 11 <= t.rule <= 14;
    assert forall i :: 0 <= i < |kids| ==> Sym(FILTER_AUTOMATON, kids[i]) == FilterRules(t.rule).rhs[i];
  }

  lemma {:induction false} ExpressionKeepsList(s: State, t: Tree)
    requires WfTree(FILTER_AUTOMATON, t) && Sym(FILTER_AUTOMATON, t) == EXPRESSION
    ensures ApplyTree(s, t).ring == s.ring && ApplyTree(s, t).level == s.level
  {
    ExpressionKids(t);
    var kids := t.kids;
    var front := kids[..|kids| - 1];
    var last := kids[|kids| - 1];
    assert kids == front + [last] && (|front| == 2 ==> front[1] == kids[1]);
    hide ApplyAll, ApplyTree, Apply, Events, EventsAll, Yield, YieldAll, WfTree, Sym;
    OperandsKeepList(s, front);
    ApplyNode(s, t.rule, front, last);
    ReduceKeepsList(ApplyTree(ApplyAll(s, EventsAll(front)), last), t.rule, LastToken(Yield(last)));
    ApplyLeaf(ApplyAll(s, EventsAll(front)), last.tok);
  }

  /** What one subtree on the stack has done to the list. */
  lemma {:induction false} TreeKeepsList(s: State, t: Tree)
    requires WfTree(FILTER_AUTOMATON, t) && Sym(FILTER_AUTOMATON, t) != 16
    requires NonDecreasing(s.ring) && Below(s.ring, s.level)
    ensures ListOk(ApplyTree(s, t), Sym(FILTER_AUTOMATON, t))
  {
    match Sym(FILTER_AUTOMATON, t)
    case 17 =>
      var es := ReadFilters(t);
      LinkExprs(s, es);
      MeaningsAtLevel(es, s.level);
    case 18 =>
      var e := ReadFilter(t);
      LinkExpr(s, e);
    case 19 =>
      var tok := ReadParen(t);
      ApplyParen(s, 6, tok);
    case 20 =>
      var tok := ReadParen(t);
      ApplyParen(s, 7, tok);
    case 21 =>
      var tok := ReadParen(t);
      ApplyParen(s, OpRule(tok.sym), tok);
    case 22 => ExpressionKeepsList(s, t);
    case 23 =>
      var tok := ReadParen(t);
      ApplyParen(s, OpRule(tok.sym), tok);
    case _ => ApplyLeaf(s, t.tok);
  }

  lemma {:induction false} NoEdgeFrom(s: int, x: int)
    requires FilterStos(s) == FILTER_CLOSE || FilterStos(s) == 16
    ensures FilterTo(s, x) <= 0
  {
  }

  lemma {:induction false} StatesBelowTop(stack: seq<int>, i: nat)
    requires FILTER_AUTOMATON.Valid() && IsPath(FILTER_AUTOMATON, stack) && 0 < i < |stack| - 1
    ensures FilterStos(stack[i]) != FILTER_CLOSE && FilterStos(stack[i]) != 16
  {
    assert EdgeAt(FILTER_AUTOMATON, stack, i + 1);
    if FilterStos(stack[i]) == FILTER_CLOSE || FilterStos(stack[i]) == 16 {
      NoEdgeFrom(stack[i], FilterStos(stack[i + 1]));
    }
  }

  lemma {:induction false} InitialList()
    ensures ApplyAll(INITIAL, EventsAll([])) == INITIAL && forall top :: ListOk(INITIAL, top)
  {
  }

  lemma {:induction false} ListBelowTop(s: State, top: int)
    requires ListOk(s, top) && top != FILTER_CLOSE
    ensures NonDecreasing(s.ring) && Below(s.ring, s.level)
  {
  }

  /** At every point of every parse, whatever the input, the list is in order. */
  lemma {:induction false} ListInvariant(stack: seq<int>, forest: seq<Tree>)
    requires FILTER_AUTOMATON.Valid() && IsPath(FILTER_AUTOMATON, stack) && Matches(FILTER_AUTOMATON, stack, forest)
    ensures ListOk(ApplyAll(INITIAL, EventsAll(forest)), FilterStos(Top(stack)))
    decreases forest
  {
    hide ApplyAll, ApplyTree, EventsAll, YieldAll, ListOk;
    var n := |forest| - 1;
    if n < 0 {
      InitialList();
    } else {
      var front := forest[..n];
      assert forest == front + [forest[n]];
      TakePath(FILTER_AUTOMATON, stack, n + 1);
      ListInvariant(stack[..n + 1], front);
      if n > 0 {
        StatesBelowTop(stack, n);
      }
      ApplyFront(INITIAL, front, forest[n]);
      ListBelowTop(ApplyAll(INITIAL, EventsAll(front)), FilterStos(stack[n]));
      TreeKeepsList(ApplyAll(INITIAL, EventsAll(front)), forest[n]);
    }
  }

  // ----- Where the filter waits -----

  /** The entry of the value stack that holds an expression, of which no filter has been made yet. */
  function Spot(stack: seq<int>): (at: int)
    ensures at < |stack|
  {
    var n := |stack|;
    if n > 1 && FilterStos(stack[n - 1]) == EXPRESSION then n - 2
    else if n > 2 && FilterStos(stack[n - 2]) == EXPRESSION then n - 3
    else -1
  }

  lemma {:induction false} AfterExpression(stack: seq<int>, i: nat)
    requires FILTER_AUTOMATON.Valid() && IsPath(FILTER_AUTOMATON, stack) && 0 < i < |stack|
    requires FilterStos(stack[i - 1]) == EXPRESSION
    ensures FilterStos(stack[i]) == R_PAREN || FilterStos(stack[i]) == FILTER_CLOSE
  {
    assert EdgeAt(FILTER_AUTOMATON, stack, i);
    OnlyCloses(stack[i - 1], FilterStos(stack[i]));
  }

  lemma {:induction false} OnlyCloses(s: int, x: int)
    requires FilterStos(s) == EXPRESSION && FilterTo(s, x) > 0
    ensures x == R_PAREN || x == FILTER_CLOSE
  {
  }

  lemma {:induction false} NoneAfterClose(stack: seq<int>, i: nat)
    requires FILTER_AUTOMATON.Valid() && IsPath(FILTER_AUTOMATON, stack) && 0 < i < |stack|
    ensures FilterStos(stack[i - 1]) != R_PAREN && FilterStos(stack[i - 1]) != FILTER_CLOSE
  {
    assert EdgeAt(FILTER_AUTOMATON, stack, i);
    ClosesOff(stack[i - 1], FilterStos(stack[i]));
  }

  lemma {:induction false} ClosesOff(s: int, x: int)
    requires FilterTo(s, x) > 0
    ensures FilterStos(s) != R_PAREN && FilterStos(s) != FILTER_CLOSE
  {
  }

  /** A shift leaves the waiting filter where it is. */
  lemma {:induction false} SpotStays(stack: seq<int>, top: int)
    requires FILTER_AUTOMATON.Valid() && IsPath(FILTER_AUTOMATON, stack) && IsPath(FILTER_AUTOMATON, stack + [top])
    requires FilterStos(top) != EXPRESSION
    ensures Spot(stack + [top]) == Spot(stack)
  {
    var n := |stack|;
    if n > 2 && FilterStos(stack[n - 2]) == EXPRESSION {
      AfterExpression(stack, n - 1);
      NoneAfterClose(stack + [top], n);
    }
  }

  /** Where the waiting filter is before and after an event, on a value stack of `n` and then `n'` entries:
      only a rule for expressions makes a filter wait, and only the rule that makes a filter of an
      expression ends the wait. */
  ghost predicate Moves(event: Event, n: int, at: int, n': int, at': int) {
    match event
    case Shifted(_) => at' == at
    case Reduced(r, _) =>
      if r == 4 then at == at' == -1
      else if r == 5 then at == n - 2 && at' == -1
      else if 11 <= r <= 14 then at == -1 && at' == n' - 1
      else at == at' < n' - 1
  }

  /** An expression under the top of the stack has a closing parenthesis on it. */
  ghost predicate Closed(stack: seq<int>) {
    |stack| > 2 && FilterStos(stack[|stack| - 2]) == EXPRESSION ==>
      FilterStos(stack[|stack| - 1]) == R_PAREN || FilterStos(stack[|stack| - 1]) == FILTER_CLOSE
  }

  lemma {:induction false} PathCloses(stack: seq<int>)
    requires FILTER_AUTOMATON.Valid() && IsPath(FILTER_AUTOMATON, stack)
    ensures Closed(stack)
  {
    if |stack| > 2 && FilterStos(stack[|stack| - 2]) == EXPRESSION {
      AfterExpression(stack, |stack| - 1);
    }
  }

  /** The symbol `j` entries under the top of the stack, when a right-hand side is on the stack. */
  lemma {:induction false} SpellsTop(stack: seq<int>, r: int, j: nat)
    requires Spells(FILTER_AUTOMATON, stack, r) && j < |FilterRules(r).rhs|
    ensures var rhs := FilterRules(r).rhs;
      |rhs| < |stack| && FilterStos(stack[|stack| - 1 - j]) == rhs[|rhs| - 1 - j]
  {
    var rhs := FILTER_AUTOMATON.rules(r).rhs;
    assert FILTER_AUTOMATON.stos(stack[|stack| - |rhs| + (|rhs| - 1 - j)]) == rhs[|rhs| - 1 - j];
  }

  lemma {:induction false} SpotPops(stack: seq<int>, r: int, lval: Token, stack': seq<int>)
    requires Closed(stack) && Closed(stack') && START < r < 19 && Spells(FILTER_AUTOMATON, stack, r)
    requires stack' != [] && FilterStos(Top(stack')) == FilterRules(r).lhs
    requires stack' == stack[..|stack| - |FilterRules(r).rhs|] + [Top(stack')]
    ensures Moves(Reduced(r, lval), |stack| - 1, Spot(stack), |stack'| - 1, Spot(stack'))
  {
    SpellsTop(stack, r, 0);
    if |FilterRules(r).rhs| > 1 {
      SpellsTop(stack, r, 1);
    }
    hide Spells;
  }

  lemma {:induction false} SpotMoves(stack: seq<int>, event: Event, stack': seq<int>)
    requires FILTER_AUTOMATON.Valid() && IsPath(FILTER_AUTOMATON, stack) && IsPath(FILTER_AUTOMATON, stack')
    requires Follows(FILTER_AUTOMATON, stack, event, stack')
    ensures Moves(event, |stack| - 1, Spot(stack), |stack'| - 1, Spot(stack'))
  {
    PathCloses(stack);
    PathCloses(stack');
    hide Spells, Closed;
    match event
    case Shifted(_) => SpotStays(stack, Top(stack'));
    case Reduced(r, lval) => SpotPops(stack, r, lval, stack');
  }

  lemma {:induction false} NextState(s: State, before: seq<Event>, event: Event, after: seq<Event>)
    requires s == ApplyAll(INITIAL, before)
    ensures Apply(s, event) == ApplyAll(INITIAL, before + [event])
    ensures ApplyAll(s, [event] + after) == ApplyAll(Apply(s, event), after)
  {
    hide ApplyAll, Apply;
    ApplyConcat(INITIAL, before, [event]);
    ApplyConcat(s, [event], after);
    ApplyOne(s, event);
  }

  lemma {:induction false} ApplyNone(s: State)
    ensures ApplyAll(s, []) == s
  {
  }

  /** Nothing waits at the end of an accepted parse. */
  lemma {:induction false} NothingWaits(w: seq<Token>, stack: seq<int>, pos: nat)
    requires IsConfig(FILTER_AUTOMATON, w, stack, pos) && Run(FILTER_AUTOMATON, w, stack, pos) == (Accepted, [])
    ensures Spot(stack) == -1
  {
    assert Top(stack) == FILTER_AUTOMATON.t.final;
    hide Run, IsInput;
    FinalStack(FILTER_AUTOMATON, stack);
    assert FILTER_AUTOMATON.rules(START).rhs == [FILTER_LIST, YYEOF];
  }

  lemma {:induction false} GroupSymbols(stack: seq<int>)
    requires Spells(FILTER_AUTOMATON, stack, 4)
    ensures |stack| > 4 && FilterStos(stack[|stack| - 1]) == FILTER_CLOSE
    ensures FilterStos(stack[|stack| - 2]) == FILTER_LIST && FilterStos(stack[|stack| - 3]) == FILTER_OP
  {
    assert FilterRules(4).rhs == [FILTER_OPEN, FILTER_OP, FILTER_LIST, FILTER_CLOSE];
    hide Spells;
    SpellsTop(stack, 4, 0);
    SpellsTop(stack, 4, 1);
    SpellsTop(stack, 4, 2);
  }

  lemma {:induction false} TakeMatches(stack: seq<int>, forest: seq<Tree>, k: nat)
    requires FILTER_AUTOMATON.Valid() && InRange(FILTER_AUTOMATON, stack) && Matches(FILTER_AUTOMATON, stack, forest)
    requires k <= |forest|
    ensures InRange(FILTER_AUTOMATON, stack[..k + 1]) && Matches(FILTER_AUTOMATON, stack[..k + 1], forest[..k])
  {
  }

  /** What stands on the stack when a group is closed. */
  lemma {:induction false} GroupOnTop(stack: seq<int>, forest: seq<Tree>)
    requires FILTER_AUTOMATON.Valid() && IsPath(FILTER_AUTOMATON, stack) && Matches(FILTER_AUTOMATON, stack, forest)
    requires Spells(FILTER_AUTOMATON, stack, 4)
    ensures var n := |forest|;
      && n > 2 && WfTree(FILTER_AUTOMATON, forest[n - 2]) && Sym(FILTER_AUTOMATON, forest[n - 2]) == FILTER_LIST
      && WfTree(FILTER_AUTOMATON, forest[n - 1]) && Sym(FILTER_AUTOMATON, forest[n - 1]) == FILTER_CLOSE
      && ListOk(ApplyAll(INITIAL, EventsAll(forest[..n - 2])), FILTER_OP)
  {
    var n := |forest|;
    GroupSymbols(stack);
    hide ApplyAll, EventsAll, ListOk, Spells, WfTree, Sym, FilterStos, EdgeAt;
    TakePath(FILTER_AUTOMATON, stack, n - 1);
    TakeMatches(stack, forest, n - 2);
    ListInvariant(stack[..n - 1], forest[..n - 2]);
  }

  /** Whatever the input, a group is never closed while the list is empty. */
  lemma {:induction false} GroupNotEmpty(stack: seq<int>, forest: seq<Tree>)
    requires FILTER_AUTOMATON.Valid() && IsPath(FILTER_AUTOMATON, stack) && Matches(FILTER_AUTOMATON, stack, forest)
    requires Spells(FILTER_AUTOMATON, stack, 4)
    ensures ApplyAll(INITIAL, EventsAll(forest)).ring != []
  {
    var n := |forest|;
    GroupOnTop(stack, forest);
    hide *;
    var front, list, close := forest[..n - 2], forest[n - 2], forest[n - 1];
    assert forest[..n - 1] == front + [list] && forest == forest[..n - 1] + [close];
    var s := ApplyAll(INITIAL, EventsAll(front));
    ListBelowTop(s, FILTER_OP);
    ApplyFront(INITIAL, front, list);
    ApplyFront(INITIAL, front + [list], close);
    var es := ReadFilters(list);
    LinkExprs(s, es);
    LinksAdd(s, list, MeaningAll(es, s.level));
    var tok := ReadParen(close);
    ApplyParen(ApplyTree(s, list), 7, tok);
  }

  lemma {:induction false} LinksAdd(s: State, tree: Tree, fs: seq<Filter>)
    requires Links(s, tree, fs)
    ensures ApplyTree(s, tree).ring != []
  {
  }

  // ----- The driver -----

  /** The driver stands where the actions so far should leave the state `s`, and the list is in order. */
  ghost predicate Comes(w: seq<Token>, d: Driver, s: State)
    requires IsTokens(w)
    reads d
  {
    && d.Valid() && d.m == FILTER_AUTOMATON && d.w == w && s == ApplyAll(INITIAL, EventsAll(d.forest))
    && ListOk(s, FilterStos(Top(d.yyss))) && Parse(w) == (d.Rest().0, ApplyAll(s, d.Rest().1))
  }

  /** What the driver starts a step from. */
  lemma {:induction false} Before(w: seq<Token>, d: Driver, s: State)
    requires IsTokens(w) && Comes(w, d, s)
    ensures d.Valid() && d.m == FILTER_AUTOMATON && d.w == w && FILTER_AUTOMATON.Valid()
    ensures IsPath(FILTER_AUTOMATON, d.yyss) && Matches(FILTER_AUTOMATON, d.yyss, d.forest)
    ensures s == ApplyAll(INITIAL, EventsAll(d.forest)) && Parse(w) == (d.Rest().0, ApplyAll(s, d.Rest().1))
    ensures d.Rest() == (Accepted, []) ==> Spot(d.yyss) == -1
  {
    hide ApplyAll, EventsAll, Parse, ListOk, Run, Matches, IsPath, IsInput, Spot;
    if d.Rest() == (Accepted, []) {
      NothingWaits(w, d.yyss, d.read);
    }
  }

  /** What an event does to the waiting filter and the list. */
  lemma {:induction false} After(stack: seq<int>, forest: seq<Tree>, event: Event, d: Driver)
    requires FILTER_AUTOMATON.Valid() && IsPath(FILTER_AUTOMATON, stack) && Matches(FILTER_AUTOMATON, stack, forest)
    requires d.Valid() && d.m == FILTER_AUTOMATON && Follows(FILTER_AUTOMATON, stack, event, d.yyss)
    ensures d.yyss != [] && Moves(event, |stack| - 1, Spot(stack), |d.yyss| - 1, Spot(d.yyss))
    ensures ListOk(ApplyAll(INITIAL, EventsAll(d.forest)), FilterStos(Top(d.yyss)))
    ensures event.Reduced? && event.rule == 4 ==> ApplyAll(INITIAL, EventsAll(forest)).ring != []
  {
    hide ApplyAll, EventsAll, ListOk, Matches, Moves, Spells, StackWeight;
    SpotMoves(stack, event, d.yyss);
    ListInvariant(d.yyss, d.forest);
    if event.Reduced? && event.rule == 4 {
      GroupNotEmpty(stack, forest);
    }
  }

  /** One step of the driver. */
  method Drive(w: seq<Token>, d: Driver, ghost s: State) returns (step: Step)
    requires IsTokens(w) && Comes(w, d, s) && d.Valid()
    modifies d
    ensures step.Done? ==> Parse(w) == (step.outcome, s) && (step.outcome == Accepted ==> old(Spot(d.yyss)) == -1)
    ensures step.Do? ==> d.Valid() && Comes(w, d, Apply(s, step.event))
    ensures step.Do? ==> Resizes(FILTER_AUTOMATON, step.event, old(|d.yyss|), |d.yyss|)
    ensures step.Do? ==> Moves(step.event, old(|d.yyss|) - 1, old(Spot(d.yyss)), |d.yyss| - 1, Spot(d.yyss))
    ensures step.Do? && step.event.Reduced? && step.event.rule == 4 ==> s.ring != []
    ensures step.Do? ==>
      old(d.read) < d.read <= |w| + 1 || (d.read == old(d.read) && d.Weight() < old(d.Weight()))
  {
    ghost var stack, forest, events := d.yyss, d.forest, EventsAll(d.forest);
    Before(w, d, s);
    ApplyNone(s);
    hide Apply, ApplyAll, EventsAll, Matches, IsPath, Follows, Resizes, Parse, Run, ListOk, StackWeight, Driver.Valid,
         Driver.Rest, Driver.Weight, Spot, Moves;
    step := d.Advance();
    if step.Do? {
      NextState(s, events, step.event, d.Rest().1);
      After(stack, forest, step.event, d);
    }
  }
}
