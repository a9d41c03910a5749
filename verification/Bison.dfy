/** The parser skeleton that the filter and the attribute parser share: an LALR automaton
    driven by packed tables.  A `Certificate` labels each state with LR items; when the finite
    conditions of `Valid` hold, the automaton recognises exactly the grammar (`RunIsExact`). */
module Bison {

  const YYINITDEPTH := 200
  const YYMAXDEPTH := 10000
  const YYEOF := 0
  const YYTERROR := 1

  /** Rule numbers start at 1, with the rule for the accept symbol. */
  const START := 1

  /** A token after translation to the parser's internal symbol numbers, with its two possible
      semantic values: the integer and the string arm of the parser's value union. */
  datatype Token = Token(sym: int, num: int, text: string)

  const END_TOKEN := Token(YYEOF, 0, "")

  datatype Rule = Rule(lhs: int, rhs: seq<int>)

  datatype Tables = Tables(pact: seq<int>, defact: seq<int>, pgoto: seq<int>, defgoto: seq<int>,
                           table: seq<int>, check: seq<int>, r1: seq<int>, r2: seq<int>,
                           ninf: int, last: int, final: int, ntokens: int)

  datatype Action = Shift(state: int) | Reduce(rule: int) | Fail

  predicate Shaped(t: Tables) {
    && |t.pact| == |t.defact| > 0
    && |t.table| == |t.check| == t.last + 1
    && |t.r1| == |t.r2| > 0
    && |t.pgoto| == |t.defgoto|
    && 0 < t.ntokens
  }

  function DefaultAction(t: Tables, s: int): Action
    requires Shaped(t) && 0 <= s < |t.pact|
  {
    if t.defact[s] == 0 then Fail else Reduce(t.defact[s])
  }

  /** What `yybackup` decides in state `s` when the lookahead is `a`. */
  function ActionOn(t: Tables, s: int, a: int): Action
    requires Shaped(t) && 0 <= s < |t.pact|
  {
    if t.pact[s] == t.ninf then DefaultAction(t, s)
    else
      var n := t.pact[s] + a;
      if n < 0 || t.last < n || t.check[n] != a then DefaultAction(t, s)
      else if t.table[n] <= 0 then Reduce(-t.table[n])
      else Shift(t.table[n])
  }

  /** The state entered after reducing to the nonterminal `x` on top of state `s`. */
  function GotoOn(t: Tables, s: int, x: int): int
    requires Shaped(t) && t.ntokens <= x < t.ntokens + |t.pgoto|
  {
    var n := t.pgoto[x - t.ntokens] + s;
    if 0 <= n <= t.last && t.check[n] == s then t.table[n] else t.defgoto[x - t.ntokens]
  }

  function Next(t: Tables, s: int, x: int): int
    requires Shaped(t) && 0 <= s < |t.pact|
  {
    if t.ntokens <= x < t.ntokens + |t.pgoto| then GotoOn(t, s, x)
    else
      var a := ActionOn(t, s, x);
      if a.Shift? then a.state else -1
  }

  datatype Item = Item(rule: int, dot: int)

  /** The grammar, and what the states of the tables stand for: the symbol that leads into each
      state, the LR items of each state, the state that follows on a symbol (0 if there is none)
      with one of the items that call for it, and a weight for each symbol under which every
      reduction is a decrease. */
  datatype Automaton = Automaton(t: Tables, nrules: int, rules: int -> Rule, stos: int -> int, has: (int, Item) -> bool,
                                 to: (int, int) -> int, via: (int, int) -> Item, weight: seq<nat>)
  {
    predicate WfItem(it: Item) {
      START <= it.rule < nrules && 0 <= it.dot <= |rules(it.rule).rhs|
    }

    predicate Open(it: Item) {
      WfItem(it) && it.dot < |rules(it.rule).rhs|
    }

    predicate Shapely() {
      && Shaped(t)
      && |weight| == t.ntokens + |t.pgoto|
      && 0 <= t.final < |t.pact|
    }

    /** State `s` has an item with its dot in front of `x`. */
    predicate Expects(s: int, x: int)
      requires Shapely() && 0 <= s < |t.pact|
    {
      to(s, x) > 0
    }

    ghost predicate KernelOk(s: int, it: Item)
      requires Shapely() && 0 <= s < |t.pact|
    {
      && WfItem(it)
      && (it.dot > 0 ==> s > 0 && stos(s) == rules(it.rule).rhs[it.dot - 1])
      && (it.dot == 0 && it.rule != START ==> Expects(s, rules(it.rule).lhs))
      && (it.dot == 0 && it.rule == START ==> s == 0)
    }

    /** The item `j` of the state that `s` moves to comes from an item of `s`. */
    ghost predicate BackOk(s: int, j: Item)
      requires Shapely() && 0 <= s < |t.pact|
    {
      j.dot > 0 ==> has(s, Item(j.rule, j.dot - 1))
    }

    /** The tables move from state `s` on `x` to a state whose items come from `s`. */
    ghost predicate EdgeOk(s: int, x: int)
      requires Shapely() && 0 <= s < |t.pact|
    {
      var n, it := to(s, x), via(s, x);
      && has(s, it) && Open(it) && rules(it.rule).rhs[it.dot] == x
      && Next(t, s, x) == n
      && 0 < n < |t.pact| && stos(n) == x
      && (n == t.final <==> x == YYEOF)
      && (forall j {:trigger BackOk(s, j)} :: has(n, j) ==> BackOk(s, j))
    }

    /** The dot of item `it` of state `s` can advance. */
    ghost predicate AdvanceOk(s: int, it: Item)
      requires Shapely() && 0 <= s < |t.pact|
    {
      Open(it) ==>
        var n := to(s, rules(it.rule).rhs[it.dot]);
        n > 0 && has(n, Item(it.rule, it.dot + 1))
    }

    ghost predicate ClosureOk(s: int, x: int)
      requires Shapely() && 0 <= s < |t.pact|
    {
      forall k :: START <= k < nrules && rules(k).lhs == x ==> has(s, Item(k, 0))
    }

    ghost predicate CompleteOk(s: int, it: Item)
      requires Shapely() && 0 <= s < |t.pact|
    {
      if it.rule == START then s == t.final else t.pact[s] == t.ninf && t.defact[s] == it.rule
    }

    /** No table entry lets state `s` do something its items do not call for. */
    ghost predicate ActionOk(s: int, a: int)
      requires Shapely() && 0 <= s < |t.pact|
    {
      match ActionOn(t, s, a)
      case Shift(_) => Expects(s, a)
      case Reduce(r) => START < r < nrules && has(s, Item(r, |rules(r).rhs|))
      case Fail => true
    }

    /** State `s` cannot shift the `error` token: the recovery loop only pops it. */
    predicate NoRecovery(s: int)
      requires Shapely() && 0 <= s < |t.pact|
    {
      t.pact[s] == t.ninf ||
      !(0 <= t.pact[s] + YYTERROR <= t.last && t.check[t.pact[s] + YYTERROR] == YYTERROR
        && t.table[t.pact[s] + YYTERROR] > 0)
    }

    ghost predicate StateOk(s: int)
      requires Shapely() && 0 <= s < |t.pact|
    {
      && (forall it {:trigger KernelOk(s, it)} :: has(s, it) ==> KernelOk(s, it))
      && (forall it {:trigger AdvanceOk(s, it)} :: has(s, it) ==> AdvanceOk(s, it))
      && (forall x {:trigger EdgeOk(s, x)} :: to(s, x) > 0 ==> EdgeOk(s, x))
      && (forall x {:trigger ClosureOk(s, x)} :: to(s, x) > 0 && x >= t.ntokens ==> ClosureOk(s, x))
      && (forall it {:trigger CompleteOk(s, it)} ::
            has(s, it) && WfItem(it) && !Open(it) ==> CompleteOk(s, it))
      && (s != t.final ==> forall a {:trigger ActionOk(s, a)} :: 0 <= a < t.ntokens ==> ActionOk(s, a))
      && NoRecovery(s)
    }

    predicate IsSymbol(x: int) {
      0 <= x < |weight|
    }

    function WeightOf(x: int): nat {
      if IsSymbol(x) then weight[x] else 0
    }

    ghost function Weigh(xs: seq<int>): nat {
      if xs == [] then 0 else Weigh(xs[..|xs| - 1]) + WeightOf(xs[|xs| - 1])
    }

    lemma {:induction false} WeighShort(xs: seq<int>)
      requires 0 < |xs| <= 5
      ensures WeightOf(xs[0]) + (if |xs| > 1 then WeightOf(xs[1]) else 0) <= Weigh(xs)
      ensures |xs| == 1 ==> Weigh(xs) == WeightOf(xs[0])
    {
      if |xs| > 2 {
        WeighShort(xs[..|xs| - 1]);
      } else if |xs| == 2 {
        assert xs[..1][..0] == [];
      }
    }

    ghost predicate RuleOk(k: int)
      requires Shapely() && START <= k < nrules
    {
      && nrules == |t.r1|
      && t.r1[k] == rules(k).lhs && t.r2[k] == |rules(k).rhs|
      && t.ntokens <= rules(k).lhs < |weight|
      && (forall i :: 0 <= i < |rules(k).rhs| ==> IsSymbol(rules(k).rhs[i]))
      && rules(START).lhs !in rules(k).rhs
      && (k > START ==> |rules(k).rhs| > 0 && YYEOF !in rules(k).rhs && weight[rules(k).lhs] < Weigh(rules(k).rhs))
    }

    ghost predicate Valid() {
      && Shapely()
      && nrules > START && |rules(START).rhs| == 2 && rules(START).rhs[0] != YYEOF && rules(START).rhs[1] == YYEOF
      && has(0, Item(START, 0))
      && 0 != t.final
      && (forall k {:trigger RuleOk(k)} :: START <= k < nrules ==> RuleOk(k))
      && (forall s {:trigger StateOk(s)} :: 0 <= s < |t.pact| ==> StateOk(s))
    }
  }

  // ----- Derivations of the grammar -----

  /** A parse tree: a token, or a rule applied to one subtree per right-hand-side symbol. */
  datatype Tree = Leaf(tok: Token) | Node(rule: int, kids: seq<Tree>)

  function Sym(m: Automaton, tree: Tree): int {
    match tree
    case Leaf(tok) => tok.sym
    case Node(r, _) => if START <= r < m.nrules then m.rules(r).lhs else -1
  }

  ghost predicate WfTree(m: Automaton, tree: Tree)
    decreases tree
  {
    match tree
    case Leaf(tok) => 0 <= tok.sym < m.t.ntokens && (tok.sym == YYEOF ==> tok == END_TOKEN)
    case Node(r, kids) =>
      && START <= r < m.nrules && |kids| == |m.rules(r).rhs|
      && (forall i :: 0 <= i < |kids| ==> Sym(m, kids[i]) == m.rules(r).rhs[i])
      && (forall i :: 0 <= i < |kids| ==> WfTree(m, kids[i]))
  }

  function Yield(tree: Tree): seq<Token>
    decreases tree, 1
  {
    match tree
    case Leaf(tok) => [tok]
    case Node(_, kids) => YieldAll(kids)
  }

  function YieldAll(trees: seq<Tree>): seq<Token>
    decreases trees, 0
  {
    if trees == [] then [] else Yield(trees[0]) + YieldAll(trees[1..])
  }

  /** What the parser does, in order: shifts, and reductions with the token read last. */
  datatype Event = Shifted(tok: Token) | Reduced(rule: int, lval: Token)

  function LastToken(toks: seq<Token>): Token {
    if toks == [] then END_TOKEN else toks[|toks| - 1]
  }

  /** The postorder walk of a tree. */
  function Events(tree: Tree): seq<Event>
    decreases tree, 1
  {
    match tree
    case Leaf(tok) => [Shifted(tok)]
    case Node(r, kids) => EventsAll(kids) + [Reduced(r, LastToken(Yield(tree)))]
  }

  function EventsAll(trees: seq<Tree>): seq<Event>
    decreases trees, 0
  {
    if trees == [] then [] else Events(trees[0]) + EventsAll(trees[1..])
  }

  function Max(a: nat, b: nat): nat { if a < b then b else a }

  /** How many stack slots parsing the tree takes at its deepest point. */
  function Need(tree: Tree): nat
    decreases tree, 1
  {
    match tree
    case Leaf(_) => 1
    case Node(_, kids) => Max(1, NeedAll(kids))
  }

  function NeedAll(trees: seq<Tree>): nat
    decreases trees, 0
  {
    if trees == [] then 0 else Max(Need(trees[0]), 1 + NeedAll(trees[1..]))
  }

  lemma {:induction false} YieldAllConcat(a: seq<Tree>, b: seq<Tree>)
    ensures YieldAll(a + b) == YieldAll(a) + YieldAll(b)
    ensures EventsAll(a + b) == EventsAll(a) + EventsAll(b)
    decreases a
  {
    if a == [] {
      assert a + b == b;
    } else {
      assert (a + b)[1..] == a[1..] + b;
      YieldAllConcat(a[1..], b);
    }
  }

  lemma {:induction false} YieldAllOne(tree: Tree)
    ensures YieldAll([tree]) == Yield(tree)
    ensures EventsAll([tree]) == Events(tree)
    ensures NeedAll([tree]) == Need(tree)
  {
    assert [tree][1..] == [];
  }

  // ----- Runs of the automaton -----

  /** The lexer's output: at and beyond the end it reports the end marker. */
  function At(w: seq<Token>, pos: nat): Token {
    if pos < |w| then w[pos] else END_TOKEN
  }

  function Lval(w: seq<Token>, pos: nat): Token {
    if pos == 0 then END_TOKEN else At(w, pos - 1)
  }

  predicate IsInput(m: Automaton, w: seq<Token>) {
    forall i :: 0 <= i < |w| ==> YYEOF < w[i].sym < m.t.ntokens
  }

  function Top(stack: seq<int>): int
    requires stack != []
  {
    stack[|stack| - 1]
  }

  ghost predicate InRange(m: Automaton, stack: seq<int>) {
    forall i :: 0 <= i < |stack| ==> 0 <= stack[i] < |m.t.pact|
  }

  /** Entry `i` of the stack is where the automaton moves from entry `i - 1`. */
  ghost predicate EdgeAt(m: Automaton, stack: seq<int>, i: int)
    requires m.Valid() && InRange(m, stack) && 0 < i < |stack|
  {
    m.Expects(stack[i - 1], m.stos(stack[i])) && Next(m.t, stack[i - 1], m.stos(stack[i])) == stack[i]
  }

  /** A stack of states the automaton can be in. */
  ghost predicate IsPath(m: Automaton, stack: seq<int>)
    requires m.Valid()
  {
    && |stack| > 0 && stack[0] == 0 && InRange(m, stack)
    && forall i {:trigger EdgeAt(m, stack, i)} :: 0 < i < |stack| ==> EdgeAt(m, stack, i)
  }

  ghost predicate IsConfig(m: Automaton, w: seq<Token>, stack: seq<int>, pos: nat) {
    && m.Valid() && IsInput(m, w) && IsPath(m, stack)
    && (if Top(stack) == m.t.final then pos == |w| + 1 else pos <= |w|)
  }

  lemma {:induction false} TakePath(m: Automaton, stack: seq<int>, n: nat)
    requires m.Valid() && IsPath(m, stack) && 0 < n <= |stack|
    ensures IsPath(m, stack[..n])
  {
    forall i | 0 < i < n ensures EdgeAt(m, stack[..n], i) {
      assert EdgeAt(m, stack, i);
    }
  }

  lemma {:induction false} PushPath(m: Automaton, stack: seq<int>, x: int)
    requires m.Valid() && IsPath(m, stack) && m.Expects(Top(stack), x)
    ensures var n := Next(m.t, Top(stack), x);
      && 0 < n < |m.t.pact|
      && IsPath(m, stack + [n]) && m.stos(n) == x
      && (n == m.t.final <==> x == YYEOF)
  {
    var s := Top(stack);
    assert m.StateOk(s);
    assert m.EdgeOk(s, x);
    var stack' := stack + [Next(m.t, s, x)];
    forall i | 0 < i < |stack'| ensures EdgeAt(m, stack', i) {
      if i < |stack| {
        assert EdgeAt(m, stack, i);
      }
    }
  }

  /** Walking back over a recognised right-hand side: the symbols under the top are the rule's. */
  lemma {:induction false} WalkBack(m: Automaton, stack: seq<int>, r: int, d: nat)
    requires m.Valid() && IsPath(m, stack) && m.has(Top(stack), Item(r, d))
    ensures START <= r < m.nrules && d <= |m.rules(r).rhs|
    ensures d < |stack| && m.has(stack[|stack| - 1 - d], Item(r, 0))
    ensures forall i :: 0 <= i < d ==> m.stos(stack[|stack| - d + i]) == m.rules(r).rhs[i]
    decreases d
  {
    var s := Top(stack);
    assert m.StateOk(s);
    assert m.KernelOk(s, Item(r, d));
    if d > 0 {
      var below := stack[..|stack| - 1];
      assert EdgeAt(m, stack, |stack| - 1);
      assert m.StateOk(Top(below));
      assert m.EdgeOk(Top(below), m.stos(s));
      assert m.BackOk(Top(below), Item(r, d));
      TakePath(m, stack, |stack| - 1);
      WalkBack(m, below, r, d - 1);
    }
  }

  /** The symbols on top of the stack spell the right-hand side of rule `r`. */
  ghost predicate Spells(m: Automaton, stack: seq<int>, r: int) {
    && START <= r < m.nrules && |m.rules(r).rhs| < |stack| && InRange(m, stack)
    && forall i :: 0 <= i < |m.rules(r).rhs| ==> m.stos(stack[|stack| - |m.rules(r).rhs| + i]) == m.rules(r).rhs[i]
  }

  /** A reduction replaces the right-hand side on top of the stack by one state. */
  lemma {:induction false} PopPath(m: Automaton, stack: seq<int>, r: int)
    requires m.Valid() && IsPath(m, stack) && START < r < m.nrules
    requires m.has(Top(stack), Item(r, |m.rules(r).rhs|))
    ensures Spells(m, stack, r)
    ensures var n := |m.rules(r).rhs|;
      && IsPath(m, stack[..|stack| - n])
      && m.Expects(Top(stack[..|stack| - n]), m.rules(r).lhs)
  {
    var n := |m.rules(r).rhs|;
    WalkBack(m, stack, r, n);
    TakePath(m, stack, |stack| - n);
    var p := stack[|stack| - 1 - n];
    assert m.StateOk(p);
    assert m.KernelOk(p, Item(r, 0));
  }

  lemma {:induction false} WeighConcat(m: Automaton, a: seq<int>, b: seq<int>)
    ensures m.Weigh(a + b) == m.Weigh(a) + m.Weigh(b)
    decreases b
  {
    if b == [] {
      assert a + b == a;
    } else {
      assert (a + b)[..|a + b| - 1] == a + b[..|b| - 1];
      WeighConcat(m, a, b[..|b| - 1]);
    }
  }

  /** The symbols that led into the states of a stack. */
  function Symbols(m: Automaton, stack: seq<int>): seq<int>
    requires InRange(m, stack)
  {
    seq(|stack|, i requires 0 <= i < |stack| => m.stos(stack[i]))
  }

  /** The weight of the symbols on a stack, which reductions lower. */
  ghost function StackWeight(m: Automaton, stack: seq<int>): nat
    requires m.Valid() && InRange(m, stack)
  {
    m.Weigh(Symbols(m, stack))
  }

  lemma {:induction false} PushWeight(m: Automaton, stack: seq<int>, s: int)
    requires m.Valid() && InRange(m, stack) && 0 <= s < |m.t.pact| && m.IsSymbol(m.stos(s))
    ensures InRange(m, stack + [s])
    ensures StackWeight(m, stack + [s]) == StackWeight(m, stack) + m.weight[m.stos(s)]
  {
    var all := stack + [s];
    assert Symbols(m, all)[..|all| - 1] == Symbols(m, stack);
  }

  lemma {:induction false} PopWeight(m: Automaton, stack: seq<int>, r: int)
    requires m.Valid() && IsPath(m, stack) && START < r < m.nrules
    requires m.has(Top(stack), Item(r, |m.rules(r).rhs|))
    ensures var n := |m.rules(r).rhs|;
      n < |stack| && InRange(m, stack[..|stack| - n]) && m.IsSymbol(m.rules(r).lhs)
      && StackWeight(m, stack[..|stack| - n]) + m.weight[m.rules(r).lhs] < StackWeight(m, stack)
  {
    var n := |m.rules(r).rhs|;
    PopPath(m, stack, r);
    var below := stack[..|stack| - n];
    assert Symbols(m, stack) == Symbols(m, below) + m.rules(r).rhs;
    WeighConcat(m, Symbols(m, below), m.rules(r).rhs);
    assert m.RuleOk(r);
  }

  /** The automaton's next action at a configuration. */
  function Decide(m: Automaton, w: seq<Token>, stack: seq<int>, pos: nat): Action
    requires Shaped(m.t) && stack != [] && 0 <= Top(stack) < |m.t.pact|
  {
    ActionOn(m.t, Top(stack), At(w, pos).sym)
  }

  function ShiftTo(m: Automaton, w: seq<Token>, stack: seq<int>, pos: nat): seq<int>
    requires Shaped(m.t) && stack != [] && 0 <= Top(stack) < |m.t.pact|
  {
    stack + [Next(m.t, Top(stack), At(w, pos).sym)]
  }

  function ReduceTo(m: Automaton, stack: seq<int>, r: int): seq<int>
    requires Shaped(m.t) && InRange(m, stack) && START <= r < m.nrules && |m.rules(r).rhs| < |stack|
  {
    var below := stack[..|stack| - |m.rules(r).rhs|];
    below + [Next(m.t, Top(below), m.rules(r).lhs)]
  }

  /** A shift leads to a configuration, one token further. */
  lemma {:induction false} ShiftConfig(m: Automaton, w: seq<Token>, stack: seq<int>, pos: nat)
    requires IsConfig(m, w, stack, pos) && Top(stack) != m.t.final
    requires Decide(m, w, stack, pos).Shift?
    ensures Decide(m, w, stack, pos).state == Next(m.t, Top(stack), At(w, pos).sym)
    ensures m.stos(Decide(m, w, stack, pos).state) == At(w, pos).sym < m.t.ntokens
    ensures m.Expects(Top(stack), At(w, pos).sym)
    ensures IsConfig(m, w, ShiftTo(m, w, stack, pos), pos + 1)
  {
    var a := At(w, pos).sym;
    assert m.StateOk(Top(stack));
    assert m.ActionOk(Top(stack), a);
    PushPath(m, stack, a);
  }

  /** A reduction leads to a configuration of smaller weight at the same token. */
  lemma {:induction false} ReduceConfig(m: Automaton, w: seq<Token>, stack: seq<int>, pos: nat)
    requires IsConfig(m, w, stack, pos) && Top(stack) != m.t.final
    requires Decide(m, w, stack, pos).Reduce?
    ensures var r := Decide(m, w, stack, pos).rule;
      && START < r < m.nrules && 0 < |m.rules(r).rhs| < |stack|
      && m.has(Top(stack), Item(r, |m.rules(r).rhs|))
      && m.t.pact[Top(stack)] == m.t.ninf
      && IsConfig(m, w, ReduceTo(m, stack, r), pos)
      && StackWeight(m, ReduceTo(m, stack, r)) < StackWeight(m, stack)
      && Spells(m, stack, r)
      && m.stos(Top(ReduceTo(m, stack, r))) == m.rules(r).lhs
  {
    var s, a := Top(stack), At(w, pos).sym;
    var r := Decide(m, w, stack, pos).rule;
    assert m.StateOk(s);
    assert m.ActionOk(s, a);
    assert m.RuleOk(r);
    assert m.CompleteOk(s, Item(r, |m.rules(r).rhs|));
    PopPath(m, stack, r);
    PopWeight(m, stack, r);
    var below := stack[..|stack| - |m.rules(r).rhs|];
    PushPath(m, below, m.rules(r).lhs);
    PushWeight(m, below, Next(m.t, Top(below), m.rules(r).lhs));
  }

  datatype Outcome = Accepted | SyntaxError | Exhausted

  /** The rest of the parse from a configuration: how it ends, and what it does on the way. */
  ghost function Run(m: Automaton, w: seq<Token>, stack: seq<int>, pos: nat): (Outcome, seq<Event>)
    requires IsConfig(m, w, stack, pos)
    decreases |w| + 1 - pos, StackWeight(m, stack)
  {
    if |stack| >= YYMAXDEPTH then (Exhausted, [])
    else if Top(stack) == m.t.final then (Accepted, [])
    else
      match Decide(m, w, stack, pos)
      case Fail => (SyntaxError, [])
      case Shift(_) =>
        ShiftConfig(m, w, stack, pos);
        var rest := Run(m, w, ShiftTo(m, w, stack, pos), pos + 1);
        (rest.0, [Shifted(At(w, pos))] + rest.1)
      case Reduce(r) =>
        ReduceConfig(m, w, stack, pos);
        var rest := Run(m, w, ReduceTo(m, stack, r), pos);
        (rest.0, [Reduced(r, Lval(w, pos))] + rest.1)
  }

  // ----- Soundness: what the stack stands for -----

  /** One well-formed tree per stack entry above the bottom, with that entry's symbol. */
  ghost predicate Matches(m: Automaton, stack: seq<int>, forest: seq<Tree>)
    requires m.Valid() && InRange(m, stack)
  {
    && |forest| == |stack| - 1
    && (forall i :: 0 <= i < |forest| ==> WfTree(m, forest[i]))
    && (forall i :: 0 <= i < |forest| ==> Sym(m, forest[i]) == m.stos(stack[i + 1]))
  }

  /** Everything read so far, as trees. */
  ghost predicate Represents(m: Automaton, w: seq<Token>, stack: seq<int>, pos: nat, forest: seq<Tree>) {
    && IsConfig(m, w, stack, pos)
    && Matches(m, stack, forest)
    && YieldAll(forest) == (w + [END_TOKEN])[..pos]
  }

  lemma {:induction false} PushMatches(m: Automaton, stack: seq<int>, forest: seq<Tree>, s: int, tree: Tree)
    requires m.Valid() && InRange(m, stack) && Matches(m, stack, forest)
    requires 0 <= s < |m.t.pact| && WfTree(m, tree) && Sym(m, tree) == m.stos(s)
    ensures InRange(m, stack + [s]) && Matches(m, stack + [s], forest + [tree])
    ensures YieldAll(forest + [tree]) == YieldAll(forest) + Yield(tree)
    ensures EventsAll(forest + [tree]) == EventsAll(forest) + Events(tree)
  {
    YieldAllConcat(forest, [tree]);
    YieldAllOne(tree);
  }

  lemma {:induction false} PopMatches(m: Automaton, stack: seq<int>, forest: seq<Tree>, r: int)
    requires m.Valid() && InRange(m, stack) && Matches(m, stack, forest) && Spells(m, stack, r)
    ensures |m.rules(r).rhs| <= |forest|
    ensures var n := |forest| - |m.rules(r).rhs|; var below := stack[..|stack| - |m.rules(r).rhs|];
      && InRange(m, below) && Matches(m, below, forest[..n])
      && WfTree(m, Node(r, forest[n..]))
  {
    var n := |forest| - |m.rules(r).rhs|;
    var kids := forest[n..];
    forall i | 0 <= i < |kids| ensures Sym(m, kids[i]) == m.rules(r).rhs[i] && WfTree(m, kids[i]) {
      assert kids[i] == forest[n + i];
    }
  }

  lemma {:induction false} ReduceMatches(m: Automaton, stack: seq<int>, forest: seq<Tree>, r: int, s: int)
    requires m.Valid() && InRange(m, stack) && Matches(m, stack, forest) && Spells(m, stack, r)
    requires 0 <= s < |m.t.pact| && m.stos(s) == m.rules(r).lhs
    ensures |m.rules(r).rhs| <= |forest|
    ensures var n := |forest| - |m.rules(r).rhs|; var node := Node(r, forest[n..]);
      var to := stack[..|stack| - |m.rules(r).rhs|] + [s];
      && InRange(m, to) && Matches(m, to, forest[..n] + [node]) && WfTree(m, node)
  {
    PopMatches(m, stack, forest, r);
    var n := |forest| - |m.rules(r).rhs|;
    PushMatches(m, stack[..|stack| - |m.rules(r).rhs|], forest[..n], s, Node(r, forest[n..]));
  }

  /** Grouping the last trees under a node keeps the tokens and appends one event. */
  lemma {:induction false} ReduceEvents(forest: seq<Tree>, n: nat, r: int)
    requires n <= |forest|
    ensures var node := Node(r, forest[n..]);
      && YieldAll(forest[..n] + [node]) == YieldAll(forest)
      && YieldAll(forest) == YieldAll(forest[..n]) + Yield(node)
      && EventsAll(forest[..n] + [node]) == EventsAll(forest) + [Reduced(r, LastToken(Yield(node)))]
  {
    var node := Node(r, forest[n..]);
    YieldAllConcat(forest[..n], forest[n..]);
    assert forest[..n] + forest[n..] == forest;
    YieldAllConcat(forest[..n], [node]);
    YieldAllOne(node);
  }

  lemma {:induction false} YieldNonempty(m: Automaton, tree: Tree)
    requires m.Valid() && WfTree(m, tree)
    ensures Yield(tree) != []
  {
    match tree
    case Leaf(_) =>
    case Node(r, kids) =>
      assert m.RuleOk(r);
      YieldNonempty(m, kids[0]);
  }

  lemma {:induction false} ShiftForest(m: Automaton, w: seq<Token>, stack: seq<int>, pos: nat, forest: seq<Tree>)
    requires Represents(m, w, stack, pos, forest) && Top(stack) != m.t.final
    requires Decide(m, w, stack, pos).Shift?
    ensures var leaf := Leaf(At(w, pos));
      && Represents(m, w, ShiftTo(m, w, stack, pos), pos + 1, forest + [leaf])
      && EventsAll(forest + [leaf]) == EventsAll(forest) + [Shifted(At(w, pos))]
  {
    var leaf := Leaf(At(w, pos));
    ShiftConfig(m, w, stack, pos);
    PushPath(m, stack, At(w, pos).sym);
    PushMatches(m, stack, forest, Next(m.t, Top(stack), At(w, pos).sym), leaf);
    assert (w + [END_TOKEN])[..pos + 1] == (w + [END_TOKEN])[..pos] + [At(w, pos)];
  }

  lemma {:induction false} LvalIsLast(w: seq<Token>, pos: nat, a: seq<Token>, b: seq<Token>)
    requires pos <= |w| + 1 && b != [] && (w + [END_TOKEN])[..pos] == a + b
    ensures LastToken(b) == Lval(w, pos)
  {
    assert (a + b)[pos - 1] == b[|b| - 1];
  }

  lemma {:induction false} ReduceForest(m: Automaton, w: seq<Token>, stack: seq<int>, pos: nat, forest: seq<Tree>,
                                        r: int)
    requires Represents(m, w, stack, pos, forest) && Top(stack) != m.t.final
    requires Decide(m, w, stack, pos) == Reduce(r)
    ensures START < r < m.nrules && |m.rules(r).rhs| <= |forest| && |m.rules(r).rhs| < |stack|
    ensures var n := |forest| - |m.rules(r).rhs|; var node := Node(r, forest[n..]);
      && Represents(m, w, ReduceTo(m, stack, r), pos, forest[..n] + [node])
      && EventsAll(forest[..n] + [node]) == EventsAll(forest) + [Reduced(r, Lval(w, pos))]
  {
    hide Matches, StackWeight, ActionOn, IsInput, EventsAll, YieldAll, Decide, EdgeAt;
    ReduceConfig(m, w, stack, pos);
    ReduceMatches(m, stack, forest, r, Top(ReduceTo(m, stack, r)));
    var n := |forest| - |m.rules(r).rhs|;
    var node := Node(r, forest[n..]);
    YieldNonempty(m, node);
    ReduceEvents(forest, n, r);
    LvalIsLast(w, pos, YieldAll(forest[..n]), Yield(node));
  }

  /** Along a run the forest records all events; at its end it shows how the run ended. */
  lemma {:induction false} RunForest(m: Automaton, w: seq<Token>, stack: seq<int>, pos: nat, forest: seq<Tree>)
    returns (stack': seq<int>, pos': nat, forest': seq<Tree>)
    requires Represents(m, w, stack, pos, forest)
    ensures Represents(m, w, stack', pos', forest')
    ensures EventsAll(forest') == EventsAll(forest) + Run(m, w, stack, pos).1
    ensures match Run(m, w, stack, pos).0
      case Accepted => Top(stack') == m.t.final && |stack'| < YYMAXDEPTH
      case SyntaxError => Top(stack') != m.t.final && Decide(m, w, stack', pos') == Fail
      case Exhausted => |stack'| >= YYMAXDEPTH
    decreases |w| + 1 - pos, StackWeight(m, stack)
  {
    hide Matches, IsStep, StepEvent, StackWeight, EventsAll, YieldAll, ActionOn, IsInput;
    stack', pos', forest' := stack, pos, forest;
    if |stack| < YYMAXDEPTH && Top(stack) != m.t.final && Decide(m, w, stack, pos) != Fail {
      var stack1, pos1, forest1 := StepForest(m, w, stack, pos, forest);
      stack', pos', forest' := RunForest(m, w, stack1, pos1, forest1);
    }
  }

  /** What the next action does, and the configuration it leads to. */
  ghost function StepEvent(m: Automaton, w: seq<Token>, stack: seq<int>, pos: nat): Event
    requires IsConfig(m, w, stack, pos)
  {
    var a := Decide(m, w, stack, pos);
    if a.Reduce? then Reduced(a.rule, Lval(w, pos)) else Shifted(At(w, pos))
  }

  /** How an event changes the height of the stack. */
  predicate Resizes(m: Automaton, event: Event, from: int, to: int) {
    match event
    case Shifted(_) => to == from + 1
    case Reduced(r, _) =>
      START < r < m.nrules && 0 < |m.rules(r).rhs| < from && to == from - |m.rules(r).rhs| + 1
  }

  /** How an event changes the stack: a shift pushes a state of its token, and a reduction puts a state of
      its left-hand side in the place of its right-hand side. */
  ghost predicate Follows(m: Automaton, stack: seq<int>, event: Event, stack': seq<int>) {
    stack' != [] &&
    match event
    case Shifted(tok) => stack' == stack + [Top(stack')] && m.stos(Top(stack')) == tok.sym < m.t.ntokens
    case Reduced(r, _) =>
      && START < r < m.nrules && m.rules(r).rhs != [] && Spells(m, stack, r)
      && stack' == stack[..|stack| - |m.rules(r).rhs|] + [Top(stack')] && m.stos(Top(stack')) == m.rules(r).lhs
  }

  ghost predicate IsStep(m: Automaton, w: seq<Token>, stack: seq<int>, pos: nat, stack': seq<int>, pos': nat)
    requires IsConfig(m, w, stack, pos)
  {
    match Decide(m, w, stack, pos)
    case Shift(_) => stack' == ShiftTo(m, w, stack, pos) && pos' == pos + 1
    case Reduce(r) => Spells(m, stack, r) && stack' == ReduceTo(m, stack, r) && pos' == pos
    case Fail => false
  }

  /** One step keeps the forest in line with the stack and brings the run closer to its end. */
  lemma {:induction false} StepForest(m: Automaton, w: seq<Token>, stack: seq<int>, pos: nat, forest: seq<Tree>)
    returns (stack': seq<int>, pos': nat, forest': seq<Tree>)
    requires Represents(m, w, stack, pos, forest)
    requires |stack| < YYMAXDEPTH && Top(stack) != m.t.final && Decide(m, w, stack, pos) != Fail
    ensures IsStep(m, w, stack, pos, stack', pos')
    ensures Resizes(m, StepEvent(m, w, stack, pos), |stack|, |stack'|)
    ensures Represents(m, w, stack', pos', forest')
    ensures EventsAll(forest') == EventsAll(forest) + [StepEvent(m, w, stack, pos)]
    ensures Run(m, w, stack, pos).0 == Run(m, w, stack', pos').0
    ensures Run(m, w, stack, pos).1 == [StepEvent(m, w, stack, pos)] + Run(m, w, stack', pos').1
    ensures pos < pos' <= |w| + 1 || (pos' == pos && StackWeight(m, stack') < StackWeight(m, stack))
  {
    match Decide(m, w, stack, pos)
    case Shift(_) =>
      ShiftForest(m, w, stack, pos, forest);
      stack', pos', forest' := ShiftTo(m, w, stack, pos), pos + 1, forest + [Leaf(At(w, pos))];
    case Reduce(r) =>
      ReduceConfig(m, w, stack, pos);
      ReduceForest(m, w, stack, pos, forest, r);
      var n := |forest| - |m.rules(r).rhs|;
      stack', pos', forest' := ReduceTo(m, stack, r), pos, forest[..n] + [Node(r, forest[n..])];
  }

  /** In the final state the stack holds the start rule's right-hand side and nothing else. */
  lemma {:induction false} FinalStack(m: Automaton, stack: seq<int>)
    requires m.Valid() && IsPath(m, stack) && Top(stack) == m.t.final
    ensures |stack| == 3 && m.stos(stack[1]) == m.rules(START).rhs[0] && m.stos(stack[2]) == m.rules(START).rhs[1]
  {
    var k := |stack| - 1;
    assert EdgeAt(m, stack, k);
    var p := stack[k - 1];
    var e := m.via(p, m.stos(stack[k]));
    assert m.StateOk(p);
    assert m.EdgeOk(p, m.stos(stack[k]));
    assert m.RuleOk(e.rule);
    assert e == Item(START, 1);
    assert m.AdvanceOk(p, e);
    WalkBack(m, stack, START, 2);
    var b := stack[|stack| - 3];
    assert m.StateOk(b);
    assert m.KernelOk(b, Item(START, 0));
    if |stack| > 3 {
      TakePath(m, stack, |stack| - 3);
      assert EdgeAt(m, stack, |stack| - 3);
      PushPath(m, stack[..|stack| - 3], m.stos(b));
    }
  }

  /** `tree` derives exactly the input followed by the end marker. */
  ghost predicate Derives(m: Automaton, tree: Tree, w: seq<Token>) {
    WfTree(m, tree) && tree.Node? && tree.rule == START && Yield(tree) == w + [END_TOKEN]
  }

  lemma {:induction false} InitialConfig(m: Automaton, w: seq<Token>)
    requires m.Valid() && IsInput(m, w)
    ensures IsConfig(m, w, [0], 0) && Represents(m, w, [0], 0, [])
  {
  }

  /** An accepted input has a derivation, and the parser has walked it in postorder. */
  lemma {:induction false} RunIsSound(m: Automaton, w: seq<Token>) returns (tree: Tree)
    requires m.Valid() && IsInput(m, w) && Run(m, w, [0], 0).0 == Accepted
    ensures Derives(m, tree, w) && Run(m, w, [0], 0).1 == EventsAll(tree.kids)
  {
    InitialConfig(m, w);
    var stack, pos, forest := RunForest(m, w, [0], 0, []);
    FinalStack(m, stack);
    assert m.RuleOk(START);
    tree := Node(START, forest);
    assert (w + [END_TOKEN])[..pos] == w + [END_TOKEN];
  }

  // ----- Completeness: every derivation is found -----

  /** The tokens `toks` are next in the input. */
  predicate Ahead(w: seq<Token>, pos: nat, toks: seq<Token>) {
    && pos + |toks| <= |w| + 1
    && forall i :: 0 <= i < |toks| ==> At(w, pos + i) == toks[i]
  }

  lemma {:induction false} AheadSplit(w: seq<Token>, pos: nat, a: seq<Token>, b: seq<Token>)
    requires Ahead(w, pos, a + b)
    ensures Ahead(w, pos, a) && Ahead(w, pos + |a|, b)
  {
    forall i | 0 <= i < |a| ensures At(w, pos + i) == a[i] {
      assert (a + b)[i] == a[i];
    }
    forall i | 0 <= i < |b| ensures At(w, pos + |a| + i) == b[i] {
      assert (a + b)[|a| + i] == b[i];
    }
  }

  /** The stack after the trees have been parsed one after the other. */
  ghost function PushAll(m: Automaton, stack: seq<int>, trees: seq<Tree>): seq<int>
    requires m.Valid() && stack != [] && InRange(m, stack)
    decreases trees
  {
    if trees == [] then stack
    else
      var n := Next(m.t, Top(stack), Sym(m, trees[0]));
      if 0 <= n < |m.t.pact| then PushAll(m, stack + [n], trees[1..]) else stack
  }

  /** How a run from `stack` continues once it has parsed `events` up to `stack'`. */
  ghost predicate Reaches(m: Automaton, w: seq<Token>, stack: seq<int>, pos: nat, need: nat, events: seq<Event>,
                          stack': seq<int>, pos': nat)
    requires IsConfig(m, w, stack, pos)
  {
    if |stack| + need >= YYMAXDEPTH then Run(m, w, stack, pos).0 == Exhausted
    else
      && IsConfig(m, w, stack', pos')
      && Run(m, w, stack, pos).0 == Run(m, w, stack', pos').0
      && Run(m, w, stack, pos).1 == events + Run(m, w, stack', pos').1
  }

  lemma {:induction false} ReachedConfig(m: Automaton, w: seq<Token>, s0: seq<int>, p0: nat, need: nat, e: seq<Event>,
                        s1: seq<int>, p1: nat)
    requires IsConfig(m, w, s0, p0) && Reaches(m, w, s0, p0, need, e, s1, p1) && |s0| + need < YYMAXDEPTH
    ensures IsConfig(m, w, s1, p1)
  {
  }

  lemma {:induction false} ReachesTrans(m: Automaton, w: seq<Token>, s0: seq<int>, p0: nat, n1: nat, e1: seq<Event>,
                       s1: seq<int>, p1: nat, n2: nat, e2: seq<Event>, s2: seq<int>, p2: nat)
    requires IsConfig(m, w, s0, p0) && Reaches(m, w, s0, p0, n1, e1, s1, p1)
    requires |s0| + n1 < YYMAXDEPTH ==> |s1| == |s0| + 1 && Reaches(m, w, s1, p1, n2, e2, s2, p2)
    ensures Reaches(m, w, s0, p0, Max(n1, 1 + n2), e1 + e2, s2, p2)
  {
  }

  /** In a state that expects the next token, the tables shift it. */
  lemma {:induction false} RunLeaf(m: Automaton, w: seq<Token>, stack: seq<int>, pos: nat)
    requires IsConfig(m, w, stack, pos) && Top(stack) != m.t.final
    requires m.Expects(Top(stack), At(w, pos).sym)
    ensures Reaches(m, w, stack, pos, 1, [Shifted(At(w, pos))], ShiftTo(m, w, stack, pos), pos + 1)
  {
    var s, a := Top(stack), At(w, pos).sym;
    assert m.StateOk(s);
    assert m.EdgeOk(s, a);
    assert 0 <= a < m.t.ntokens;
    ShiftConfig(m, w, stack, pos);
  }

  lemma {:induction false} NeedCovers(trees: seq<Tree>)
    ensures |trees| <= NeedAll(trees)
  {
    if trees != [] {
      NeedCovers(trees[1..]);
    }
  }

  /** With a whole right-hand side on the stack, the tables reduce it. */
  lemma {:induction false} FinishRule(m: Automaton, w: seq<Token>, stack: seq<int>, pos: nat, r: int)
    requires IsConfig(m, w, stack, pos) && 1 < |stack| < YYMAXDEPTH && START < r < m.nrules
    requires m.has(Top(stack), Item(r, |m.rules(r).rhs|))
    ensures Spells(m, stack, r) && IsConfig(m, w, ReduceTo(m, stack, r), pos)
    ensures Run(m, w, stack, pos).0 == Run(m, w, ReduceTo(m, stack, r), pos).0
    ensures Run(m, w, stack, pos).1 == [Reduced(r, Lval(w, pos))] + Run(m, w, ReduceTo(m, stack, r), pos).1
  {
    var s := Top(stack);
    var it := Item(r, |m.rules(r).rhs|);
    assert m.RuleOk(r);
    assert m.StateOk(s);
    assert m.CompleteOk(s, it);
    assert m.KernelOk(s, it);
    assert EdgeAt(m, stack, |stack| - 1);
    TakePath(m, stack, |stack| - 1);
    PushPath(m, stack[..|stack| - 1], m.stos(s));
    ReduceConfig(m, w, stack, pos);
  }

  lemma {:induction false} ReachesReduce(m: Automaton, w: seq<Token>, s0: seq<int>, p0: nat, need: nat, e: seq<Event>,
                        s1: seq<int>, p: nat, last: Event, s2: seq<int>)
    requires IsConfig(m, w, s0, p0) && Reaches(m, w, s0, p0, need, e, s1, p)
    requires |s0| + need < YYMAXDEPTH ==>
      && IsConfig(m, w, s2, p)
      && Run(m, w, s1, p).0 == Run(m, w, s2, p).0 && Run(m, w, s1, p).1 == [last] + Run(m, w, s2, p).1
    ensures Reaches(m, w, s0, p0, need, e + [last], s2, p)
  {
  }

  /** From a state that expects the root of a tree whose tokens come next, the automaton parses
      the tree, unless its stack need runs into the stack limit. */
  lemma {:induction false} RunTree(m: Automaton, w: seq<Token>, stack: seq<int>, pos: nat, tree: Tree)
    requires IsConfig(m, w, stack, pos) && Top(stack) != m.t.final
    requires WfTree(m, tree) && m.Expects(Top(stack), Sym(m, tree)) && Ahead(w, pos, Yield(tree))
    ensures Reaches(m, w, stack, pos, Need(tree), Events(tree),
                    stack + [Next(m.t, Top(stack), Sym(m, tree))], pos + |Yield(tree)|)
    decreases tree, 0
  {
    match tree
    case Leaf(tok) =>
      assert Yield(tree)[0] == tok;
      RunLeaf(m, w, stack, pos);
    case Node(r, kids) =>
      StartRule(m, stack, r);
      assert kids[0..] == kids;
      RunKids(m, w, stack, pos, r, kids, 0);
      RunNode(m, w, stack, pos, r, kids);
  }

  /** The stack and the token read last when a whole right-hand side has been parsed. */
  lemma {:induction false} KidsOnStack(m: Automaton, w: seq<Token>, stack: seq<int>, pos: nat, r: int, kids: seq<Tree>)
    requires IsConfig(m, w, stack, pos) && WfTree(m, Node(r, kids)) && START < r
    requires m.has(Top(stack), Item(r, 0)) && Ahead(w, pos, YieldAll(kids))
    ensures r < m.nrules && 0 < |m.rules(r).rhs| == |kids| <= NeedAll(kids)
    ensures var stack' := PushAll(m, stack, kids);
      && 1 < |stack'| == |stack| + |kids| && IsPath(m, stack') && m.has(Top(stack'), Item(r, |m.rules(r).rhs|))
      && ReduceTo(m, stack', r) == stack + [Next(m.t, Top(stack), m.rules(r).lhs)]
    ensures Lval(w, pos + |YieldAll(kids)|) == LastToken(YieldAll(kids))
  {
    assert m.RuleOk(r);
    NeedCovers(kids);
    assert kids[0..] == kids;
    PushKids(m, stack, r, kids, 0);
    YieldNonempty(m, Node(r, kids));
  }

  lemma {:induction false} NodeUnfolds(r: int, kids: seq<Tree>)
    requires kids != [] && |kids| <= NeedAll(kids)
    ensures Need(Node(r, kids)) == NeedAll(kids)
    ensures Events(Node(r, kids)) == EventsAll(kids) + [Reduced(r, LastToken(YieldAll(kids)))]
  {
  }

  lemma {:induction false} RunNode(m: Automaton, w: seq<Token>, stack: seq<int>, pos: nat, r: int, kids: seq<Tree>)
    requires IsConfig(m, w, stack, pos) && WfTree(m, Node(r, kids)) && START < r
    requires m.has(Top(stack), Item(r, 0))
    requires Ahead(w, pos, YieldAll(kids)) && ReachesAll(m, w, stack, pos, kids)
    ensures Reaches(m, w, stack, pos, Need(Node(r, kids)), Events(Node(r, kids)),
                    stack + [Next(m.t, Top(stack), m.rules(r).lhs)], pos + |YieldAll(kids)|)
  {
    KidsOnStack(m, w, stack, pos, r, kids);
    NodeUnfolds(r, kids);
    hide Reaches, EventsAll, PushAll, YieldAll, WfTree, Events, Need, NeedAll, ReduceTo, IsPath, Next, Ahead, Lval;
    var stack' := PushAll(m, stack, kids);
    var pos' := pos + |YieldAll(kids)|;
    if |stack| + NeedAll(kids) < YYMAXDEPTH {
      ReachedConfig(m, w, stack, pos, NeedAll(kids), EventsAll(kids), stack', pos');
      FinishRule(m, w, stack', pos', r);
    }
    ReachesReduce(m, w, stack, pos, NeedAll(kids), EventsAll(kids), stack', pos',
                  Reduced(r, LastToken(YieldAll(kids))), stack + [Next(m.t, Top(stack), m.rules(r).lhs)]);
  }

  lemma {:induction false} StartRule(m: Automaton, stack: seq<int>, r: int)
    requires m.Valid() && IsPath(m, stack) && START <= r < m.nrules && m.Expects(Top(stack), m.rules(r).lhs)
    ensures START < r && m.has(Top(stack), Item(r, 0)) && 0 < |m.rules(r).rhs|
  {
    var s, x := Top(stack), m.rules(r).lhs;
    assert m.StateOk(s);
    assert m.EdgeOk(s, x);
    assert m.RuleOk(m.via(s, x).rule);
    assert m.RuleOk(r);
    assert m.ClosureOk(s, x);
  }

  /** Pushing the rest of a right-hand side leads to the state where the rule is complete. */
  lemma {:induction false} PushKids(m: Automaton, stack: seq<int>, r: int, kids: seq<Tree>, d: nat)
    requires m.Valid() && IsPath(m, stack)
    requires START <= r < m.nrules && |kids| == |m.rules(r).rhs| && d <= |kids|
    requires m.has(Top(stack), Item(r, d))
    requires forall i :: d <= i < |kids| ==> Sym(m, kids[i]) == m.rules(r).rhs[i]
    ensures var stack' := PushAll(m, stack, kids[d..]);
      && IsPath(m, stack') && |stack'| == |stack| + |kids| - d && stack'[..|stack|] == stack
      && m.has(Top(stack'), Item(r, |kids|))
    decreases |kids| - d
  {
    if d < |kids| {
      assert kids[d..][1..] == kids[d + 1..];
      StepItem(m, stack, r, d);
      var next := stack + [Next(m.t, Top(stack), Sym(m, kids[d]))];
      PushKids(m, next, r, kids, d + 1);
      var stack' := PushAll(m, next, kids[d + 1..]);
      assert stack'[..|stack|] == stack'[..|next|][..|stack|];
    }
  }

  /** The automaton parses the trees one after the other from `stack`. */
  ghost predicate ReachesAll(m: Automaton, w: seq<Token>, stack: seq<int>, pos: nat, trees: seq<Tree>)
    requires IsConfig(m, w, stack, pos)
  {
    Reaches(m, w, stack, pos, NeedAll(trees), EventsAll(trees), PushAll(m, stack, trees), pos + |YieldAll(trees)|)
  }

  lemma {:induction false} UnfoldTrees(m: Automaton, stack: seq<int>, trees: seq<Tree>)
    requires m.Valid() && stack != [] && InRange(m, stack) && trees != []
    requires 0 <= Next(m.t, Top(stack), Sym(m, trees[0])) < |m.t.pact|
    ensures NeedAll(trees) == Max(Need(trees[0]), 1 + NeedAll(trees[1..]))
    ensures YieldAll(trees) == Yield(trees[0]) + YieldAll(trees[1..])
    ensures EventsAll(trees) == Events(trees[0]) + EventsAll(trees[1..])
    ensures PushAll(m, stack, trees) == PushAll(m, stack + [Next(m.t, Top(stack), Sym(m, trees[0]))], trees[1..])
  {
  }

  lemma {:induction false} ReachesMore(m: Automaton, w: seq<Token>, stack: seq<int>, pos: nat, trees: seq<Tree>)
    requires IsConfig(m, w, stack, pos) && trees != []
    requires 0 <= Next(m.t, Top(stack), Sym(m, trees[0])) < |m.t.pact|
    requires var next := stack + [Next(m.t, Top(stack), Sym(m, trees[0]))];
      var pos' := pos + |Yield(trees[0])|;
      && Reaches(m, w, stack, pos, Need(trees[0]), Events(trees[0]), next, pos')
      && (|stack| + Need(trees[0]) < YYMAXDEPTH ==>
            IsConfig(m, w, next, pos') && ReachesAll(m, w, next, pos', trees[1..]))
    ensures ReachesAll(m, w, stack, pos, trees)
  {
    UnfoldTrees(m, stack, trees);
    var next := stack + [Next(m.t, Top(stack), Sym(m, trees[0]))];
    hide Reaches;
    ReachesTrans(m, w, stack, pos, Need(trees[0]), Events(trees[0]), next, pos + |Yield(trees[0])|,
                 NeedAll(trees[1..]), EventsAll(trees[1..]), PushAll(m, next, trees[1..]), pos + |YieldAll(trees)|);
  }

  /** From a state with the dot in front of symbol `d` of a rule, the automaton parses the rest. */
  lemma {:induction false} RunKids(m: Automaton, w: seq<Token>, stack: seq<int>, pos: nat, r: int, kids: seq<Tree>,
                                   d: nat)
    requires IsConfig(m, w, stack, pos)
    requires START <= r < m.nrules && |kids| == |m.rules(r).rhs| && d <= |kids|
    requires m.has(Top(stack), Item(r, d))
    requires forall i :: d <= i < |kids| ==> WfTree(m, kids[i]) && Sym(m, kids[i]) == m.rules(r).rhs[i]
    requires Ahead(w, pos, YieldAll(kids[d..]))
    ensures ReachesAll(m, w, stack, pos, kids[d..])
    decreases kids[d..], 1
  {
    var rest := kids[d..];
    if rest != [] {
      assert rest[0] == kids[d] && rest[1..] == kids[d + 1..];
      StepItem(m, stack, r, d);
      YieldNonempty(m, rest[0]);
      AheadSplit(w, pos, Yield(rest[0]), YieldAll(rest[1..]));
      var next := stack + [Next(m.t, Top(stack), Sym(m, rest[0]))];
      RunTree(m, w, stack, pos, rest[0]);
      hide Reaches, ReachesAll;
      if |stack| + Need(rest[0]) < YYMAXDEPTH {
        ReachedConfig(m, w, stack, pos, Need(rest[0]), Events(rest[0]), next, pos + |Yield(rest[0])|);
        RunKids(m, w, next, pos + |Yield(rest[0])|, r, kids, d + 1);
      }
      ReachesMore(m, w, stack, pos, rest);
    }
  }

  lemma {:induction false} StepItem(m: Automaton, stack: seq<int>, r: int, d: nat)
    requires m.Valid() && IsPath(m, stack) && START <= r < m.nrules && d < |m.rules(r).rhs|
    requires m.has(Top(stack), Item(r, d))
    ensures m.Expects(Top(stack), m.rules(r).rhs[d])
    ensures var n := Next(m.t, Top(stack), m.rules(r).rhs[d]);
      0 <= n < |m.t.pact| && IsPath(m, stack + [n]) && m.has(n, Item(r, d + 1))
  {
    assert m.StateOk(Top(stack));
    assert m.AdvanceOk(Top(stack), Item(r, d));
    assert m.EdgeOk(Top(stack), m.rules(r).rhs[d]);
    PushPath(m, stack, m.rules(r).rhs[d]);
  }

  /** Whether the parse of a whole input stays under the stack limit. */
  predicate Fits(tree: Tree) {
    tree.Node? && 1 + NeedAll(tree.kids) < YYMAXDEPTH
  }

  /** A derivable input is accepted, by walking its derivation, unless the stack limit is hit. */
  lemma {:induction false} RunIsComplete(m: Automaton, w: seq<Token>, tree: Tree)
    requires m.Valid() && IsInput(m, w) && Derives(m, tree, w)
    ensures Run(m, w, [0], 0).0 == if Fits(tree) then Accepted else Exhausted
    ensures Fits(tree) ==> Run(m, w, [0], 0).1 == EventsAll(tree.kids)
  {
    InitialConfig(m, w);
    var kids := tree.kids;
    assert kids[0..] == kids;
    forall i | 0 <= i < |w| + 1 ensures At(w, i) == (w + [END_TOKEN])[i] {}
    RunKids(m, w, [0], 0, START, kids, 0);
    if Fits(tree) {
      PushKids(m, [0], START, kids, 0);
      var stack' := PushAll(m, [0], kids);
      assert m.StateOk(Top(stack'));
      assert m.CompleteOk(Top(stack'), Item(START, 2));
    }
  }

  /** The automaton accepts exactly the inputs that its grammar derives within the stack limit. */
  lemma {:induction false} RunIsExact(m: Automaton, w: seq<Token>)
    requires m.Valid() && IsInput(m, w)
    ensures Run(m, w, [0], 0).0 == Accepted <==> exists tree :: Derives(m, tree, w) && Fits(tree)
    ensures Run(m, w, [0], 0).0 == SyntaxError ==> !exists tree :: Derives(m, tree, w)
  {
    InitialConfig(m, w);
    if Run(m, w, [0], 0).0 == Accepted {
      var tree := RunIsSound(m, w);
      RunIsComplete(m, w, tree);
    }
    forall tree | Derives(m, tree, w)
      ensures Run(m, w, [0], 0).0 == if Fits(tree) then Accepted else Exhausted
    {
      RunIsComplete(m, w, tree);
    }
  }

  // ----- The parser loop -----

  datatype Lookahead = Empty | Read(tok: Token)

  /** One pass through the parser loop: a shift or a reduction, or the end of the parse. */
  datatype Step = Do(event: Event) | Done(outcome: Outcome)

  function ResultCode(o: Outcome): int {
    match o
    case Accepted => 0
    case SyntaxError => 1
    case Exhausted => 2
  }

  /** The state that `yyparse` updates as it goes round its loop. */
  class Driver {
    const m: Automaton
    const w: seq<Token>
    var yyss: seq<int>       // the state stack
    var yystacksize: nat     // its allocated size
    var yychar: Lookahead
    var yylval: Token
    var yyerrstatus: nat
    var read: nat            // how many tokens the lexer has delivered
    ghost var forest: seq<Tree>  // what the stack stands for

    ghost predicate Valid()
      reads this
    {
      && Represents(m, w, yyss, read, forest)
      && yychar == Empty && yylval == Lval(w, read)
      && YYINITDEPTH <= yystacksize <= YYMAXDEPTH && |yyss| <= yystacksize
    }

    ghost function Weight(): nat
      reads this
      requires Valid()
    {
      StackWeight(m, yyss)
    }

    /** The rest of the parse. */
    ghost function Rest(): (Outcome, seq<Event>)
      reads this
      requires Valid()
    {
      Run(m, w, yyss, read)
    }

    constructor (m: Automaton, w: seq<Token>)
      requires m.Valid() && IsInput(m, w)
      ensures Valid() && this.m == m && this.w == w && yyss == [0] && read == 0 && forest == []
      ensures yystacksize == YYINITDEPTH
    {
      this.m, this.w := m, w;
      yyss, yystacksize, yychar, yylval, yyerrstatus, read := [0], YYINITDEPTH, Empty, END_TOKEN, 0, 0;
      forest := [];
    }

    /** Makes room for one more state, doubling the stack up to its limit. */
    method Reserve() returns (outcome: Outcome)
      requires Valid()
      modifies this`yystacksize
      ensures outcome == if |yyss| >= YYMAXDEPTH then Exhausted else Accepted
      ensures Valid() && (outcome == Accepted ==> |yyss| < yystacksize)
      ensures |yyss| < old(yystacksize) ==> yystacksize == old(yystacksize)
      ensures outcome == Accepted && |yyss| == old(yystacksize) ==>
        yystacksize == if 2 * old(yystacksize) < YYMAXDEPTH then 2 * old(yystacksize) else YYMAXDEPTH
    {
      if yystacksize <= |yyss| {
        if YYMAXDEPTH <= yystacksize {
          return Exhausted;
        }
        yystacksize := yystacksize * 2;
        if YYMAXDEPTH < yystacksize {
          yystacksize := YYMAXDEPTH;
        }
        if yystacksize <= |yyss| {
          return SyntaxError;
        }
      }
      return Accepted;
    }

    /** Pops states until one can shift the `error` token; none can, so the stack runs empty. */
    method Recover() returns (recovered: bool)
      requires m.Valid() && IsPath(m, yyss)
      modifies this`yyss, this`yyerrstatus
      ensures !recovered && yyss == [0] && yyerrstatus == 3
    {
      yyerrstatus := 3;
      while true
        invariant |yyss| > 0 && yyss[0] == 0 && InRange(m, yyss) && yyerrstatus == 3
        decreases |yyss|
      {
        var s := yyss[|yyss| - 1];
        assert m.StateOk(s);
        var n := m.t.pact[s];
        if n != m.t.ninf {
          n := n + YYTERROR;
          if 0 <= n <= m.t.last && m.t.check[n] == YYTERROR {
            n := m.t.table[n];
            if 0 < n {
              return true;
            }
          }
        }
        if |yyss| == 1 {
          return false;
        }
        yyss := yyss[..|yyss| - 1];
      }
    }

    /** Looks at the next token, reading it if that has not been done yet. */
    method Lex() returns (tok: Token)
      modifies this`yychar, this`yylval, this`read
      ensures old(yychar) == Empty ==>
        tok == At(w, old(read)) && yylval == tok && read == old(read) + 1 && yychar == Read(tok)
      ensures old(yychar).Read? ==>
        tok == old(yychar).tok && yylval == old(yylval) && read == old(read) && yychar == old(yychar)
    {
      if yychar == Empty {
        tok := At(w, read);
        yychar, yylval, read := Read(tok), tok, read + 1;
      } else {
        tok := yychar.tok;
      }
    }

    /** Pops a right-hand side and pushes the state that the goto tables give for its rule. */
    method ReduceBy(rule: int)
      requires m.Valid() && IsPath(m, yyss) && START < rule < m.nrules
      requires m.has(Top(yyss), Item(rule, |m.rules(rule).rhs|))
      modifies this`yyss
      ensures Spells(m, old(yyss), rule) && yyss == ReduceTo(m, old(yyss), rule)
    {
      PopPath(m, yyss, rule);
      assert m.RuleOk(rule);
      yyss := yyss[..|yyss| - m.t.r2[rule]];
      var s := yyss[|yyss| - 1];
      assert m.StateOk(s);
      assert m.EdgeOk(s, m.rules(rule).lhs);
      var x := m.t.r1[rule] - m.t.ntokens;
      var n := m.t.pgoto[x] + s;
      if 0 <= n <= m.t.last && m.t.check[n] == s {
        n := m.t.table[n];
      } else {
        n := m.t.defgoto[x];
      }
      yyss := yyss + [n];
    }

    /** The label `yybackup`: decides what to do, reading a token only if the state needs one. */
    method Backup() returns (action: Action)
      requires Valid() && Top(yyss) != m.t.final
      modifies this`yychar, this`yylval, this`read
      ensures action == Decide(m, w, yyss, old(read))
      ensures action.Reduce? ==> Valid() && read == old(read)
      ensures action.Shift? ==> yylval == At(w, old(read)) && read == old(read) + 1
    {
      ghost var decision := Decide(m, w, yyss, read);
      if decision.Reduce? {
        ReduceConfig(m, w, yyss, read);
      }
      var s := yyss[|yyss| - 1];
      if m.t.pact[s] != m.t.ninf {
        var tok := Lex();
        var n := m.t.pact[s] + tok.sym;
        if 0 <= n <= m.t.last && m.t.check[n] == tok.sym {
          return if m.t.table[n] <= 0 then Reduce(-m.t.table[n]) else Shift(m.t.table[n]);
        }
      }
      return if m.t.defact[s] == 0 then Fail else Reduce(m.t.defact[s]);
    }

    /** Shifts or reduces, as `Backup` has decided at token `pos`. */
    method Take(action: Action, ghost pos: nat) returns (event: Event)
      requires Represents(m, w, yyss, pos, forest) && Top(yyss) != m.t.final
      requires |yyss| < yystacksize && YYINITDEPTH <= yystacksize <= YYMAXDEPTH
      requires action != Fail && action == Decide(m, w, yyss, pos)
      requires action.Reduce? ==> yychar == Empty && read == pos && yylval == Lval(w, pos)
      requires action.Shift? ==> read == pos + 1 && yylval == At(w, pos)
      modifies this
      ensures Valid() && event == StepEvent(m, w, old(yyss), pos) && Resizes(m, event, |old(yyss)|, |yyss|)
      ensures Follows(m, old(yyss), event, yyss)
      ensures yystacksize == old(yystacksize)
      ensures yyerrstatus == if event.Shifted? && old(yyerrstatus) > 0 then old(yyerrstatus) - 1 else old(yyerrstatus)
      ensures Run(m, w, old(yyss), pos) == (Rest().0, [event] + Rest().1)
      ensures EventsAll(forest) == EventsAll(old(forest)) + [event]
      ensures pos < read <= |w| + 1 || (read == pos && StackWeight(m, yyss) < StackWeight(m, old(yyss)))
    {
      hide Matches, StackWeight, EventsAll, YieldAll, ActionOn, IsInput;
      ghost var stack', pos', forest' := StepForest(m, w, yyss, pos, forest);
      forest := forest';
      match action
      case Shift(n) =>
        ShiftConfig(m, w, yyss, pos);
        if yyerrstatus > 0 {
          yyerrstatus := yyerrstatus - 1;
        }
        yychar := Empty;
        yyss := yyss + [n];
        return Shifted(yylval);
      case Reduce(rule) =>
        ReduceConfig(m, w, yyss, pos);
        ReduceBy(rule);
        return Reduced(rule, yylval);
    }

    /** One pass through the loop does the first thing that the rest of the parse calls for. */
    method Advance() returns (step: Step)
      requires Valid()
      modifies this
      ensures step.Done? ==> old(Rest()) == (step.outcome, []) && forest == old(forest)
      ensures step.Do? ==> Valid() && old(Rest()) == (Rest().0, [step.event] + Rest().1)
      ensures step.Do? ==> EventsAll(forest) == EventsAll(old(forest)) + [step.event]
      ensures step.Do? ==> Resizes(m, step.event, |old(yyss)|, |yyss|) && Follows(m, old(yyss), step.event, yyss)
      ensures |old(yyss)| < old(yystacksize) ==> yystacksize == old(yystacksize)
      ensures step.Do? ==>
        (old(read) < read <= |w| + 1 || (read == old(read) && Weight() < old(Weight())))
    {
      hide Matches, StackWeight, EventsAll, YieldAll, ActionOn, IsInput;
      var room := Reserve();
      if room != Accepted {
        return Done(room);
      }
      if yyss[|yyss| - 1] == m.t.final {
        return Done(Accepted);
      }
      ghost var pos := read;
      var action := Backup();
      if action == Fail {
        var recovered := Recover();
        return Done(SyntaxError);
      }
      var event := Take(action, pos);
      return Do(event);
    }
  }
}
