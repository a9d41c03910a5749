/** The tables of the LDAP filter parser, and the certificate that they implement its grammar. */
module FilterGrammar {
  import opened Bison

  // Terminals, in the parser's internal numbering.
  const L_PAREN := 3
  const R_PAREN := 4
  const OP_AND := 5
  const OP_OR := 6
  const OP_NOT := 7
  const OP_EQU := 8
  const OP_GT := 9
  const OP_LT := 10
  const OP_PRESENT := 11
  const OP_APPROX := 12
  const VAL_INT := 13
  const VAL_BOOL := 14
  const OPERAND := 15

  // Nonterminals.
  const FILTER_LIST := 17
  const FILTER := 18
  const FILTER_OPEN := 19
  const FILTER_CLOSE := 20
  const FILTER_OP := 21
  const EXPRESSION := 22
  const EXP_OPERATOR := 23

  const FILTER_TABLES := Tables(
    [9, -5, 10, -5, -4, -5, -5, -5, -5, -5, -3, 9, 0, -5, -5, -5, -5, -5, 1, 15, -5, -5, -5, -5, -5, -5],
    [0, 6, 0, 2, 0, 1, 3, 8, 9, 10, 0, 0, 0, 15, 16, 17, 11, 18, 0, 0, 7, 5, 12, 13, 14, 4],
    [-5, 11, -2, -5, 2, -5, -5, -5],
    [-1, 2, 3, 4, 21, 11, 12, 18],
    [6, 7, 8, 9, 20, 13, 14, 15, 16, 17, 5, 10, 1, 1, 22, 23, 24, 6, 1, 20, 0, 25, 19],
    [2, 5, 6, 7, 4, 8, 9, 10, 11, 12, 0, 15, 3, 3, 13, 14, 15, 19, 3, 4, -1, 19, 11],
    [0, 16, 17, 17, 18, 18, 19, 20, 21, 21, 21, 22, 22, 22, 22, 23, 23, 23, 23],
    [0, 2, 1, 2, 4, 3, 1, 1, 1, 1, 1, 2, 3, 3, 3, 1, 1, 1, 1],
    -5, 22, 5, 16)

  function FilterRules(k: int): Rule {
    match k
    case 1 => Rule(16, [FILTER_LIST, YYEOF])
    case 2 => Rule(FILTER_LIST, [FILTER])
    case 3 => Rule(FILTER_LIST, [FILTER_LIST, FILTER])
    case 4 => Rule(FILTER, [FILTER_OPEN, FILTER_OP, FILTER_LIST, FILTER_CLOSE])
    case 5 => Rule(FILTER, [FILTER_OPEN, EXPRESSION, FILTER_CLOSE])
    case 6 => Rule(FILTER_OPEN, [L_PAREN])
    case 7 => Rule(FILTER_CLOSE, [R_PAREN])
    case 8 => Rule(FILTER_OP, [OP_AND])
    case 9 => Rule(FILTER_OP, [OP_OR])
    case 10 => Rule(FILTER_OP, [OP_NOT])
    case 11 => Rule(EXPRESSION, [OPERAND, OP_PRESENT])
    case 12 => Rule(EXPRESSION, [OPERAND, EXP_OPERATOR, VAL_INT])
    case 13 => Rule(EXPRESSION, [OPERAND, EXP_OPERATOR, VAL_BOOL])
    case 14 => Rule(EXPRESSION, [OPERAND, EXP_OPERATOR, OPERAND])
    case 15 => Rule(EXP_OPERATOR, [OP_EQU])
    case 16 => Rule(EXP_OPERATOR, [OP_GT])
    case 17 => Rule(EXP_OPERATOR, [OP_LT])
    case 18 => Rule(EXP_OPERATOR, [OP_APPROX])
    case _ => Rule(0, [])
  }

  function FilterStos(s: int): int {
    match s
    case 0 => 0
    case 1 => 3
    case 2 => 17
    case 3 => 18
    case 4 => 19
    case 5 => 0
    case 6 => 18
    case 7 => 5
    case 8 => 6
    case 9 => 7
    case 10 => 15
    case 11 => 21
    case 12 => 22
    case 13 => 8
    case 14 => 9
    case 15 => 10
    case 16 => 11
    case 17 => 12
    case 18 => 23
    case 19 => 17
    case 20 => 4
    case 21 => 20
    case 22 => 13
    case 23 => 14
    case 24 => 15
    case 25 => 20
    case _ => -1
  }

  predicate FilterHas(s: int, it: Item) {
    match s
    case 0 => it in {Item(1, 0), Item(2, 0), Item(3, 0), Item(4, 0), Item(5, 0), Item(6, 0)}
    case 1 => it in {Item(6, 1)}
    case 2 => it in {Item(1, 1), Item(3, 1), Item(4, 0), Item(5, 0), Item(6, 0)}
    case 3 => it in {Item(2, 1)}
    case 4 => it in {Item(4, 1), Item(5, 1), Item(8, 0), Item(9, 0), Item(10, 0), Item(11, 0), Item(12, 0),
                     Item(13, 0), Item(14, 0)}
    case 5 => it in {Item(1, 2)}
    case 6 => it in {Item(3, 2)}
    case 7 => it in {Item(8, 1)}
    case 8 => it in {Item(9, 1)}
    case 9 => it in {Item(10, 1)}
    case 10 => it in {Item(11, 1), Item(12, 1), Item(13, 1), Item(14, 1), Item(15, 0), Item(16, 0), Item(17, 0),
                      Item(18, 0)}
    case 11 => it in {Item(2, 0), Item(3, 0), Item(4, 0), Item(4, 2), Item(5, 0), Item(6, 0)}
    case 12 => it in {Item(5, 2), Item(7, 0)}
    case 13 => it in {Item(15, 1)}
    case 14 => it in {Item(16, 1)}
    case 15 => it in {Item(17, 1)}
    case 16 => it in {Item(11, 2)}
    case 17 => it in {Item(18, 1)}
    case 18 => it in {Item(12, 2), Item(13, 2), Item(14, 2)}
    case 19 => it in {Item(3, 1), Item(4, 0), Item(4, 3), Item(5, 0), Item(6, 0), Item(7, 0)}
    case 20 => it in {Item(7, 1)}
    case 21 => it in {Item(5, 3)}
    case 22 => it in {Item(12, 3)}
    case 23 => it in {Item(13, 3)}
    case 24 => it in {Item(14, 3)}
    case 25 => it in {Item(4, 4)}
    case _ => false
  }

  function FilterTo(s: int, x: int): int {
    match s
    case 0 => (match x case 3 => 1 case 17 => 2 case 18 => 3 case 19 => 4 case _ => 0)
    case 2 => (match x case 0 => 5 case 3 => 1 case 18 => 6 case 19 => 4 case _ => 0)
    case 4 => (match x case 5 => 7 case 6 => 8 case 7 => 9 case 15 => 10 case 21 => 11 case 22 => 12 case _ => 0)
    case 10 => (match x case 8 => 13 case 9 => 14 case 10 => 15 case 11 => 16 case 12 => 17 case 23 => 18 case _ => 0)
    case 11 => (match x case 3 => 1 case 17 => 19 case 18 => 3 case 19 => 4 case _ => 0)
    case 12 => (match x case 4 => 20 case 20 => 21 case _ => 0)
    case 18 => (match x case 13 => 22 case 14 => 23 case 15 => 24 case _ => 0)
    case 19 => (match x case 3 => 1 case 4 => 20 case 18 => 6 case 19 => 4 case 20 => 25 case _ => 0)
    case _ => 0
  }

  function FilterVia(s: int, x: int): Item {
    match s
    case 0 => (match x case 3 => Item(6, 0) case 17 => Item(1, 0) case 18 => Item(2, 0) case 19 => Item(4, 0)
          case _ => Item(0, 0))
    case 2 => (match x case 0 => Item(1, 1) case 3 => Item(6, 0) case 18 => Item(3, 1) case 19 => Item(4, 0)
          case _ => Item(0, 0))
    case 4 => (match x case 5 => Item(8, 0) case 6 => Item(9, 0) case 7 => Item(10, 0) case 15 => Item(11, 0)
          case 21 => Item(4, 1) case 22 => Item(5, 1) case _ => Item(0, 0))
    case 10 => (match x case 8 => Item(15, 0) case 9 => Item(16, 0) case 10 => Item(17, 0)
          case 11 => Item(11, 1) case 12 => Item(18, 0) case 23 => Item(12, 1) case _ => Item(0, 0))
    case 11 => (match x case 3 => Item(6, 0) case 17 => Item(3, 0) case 18 => Item(2, 0) case 19 => Item(4, 0)
          case _ => Item(0, 0))
    case 12 => (match x case 4 => Item(7, 0) case 20 => Item(5, 2) case _ => Item(0, 0))
    case 18 => (match x case 13 => Item(12, 2) case 14 => Item(13, 2) case 15 => Item(14, 2) case _ => Item(0, 0))
    case 19 => (match x case 3 => Item(6, 0) case 4 => Item(7, 0) case 18 => Item(3, 1) case 19 => Item(4, 0)
          case 20 => Item(4, 3) case _ => Item(0, 0))
    case _ => Item(0, 0)
  }

  function FilterDone(s: int): Item {
    match s
    case 1 => Item(6, 1)
    case 3 => Item(2, 1)
    case 6 => Item(3, 2)
    case 7 => Item(8, 1)
    case 8 => Item(9, 1)
    case 9 => Item(10, 1)
    case 13 => Item(15, 1)
    case 14 => Item(16, 1)
    case 15 => Item(17, 1)
    case 16 => Item(11, 2)
    case 17 => Item(18, 1)
    case 20 => Item(7, 1)
    case 21 => Item(5, 3)
    case 22 => Item(12, 3)
    case 23 => Item(13, 3)
    case 24 => Item(14, 3)
    case 25 => Item(4, 4)
    case _ => Item(0, 0)
  }

  const FILTER_AUTOMATON :=
    Automaton(FILTER_TABLES, 19, FilterRules, FilterStos, FilterHas, FilterTo, FilterVia,
              [10, 10, 10, 10, 10, 10, 10, 10, 10, 10, 10, 10, 10, 10, 10, 10, 0, 3, 4, 4, 1, 1, 5, 1])

  lemma {:induction false} FilterKernels(s: int, it: Item)
    requires 0 <= s < 26 && FilterHas(s, it)
    ensures FILTER_AUTOMATON.KernelOk(s, it)
  {
  }

  lemma {:induction false} FilterAdvances(s: int, it: Item)
    requires 0 <= s < 26 && FilterHas(s, it)
    ensures FILTER_AUTOMATON.AdvanceOk(s, it)
  {
    if s < 10 { FilterAdvancesLow(s, it); }
  }

  lemma {:induction false} FilterAdvancesLow(s: int, it: Item)
    requires 0 <= s < 10 && FilterHas(s, it)
    ensures FILTER_AUTOMATON.AdvanceOk(s, it)
  {
  }

  lemma {:induction false} FilterCompletes(s: int, it: Item)
    requires 0 <= s < 26 && FilterHas(s, it) && !FILTER_AUTOMATON.Open(it)
    ensures FILTER_AUTOMATON.CompleteOk(s, it)
  {
  }

  lemma {:induction false} FilterClosures(s: int, x: int)
    requires 0 <= s < 26 && FilterTo(s, x) > 0 && x >= 16
    ensures FILTER_AUTOMATON.ClosureOk(s, x)
  {
  }

  /** The packed tables hold exactly the listed edges of state `s` on terminals. */
  predicate FilterRowOk(s: int, a: int)
    requires 0 <= s < 26
  {
    ActionOn(FILTER_TABLES, s, a) == if FilterTo(s, a) > 0 then Shift(FilterTo(s, a)) else Fail
  }

  lemma {:induction false} FilterRow0(a: int)
    requires 0 <= a < 16
    ensures FilterRowOk(0, a)
  {
    assert FILTER_TABLES.pact[0] == 9;
    assert FilterTo(0, a) <= 0 ==> !(0 <= a + 9 <= 22 && FILTER_TABLES.check[a + 9] == a);
  }

  lemma {:induction false} FilterRow2(a: int)
    requires 0 <= a < 16
    ensures FilterRowOk(2, a)
  {
    assert FILTER_TABLES.pact[2] == 10;
    assert FilterTo(2, a) <= 0 ==> !(0 <= a + 10 <= 22 && FILTER_TABLES.check[a + 10] == a);
  }

  lemma {:induction false} FilterRow4(a: int)
    requires 0 <= a < 16
    ensures FilterRowOk(4, a)
  {
    assert FILTER_TABLES.pact[4] == -4;
    assert FilterTo(4, a) <= 0 ==> !(0 <= a - 4 <= 22 && FILTER_TABLES.check[a - 4] == a);
  }

  lemma {:induction false} FilterRow10(a: int)
    requires 0 <= a < 16
    ensures FilterRowOk(10, a)
  {
    assert FILTER_TABLES.pact[10] == -3;
    assert FilterTo(10, a) <= 0 ==> !(0 <= a - 3 <= 22 && FILTER_TABLES.check[a - 3] == a);
  }

  lemma {:induction false} FilterRow11(a: int)
    requires 0 <= a < 16
    ensures FilterRowOk(11, a)
  {
    assert FILTER_TABLES.pact[11] == 9;
    assert FilterTo(11, a) <= 0 ==> !(0 <= a + 9 <= 22 && FILTER_TABLES.check[a + 9] == a);
  }

  lemma {:induction false} FilterRow12(a: int)
    requires 0 <= a < 16
    ensures FilterRowOk(12, a)
  {
    assert FILTER_TABLES.pact[12] == 0;
    assert FilterTo(12, a) <= 0 ==> !(0 <= a + 0 <= 22 && FILTER_TABLES.check[a + 0] == a);
  }

  lemma {:induction false} FilterRow18(a: int)
    requires 0 <= a < 16
    ensures FilterRowOk(18, a)
  {
    assert FILTER_TABLES.pact[18] == 1;
    assert FilterTo(18, a) <= 0 ==> !(0 <= a + 1 <= 22 && FILTER_TABLES.check[a + 1] == a);
  }

  lemma {:induction false} FilterRow19(a: int)
    requires 0 <= a < 16
    ensures FilterRowOk(19, a)
  {
    assert FILTER_TABLES.pact[19] == 15;
    assert FilterTo(19, a) <= 0 ==> !(0 <= a + 15 <= 22 && FILTER_TABLES.check[a + 15] == a);
  }

  lemma {:induction false} FilterRow(s: int, a: int)
    requires 0 <= s < 26 && s != 5 && 0 <= a < 16 && FILTER_TABLES.defact[s] == 0
    ensures FilterRowOk(s, a)
  {
    match s
    case 0 => FilterRow0(a);
    case 2 => FilterRow2(a);
    case 4 => FilterRow4(a);
    case 10 => FilterRow10(a);
    case 11 => FilterRow11(a);
    case 12 => FilterRow12(a);
    case 18 => FilterRow18(a);
    case 19 => FilterRow19(a);
    case _ =>
  }

  lemma {:induction false} FilterGotos1(s: int, x: int)
    requires 0 <= s < 3 && FilterTo(s, x) > 0 && x >= 16
    ensures Next(FILTER_TABLES, s, x) == FilterTo(s, x)
  {
  }

  lemma {:induction false} FilterGotos2(s: int, x: int)
    requires 3 <= s < 11 && FilterTo(s, x) > 0 && x >= 16
    ensures Next(FILTER_TABLES, s, x) == FilterTo(s, x)
  {
  }

  lemma {:induction false} FilterGotos3(s: int, x: int)
    requires 11 <= s < 26 && FilterTo(s, x) > 0 && x >= 16
    ensures Next(FILTER_TABLES, s, x) == FilterTo(s, x)
  {
  }

  lemma {:induction false} FilterNext(s: int, x: int)
    requires 0 <= s < 26 && FilterTo(s, x) > 0
    ensures Next(FILTER_TABLES, s, x) == FilterTo(s, x)
  {
    if x < 16 {
      FilterRow(s, x);
    } else if s < 3 {
      FilterGotos1(s, x);
    } else if s < 11 {
      FilterGotos2(s, x);
    } else {
      FilterGotos3(s, x);
    }
  }

  lemma {:induction false} FilterTargets(s: int, x: int)
    requires 0 <= s < 26 && FilterTo(s, x) > 0
    ensures var n, it := FilterTo(s, x), FilterVia(s, x);
      && FilterHas(s, it) && FILTER_AUTOMATON.Open(it) && FilterRules(it.rule).rhs[it.dot] == x
      && n < 26 && FilterStos(n) == x && (n == 5 <==> x == YYEOF)
  {
  }

  lemma {:induction false} FilterSources(s: int, x: int, j: Item)
    requires 0 <= s < 26 && FilterTo(s, x) > 0 && FilterHas(FilterTo(s, x), j)
    ensures FILTER_AUTOMATON.BackOk(s, j)
  {
  }

  /** A state with a default reduction has the completed item of that rule. */
  lemma {:induction false} FilterDefaults(s: int)
    requires 0 <= s < 26 && s != 5 && FILTER_TABLES.defact[s] != 0
    ensures FilterHas(s, FilterDone(s)) && FILTER_AUTOMATON.WfItem(FilterDone(s)) &&
             !FILTER_AUTOMATON.Open(FilterDone(s)) && FilterDone(s).rule != START
  {
  }

  lemma {:induction false} FilterActionsReduce(s: int, a: int)
    requires 0 <= s < 26 && s != 5 && 0 <= a < 16 && FILTER_TABLES.defact[s] != 0
    ensures FILTER_AUTOMATON.ActionOk(s, a)
  {
    FilterDefaults(s);
    FilterCompletes(s, FilterDone(s));
  }

  lemma {:induction false} FilterActions(s: int, a: int)
    requires 0 <= s < 26 && s != 5 && 0 <= a < 16
    ensures FILTER_AUTOMATON.ActionOk(s, a)
  {
    if FILTER_TABLES.defact[s] != 0 { FilterActionsReduce(s, a); } else { FilterRow(s, a); }
  }

  lemma {:induction false} FilterStateOk(s: int)
    requires 0 <= s < 26
    ensures FILTER_AUTOMATON.StateOk(s)
  {
    var m := FILTER_AUTOMATON;
    forall it | m.has(s, it) ensures m.KernelOk(s, it) && m.AdvanceOk(s, it) {
      FilterKernels(s, it);
      FilterAdvances(s, it);
    }
    forall it | m.has(s, it) && m.WfItem(it) && !m.Open(it) ensures m.CompleteOk(s, it) {
      FilterCompletes(s, it);
    }
    forall x | m.to(s, x) > 0 ensures m.EdgeOk(s, x) && (x >= 16 ==> m.ClosureOk(s, x)) {
      FilterEdge(s, x);
    }
    if s != 5 {
      forall a | 0 <= a < 16 ensures m.ActionOk(s, a) {
        FilterActions(s, a);
      }
    }
    FilterNoRecovery(s);
  }

  lemma {:induction false} FilterNoRecovery(s: int)
    requires 0 <= s < 26
    ensures FILTER_AUTOMATON.NoRecovery(s)
  {
  }

  lemma {:induction false} FilterEdge(s: int, x: int)
    requires 0 <= s < 26 && FilterTo(s, x) > 0
    ensures FILTER_AUTOMATON.EdgeOk(s, x) && (x >= 16 ==> FILTER_AUTOMATON.ClosureOk(s, x))
  {
    FilterTargets(s, x);
    FilterNext(s, x);
    if x >= 16 { FilterClosures(s, x); }
    forall j | FilterHas(FilterTo(s, x), j) ensures FILTER_AUTOMATON.BackOk(s, j) {
      FilterSources(s, x, j);
    }
  }

  lemma {:induction false} FilterWeights(k: int)
    requires START < k < 19
    ensures FILTER_AUTOMATON.WeightOf(FilterRules(k).lhs) < FILTER_AUTOMATON.Weigh(FilterRules(k).rhs)
  {
    FILTER_AUTOMATON.WeighShort(FilterRules(k).rhs);
  }

  lemma {:induction false} FilterRuleShape(k: int)
    requires START <= k < 19
    ensures FILTER_TABLES.r1[k] == FilterRules(k).lhs && FILTER_TABLES.r2[k] == |FilterRules(k).rhs|
    ensures 16 <= FilterRules(k).lhs < 24 && (k > START ==> FilterRules(k).rhs != [] && YYEOF !in FilterRules(k).rhs)
  {
  }

  lemma {:induction false} FilterRuleSymbols(k: int, x: int)
    requires START <= k < 19 && x in FilterRules(k).rhs
    ensures 0 <= x < 24 && x != 16
  {
  }

  lemma {:induction false} FilterRuleOk(k: int)
    requires START <= k < 19
    ensures FILTER_AUTOMATON.RuleOk(k)
  {
    FilterRuleShape(k);
    forall x | x in FilterRules(k).rhs ensures 0 <= x < 24 && x != 16 {
      FilterRuleSymbols(k, x);
    }
    if k > START {
      FilterWeights(k);
    }
  }

  /** The tables implement the grammar. */
  lemma {:induction false} FilterAutomatonIsValid()
    ensures FILTER_AUTOMATON.Valid()
  {
    forall s | 0 <= s < 26 ensures FILTER_AUTOMATON.StateOk(s) {
      FilterStateOk(s);
    }
    forall k | START <= k < 19 ensures FILTER_AUTOMATON.RuleOk(k) {
      FilterRuleOk(k);
    }
  }
}
