/** The tables of the attribute-list parser, and the certificate that they implement its grammar. */
module AttrGrammar {
  import opened Bison

  // Terminals, in the parser's internal numbering.
  const TRUE_VAL := 3
  const FALSE_VAL := 4
  const MULTIVAL := 5
  const INT_VAL := 6
  const ESCAPED := 7
  const TAG := 8
  const STRING_VAL := 9
  const COMMA := 10
  const LEFT := 11
  const RIGHT := 12
  const EQUALS := 13

  // Nonterminals.
  const ATTR_LIST := 15
  const ATTR := 16
  const ATTR_VAL_LIST := 17
  const ATTR_VAL := 18

  const ATTR_TABLES := Tables(
    [-6, -12, -2, 0, -12, -9, -12, -6, -12, 8, -12, -12, -12, -12, -12, -12, -4, -12, 8, -12, -12],
    [0, 4, 0, 0, 2, 0, 1, 0, 5, 0, 3, 9, 10, 13, 11, 12, 0, 7, 0, 6, 8],
    [-12, -12, 2, -12, -11],
    [-1, 3, 4, 16, 17],
    [6, 18, 1, 8, 9, 2, 5, 20, 19, 10, 7, 11, 12, 0, 13, 14, 0, 15],
    [0, 5, 8, 12, 13, 11, 8, 18, 12, 7, 10, 3, 4, -1, 6, 7, -1, 9],
    [0, 14, 15, 15, 16, 16, 16, 17, 17, 18, 18, 18, 18, 18],
    [0, 2, 1, 3, 1, 3, 5, 1, 3, 1, 1, 1, 1, 1],
    -12, 17, 6, 14)

  function AttrRules(k: int): Rule {
    match k
    case 1 => Rule(14, [ATTR_LIST, YYEOF])
    case 2 => Rule(ATTR_LIST, [ATTR])
    case 3 => Rule(ATTR_LIST, [ATTR_LIST, COMMA, ATTR])
    case 4 => Rule(ATTR, [TAG])
    case 5 => Rule(ATTR, [LEFT, TAG, RIGHT])
    case 6 => Rule(ATTR, [LEFT, TAG, EQUALS, ATTR_VAL_LIST, RIGHT])
    case 7 => Rule(ATTR_VAL_LIST, [ATTR_VAL])
    case 8 => Rule(ATTR_VAL_LIST, [ATTR_VAL_LIST, MULTIVAL, ATTR_VAL])
    case 9 => Rule(ATTR_VAL, [TRUE_VAL])
    case 10 => Rule(ATTR_VAL, [FALSE_VAL])
    case 11 => Rule(ATTR_VAL, [ESCAPED])
    case 12 => Rule(ATTR_VAL, [STRING_VAL])
    case 13 => Rule(ATTR_VAL, [INT_VAL])
    case _ => Rule(0, [])
  }

  function AttrStos(s: int): int {
    match s
    case 0 => 0
    case 1 => 8
    case 2 => 11
    case 3 => 15
    case 4 => 16
    case 5 => 8
    case 6 => 0
    case 7 => 10
    case 8 => 12
    case 9 => 13
    case 10 => 16
    case 11 => 3
    case 12 => 4
    case 13 => 6
    case 14 => 7
    case 15 => 9
    case 16 => 17
    case 17 => 18
    case 18 => 5
    case 19 => 12
    case 20 => 18
    case _ => -1
  }

  predicate AttrHas(s: int, it: Item) {
    match s
    case 0 => it in {Item(1, 0), Item(2, 0), Item(3, 0), Item(4, 0), Item(5, 0), Item(6, 0)}
    case 1 => it in {Item(4, 1)}
    case 2 => it in {Item(5, 1), Item(6, 1)}
    case 3 => it in {Item(1, 1), Item(3, 1)}
    case 4 => it in {Item(2, 1)}
    case 5 => it in {Item(5, 2), Item(6, 2)}
    case 6 => it in {Item(1, 2)}
    case 7 => it in {Item(3, 2), Item(4, 0), Item(5, 0), Item(6, 0)}
    case 8 => it in {Item(5, 3)}
    case 9 => it in {Item(6, 3), Item(7, 0), Item(8, 0), Item(9, 0), Item(10, 0), Item(11, 0), Item(12, 0), Item(13, 0)}
    case 10 => it in {Item(3, 3)}
    case 11 => it in {Item(9, 1)}
    case 12 => it in {Item(10, 1)}
    case 13 => it in {Item(13, 1)}
    case 14 => it in {Item(11, 1)}
    case 15 => it in {Item(12, 1)}
    case 16 => it in {Item(6, 4), Item(8, 1)}
    case 17 => it in {Item(7, 1)}
    case 18 => it in {Item(8, 2), Item(9, 0), Item(10, 0), Item(11, 0), Item(12, 0), Item(13, 0)}
    case 19 => it in {Item(6, 5)}
    case 20 => it in {Item(8, 3)}
    case _ => false
  }

  function AttrTo(s: int, x: int): int {
    match s
    case 0 => (match x case 8 => 1 case 11 => 2 case 15 => 3 case 16 => 4 case _ => 0)
    case 2 => (match x case 8 => 5 case _ => 0)
    case 3 => (match x case 0 => 6 case 10 => 7 case _ => 0)
    case 5 => (match x case 12 => 8 case 13 => 9 case _ => 0)
    case 7 => (match x case 8 => 1 case 11 => 2 case 16 => 10 case _ => 0)
    case 9 => (match x case 3 => 11 case 4 => 12 case 6 => 13 case 7 => 14 case 9 => 15 case 17 => 16
          case 18 => 17 case _ => 0)
    case 16 => (match x case 5 => 18 case 12 => 19 case _ => 0)
    case 18 => (match x case 3 => 11 case 4 => 12 case 6 => 13 case 7 => 14 case 9 => 15 case 18 => 20 case _ => 0)
    case _ => 0
  }

  function AttrVia(s: int, x: int): Item {
    match s
    case 0 => (match x case 8 => Item(4, 0) case 11 => Item(5, 0) case 15 => Item(1, 0) case 16 => Item(2, 0)
          case _ => Item(0, 0))
    case 2 => (match x case 8 => Item(5, 1) case _ => Item(0, 0))
    case 3 => (match x case 0 => Item(1, 1) case 10 => Item(3, 1) case _ => Item(0, 0))
    case 5 => (match x case 12 => Item(5, 2) case 13 => Item(6, 2) case _ => Item(0, 0))
    case 7 => (match x case 8 => Item(4, 0) case 11 => Item(5, 0) case 16 => Item(3, 2) case _ => Item(0, 0))
    case 9 => (match x case 3 => Item(9, 0) case 4 => Item(10, 0) case 6 => Item(13, 0) case 7 => Item(11, 0)
          case 9 => Item(12, 0) case 17 => Item(6, 3) case 18 => Item(7, 0) case _ => Item(0, 0))
    case 16 => (match x case 5 => Item(8, 1) case 12 => Item(6, 4) case _ => Item(0, 0))
    case 18 => (match x case 3 => Item(9, 0) case 4 => Item(10, 0) case 6 => Item(13, 0) case 7 => Item(11, 0)
          case 9 => Item(12, 0) case 18 => Item(8, 2) case _ => Item(0, 0))
    case _ => Item(0, 0)
  }

  function AttrDone(s: int): Item {
    match s
    case 1 => Item(4, 1)
    case 4 => Item(2, 1)
    case 8 => Item(5, 3)
    case 10 => Item(3, 3)
    case 11 => Item(9, 1)
    case 12 => Item(10, 1)
    case 13 => Item(13, 1)
    case 14 => Item(11, 1)
    case 15 => Item(12, 1)
    case 17 => Item(7, 1)
    case 19 => Item(6, 5)
    case 20 => Item(8, 3)
    case _ => Item(0, 0)
  }

  const ATTR_AUTOMATON :=
    Automaton(ATTR_TABLES, 14, AttrRules, AttrStos, AttrHas, AttrTo, AttrVia,
              [10, 10, 10, 10, 10, 10, 10, 10, 10, 10, 10, 10, 10, 10, 0, 2, 3, 2, 3])

  lemma {:induction false} AttrKernels(s: int, it: Item)
    requires 0 <= s < 21 && AttrHas(s, it)
    ensures ATTR_AUTOMATON.KernelOk(s, it)
  {
  }

  lemma {:induction false} AttrAdvances(s: int, it: Item)
    requires 0 <= s < 21 && AttrHas(s, it)
    ensures ATTR_AUTOMATON.AdvanceOk(s, it)
  {
    if s < 8 { AttrAdvancesLow(s, it); }
  }

  lemma {:induction false} AttrAdvancesLow(s: int, it: Item)
    requires 0 <= s < 8 && AttrHas(s, it)
    ensures ATTR_AUTOMATON.AdvanceOk(s, it)
  {
  }

  lemma {:induction false} AttrCompletes(s: int, it: Item)
    requires 0 <= s < 21 && AttrHas(s, it) && !ATTR_AUTOMATON.Open(it)
    ensures ATTR_AUTOMATON.CompleteOk(s, it)
  {
  }

  lemma {:induction false} AttrClosures(s: int, x: int)
    requires 0 <= s < 21 && AttrTo(s, x) > 0 && x >= 14
    ensures ATTR_AUTOMATON.ClosureOk(s, x)
  {
  }

  /** The packed tables hold exactly the listed edges of state `s` on terminals. */
  predicate AttrRowOk(s: int, a: int)
    requires 0 <= s < 21
  {
    ActionOn(ATTR_TABLES, s, a) == if AttrTo(s, a) > 0 then Shift(AttrTo(s, a)) else Fail
  }

  lemma {:induction false} AttrRow0(a: int)
    requires 0 <= a < 14
    ensures AttrRowOk(0, a)
  {
    assert ATTR_TABLES.pact[0] == -6;
    assert AttrTo(0, a) <= 0 ==> !(0 <= a - 6 <= 17 && ATTR_TABLES.check[a - 6] == a);
  }

  lemma {:induction false} AttrRow2(a: int)
    requires 0 <= a < 14
    ensures AttrRowOk(2, a)
  {
    assert ATTR_TABLES.pact[2] == -2;
    assert AttrTo(2, a) <= 0 ==> !(0 <= a - 2 <= 17 && ATTR_TABLES.check[a - 2] == a);
  }

  lemma {:induction false} AttrRow3(a: int)
    requires 0 <= a < 14
    ensures AttrRowOk(3, a)
  {
    assert ATTR_TABLES.pact[3] == 0;
    assert AttrTo(3, a) <= 0 ==> !(0 <= a + 0 <= 17 && ATTR_TABLES.check[a + 0] == a);
  }

  lemma {:induction false} AttrRow5(a: int)
    requires 0 <= a < 14
    ensures AttrRowOk(5, a)
  {
    assert ATTR_TABLES.pact[5] == -9;
    assert AttrTo(5, a) <= 0 ==> !(0 <= a - 9 <= 17 && ATTR_TABLES.check[a - 9] == a);
  }

  lemma {:induction false} AttrRow7(a: int)
    requires 0 <= a < 14
    ensures AttrRowOk(7, a)
  {
    assert ATTR_TABLES.pact[7] == -6;
    assert AttrTo(7, a) <= 0 ==> !(0 <= a - 6 <= 17 && ATTR_TABLES.check[a - 6] == a);
  }

  lemma {:induction false} AttrRow9(a: int)
    requires 0 <= a < 14
    ensures AttrRowOk(9, a)
  {
    assert ATTR_TABLES.pact[9] == 8;
    assert AttrTo(9, a) <= 0 ==> !(0 <= a + 8 <= 17 && ATTR_TABLES.check[a + 8] == a);
  }

  lemma {:induction false} AttrRow16(a: int)
    requires 0 <= a < 14
    ensures AttrRowOk(16, a)
  {
    assert ATTR_TABLES.pact[16] == -4;
    assert AttrTo(16, a) <= 0 ==> !(0 <= a - 4 <= 17 && ATTR_TABLES.check[a - 4] == a);
  }

  lemma {:induction false} AttrRow18(a: int)
    requires 0 <= a < 14
    ensures AttrRowOk(18, a)
  {
    assert ATTR_TABLES.pact[18] == 8;
    assert AttrTo(18, a) <= 0 ==> !(0 <= a + 8 <= 17 && ATTR_TABLES.check[a + 8] == a);
  }

  lemma {:induction false} AttrRow(s: int, a: int)
    requires 0 <= s < 21 && s != 6 && 0 <= a < 14 && ATTR_TABLES.defact[s] == 0
    ensures AttrRowOk(s, a)
  {
    match s
    case 0 => AttrRow0(a);
    case 2 => AttrRow2(a);
    case 3 => AttrRow3(a);
    case 5 => AttrRow5(a);
    case 7 => AttrRow7(a);
    case 9 => AttrRow9(a);
    case 16 => AttrRow16(a);
    case 18 => AttrRow18(a);
    case _ =>
  }

  lemma {:induction false} AttrGotos1(s: int, x: int)
    requires 0 <= s < 3 && AttrTo(s, x) > 0 && x >= 14
    ensures Next(ATTR_TABLES, s, x) == AttrTo(s, x)
  {
  }

  lemma {:induction false} AttrGotos2(s: int, x: int)
    requires 3 <= s < 8 && AttrTo(s, x) > 0 && x >= 14
    ensures Next(ATTR_TABLES, s, x) == AttrTo(s, x)
  {
  }

  lemma {:induction false} AttrGotos3(s: int, x: int)
    requires 8 <= s < 21 && AttrTo(s, x) > 0 && x >= 14
    ensures Next(ATTR_TABLES, s, x) == AttrTo(s, x)
  {
  }

  lemma {:induction false} AttrNext(s: int, x: int)
    requires 0 <= s < 21 && AttrTo(s, x) > 0
    ensures Next(ATTR_TABLES, s, x) == AttrTo(s, x)
  {
    if x < 14 {
      AttrRow(s, x);
    } else if s < 3 {
      AttrGotos1(s, x);
    } else if s < 8 {
      AttrGotos2(s, x);
    } else {
      AttrGotos3(s, x);
    }
  }

  lemma {:induction false} AttrTargets(s: int, x: int)
    requires 0 <= s < 21 && AttrTo(s, x) > 0
    ensures var n, it := AttrTo(s, x), AttrVia(s, x);
      && AttrHas(s, it) && ATTR_AUTOMATON.Open(it) && AttrRules(it.rule).rhs[it.dot] == x
      && n < 21 && AttrStos(n) == x && (n == 6 <==> x == YYEOF)
  {
  }

  lemma {:induction false} AttrSources(s: int, x: int, j: Item)
    requires 0 <= s < 21 && AttrTo(s, x) > 0 && AttrHas(AttrTo(s, x), j)
    ensures ATTR_AUTOMATON.BackOk(s, j)
  {
  }

  /** A state with a default reduction has the completed item of that rule. */
  lemma {:induction false} AttrDefaults(s: int)
    requires 0 <= s < 21 && s != 6 && ATTR_TABLES.defact[s] != 0
    ensures AttrHas(s, AttrDone(s)) && ATTR_AUTOMATON.WfItem(AttrDone(s)) && !ATTR_AUTOMATON.Open(AttrDone(s)) &&
             AttrDone(s).rule != START
  {
  }

  lemma {:induction false} AttrActionsReduce(s: int, a: int)
    requires 0 <= s < 21 && s != 6 && 0 <= a < 14 && ATTR_TABLES.defact[s] != 0
    ensures ATTR_AUTOMATON.ActionOk(s, a)
  {
    AttrDefaults(s);
    AttrCompletes(s, AttrDone(s));
  }

  lemma {:induction false} AttrActions(s: int, a: int)
    requires 0 <= s < 21 && s != 6 && 0 <= a < 14
    ensures ATTR_AUTOMATON.ActionOk(s, a)
  {
    if ATTR_TABLES.defact[s] != 0 { AttrActionsReduce(s, a); } else { AttrRow(s, a); }
  }

  lemma {:induction false} AttrStateOk(s: int)
    requires 0 <= s < 21
    ensures ATTR_AUTOMATON.StateOk(s)
  {
    var m := ATTR_AUTOMATON;
    forall it | m.has(s, it) ensures m.KernelOk(s, it) && m.AdvanceOk(s, it) {
      AttrKernels(s, it);
      AttrAdvances(s, it);
    }
    forall it | m.has(s, it) && m.WfItem(it) && !m.Open(it) ensures m.CompleteOk(s, it) {
      AttrCompletes(s, it);
    }
    forall x | m.to(s, x) > 0 ensures m.EdgeOk(s, x) && (x >= 14 ==> m.ClosureOk(s, x)) {
      AttrEdge(s, x);
    }
    if s != 6 {
      forall a | 0 <= a < 14 ensures m.ActionOk(s, a) {
        AttrActions(s, a);
      }
    }
    AttrNoRecovery(s);
  }

  lemma {:induction false} AttrNoRecovery(s: int)
    requires 0 <= s < 21
    ensures ATTR_AUTOMATON.NoRecovery(s)
  {
  }

  lemma {:induction false} AttrEdge(s: int, x: int)
    requires 0 <= s < 21 && AttrTo(s, x) > 0
    ensures ATTR_AUTOMATON.EdgeOk(s, x) && (x >= 14 ==> ATTR_AUTOMATON.ClosureOk(s, x))
  {
    AttrTargets(s, x);
    AttrNext(s, x);
    if x >= 14 { AttrClosures(s, x); }
    forall j | AttrHas(AttrTo(s, x), j) ensures ATTR_AUTOMATON.BackOk(s, j) {
      AttrSources(s, x, j);
    }
  }

  lemma {:induction false} AttrWeights(k: int)
    requires START < k < 14
    ensures ATTR_AUTOMATON.WeightOf(AttrRules(k).lhs) < ATTR_AUTOMATON.Weigh(AttrRules(k).rhs)
  {
    ATTR_AUTOMATON.WeighShort(AttrRules(k).rhs);
  }

  lemma {:induction false} AttrRuleShape(k: int)
    requires START <= k < 14
    ensures ATTR_TABLES.r1[k] == AttrRules(k).lhs && ATTR_TABLES.r2[k] == |AttrRules(k).rhs|
    ensures 14 <= AttrRules(k).lhs < 19 && (k > START ==> AttrRules(k).rhs != [] && YYEOF !in AttrRules(k).rhs)
  {
  }

  lemma {:induction false} AttrRuleSymbols(k: int, x: int)
    requires START <= k < 14 && x in AttrRules(k).rhs
    ensures 0 <= x < 19 && x != 14
  {
  }

  lemma {:induction false} AttrRuleOk(k: int)
    requires START <= k < 14
    ensures ATTR_AUTOMATON.RuleOk(k)
  {
    AttrRuleShape(k);
    forall x | x in AttrRules(k).rhs ensures 0 <= x < 19 && x != 14 {
      AttrRuleSymbols(k, x);
    }
    if k > START {
      AttrWeights(k);
    }
  }

  /** The tables implement the grammar. */
  lemma {:induction false} AttrAutomatonIsValid()
    ensures ATTR_AUTOMATON.Valid()
  {
    forall s | 0 <= s < 21 ensures ATTR_AUTOMATON.StateOk(s) {
      AttrStateOk(s);
    }
    forall k | START <= k < 14 ensures ATTR_AUTOMATON.RuleOk(k) {
      AttrRuleOk(k);
    }
  }
}
