/** The attribute-list parser as a whole: which inputs it accepts, what rings it leaves behind, and
    when a node waits on the value stack to be linked. */
module AttrReader {
  import opened Bison
  import opened AttrGrammar
  import opened AttrParser
  import opened SlpAttr

  ghost predicate IsTokens(w: seq<Token>) {
    IsInput(ATTR_AUTOMATON, w)
  }

  /** The outcome of a parse, and the state that its actions leave. */
  ghost function Parse(w: seq<Token>): (Outcome, State)
    requires IsTokens(w)
  {
    AttrAutomatonIsValid();
    var run := Run(ATTR_AUTOMATON, w, [0], 0);
    (run.0, ApplyAll(INITIAL, run.1))
  }

  // ----- Lists and their derivations -----

  lemma {:induction false} YieldOfKids(r: int, a: Tree, b: Tree, c: Tree, d: Tree, e: Tree)
    ensures Yield(Node(r, [a])) == Yield(a)
    ensures Yield(Node(r, [a, b])) == Yield(a) + Yield(b)
    ensures Yield(Node(r, [a, b, c])) == Yield(a) + Yield(b) + Yield(c)
    ensures Yield(Node(r, [a, b, c, d, e])) == Yield(a) + Yield(b) + Yield(c) + (Yield(d) + Yield(e))
  {
    assert [a, b, c, d, e] == [a, b, c] + [d, e] && [d, e] == [d] + [e];
    assert [a, b, c] == [a, b] + [c] && [a, b] == [a] + [b];
    YieldAllConcat([a, b, c], [d, e]);
    YieldAllConcat([d], [e]);
    YieldAllConcat([a, b], [c]);
    YieldAllConcat([a], [b]);
    YieldAllOne(a);
    YieldAllOne(b);
    YieldAllOne(c);
    YieldAllOne(d);
    YieldAllOne(e);
  }

  lemma {:induction false} DeriveValue(tok: Token)
    requires tok.sym in {TRUE_VAL, FALSE_VAL, INT_VAL, ESCAPED, STRING_VAL}
    ensures var t := TreeOfValue(tok);
      WfTree(ATTR_AUTOMATON, t) && Sym(ATTR_AUTOMATON, t) == ATTR_VAL && Yield(t) == [tok]
  {
    YieldAllOne(Leaf(tok));
  }

  lemma {:induction false} DeriveSlots(slots: seq<Slot>)
    requires WfSlots(slots)
    ensures var t := TreeOfSlots(slots);
      WfTree(ATTR_AUTOMATON, t) && Sym(ATTR_AUTOMATON, t) == ATTR_VAL_LIST && Yield(t) == PrintSlots(slots)
    decreases slots
  {
    hide Yield, YieldAll;
    var n := |slots| - 1;
    var t, s := TreeOfValue(slots[n].tok), Leaf(slots[n].sep);
    DeriveValue(slots[n].tok);
    if n == 0 {
      YieldOfKids(7, t, t, t, t, t);
    } else {
      DeriveSlots(slots[..n]);
      YieldOfLeaf(slots[n].sep);
      YieldOfKids(8, TreeOfSlots(slots[..n]), s, t, t, t);
    }
  }

  lemma {:induction false} YieldOfLeaf(tok: Token)
    ensures Yield(Leaf(tok)) == [tok]
  {
  }

  lemma {:induction false} DeriveItem(item: Attribute)
    requires WfItem(item)
    ensures var t := TreeOfItem(item);
      WfTree(ATTR_AUTOMATON, t) && Sym(ATTR_AUTOMATON, t) == ATTR && Yield(t) == PrintItem(item)
  {
    var tag := Leaf(item.tag);
    match item
    case Bare(_) => YieldOfKids(4, tag, tag, tag, tag, tag);
    case Enclosed(left, _, right) =>
      hide YieldAll;
      YieldOfKids(5, Leaf(left), tag, Leaf(right), tag, tag);
    case Multi(_, _, _, _, _) => DeriveMulti(item);
  }

  lemma {:induction false} DeriveMulti(item: Attribute)
    requires WfItem(item) && item.Multi?
    ensures var t := TreeOfItem(item);
      WfTree(ATTR_AUTOMATON, t) && Sym(ATTR_AUTOMATON, t) == ATTR && Yield(t) == PrintItem(item)
  {
    var Multi(left, tag, eq, slots, right) := item;
    DeriveSlots(slots);
    YieldOfLeaf(left);
    YieldOfLeaf(tag);
    YieldOfLeaf(eq);
    YieldOfLeaf(right);
    hide Yield, YieldAll, TreeOfSlots, PrintSlots, WfSlots;
    var kids := [Leaf(left), Leaf(tag), Leaf(eq), TreeOfSlots(slots), Leaf(right)];
    assert TreeOfItem(item) == Node(6, kids) && AttrRules(6).rhs == [LEFT, TAG, EQUALS, ATTR_VAL_LIST, RIGHT];
    assert WfTree(ATTR_AUTOMATON, Node(6, kids));
    hide WfTree;
    YieldOfKids(6, Leaf(left), Leaf(tag), Leaf(eq), TreeOfSlots(slots), Leaf(right));
  }

  lemma {:induction false} DeriveParts(ps: seq<Part>)
    requires WfParts(ps)
    ensures var t := TreeOf(ps);
      WfTree(ATTR_AUTOMATON, t) && Sym(ATTR_AUTOMATON, t) == ATTR_LIST && Yield(t) == Print(ps)
    decreases ps
  {
    hide Yield, YieldAll;
    var n := |ps| - 1;
    var t, s := TreeOfItem(ps[n].item), Leaf(ps[n].sep);
    DeriveItem(ps[n].item);
    if n == 0 {
      YieldOfKids(2, t, t, t, t, t);
    } else {
      DeriveParts(ps[..n]);
      YieldOfLeaf(ps[n].sep);
      YieldOfKids(3, TreeOf(ps[..n]), s, t, t, t);
    }
  }

  lemma {:induction false} ReadValue(t: Tree) returns (tok: Token)
    requires WfTree(ATTR_AUTOMATON, t) && Sym(ATTR_AUTOMATON, t) == ATTR_VAL
    ensures tok.sym in {TRUE_VAL, FALSE_VAL, INT_VAL, ESCAPED, STRING_VAL} && t == TreeOfValue(tok)
  {
    assert 9 <= t.rule <= 13 && |t.kids| == 1 && t.kids[0].Leaf?;
    tok := t.kids[0].tok;
    assert t.kids == [Leaf(tok)];
  }

  lemma {:induction false} ReadSlots(t: Tree) returns (slots: seq<Slot>)
    requires WfTree(ATTR_AUTOMATON, t) && Sym(ATTR_AUTOMATON, t) == ATTR_VAL_LIST
    ensures WfSlots(slots) && t == TreeOfSlots(slots)
    decreases t
  {
    assert t.rule == 7 || t.rule == 8;
    if t.rule == 7 {
      var tok := ReadValue(t.kids[0]);
      slots := [Slot(END_TOKEN, tok)];
      assert t.kids == [t.kids[0]];
    } else {
      var front := ReadSlots(t.kids[0]);
      var tok := ReadValue(t.kids[2]);
      assert t.kids[1].Leaf?;
      slots := front + [Slot(t.kids[1].tok, tok)];
      assert slots[..|slots| - 1] == front;
      assert t.kids == [t.kids[0], t.kids[1], t.kids[2]];
    }
  }

  lemma {:induction false} ReadItem(t: Tree) returns (item: Attribute)
    requires WfTree(ATTR_AUTOMATON, t) && Sym(ATTR_AUTOMATON, t) == ATTR
    ensures WfItem(item) && t == TreeOfItem(item)
  {
    assert t.rule in {4, 5, 6};
    if t.rule == 4 {
      item := Bare(t.kids[0].tok);
      assert t.kids == [Leaf(item.tag)];
    } else if t.rule == 5 {
      item := Enclosed(t.kids[0].tok, t.kids[1].tok, t.kids[2].tok);
      assert t.kids == [Leaf(item.left), Leaf(item.tag), Leaf(item.right)];
    } else {
      var slots := ReadSlots(t.kids[3]);
      item := Multi(t.kids[0].tok, t.kids[1].tok, t.kids[2].tok, slots, t.kids[4].tok);
      assert t.kids == [Leaf(item.left), Leaf(item.tag), Leaf(item.eq), t.kids[3], Leaf(item.right)];
    }
  }

  lemma {:induction false} ReadParts(t: Tree) returns (ps: seq<Part>)
    requires WfTree(ATTR_AUTOMATON, t) && Sym(ATTR_AUTOMATON, t) == ATTR_LIST
    ensures WfParts(ps) && t == TreeOf(ps)
    decreases t
  {
    assert t.rule == 2 || t.rule == 3;
    if t.rule == 2 {
      var item := ReadItem(t.kids[0]);
      ps := [Part(END_TOKEN, item)];
      assert t.kids == [t.kids[0]];
    } else {
      var front := ReadParts(t.kids[0]);
      var item := ReadItem(t.kids[2]);
      assert t.kids[1].Leaf?;
      ps := front + [Part(t.kids[1].tok, item)];
      assert ps[..|ps| - 1] == front;
      assert t.kids == [t.kids[0], t.kids[1], t.kids[2]];
    }
  }

  // ----- Bounded stack -----

  /** How deep in the stack a state can be. */
  function Depth(s: int): int {
    match s
    case 0 => 1
    case 3 => 2
    case 7 => 3
    case 2 => 4
    case 5 => 5
    case 9 => 6
    case 16 => 7
    case 18 => 8
    case _ => 9
  }

  lemma {:induction false} EdgeGoesDeeper(s: int, x: int)
    requires AttrTo(s, x) > 0
    ensures Depth(s) < Depth(AttrTo(s, x)) <= 9
  {
  }

  /** A state on the stack has an edge to the state above it. */
  lemma {:induction false} PathEdge(stack: seq<int>, i: nat)
    requires ATTR_AUTOMATON.Valid() && IsPath(ATTR_AUTOMATON, stack) && 0 < i < |stack|
    ensures AttrTo(stack[i - 1], AttrStos(stack[i])) == stack[i] > 0
  {
    assert EdgeAt(ATTR_AUTOMATON, stack, i);
    assert ATTR_AUTOMATON.StateOk(stack[i - 1]);
    assert ATTR_AUTOMATON.EdgeOk(stack[i - 1], AttrStos(stack[i]));
  }

  /** Whatever the input, the state stack never holds more than nine states. */
  lemma {:induction false} StackIsBounded(stack: seq<int>)
    requires ATTR_AUTOMATON.Valid() && IsPath(ATTR_AUTOMATON, stack)
    ensures |stack| <= Depth(Top(stack)) <= 9
    decreases stack
  {
    var n := |stack| - 1;
    if n > 0 {
      hide AttrTo, Depth, AttrStos;
      TakePath(ATTR_AUTOMATON, stack, n);
      StackIsBounded(stack[..n]);
      PathEdge(stack, n);
      EdgeGoesDeeper(stack[n - 1], AttrStos(stack[n]));
    }
  }

  lemma {:induction false} NeverExhausted(w: seq<Token>)
    requires IsTokens(w)
    ensures Parse(w).0 != Exhausted
  {
    AttrAutomatonIsValid();
    var stack, pos, forest := RunForest(ATTR_AUTOMATON, w, [0], 0, []);
    StackIsBounded(stack);
  }

  // ----- Entries that no ring holds yet -----

  /** The values that subtrees push: exactly the values of attributes are entries yet to be linked. */
  lemma {:induction false} PushedValues(s: State, trees: seq<Tree>) returns (args: seq<Value>)
    requires forall i :: 0 <= i < |trees| ==> WfTree(ATTR_AUTOMATON, trees[i]) && Sym(ATTR_AUTOMATON, trees[i]) != 14
    ensures ApplyAll(s, EventsAll(trees)).values == s.values + args && |args| == |trees|
    ensures forall i :: 0 <= i < |args| ==> (args[i].Made? <==> Sym(ATTR_AUTOMATON, trees[i]) == ATTR_VAL)
    decreases trees
  {
    if trees == [] {
      args := [];
    } else {
      var n := |trees| - 1;
      var front, last := trees[..n], trees[n];
      assert trees == front + [last];
      ApplyFront(s, front, last);
      args := PushedValues(s, front);
      var v := PushedValue(ApplyAll(s, EventsAll(front)), last);
      args := args + [v];
    }
  }

  lemma {:induction false} PushedValue(s: State, t: Tree) returns (v: Value)
    requires WfTree(ATTR_AUTOMATON, t) && Sym(ATTR_AUTOMATON, t) != 14
    ensures ApplyTree(s, t).values == s.values + [v]
    ensures v.Made? <==> Sym(ATTR_AUTOMATON, t) == ATTR_VAL
    decreases t, 1
  {
    match t
    case Leaf(tok) =>
      v := FromToken(tok);
      ApplyLeaf(s, tok);
    case Node(r, kids) =>
      var args := PushedValues(s, kids);
      hide ApplyAll, ApplyTree, EventsAll;
      var s' := ApplyAll(s, EventsAll(kids));
      ApplyNode(s, r, kids, s', s.values, args);
      v := if r <= 8 then Used else Made(Entry(NoName, ValueOf(r, args[0])));
  }

  lemma {:induction false} NoEdgeFromValue(s: int, x: int)
    requires AttrStos(s) == ATTR_VAL
    ensures AttrTo(s, x) <= 0
  {
  }

  lemma {:induction false} ForestSymbols(stack: seq<int>, forest: seq<Tree>)
    requires ATTR_AUTOMATON.Valid() && IsPath(ATTR_AUTOMATON, stack) && Matches(ATTR_AUTOMATON, stack, forest)
    ensures forall i :: 0 <= i < |forest| ==>
      && WfTree(ATTR_AUTOMATON, forest[i]) && Sym(ATTR_AUTOMATON, forest[i]) != 14
      && (Sym(ATTR_AUTOMATON, forest[i]) == ATTR_VAL <==> i == |forest| - 1 && AttrStos(Top(stack)) == ATTR_VAL)
  {
    ValuesOnTop(stack);
    forall i | 0 <= i < |forest|
      ensures WfTree(ATTR_AUTOMATON, forest[i]) && Sym(ATTR_AUTOMATON, forest[i]) == AttrStos(stack[i + 1]) != 14
    {
      NoStartState(stack[i + 1]);
    }
    hide AttrStos, WfTree, Sym;
  }

  /** At every point of every parse, only the top of the stack may be an entry yet to be linked, and
      it is one just when a value of an attribute has been read. */
  lemma {:induction false} OnlyTopWaits(stack: seq<int>, forest: seq<Tree>)
    requires ATTR_AUTOMATON.Valid() && IsPath(ATTR_AUTOMATON, stack) && Matches(ATTR_AUTOMATON, stack, forest)
    ensures var values := ApplyAll(INITIAL, EventsAll(forest)).values;
      && |values| == |forest|
      && (forall i :: 0 <= i < |values| ==>
            (values[i].Made? <==> i == |values| - 1 && AttrStos(Top(stack)) == ATTR_VAL))
  {
    ForestSymbols(stack, forest);
    assert INITIAL.values == [];
    hide *;
    var args := PushedValues(INITIAL, forest);
    assert [] + args == args;
  }

  lemma {:induction false} NoStartState(s: int)
    ensures AttrStos(s) != 14
  {
  }

  lemma {:induction false} ValuesOnTop(stack: seq<int>)
    requires ATTR_AUTOMATON.Valid() && IsPath(ATTR_AUTOMATON, stack)
    ensures forall i :: 0 < i < |stack| - 1 ==> AttrStos(stack[i]) != ATTR_VAL
  {
    forall i | 0 < i < |stack| - 1 ensures AttrStos(stack[i]) != ATTR_VAL {
      PathEdge(stack, i + 1);
      if AttrStos(stack[i]) == ATTR_VAL {
        NoEdgeFromValue(stack[i], AttrStos(stack[i + 1]));
      }
    }
  }

  /** Whether the reduction links an entry of the value stack. */
  predicate Links(e: Event) {
    e.Reduced? && (e.rule == 7 || e.rule == 8)
  }

  /** A state that has read a value links it at once, whatever the next token is. */
  lemma {:induction false} WaitingLinks(w: seq<Token>, stack: seq<int>, pos: nat)
    requires IsConfig(ATTR_AUTOMATON, w, stack, pos)
    ensures var events := Run(ATTR_AUTOMATON, w, stack, pos).1;
      AttrStos(Top(stack)) == ATTR_VAL <==> events != [] && Links(events[0])
  {
    var s, a := Top(stack), At(w, pos).sym;
    StackIsBounded(stack);
    LinkingStates(s);
    if s != ATTR_TABLES.final {
      LinkingActions(s, a);
      hide Run, AttrStos, ActionOn;
      FirstEvent(w, stack, pos);
    }
  }

  lemma {:induction false} LinkingActions(s: int, a: int)
    requires ATTR_AUTOMATON.Valid() && 0 <= s < |ATTR_TABLES.pact| && s != ATTR_TABLES.final &&
              0 <= a < ATTR_TABLES.ntokens
    ensures var act := ActionOn(ATTR_TABLES, s, a);
      AttrStos(s) == ATTR_VAL <==> act.Reduce? && (act.rule == 7 || act.rule == 8)
  {
    assert ATTR_AUTOMATON.StateOk(s);
    assert ATTR_AUTOMATON.ActionOk(s, a);
    LinkingStates(s);
    hide AttrStos, AttrHas;
  }

  lemma {:induction false} LinkingStates(s: int)
    requires 0 <= s < |ATTR_TABLES.pact|
    ensures AttrStos(s) == ATTR_VAL ==> ATTR_TABLES.pact[s] == ATTR_TABLES.ninf && ATTR_TABLES.defact[s] in {7, 8}
    ensures AttrHas(s, Item(7, 1)) || AttrHas(s, Item(8, 3)) ==> AttrStos(s) == ATTR_VAL
    ensures s == ATTR_TABLES.final ==> AttrStos(s) != ATTR_VAL
  {
  }

  lemma {:induction false} FirstEvent(w: seq<Token>, stack: seq<int>, pos: nat)
    requires IsConfig(ATTR_AUTOMATON, w, stack, pos)
    requires Top(stack) != ATTR_TABLES.final && |stack| < YYMAXDEPTH
    ensures var events := Run(ATTR_AUTOMATON, w, stack, pos).1;
      match Decide(ATTR_AUTOMATON, w, stack, pos)
      case Fail => events == []
      case Shift(_) => events != [] && events[0].Shifted?
      case Reduce(r) => events != [] && events[0].Reduced? && events[0].rule == r
  {
  }

  // ----- Language and meaning -----

  lemma {:induction false} RootDerives(w: seq<Token>, ps: seq<Part>) returns (root: Tree)
    requires WfParts(ps) && Print(ps) == w
    ensures Derives(ATTR_AUTOMATON, root, w)
    ensures ApplyAll(INITIAL, EventsAll(root.kids)).head == Flatten(ps)
    ensures ApplyAll(INITIAL, EventsAll(root.kids)).attrs == []
    ensures ApplyAll(INITIAL, EventsAll(root.kids)).tags == []
  {
    var list, end := TreeOf(ps), Leaf(END_TOKEN);
    root := Node(START, [list, end]);
    DeriveParts(ps);
    YieldOfKids(START, list, end, end, end, end);
    LinkParts(INITIAL, ps);
    ApplyKids(INITIAL, list, end, end);
    ApplyLeaf(ApplyTree(INITIAL, list), END_TOKEN);
    assert [] + Flatten(ps) == Flatten(ps);
  }

  lemma {:induction false} RootIsParts(w: seq<Token>, tree: Tree) returns (ps: seq<Part>)
    requires Derives(ATTR_AUTOMATON, tree, w)
    ensures WfParts(ps) && Print(ps) == w
  {
    ps := ReadParts(tree.kids[0]);
    assert AttrRules(START).rhs == [ATTR_LIST, YYEOF];
    assert Sym(ATTR_AUTOMATON, tree.kids[1]) == YYEOF && WfTree(ATTR_AUTOMATON, tree.kids[1]);
    assert tree.kids == [TreeOf(ps), Leaf(END_TOKEN)];
    YieldOfKids(START, TreeOf(ps), Leaf(END_TOKEN), Leaf(END_TOKEN), Leaf(END_TOKEN), Leaf(END_TOKEN));
    DeriveParts(ps);
    assert (Print(ps) + [END_TOKEN])[..|w|] == (w + [END_TOKEN])[..|w|];
  }

  /** The parser accepts exactly the attribute lists. */
  lemma {:induction false} AttrLanguage(w: seq<Token>)
    requires IsTokens(w)
    ensures Parse(w).0 == Accepted <==> exists ps :: WfParts(ps) && Print(ps) == w
  {
    AttrAutomatonIsValid();
    if Parse(w).0 == Accepted {
      var tree := RunIsSound(ATTR_AUTOMATON, w);
      var ps := RootIsParts(w, tree);
    }
    forall ps | WfParts(ps) && Print(ps) == w
      ensures Parse(w).0 == Accepted
    {
      AttrMeaning(w, ps);
    }
  }

  /** After the parse of a list, `attrHead` is its flattening and the working rings are empty. */
  lemma {:induction false} AttrMeaning(w: seq<Token>, ps: seq<Part>)
    requires IsTokens(w) && WfParts(ps) && Print(ps) == w
    ensures Parse(w).0 == Accepted
    ensures Parse(w).1.head == Flatten(ps) && Parse(w).1.attrs == [] && Parse(w).1.tags == []
  {
    AttrAutomatonIsValid();
    var root := RootDerives(w, ps);
    RunIsComplete(ATTR_AUTOMATON, w, root);
    NeverExhausted(w);
  }

  /** The values of an attribute with values, in an attribute list of any form, are in the result in order,
      under the attribute's name, as their tokens are read. */
  lemma {:induction false} ValueIsRead(w: seq<Token>, before: seq<Part>, part: Part, after: seq<Part>, j: nat)
    requires IsTokens(w) && WfParts(before + [part] + after) && Print(before + [part] + after) == w
    requires part.item.Multi? && j < |part.item.slots|
    ensures var head, k := Parse(w).1.head, |Flatten(before)| + j;
      && k < |head| && head[k].name == Named(part.item.tag.text) && ReadsAs(part.item.slots[j].tok, head[k].value)
  {
    FlattenReads(before, part, after);
    hide Parse, WfParts, Print, Flatten, ReadsAs;
    AttrMeaning(w, before + [part] + after);
  }
}
