/** The evaluation of a filter tree against an attribute list.  The evaluator walks the rings of
    children and siblings and writes a logical value into every node.  The wildcard matcher `fn` is a
    parameter: it is the function of the system, or the one of `Wildcard`. */
module FilterEval {
  import opened FilterParser
  import opened FilterTrees
  import opened Ring
  import opened SlpAttr
  import opened Wildcard

  // Operator codes, as the evaluator reads them.
  const LDAP_AND := 259
  const LDAP_OR := 260
  const LDAP_NOT := 261
  const EXPR_EQ := 262
  const EXPR_GT := 263
  const EXPR_LT := 264
  const EXPR_APPROX := 266

  // ----- What a filter means -----

  /** The difference of two `unsigned long` values, converted to `int`. */
  function IntDifference(a: int, b: int): int {
    var low := (a - b) % 0x1_0000_0000;
    if low >= 0x8000_0000 then low - 0x1_0000_0000 else low
  }

  predicate SatisfiesOperation(compareResult: int, operation: int) {
    (operation == EXPR_EQ ==> compareResult == 0) &&
    (operation == EXPR_GT ==> compareResult >= 0) &&
    (operation == EXPR_LT ==> compareResult <= 0)
  }

  /** How a value of the filter compares with a value of the list. */
  predicate Satisfies(a: AttrValue, b: AttrValue, op: int, fn: Matcher) {
    match (a, b)
    case (StringVal(s), StringVal(t)) => SatisfiesOperation(fn(s, t), op)
    case (IntegerVal(m), IntegerVal(n)) => SatisfiesOperation(IntDifference(m, n), op)
    case (TagVal, TagVal) => true
    case (BooleanVal(x), BooleanVal(y)) => (x != 0) == (y != 0)
    case (OpaqueVal, OpaqueVal) => true
    case _ => false
  }

  /** `d` is the difference of two integers, in 32 bits with sign. */
  predicate IsDifference(d: int, m: int, n: int) {
    -0x8000_0000 <= d < 0x8000_0000 && (m - n - d) % 0x1_0000_0000 == 0
  }

  /** Every pair of integers has one such difference, which is the exact one if that fits. */
  lemma {:induction false} OneDifference(m: int, n: int)
    ensures IsDifference(IntDifference(m, n), m, n)
    ensures forall d :: IsDifference(d, m, n) ==> d == IntDifference(m, n)
    ensures -0x8000_0000 <= m - n < 0x8000_0000 ==> IntDifference(m, n) == m - n
  {
    var e := IntDifference(m, n);
    assert (m - n - e) % 0x1_0000_0000 == 0;
    forall d | IsDifference(d, m, n)
      ensures d == e
    {
      assert (d - e) % 0x1_0000_0000 == 0;
    }
    if -0x8000_0000 <= m - n < 0x8000_0000 {
      assert IsDifference(m - n, m, n);
    }
  }

  /** Integers compare by their difference in 32 bits, so as they are if it fits. */
  lemma {:induction false} IntegersCompared(m: int, n: int, op: int, fn: Matcher)
    ensures forall d :: IsDifference(d, m, n) ==>
      (Satisfies(IntegerVal(m), IntegerVal(n), op, fn) <==>
         (op == EXPR_EQ ==> d == 0) && (op == EXPR_GT ==> d >= 0) && (op == EXPR_LT ==> d <= 0))
    ensures -0x8000_0000 <= m - n < 0x8000_0000 ==>
      (Satisfies(IntegerVal(m), IntegerVal(n), op, fn) <==>
         (op == EXPR_EQ ==> m == n) && (op == EXPR_GT ==> m >= n) && (op == EXPR_LT ==> m <= n))
  {
    OneDifference(m, n);
    hide IntDifference;
  }

  /** Texts compare by what the matcher returns, truth values as such, tags and opaque values always pass,
      and values of different types never do. */
  lemma {:induction false} ValuesCompared(a: AttrValue, b: AttrValue, op: int, fn: Matcher)
    ensures a.StringVal? && b.StringVal? ==>
      var r := fn(a.text, b.text);
      (Satisfies(a, b, op, fn) <==>
         (op == EXPR_EQ ==> r == 0) && (op == EXPR_GT ==> r >= 0) && (op == EXPR_LT ==> r <= 0))
    ensures a.BooleanVal? && b.BooleanVal? ==> (Satisfies(a, b, op, fn) <==> (a.flag == 0 <==> b.flag == 0))
    ensures (a.TagVal? && b.TagVal?) || (a.OpaqueVal? && b.OpaqueVal?) ==> Satisfies(a, b, op, fn)
    ensures Satisfies(a, b, op, fn) ==>
      a.StringVal? == b.StringVal? && a.IntegerVal? == b.IntegerVal? && a.BooleanVal? == b.BooleanVal? &&
      a.TagVal? == b.TagVal?
  {
  }

  /** Attribute `i` is the first of the list whose name matches. */
  ghost predicate IsFirstNamed(name: string, attrs: seq<Attr>, fn: Matcher, i: int) {
    && 0 <= i < |attrs| && fn(name, attrs[i].name) != FNM_NOMATCH
    && forall j :: 0 <= j < i ==> fn(name, attrs[j].name) == FNM_NOMATCH
  }

  ghost predicate LeafHolds(f: Filter, attrs: seq<Attr>, fn: Matcher) {
    f.attrs != [] && exists i :: IsFirstNamed(f.attrs[0].name, attrs, fn, i) && Passes(f, attrs[i].value, fn)
  }

  ghost predicate Passes(f: Filter, b: AttrValue, fn: Matcher)
    requires f.attrs != []
  {
    f.operator == EXPR_PRESENT || f.operator == EXPR_APPROX || Satisfies(f.attrs[0].value, b, f.operator, fn)
  }

  /** The denotation of a filter tree. */
  ghost predicate Holds(f: Filter, attrs: seq<Attr>, fn: Matcher)
    decreases f
  {
    if f.operator == LDAP_AND then forall k :: 0 <= k < |f.children| ==> Holds(f.children[k], attrs, fn)
    else if f.operator == LDAP_OR then exists k :: 0 <= k < |f.children| && Holds(f.children[k], attrs, fn)
    else if f.operator == LDAP_NOT then forall k :: 0 <= k < |f.children| ==> !Holds(f.children[k], attrs, fn)
    else LeafHolds(f, attrs, fn)
  }

  /** A group without filters is true for AND and NOT and false for OR; one more filter is one more
      conjunct, disjunct, or filter that must fail. */
  lemma {:induction false} GroupGrows(level: int, fs: seq<Filter>, f: Filter, attrs: seq<Attr>, fn: Matcher)
    ensures Holds(Filter(LDAP_AND, level, [], []), attrs, fn) && Holds(Filter(LDAP_NOT, level, [], []), attrs, fn)
    ensures !Holds(Filter(LDAP_OR, level, [], []), attrs, fn)
    ensures Holds(Filter(LDAP_AND, level, [], fs + [f]), attrs, fn) <==>
            Holds(Filter(LDAP_AND, level, [], fs), attrs, fn) && Holds(f, attrs, fn)
    ensures Holds(Filter(LDAP_OR, level, [], fs + [f]), attrs, fn) <==>
            Holds(Filter(LDAP_OR, level, [], fs), attrs, fn) || Holds(f, attrs, fn)
    ensures Holds(Filter(LDAP_NOT, level, [], fs + [f]), attrs, fn) <==>
            Holds(Filter(LDAP_NOT, level, [], fs), attrs, fn) && !Holds(f, attrs, fn)
  {
    var n, gs := |fs|, fs + [f];
    assert gs[n] == f && forall k :: 0 <= k < n ==> gs[k] == fs[k];
    hide LeafHolds;
    forall op | op == LDAP_AND || op == LDAP_OR || op == LDAP_NOT
      ensures Filter(op, level, [], gs).children[n] == f
      ensures forall k :: 0 <= k < n ==> Filter(op, level, [], gs).children[k] == Filter(op, level, [], fs).children[k]
    {
    }
  }

  /** A filter that is no group is false without an attribute, and otherwise looks at the first attribute of
      the list whose name matches; a presence or approximate test asks for no more. */
  lemma {:induction false} LeafLooks(f: Filter, attrs: seq<Attr>, fn: Matcher)
    requires f.operator != LDAP_AND && f.operator != LDAP_OR && f.operator != LDAP_NOT
    ensures f.attrs == [] ==> !Holds(f, attrs, fn)
    ensures f.attrs != [] && (forall i :: 0 <= i < |attrs| ==> fn(f.attrs[0].name, attrs[i].name) == FNM_NOMATCH) ==>
            !Holds(f, attrs, fn)
    ensures f.attrs != [] ==> forall i :: IsFirstNamed(f.attrs[0].name, attrs, fn, i) ==>
      (Holds(f, attrs, fn) <==>
         f.operator == EXPR_PRESENT || f.operator == EXPR_APPROX ||
         Satisfies(f.attrs[0].value, attrs[i].value, f.operator, fn))
  {
    hide Satisfies;
  }

  // ----- The values in the nodes -----

  ghost function Value(sh: Shape, attrs: seq<Attr>, fn: Matcher): int {
    if Holds(Reading(sh), attrs, fn) then 1 else 0
  }

  /** Every node of the tree holds the value of the filter it stands for. */
  ghost predicate Evaluated(sh: Shape, attrs: seq<Attr>, fn: Matcher)
    reads Nodes(sh)`mark
    decreases sh, 1
  {
    sh.node.mark == Value(sh, attrs, fn) && EvaluatedAll(sh.kids, attrs, fn)
  }

  ghost predicate EvaluatedAll(list: seq<Shape>, attrs: seq<Attr>, fn: Matcher)
    reads NodesAll(list)`mark
    decreases list, 0
  {
    list == [] || (Evaluated(list[0], attrs, fn) && EvaluatedAll(list[1..], attrs, fn))
  }

  // ----- The evaluator -----

  /** `SLPEvaluateOperation`. */
  method EvaluateOperation(compareResult: int, operation: int) returns (r: int)
    ensures r == if SatisfiesOperation(compareResult, operation) then 1 else 0
  {
    if operation == EXPR_EQ {
      if compareResult == 0 {
        return 1;
      }
    } else if operation == EXPR_GT {
      if compareResult >= 0 {
        return 1;
      }
    } else if operation == EXPR_LT {
      if compareResult <= 0 {
        return 1;
      }
    } else {
      return 1;
    }
    return 0;
  }

  /** `SLPEvaluateAttributes`. */
  method EvaluateAttributes(a: AttrValue, b: AttrValue, op: int, fn: Matcher) returns (r: int)
    ensures r == if Satisfies(a, b, op, fn) then 1 else 0
    ensures a.IntegerVal? && b.IntegerVal? ==> forall d :: IsDifference(d, a.num, b.num) ==>
      (r == 1 <==> (op == EXPR_EQ ==> d == 0) && (op == EXPR_GT ==> d >= 0) && (op == EXPR_LT ==> d <= 0))
    ensures a.IntegerVal? && b.IntegerVal? && -0x8000_0000 <= a.num - b.num < 0x8000_0000 ==>
      (r == 1 <==>
         (op == EXPR_EQ ==> a.num == b.num) && (op == EXPR_GT ==> a.num >= b.num) && (op == EXPR_LT ==> a.num <= b.num))
  {
    if a.IntegerVal? && b.IntegerVal? {
      IntegersCompared(a.num, b.num, op, fn);
    }
    hide IntDifference;
    match (a, b)
    case (StringVal(s), StringVal(t)) =>
      r := EvaluateOperation(fn(s, t), op);
    case (IntegerVal(m), IntegerVal(n)) => r := EvaluateOperation(IntDifference(m, n), op);
    case (TagVal, TagVal) => r := 1;
    case (BooleanVal(x), BooleanVal(y)) =>
      if x != 0 && y != 0 {
        return 1;
      }
      if x == 0 && y == 0 {
        return 1;
      }
      return 0;
    case (OpaqueVal, OpaqueVal) => r := 1;
    case _ => r := 0;
  }

  /** The value of a node that is not a logical operator. */
  method EvaluateLeaf(filter: FilterNode, attrs: seq<Attr>, fn: Matcher, ghost f: Filter) returns (value: int)
    requires f.operator == filter.data.operator && f.attrs == filter.data.attrs
    ensures value == if LeafHolds(f, attrs, fn) then 1 else 0
  {
    hide Satisfies;
    value := 0;
    if filter.data.attrs != [] {
      var i := 0;
      while i < |attrs|
        invariant 0 <= i <= |attrs|
        invariant forall j :: 0 <= j < i ==> fn(f.attrs[0].name, attrs[j].name) == FNM_NOMATCH
      {
        if fn(filter.data.attrs[0].name, attrs[i].name) != FNM_NOMATCH {
          break;
        }
        i := i + 1;
      }
      if i < |attrs| {
        assert IsFirstNamed(f.attrs[0].name, attrs, fn, i);
        assert forall k :: IsFirstNamed(f.attrs[0].name, attrs, fn, k) ==> k == i;
        if filter.data.operator == EXPR_PRESENT || filter.data.operator == EXPR_APPROX {
          value := 1;
        } else {
          value := EvaluateAttributes(filter.data.attrs[0].value, attrs[i].value, filter.data.operator, fn);
        }
      }
    }
  }

  /** What an operator makes of the truth values of its operands. */
  ghost predicate Combined(op: int, kids: seq<bool>) {
    if op == LDAP_OR then true in kids
    else if op == LDAP_NOT then true !in kids
    else false !in kids
  }

  /** The value of a logical operator, from the values of its children. */
  method Combine(filter: FilterNode, ghost kids: seq<Shape>, ghost truth: seq<bool>)
    requires filter.data.operator == LDAP_AND || filter.data.operator == LDAP_OR || filter.data.operator == LDAP_NOT
    requires filter.data.children != null && RingOf(kids, filter.data.children) && |truth| == |kids|
    requires forall i :: 0 <= i < |kids| ==> !kids[i].node.isHead && kids[i].node != filter
    requires forall i :: 0 <= i < |kids| ==> kids[i].node.mark == if truth[i] then 1 else 0
    modifies filter`mark
    ensures filter.mark == if Combined(filter.data.operator, truth) then 1 else 0
  {
    HeadLinks(kids, filter.data.children);
    var child := filter.data.children.next;
    filter.mark := if filter.data.operator == LDAP_OR then 0 else 1;
    ghost var i := 0;
    while !child.isHead
      invariant 0 <= i <= |kids| && child == NodeAt(kids, i, filter.data.children)
      invariant forall j :: 0 <= j < i ==> truth[j] == (filter.data.operator == LDAP_AND)
      invariant filter.mark == if filter.data.operator == LDAP_OR then 0 else 1
      invariant forall j :: 0 <= j < |kids| ==> kids[j].node.mark == if truth[j] then 1 else 0
      decreases |kids| - i
    {
      assert truth[i] in truth;
      LinkAt(kids, i, filter.data.children);
      if child.mark == 1 {
        if filter.data.operator == LDAP_OR {
          filter.mark := 1;
          return;
        }
        if filter.data.operator == LDAP_NOT {
          filter.mark := 0;
          return;
        }
      } else {
        if filter.data.operator == LDAP_AND {
          filter.mark := 0;
          return;
        }
      }
      child := child.next;
      i := i + 1;
    }
  }

  lemma {:induction false} NoHeads(list: seq<Shape>)
    requires LinkedAll(list)
    ensures forall i :: 0 <= i < |list| ==> !list[i].node.isHead
  {
    forall i | 0 <= i < |list| ensures !list[i].node.isHead {
      SuffixLinked(list, i);
    }
  }

  lemma {:induction false} EvaluatedAt(list: seq<Shape>, attrs: seq<Attr>, fn: Matcher, i: nat)
    requires EvaluatedAll(list, attrs, fn) && i < |list|
    ensures list[i].node.mark == Value(list[i], attrs, fn)
    decreases i
  {
    if i > 0 {
      EvaluatedAt(list[1..], attrs, fn, i - 1);
    }
  }

  /** The value of a node, from the values of its children. */
  lemma {:induction false} ValueOfNode(sh: Shape, attrs: seq<Attr>, fn: Matcher) returns (truth: seq<bool>)
    requires EvaluatedAll(sh.kids, attrs, fn)
    ensures |truth| == |sh.kids|
    ensures forall i :: 0 <= i < |truth| ==> sh.kids[i].node.mark == if truth[i] then 1 else 0
    ensures Reading(sh).operator == sh.data.operator && Reading(sh).attrs == sh.data.attrs
    ensures sh.data.operator == LDAP_AND || sh.data.operator == LDAP_OR || sh.data.operator == LDAP_NOT ==>
      Value(sh, attrs, fn) == if Combined(sh.data.operator, truth) then 1 else 0
    ensures sh.data.operator != LDAP_AND && sh.data.operator != LDAP_OR && sh.data.operator != LDAP_NOT ==>
      Value(sh, attrs, fn) == if LeafHolds(Reading(sh), attrs, fn) then 1 else 0
  {
    var kids := ReadingAll(sh.kids);
    truth := seq(|kids|, i requires 0 <= i < |kids| => Holds(kids[i], attrs, fn));
    forall i | 0 <= i < |truth| ensures sh.kids[i].node.mark == if truth[i] then 1 else 0 {
      EvaluatedAt(sh.kids, attrs, fn, i);
    }
    assert forall i :: 0 <= i < |kids| ==> truth[i] == Holds(Reading(sh).children[i], attrs, fn);
    hide LeafHolds;
  }

  /** The list is all children of the node with head `head`, or, with `root`, one node that is on no
      ring. */
  ghost predicate IsList(list: seq<Shape>, head: FilterNode, root: bool)
    reads NodesAll(list)`data, NodesAll(list)`next, NodesAll(list)`prev, NodesAll(list)`owner
    reads HeadsAll(list)`next, HeadsAll(list)`prev, HeadsAll(list)`owner, head`next, head`prev, head`owner
  {
    Members(list);
    BelowIsInside(list);
    LinkedAll(list) && if root then |list| == 1 && head == list[0].node && Alone(head) else RingOf(list, head)
  }

  /** What the evaluator relies on at entry `i` of a list. */
  lemma {:induction false} Parts(list: seq<Shape>, i: nat)
    requires i < |list| && LinkedAll(list)
    ensures var sh, rest := list[i], list[i + 1..];
      && NodesAll(list[i..]) == {sh.node} + NodesAll(sh.kids) + NodesAll(rest)
      && sh.node !in NodesAll(sh.kids) + NodesAll(rest) && NodesAll(sh.kids) !! NodesAll(rest)
      && sh.kids[0..] == sh.kids && list[i..] == [sh] + rest
  {
    SuffixLinked(list, i);
  }

  lemma {:induction false} Children(sh: Shape)
    requires Linked(sh)
    ensures sh.node.data == sh.data && sh.data.children != null && RingOf(sh.kids, sh.data.children)
    ensures sh.data.children.next == sh.data.children && sh.data.children.prev == sh.data.children <==> sh.kids == []
    ensures sh.kids != [] ==> IsList(sh.kids, sh.data.children, false) && sh.data.children.next == sh.kids[0].node
    ensures forall i :: 0 <= i < |sh.kids| ==> !sh.kids[i].node.isHead && sh.kids[i].node in NodesAll(sh.kids)
  {
    NoHeads(sh.kids);
    Members(sh.kids);
    HeadLinks(sh.kids, sh.data.children);
  }

  lemma {:induction false} EvaluatedNone(attrs: seq<Attr>, fn: Matcher)
    ensures EvaluatedAll([], attrs, fn)
  {
  }

  lemma {:induction false} EvaluatedMore(sh: Shape, rest: seq<Shape>, attrs: seq<Attr>, fn: Matcher)
    requires sh.node.mark == Value(sh, attrs, fn) && EvaluatedAll(sh.kids, attrs, fn) &&
              EvaluatedAll(rest, attrs, fn)
    ensures EvaluatedAll([sh] + rest, attrs, fn)
  {
    assert ([sh] + rest)[1..] == rest;
  }

  /** Whether the evaluator goes on to the node after entry `i`. */
  method HasSibling(filter: FilterNode, ghost list: seq<Shape>, ghost i: nat, ghost head: FilterNode, ghost root: bool)
    returns (more: bool)
    requires IsList(list, head, root) && i < |list| && filter == list[i].node
    ensures more <==> i + 1 < |list|
    ensures more ==> filter.next == list[i + 1].node
  {
    NoHeads(list);
    hide LinkedAll;
    if !root {
      LinkAt(list, i, head);
      if i + 1 < |list| {
        LinkAt(list, i + 1, head);
      } else {
        HeadLinks(list, head);
      }
    }
    more := !filter.next.isHead && !(filter.next.next == filter.next && filter.next.prev == filter.next);
  }

  /** Stores the value of a node, computed from the values of its children. */
  method StoreValue(filter: FilterNode, attrs: seq<Attr>, fn: Matcher, ghost sh: Shape)
    requires sh.node == filter && Linked(sh) && filter !in NodesAll(sh.kids) && EvaluatedAll(sh.kids, attrs, fn)
    modifies filter`mark
    ensures filter.mark == Value(sh, attrs, fn)
  {
    hide *;
    assert allocated(NodesAll(sh.kids));
    Children(sh);
    ghost var truth := ValueOfNode(sh, attrs, fn);
    if filter.data.operator == LDAP_AND || filter.data.operator == LDAP_OR || filter.data.operator == LDAP_NOT {
      Combine(filter, sh.kids, truth);
    } else {
      filter.mark := EvaluateLeaf(filter, attrs, fn, Reading(sh));
    }
  }

  /** Sets the value of a node whose children and following siblings have been evaluated. */
  method SetValue(filter: FilterNode, attrs: seq<Attr>, fn: Matcher, ghost sh: Shape, ghost rest: seq<Shape>)
    returns (value: int)
    requires sh.node == filter && Linked(sh) && filter !in NodesAll(sh.kids) && filter !in NodesAll(rest)
    requires EvaluatedAll(sh.kids, attrs, fn) && EvaluatedAll(rest, attrs, fn)
    modifies filter`mark
    ensures EvaluatedAll([sh] + rest, attrs, fn)
    ensures value == filter.mark == Value(sh, attrs, fn)
  {
    hide *;
    assert allocated(NodesAll(sh.kids)) && allocated(NodesAll(rest));
    StoreValue(filter, attrs, fn, sh);
    value := filter.mark;
    EvaluatedMore(sh, rest, attrs, fn);
  }

  /** `SLPEvaluateFilterTree`: leaves its value in the node, in everything below it, and in every
      sibling after it and everything below those. */
  method EvaluateFilterTree(filter: FilterNode, attrs: seq<Attr>, fn: Matcher, ghost list: seq<Shape>, ghost i: nat,
                            ghost head: FilterNode, ghost root: bool)
    returns (value: int)
    requires IsList(list, head, root) && i < |list| && filter == list[i].node
    modifies NodesAll(list[i..])`mark
    ensures EvaluatedAll(list[i..], attrs, fn)
    ensures value == filter.mark == Value(list[i], attrs, fn)
    decreases list[i..], 1
  {
    ghost var sh, rest := list[i], list[i + 1..];
    assert LinkedAll(list);
    assert Linked(sh) by { SuffixLinked(list, i); }
    hide *;
    assert allocated(NodesAll(list)) && allocated(HeadsAll(list)) && allocated(NodesAll(rest));
    assert allocated(Nodes(sh)) && allocated(Heads(sh)) && allocated(NodesAll(sh.kids));
    Parts(list, i);
    EvaluateChildren(filter, attrs, fn, sh);
    EvaluateSiblings(filter, attrs, fn, list, i, head, root);
    value := SetValue(filter, attrs, fn, sh, rest);
  }

  /** Evaluates the siblings after a node, and what is below them. */
  method EvaluateSiblings(filter: FilterNode, attrs: seq<Attr>, fn: Matcher, ghost list: seq<Shape>, ghost i: nat,
                          ghost head: FilterNode, ghost root: bool)
    requires IsList(list, head, root) && i < |list| && filter == list[i].node
    modifies NodesAll(list[i + 1..])`mark
    ensures EvaluatedAll(list[i + 1..], attrs, fn)
    decreases list[i..], 0
  {
    hide *;
    assert allocated(NodesAll(list)) && allocated(HeadsAll(list));
    assert list[i + 1..] == list[i..][1..];
    var more := HasSibling(filter, list, i, head, root);
    if more {
      var v := EvaluateFilterTree(filter.next, attrs, fn, list, i + 1, head, root);
    } else {
      assert list[i + 1..] == [];
      EvaluatedNone(attrs, fn);
    }
  }

  /** Evaluates what is below a node. */
  method EvaluateChildren(filter: FilterNode, attrs: seq<Attr>, fn: Matcher, ghost sh: Shape)
    requires Linked(sh) && filter == sh.node
    modifies NodesAll(sh.kids)`mark
    ensures EvaluatedAll(sh.kids, attrs, fn)
    decreases sh
  {
    hide *;
    Children(sh);
    assert sh.kids[0..] == sh.kids;
    var head := filter.data.children;
    var empty := head.next == head && head.prev == head;
    if !empty {
      var v := EvaluateFilterTree(head.next, attrs, fn, sh.kids, 0, head, false);
    } else {
      EvaluatedNone(attrs, fn);
    }
  }
}
