/** The LDAP filter parser on the heap: its actions link filters into `reducedFilters` and into the rings of
    children that the evaluator walks. */
module FilterRings {
  import opened Bison
  import opened FilterEval
  import opened FilterGrammar
  import opened FilterParser
  import opened FilterReader
  import opened FilterTrees
  import opened Ring
  import opened SlpAttr
  import Wildcard

  /** An entry of the value stack: a token's value, or a pointer to a filter. */
  datatype Cell = TokenCell(tok: Token) | NodeCell(node: FilterNode) | NullCell

  function CellInt(c: Cell): int {
    if c.TokenCell? then c.tok.num else 0
  }

  function CellString(c: Cell): string {
    if c.TokenCell? then c.tok.text else ""
  }

  /** The entry is of the kind that the value has. */
  ghost predicate Same(c: Cell, v: Value) {
    match v
    case FromToken(tok) => c == TokenCell(tok)
    case FromFilter(_) => c.NodeCell?
    case Null => c == NullCell
  }

  /** Entry `at` of the stack, if it has one, is a filter that no list holds yet: the tree `loose`. */
  ghost predicate Shows(cells: seq<Cell>, values: seq<Value>, at: int, loose: seq<Shape>) {
    && |cells| == |values| && (forall i :: 0 <= i < |cells| ==> Same(cells[i], values[i]))
    && if at < 0 then loose == [] else at < |cells| && Waits(cells[at], values[at], loose)
  }

  ghost predicate Waits(c: Cell, v: Value, loose: seq<Shape>) {
    |loose| == 1 && c == NodeCell(loose[0].node) && v == FromFilter(Reading(loose[0]))
  }

  // ----- The value stack -----

  /** What the action of rule `r` needs: entries that stand for values, and the waiting filter in its place. */
  ghost predicate Fit(r: int, args: seq<Cell>, vs: seq<Value>, loose: seq<Shape>) {
    && 0 < |args| == |vs| == |FilterRules(r).rhs| && (forall i :: 0 <= i < |args| ==> Same(args[i], vs[i]))
    && (r == 5 ==> Waits(args[1], vs[1], loose)) && (r == 4 || 11 <= r <= 14 ==> loose == [])
  }

  /** What the action of rule `r` leaves waiting. */
  ghost predicate Left(r: int, loose: seq<Shape>, c: Cell, v: Value, loose': seq<Shape>) {
    Same(c, v) &&
    if 11 <= r <= 14 then Waits(c, v, loose')
    else if r == 5 then loose' == []
    else loose' == loose
  }

  lemma {:induction false} ShowsArgs(cells: seq<Cell>, values: seq<Value>, at: int, loose: seq<Shape>, r: int,
                                     lval: Token, n': int, at': int)
    requires Shows(cells, values, at, loose) && 0 < |FilterRules(r).rhs| <= |cells|
    requires Moves(Reduced(r, lval), |cells|, at, n', at')
    ensures var k := |cells| - |FilterRules(r).rhs|; Fit(r, cells[k..], values[k..], loose)
  {
  }

  lemma {:induction false} ShowsReduced(cells: seq<Cell>, values: seq<Value>, at: int, loose: seq<Shape>, r: int,
                                        lval: Token, at': int, c: Cell, v: Value, loose': seq<Shape>)
    requires Shows(cells, values, at, loose) && 0 < |FilterRules(r).rhs| <= |cells|
    requires Moves(Reduced(r, lval), |cells|, at, |cells| - |FilterRules(r).rhs| + 1, at')
    requires Left(r, loose, c, v, loose')
    ensures var k := |cells| - |FilterRules(r).rhs|; Shows(cells[..k] + [c], values[..k] + [v], at', loose')
  {
  }

  lemma {:induction false} ShowsShifted(cells: seq<Cell>, values: seq<Value>, at: int, loose: seq<Shape>, tok: Token)
    requires Shows(cells, values, at, loose)
    ensures Shows(cells + [TokenCell(tok)], values + [FromToken(tok)], at, loose)
  {
  }

  lemma {:induction false} ShowsLength(cells: seq<Cell>, values: seq<Value>, at: int, loose: seq<Shape>)
    requires Shows(cells, values, at, loose)
    ensures |cells| == |values| && |loose| <= 1 && (at < 0 ==> loose == [])
  {
  }

  // ----- The parser itself -----

  /** `SLPAllocFilter`: a filter that is on no ring, and the head of its ring of children, which is empty. */
  method AllocFilter(operator: int, attrs: seq<Attr>) returns (filter: FilterNode, head: FilterNode)
    ensures fresh(filter) && fresh(head) && filter != head
    ensures filter.data == FilterData(operator, 0, attrs, head) && filter.mark == 0
    ensures !filter.isHead && head.isHead && filter.owner == null && Alone(filter) && RingOf([], head)
  {
    head := new Node(true, FilterData(0, 0, [], null), 0);
    head.Close();
    filter := new Node(false, FilterData(operator, 0, attrs, head), 0);
    filter.next, filter.prev := filter, filter;
    assert [head] + Tops([]) == [head];
  }

  lemma {:induction false} ParsedMeans(w: seq<Token>)
    requires IsTokens(w)
    ensures ResultCode(Parse(w).0) == 0 <==> Parse(w).0 == Accepted
    ensures Parse(w).0 == Accepted ==>
      forall es :: WfExprs(es) && PrintAll(es) == w ==> Parse(w).1.ring == MeaningAll(es, 1)
  {
    hide Parse, WfExprs, PrintAll, MeaningAll;
    if Parse(w).0 == Accepted {
      forall es | WfExprs(es) && PrintAll(es) == w
        ensures Parse(w).1.ring == MeaningAll(es, 1)
      {
        FilterMeaning(w, es);
      }
    }
  }

  /** Parser and evaluator together: once the evaluator has been over the list that a parse left, every filter
      on it holds the value of the expression it was read from. */
  lemma {:induction false} ParsedValues(list: seq<Shape>, es: seq<Expr>, attrs: seq<Attr>, fn: Wildcard.Matcher, i: nat)
    requires ReadingAll(list) == MeaningAll(es, 1) && EvaluatedAll(list, attrs, fn) && i < |es|
    ensures |list| == |es|
    ensures list[i].node.mark == if Holds(Meaning(es[i], 1), attrs, fn) then 1 else 0
  {
    hide Holds, Meaning;
    MeaningAt(es, 1);
    EvaluatedAt(list, attrs, fn, i);
  }

  class Reader {
    const reducedFilters: FilterNode
    var nesting_level: int
    ghost var list: seq<Shape>           // the trees whose roots are on `reducedFilters`
    ghost var made: set<FilterNode>      // every filter allocated so far
    ghost var dropped: set<FilterNode>   // every filter given up right after its allocation

    constructor ()
      ensures reducedFilters.isHead && fresh(reducedFilters)
    {
      reducedFilters := new Node(true, FilterData(0, 0, [], null), 0);
      nesting_level, list, made, dropped := 1, [], {}, {};
    }

    /** `SLPInitFilterList`, and the first level: empties the list, whatever it holds. */
    method Init()
      requires reducedFilters.isHead
      modifies this, reducedFilters`next, reducedFilters`prev, reducedFilters`owner
      ensures RingOf(list, reducedFilters) && list == [] && nesting_level == 1 && made == dropped == {}
    {
      reducedFilters.Close();
      nesting_level, list, made, dropped := 1, [], {}, {};
      assert [reducedFilters] + Tops([]) == [reducedFilters];
    }

    /** Moves a filter from the list to the end of a ring of children. */
    method AdoptOne(nest: FilterNode, head: FilterNode, ghost kept: seq<Shape>, ghost rest: seq<Shape>,
                    ghost kids: seq<Shape>, ghost sh: Shape, ghost nodes: set<FilterNode>)
      requires RingOf(kept + [sh] + rest, reducedFilters) && RingOf(kids, head) && head != reducedFilters
      requires nest == sh.node && reducedFilters in nodes && head in nodes
      requires forall n :: n in Tops(kept + [sh] + rest) || n in Tops(kids) ==> n in nodes
      modifies nodes`next, nodes`prev, nodes`owner
      ensures RingOf(kept + rest, reducedFilters) && RingOf(kids + [sh], head)
    {
      hide IsRing;
      ghost var r, s := [reducedFilters] + Tops(kept + [sh] + rest), [head] + Tops(kids);
      ghost var k := |kept| + 1;
      assert r[k] == nest && nest in Tops(kept + [sh] + rest);
      Move(nest, head, r, k, s);
      assert r[..k] + r[k + 1..] == [reducedFilters] + Tops(kept + rest);
      assert s + [nest] == [head] + Tops(kids + [sh]);
    }

    /** What an adoption relinks. */
    ghost function Reach(head: FilterNode): set<FilterNode>
      reads `list
    {
      {reducedFilters, head} + (set n | n in Tops(list))
    }

    lemma {:induction false} ReachInside(head: FilterNode, some: seq<Shape>)
      requires forall i :: 0 <= i < |some| ==> some[i] in list
      ensures reducedFilters in Reach(head) && head in Reach(head)
      ensures forall n :: n in Tops(some) ==> n in Reach(head)
    {
      forall i | 0 <= i < |some| ensures some[i].node in Reach(head) {
        var j :| 0 <= j < |list| && list[j] == some[i];
        assert Tops(list)[j] == some[i].node;
      }
    }

    /** The two rings after the first `done` filters of the list. */
    ghost predicate Split(head: FilterNode, done: nat, kept: seq<Shape>, kids: seq<Shape>)
      requires done <= |list|
      reads `list, `nesting_level, Reach(head)`next, Reach(head)`prev, Reach(head)`owner
    {
      && kept == Pick(list[..done], nesting_level + 1, false) && kids == Pick(list[..done], nesting_level + 1, true)
      && (SplitInside(head, done, kept, kids);
          RingOf(kept + list[done..], reducedFilters) && RingOf(kids, head))
    }

    lemma {:induction false} SplitInside(head: FilterNode, done: nat, kept: seq<Shape>, kids: seq<Shape>)
      requires done <= |list|
      requires kept == Pick(list[..done], nesting_level + 1, false)
      requires kids == Pick(list[..done], nesting_level + 1, true)
      ensures reducedFilters in Reach(head) && head in Reach(head)
      ensures forall n :: n in Tops(kept + list[done..]) ==> n in Reach(head)
      ensures forall n :: n in Tops(kids) ==> n in Reach(head)
    {
      PickInside(list[..done], nesting_level + 1, false);
      PickInside(list[..done], nesting_level + 1, true);
      hide Pick, Tops;
      ReachInside(head, kept + list[done..]);
      ReachInside(head, kids);
    }

    /** The first `done` filters of the list have been looked at, and those a level deeper have moved. */
    ghost predicate Adopting(temp: FilterNode, head: FilterNode, done: int, kept: seq<Shape>, kids: seq<Shape>)
      reads `list, `nesting_level, Reach(head)`next, Reach(head)`prev, Reach(head)`owner
    {
      && 0 <= done <= |list| && temp == NodeAt(list, done, reducedFilters) && head != reducedFilters
      && Split(head, done, kept, kids)
    }

    lemma {:induction false} AdoptingStarts(head: FilterNode)
      requires RingOf(list, reducedFilters) && RingOf([], head) && head != reducedFilters
      ensures reducedFilters.next != null && Adopting(reducedFilters.next, head, 0, [], [])
    {
      HeadLinks(list, reducedFilters);
      PickNone(list, nesting_level + 1);
      hide IsRing, RingOf, Pick;
    }

    lemma {:induction false} AdoptingAt(temp: FilterNode, head: FilterNode, done: int, kept: seq<Shape>,
                                        kids: seq<Shape>)
      requires Adopting(temp, head, done, kept, kids)
      ensures temp.isHead <==> done == |list|
      ensures done < |list| ==>
        && temp == list[done].node && temp.next == NodeAt(list, done + 1, reducedFilters)
        && RingOf(kept + [list[done]] + list[done + 1..], reducedFilters) && RingOf(kids, head)
        && head != reducedFilters && reducedFilters in Reach(head) && head in Reach(head)
        && (forall n :: n in Tops(kept + [list[done]] + list[done + 1..]) ==> n in Reach(head))
        && forall n :: n in Tops(kids) ==> n in Reach(head)
    {
      SplitInside(head, done, kept, kids);
      hide RingOf, Pick, Reach, Tops;
      if done < |list| {
        assert kept + list[done..] == kept + [list[done]] + list[done + 1..];
        LinkAt(kept + list[done..], |kept|, reducedFilters);
      } else {
        HeadLinks(kept + list[done..], reducedFilters);
      }
    }

    lemma {:induction false} AdoptingMore(next: FilterNode, head: FilterNode, done: nat, kept: seq<Shape>,
                                          kids: seq<Shape>, kept': seq<Shape>, kids': seq<Shape>)
      requires done < |list| && next == NodeAt(list, done + 1, reducedFilters) && head != reducedFilters
      requires kept == Pick(list[..done], nesting_level + 1, false)
      requires kids == Pick(list[..done], nesting_level + 1, true)
      requires var sh := list[done];
        if sh.data.nestingLevel == nesting_level + 1 then kept' == kept && kids' == kids + [sh]
        else kept' == kept + [sh] && kids' == kids
      requires RingOf(kept' + list[done + 1..], reducedFilters) && RingOf(kids', head)
      ensures Adopting(next, head, done + 1, kept', kids')
    {
      PickMore(list, done, nesting_level + 1);
      hide RingOf, Pick;
    }

    lemma {:induction false} AdoptingPicks(temp: FilterNode, head: FilterNode, done: int, kept: seq<Shape>,
                                           kids: seq<Shape>)
      requires Adopting(temp, head, done, kept, kids)
      ensures 0 <= done <= |list|
      ensures kept == Pick(list[..done], nesting_level + 1, false)
      ensures kids == Pick(list[..done], nesting_level + 1, true)
    {
    }

    /** Looks at one filter of the list. */
    method AdoptNext(temp: FilterNode, head: FilterNode, ghost done: nat, ghost kept: seq<Shape>,
                     ghost kids: seq<Shape>)
      returns (next: FilterNode, ghost kept': seq<Shape>, ghost kids': seq<Shape>)
      requires Adopting(temp, head, done, kept, kids) && done < |list| && temp.data == list[done].data
      modifies Reach(head)`next, Reach(head)`prev, Reach(head)`owner
      ensures Adopting(next, head, done + 1, kept', kids')
    {
      ghost var sh, rest := list[done], list[done + 1..];
      hide *;
      AdoptingAt(temp, head, done, kept, kids);
      AdoptingPicks(temp, head, done, kept, kids);
      next := temp.next;
      kept', kids' := kept, kids;
      if temp.data.nestingLevel == nesting_level + 1 {
        AdoptOne(temp, head, kept, rest, kids, sh, Reach(head));
        kids' := kids + [sh];
      } else {
        kept' := kept + [sh];
      }
      AdoptingMore(next, head, done, kept, kids, kept', kids');
    }

    /** Moves every filter one level deeper, in order, from the list to the end of a ring of children. */
    method Adopt(head: FilterNode) returns (ghost kept: seq<Shape>, ghost kids: seq<Shape>)
      requires RingOf(list, reducedFilters) && RingOf([], head) && head != reducedFilters
      requires forall i :: 0 <= i < |list| ==> list[i].node.data == list[i].data
      modifies Reach(head)`next, Reach(head)`prev, Reach(head)`owner
      ensures kept == Pick(list, nesting_level + 1, false) && kids == Pick(list, nesting_level + 1, true)
      ensures RingOf(kept, reducedFilters) && RingOf(kids, head)
    {
      kept, kids := [], [];
      ghost var done := 0;
      hide *;
      AdoptingStarts(head);
      var temp: FilterNode := reducedFilters.next;
      AdoptingPicks(temp, head, done, kept, kids);
      AdoptingAt(temp, head, done, kept, kids);
      while !temp.isHead
        invariant 0 <= done <= |list| && Adopting(temp, head, done, kept, kids)
        invariant temp.isHead <==> done == |list|
        invariant done < |list| ==> temp == list[done].node
        decreases |list| - done
      {
        temp, kept, kids := AdoptNext(temp, head, done, kept, kids);
        done := done + 1;
        AdoptingAt(temp, head, done, kept, kids);
      }
      AllLookedAt(temp, head, kept, kids);
    }

    lemma {:induction false} AllLookedAt(temp: FilterNode, head: FilterNode, kept: seq<Shape>, kids: seq<Shape>)
      requires Adopting(temp, head, |list|, kept, kids)
      ensures kept == Pick(list, nesting_level + 1, false) && kids == Pick(list, nesting_level + 1, true)
      ensures RingOf(kept, reducedFilters) && RingOf(kids, head)
    {
      assert list[..|list|] == list && kept + list[|list|..] == kept;
    }

    // ----- The actions -----

    /** Every node and head of the trees on the list, and of the trees `loose`. */
    ghost function All(loose: seq<Shape>): set<FilterNode>
      reads `list
    {
      {reducedFilters} + NodesAll(list) + HeadsAll(list) + NodesAll(loose) + HeadsAll(loose)
    }

    /** The list and all rings of children are sound; every filter allocated so far is in one of the trees
        of the list, or waits in `loose`, or has been dropped. */
    ghost predicate Valid(loose: seq<Shape>)
      reads `list, `made, `dropped, All(loose)
    {
      Members(list);
      BelowIsInside(list);
      BelowIsInside(loose);
      Members(loose);
      && RingOf(list, reducedFilters) && LinkedAll(list) && LinkedAll(loose)
      && reducedFilters !in HeadsAll(list) && reducedFilters !in HeadsAll(loose)
      && NodesAll(list) !! NodesAll(loose) && HeadsAll(list) !! HeadsAll(loose)
      && (forall i :: 0 <= i < |loose| ==> loose[i].kids == [] && loose[i].node.owner == null)
      && made == NodesAll(list) + NodesAll(loose) + dropped
    }

    /** Links a tree at the end of the list. */
    method LinkLast(filter: FilterNode, ghost front: seq<Shape>, ghost sh: Shape)
      requires RingOf(front, reducedFilters) && filter == sh.node && filter.owner == null && !filter.isHead
      modifies filter`next, filter`prev, filter`owner, reducedFilters`next, reducedFilters`prev
      modifies Tops(front)`next, Tops(front)`prev
      ensures RingOf(front + [sh], reducedFilters)
      ensures forall kids: seq<Shape>, head: FilterNode {:trigger RingOf(kids, head)} ::
        old(allocated(kids)) && old(allocated(head)) && old(RingOf(kids, head)) && head != reducedFilters ==>
          RingOf(kids, head)
    {
      hide IsRing;
      ghost var r := [reducedFilters] + Tops(front);
      InsertBefore(filter, reducedFilters, r, |r|);
      assert r[..|r|] + [filter] + r[|r|..] == [reducedFilters] + Tops(front + [sh]);
    }

    lemma {:induction false} ReachApart(head: FilterNode)
      requires LinkedAll(list) && reducedFilters.isHead && head.isHead
      requires reducedFilters !in HeadsAll(list) && head !in HeadsAll(list)
      ensures Reach(head) !! BelowAll(list) && Reach(head) !! HeadsAll(list)
      ensures forall n :: n in Tops(list) ==> n in NodesAll(list)
      ensures forall i :: 0 <= i < |list| ==> list[i].node.data == list[i].data
    {
      TopsApart(list);
      Members(list);
      BelowIsInside(list);
      HeadsAreHeads(list);
      TopsHold(list);
      hide LinkedAll;
    }

    lemma {:induction false} TopsHold(some: seq<Shape>)
      requires LinkedAll(some)
      ensures forall i :: 0 <= i < |some| ==> some[i].node.data == some[i].data
    {
      forall i | 0 <= i < |some| ensures some[i].node.data == some[i].data {
        SuffixLinked(some, i);
      }
    }

    /** The filters of the list that a new filter adopts, and the others. */
    ghost function Deeper(): seq<Shape>
      reads `list, `nesting_level
    {
      Pick(list, nesting_level + 1, true)
    }

    ghost function Others(): seq<Shape>
      reads `list, `nesting_level
    {
      Pick(list, nesting_level + 1, false)
    }

    /** A filter that has adopted filters of the list takes their place. */
    lemma {:induction false} AdoptedLinked(sh: Shape)
      requires LinkedAll(list) && sh.node.data == sh.data && !sh.node.isHead && sh.data.children != null
      requires sh.kids == Deeper() && RingOf(sh.kids, sh.data.children)
      requires sh.node !in NodesAll(list) && sh.data.children !in HeadsAll(list)
      ensures var now := Others() + [sh];
        && LinkedAll(now) && NodesAll(now) == NodesAll(list) + {sh.node}
        && HeadsAll(now) == HeadsAll(list) + {sh.data.children}
    {
      var kept := Others();
      hide LinkedAll, NodesAll, HeadsAll, RingOf, Pick;
      PickLinked(list, nesting_level + 1);
      LinkedConcat(kept, sh.kids);
      NodesConcat(kept, sh.kids);
      LinkedConcat(kept, [sh]);
      NodesConcat(kept, [sh]);
      SetsOfOne(sh);
    }

    /** An adoption leaves everything below the filters of the list as it was. */
    method AdoptLinked(head: FilterNode)
      requires RingOf(list, reducedFilters) && LinkedAll(list) && RingOf([], head) && head != reducedFilters
      requires reducedFilters.isHead && head.isHead && reducedFilters !in HeadsAll(list) && head !in HeadsAll(list)
      modifies Reach(head)`next, Reach(head)`prev, Reach(head)`owner
      ensures RingOf(Others(), reducedFilters) && RingOf(Deeper(), head) && LinkedAll(list)
    {
      ReachApart(head);
      hide *;
      assert allocated(NodesAll(list)) && allocated(HeadsAll(list)) && allocated(BelowAll(list));
      ghost var kept, kids := Adopt(head);
    }

    lemma {:induction false} ReachKept(filter: FilterNode, head: FilterNode)
      ensures Within(Others(), Reach(head) + {filter})
      ensures reducedFilters in Reach(head) && head in Reach(head)
    {
      PickInside(list, nesting_level + 1, false);
      ReachInside(head, Others());
    }

    /** Links a filter at the end of the list `front` without touching what is below the filters of `was`. */
    method LinkBeside(filter: FilterNode, ghost front: seq<Shape>, ghost sh: Shape, ghost was: seq<Shape>,
                      ghost nodes: set<FilterNode>, ghost kids: seq<Shape>, ghost head: FilterNode)
      requires RingOf(front, reducedFilters) && filter == sh.node && filter.owner == null && !filter.isHead
      requires LinkedAll(was) && nodes !! BelowAll(was) && nodes !! HeadsAll(was)
      requires filter in nodes && reducedFilters in nodes && Within(front, nodes)
      requires head != reducedFilters && RingOf(kids, head)
      modifies nodes`next, nodes`prev, filter`owner
      ensures RingOf(front + [sh], reducedFilters) && LinkedAll(was) && RingOf(kids, head)
    {
      assert forall n :: n in Tops(front) ==> n in nodes;
      hide *;
      assert allocated(NodesAll(was)) && allocated(HeadsAll(was)) && allocated(BelowAll(was));
      LinkLast(filter, front, sh);
    }

    lemma {:induction false} NewApart(filter: FilterNode, head: FilterNode)
      requires LinkedAll(list) && reducedFilters.isHead && head.isHead && !filter.isHead && filter !in NodesAll(list)
      requires reducedFilters !in HeadsAll(list) && head !in HeadsAll(list)
      ensures var nodes := Reach(head) + {filter};
        nodes !! BelowAll(list) && nodes !! HeadsAll(list) && filter !in Reach(head)
    {
      ReachApart(head);
      BelowIsInside(list);
      HeadsAreHeads(list);
      hide LinkedAll;
    }

    /** A new filter `filter`, with the empty ring of children `head`, stands beside a sound list. */
    ghost predicate Beside(filter: FilterNode, head: FilterNode, data: FilterData)
      reads `list, `made, `dropped, All([]), filter, head
    {
      AllOfNone();
      && filter.data == data && data.children == head
      && RingOf(list, reducedFilters) && LinkedAll(list) && RingOf([], head) && head != reducedFilters
      && reducedFilters.isHead && head.isHead && reducedFilters !in HeadsAll(list) && head !in HeadsAll(list)
      && !filter.isHead && filter.owner == null && filter !in NodesAll(list)
      && made == NodesAll(list) + dropped + {filter}
    }

    lemma {:induction false} AllOfNone()
      ensures All([]) == {reducedFilters} + NodesAll(list) + HeadsAll(list)
      ensures forall n :: n in Tops(list) ==> n in All([])
      ensures BelowAll(list) <= All([])
    {
      Members(list);
      BelowIsInside(list);
    }

    /** Moves the filters one level deeper under a new filter, and links this at the end of the list. */
    method Relink(filter: FilterNode, head: FilterNode, ghost data: FilterData, ghost sh: Shape)
      requires Beside(filter, head, data) && sh.node == filter
      modifies filter`next, filter`prev, filter`owner, Reach(head)`next, Reach(head)`prev, Reach(head)`owner
      ensures RingOf(Others() + [sh], reducedFilters) && RingOf(Deeper(), head) && LinkedAll(list)
    {
      ghost var nodes := Reach(head) + {filter};
      assert RingOf(list, reducedFilters) && LinkedAll(list) && RingOf([], head);
      ReachKept(filter, head);
      NewApart(filter, head);
      hide *;
      AdoptLinked(head);
      LinkBeside(filter, Others(), sh, list, nodes, Deeper(), head);
    }

    /** Collects the filters one level deeper under a new filter, which goes to the end of the list. */
    method Collect(filter: FilterNode, head: FilterNode, ghost data: FilterData, ghost sh: Shape)
      requires Beside(filter, head, data) && sh == Shape(filter, data, Deeper())
      modifies `list, filter`next, filter`prev, filter`owner, Reach(head)`next, Reach(head)`prev, Reach(head)`owner
      ensures list == old(Others()) + [sh]
      ensures RingOf(list, reducedFilters) && LinkedAll(list) && NodesAll(list) == NodesAll(old(list)) + {filter}
      ensures HeadsAll(list) == HeadsAll(old(list)) + {head} && reducedFilters !in HeadsAll(list)
      ensures made == NodesAll(list) + dropped
    {
      hide IsRing, RingOf, LinkedAll, NodesAll, HeadsAll, BelowAll, Pick, Reach, All, Others, Deeper, Tops;
      Relink(filter, head, data, sh);
      AdoptedLinked(sh);
      list := Others() + [sh];
    }

    /** A filter without children joins the end of the list. */
    lemma {:induction false} AttachedLinked(sh: Shape)
      requires LinkedAll(list) && sh.node.data == sh.data && !sh.node.isHead && sh.data.children != null
      requires sh.kids == [] && RingOf([], sh.data.children)
      requires sh.node !in NodesAll(list) && sh.data.children !in HeadsAll(list)
      ensures Linked(sh) && LinkedAll(list + [sh]) && NodesAll(list + [sh]) == NodesAll(list) + {sh.node}
      ensures HeadsAll(list + [sh]) == HeadsAll(list) + {sh.data.children}
      ensures ReadingAll(list + [sh]) == ReadingAll(list) + [Reading(sh)]
    {
      SetsOfOne(sh);
      LinkedConcat(list, [sh]);
      NodesConcat(list, [sh]);
      ReadingConcat(list, [sh]);
    }

    lemma {:induction false} ReachList(filter: FilterNode, head: FilterNode)
      ensures Within(list, Reach(head) + {filter}) && reducedFilters in Reach(head)
    {
      ReachInside(head, list);
    }

    method LinkAtEnd(filter: FilterNode, ghost head: FilterNode, ghost data: FilterData, ghost sh: Shape)
      requires Beside(filter, head, data) && sh.node == filter
      modifies filter`next, filter`prev, filter`owner, Reach(head)`next, Reach(head)`prev, Reach(head)`owner
      ensures RingOf(list + [sh], reducedFilters) && RingOf([], head) && LinkedAll(list)
    {
      ghost var nodes := Reach(head) + {filter};
      assert RingOf(list, reducedFilters) && LinkedAll(list) && RingOf([], head);
      ReachList(filter, head);
      NewApart(filter, head);
      hide *;
      LinkBeside(filter, list, sh, list, nodes, [], head);
    }

    /** Links a filter without children at the end of the list. */
    method Attach(filter: FilterNode, ghost head: FilterNode, ghost data: FilterData, ghost sh: Shape)
      requires Beside(filter, head, data) && sh == Shape(filter, data, [])
      modifies `list, filter`next, filter`prev, filter`owner, Reach(head)`next, Reach(head)`prev, Reach(head)`owner
      ensures Valid([]) && All([]) == old(All([])) + {filter, head}
      ensures ReadingAll(list) == old(ReadingAll(list)) + [Reading(sh)]
    {
      AllOfNone();
      hide IsRing, RingOf, LinkedAll, NodesAll, HeadsAll, BelowAll, Pick, Reach, All, Tops, Reading, ReadingAll, Valid;
      LinkAtEnd(filter, head, data, sh);
      AttachedLinked(sh);
      list := list + [sh];
      NowValid();
    }

    lemma {:induction false} ValidFacts(loose: seq<Shape>)
      requires Valid(loose)
      ensures RingOf(list, reducedFilters) && LinkedAll(list) && reducedFilters.isHead
      ensures reducedFilters !in HeadsAll(list) && Reach(reducedFilters) <= All(loose)
      ensures reducedFilters.next == reducedFilters && reducedFilters.prev == reducedFilters <==> list == []
      ensures loose == [] ==> made == NodesAll(list) + dropped
      ensures loose == [] ==> All(loose) == {reducedFilters} + NodesAll(list) + HeadsAll(list)
    {
      HeadLinks(list, reducedFilters);
      Members(list);
      hide LinkedAll, IsRing;
    }

    lemma {:induction false} NowValid()
      requires RingOf(list, reducedFilters) && LinkedAll(list)
      requires reducedFilters !in HeadsAll(list) && made == NodesAll(list) + dropped
      ensures Valid([]) && All([]) == {reducedFilters} + NodesAll(list) + HeadsAll(list)
    {
      hide IsRing;
    }

    /** What a list reads as once a new filter has adopted the filters one level deeper. */
    lemma {:induction false} GroupReads(op: int, sh: Shape)
      requires sh.kids == Deeper() && sh.data == FilterData(op, nesting_level, [], sh.data.children)
      ensures var was, n := ReadingAll(list), nesting_level + 1;
        ReadingAll(Others() + [sh]) == NotAtLevel(was, n) + [Filter(op, nesting_level, [], AtLevel(was, n))]
    {
      PickReads(list, nesting_level + 1);
      ReadingConcat(Others(), [sh]);
      SetsOfOne(sh);
      hide AtLevel, NotAtLevel, Pick;
    }

    lemma {:induction false} ReachOf()
      ensures forall head {:trigger Reach(head)} :: Reach(head) == Reach(reducedFilters) + {head}
    {
    }

    lemma {:induction false} NowBeside(filter: FilterNode, head: FilterNode, data: FilterData)
      requires filter.data == data && data.children == head
      requires RingOf(list, reducedFilters) && LinkedAll(list) && RingOf([], head) && head != reducedFilters
      requires reducedFilters.isHead && head.isHead && reducedFilters !in HeadsAll(list) && head !in HeadsAll(list)
      requires !filter.isHead && filter.owner == null && filter !in NodesAll(list)
      requires made == NodesAll(list) + dropped + {filter}
      ensures Beside(filter, head, data)
    {
    }

    /** Allocates a filter beside the list. */
    method NewFilter(op: int, attrs: seq<Attr>)
      returns (filter: FilterNode, head: FilterNode, ghost data: FilterData)
      requires Valid([])
      modifies `made
      ensures Beside(filter, head, data) && fresh(filter) && fresh(head) && data == FilterData(op, 0, attrs, head)
      ensures Reach(head) <= All([]) + {head}
      ensures list != [] <==> !(reducedFilters.next == reducedFilters && reducedFilters.prev == reducedFilters)
    {
      ValidFacts([]);
      ReachOf();
      hide *;
      assert allocated(NodesAll(list)) && allocated(HeadsAll(list));
      assert allocated(BelowAll(list)) && allocated(Tops(list));
      filter, head := AllocFilter(op, attrs);
      data := filter.data;
      made := made + {filter};
      NowBeside(filter, head, data);
    }

    /** Gives a filter beside the list the current level. */
    method SetLevel(filter: FilterNode, ghost head: FilterNode, ghost data: FilterData)
      returns (ghost data': FilterData)
      requires Beside(filter, head, data)
      modifies filter`data
      ensures data' == data.(nestingLevel := nesting_level) && Beside(filter, head, data')
    {
      hide RingOf, LinkedAll, NodesAll, HeadsAll, BelowAll;
      assert allocated(NodesAll(list)) && allocated(HeadsAll(list));
      assert allocated(BelowAll(list)) && allocated(Tops(list));
      filter.data := filter.data.(nestingLevel := nesting_level);
      data' := filter.data;
    }

    /** Rule 4 with filters on the list. */
    method Gather(op: int, filter: FilterNode, head: FilterNode, ghost data: FilterData)
      requires Beside(filter, head, data) && data == FilterData(op, nesting_level, [], head)
      modifies `list, filter`next, filter`prev, filter`owner, Reach(head)`next, Reach(head)`prev, Reach(head)`owner
      ensures Valid([]) && All([]) == old(All([])) + {filter, head}
      ensures var was, n := old(ReadingAll(list)), nesting_level + 1;
        ReadingAll(list) == NotAtLevel(was, n) + [Filter(op, nesting_level, [], AtLevel(was, n))]
    {
      ghost var sh := Shape(filter, data, Deeper());
      hide *;
      AllOfNone();
      GroupReads(op, sh);
      Collect(filter, head, data, sh);
      NowValid();
    }

    /** Rule 4 on an empty list: the new filter is given up. */
    method GiveUp(ghost filter: FilterNode, ghost head: FilterNode, ghost data: FilterData)
      requires Beside(filter, head, data)
      modifies `dropped
      ensures Valid([])
    {
      dropped := dropped + {filter};
      hide RingOf, LinkedAll, NodesAll, HeadsAll, Valid;
      NowValid();
    }

    /** Rule 4: a new filter adopts the filters one level deeper and goes to the end of the list. */
    method Group(op: int) returns (yyval: Cell)
      requires Valid([])
      modifies `list, `made, `dropped, All([])`next, All([])`prev, All([])`owner
      ensures Valid([]) && (old(list) == [] ==> yyval == NullCell && list == [])
      ensures old(list) != [] ==> yyval.NodeCell? && dropped == old(dropped)
      ensures var was, n := old(ReadingAll(list)), nesting_level + 1;
        old(list) != [] ==>
          ReadingAll(list) == NotAtLevel(was, n) + [Filter(op, nesting_level, [], AtLevel(was, n))]
      ensures fresh(All([]) - old(All([])))
    {
      hide *;
      assert allocated(All([]));
      var filter, head;
      ghost var data;
      filter, head, data := NewFilter(op, []);
      data := SetLevel(filter, head, data);
      if reducedFilters.next == reducedFilters && reducedFilters.prev == reducedFilters {
        GiveUp(filter, head, data);
        yyval := NullCell;
      } else {
        yyval := NodeCell(filter);
        Gather(op, filter, head, data);
      }
    }

    lemma {:induction false} WaitsBeside(loose: seq<Shape>)
      requires Valid(loose) && |loose| == 1
      ensures loose[0].data.children != null && Beside(loose[0].node, loose[0].data.children, loose[0].data)
      ensures loose[0].kids == [] && All(loose) == All([]) + {loose[0].node, loose[0].data.children}
      ensures Reach(loose[0].data.children) <= All(loose)
    {
      ValidFacts(loose);
      ReachOf();
      var sh := loose[0];
      assert loose == [sh];
      SetsOfOne(sh);
      HeadLinks([], sh.data.children);
      hide IsRing, Reach;
    }

    lemma {:induction false} BesideWaits(filter: FilterNode, head: FilterNode, data: FilterData)
      requires Beside(filter, head, data)
      ensures Valid([Shape(filter, data, [])])
      ensures All([Shape(filter, data, [])]) == All([]) + {filter, head}
    {
      var sh := Shape(filter, data, []);
      AttachedLinked(sh);
      SetsOfOne(sh);
      hide RingOf;
    }

    /** Rule 5: the waiting filter gets its level and goes to the end of the list. */
    method Simple(filter: FilterNode, ghost loose: seq<Shape>)
      requires Valid(loose) && |loose| == 1 && filter == loose[0].node
      modifies `list, All(loose)
      ensures Valid([]) && All([]) == old(All(loose))
      ensures ReadingAll(list) == old(ReadingAll(list)) + [Reading(loose[0]).(nestingLevel := nesting_level)]
    {
      WaitsBeside(loose);
      ghost var head := loose[0].data.children;
      assert Reading(loose[0]).(nestingLevel := nesting_level)
          == Reading(Shape(filter, loose[0].data.(nestingLevel := nesting_level), []));
      hide *;
      ghost var data := SetLevel(filter, head, loose[0].data);
      Attach(filter, head, data, Shape(filter, data, []));
    }

    /** Rules 11 to 14: a new filter with one attribute, which waits to be linked. */
    method Expression(op: int, name: string, value: AttrValue) returns (yyval: Cell, ghost loose: seq<Shape>)
      requires Valid([])
      modifies `made
      ensures Waits(yyval, FromFilter(Filter(op, 0, [Attr(name, value)], [])), loose)
      ensures Valid(loose) && fresh(All(loose) - All([]))
    {
      hide Valid, All, Beside;
      var filter, head;
      ghost var data;
      filter, head, data := NewFilter(op, [Attr(name, value)]);
      yyval := NodeCell(filter);
      loose := [Shape(filter, data, [])];
      BesideWaits(filter, head, data);
    }

    /** The list, the level and the waiting filter are what the action of rule `r` should make of the list
        `was` and the level `level`. */
    ghost predicate Performed(r: int, vs: seq<Value>, lval: Token, was: seq<Filter>, level: int, loose: seq<Shape>,
                              yyval: Cell, loose': seq<Shape>)
      requires r < 19 && 0 < |vs| == |FilterRules(r).rhs|
      reads `list, `nesting_level
    {
      var p := Perform(r, vs, lval, was, level);
      Left(r, loose, yyval, p.0, loose') && ReadingAll(list) == p.1 && nesting_level == p.2
    }

    /** The actions that make filters. */
    method ReduceFilter(r: int, args: seq<Cell>, ghost lval: Token, ghost vs: seq<Value>, ghost loose: seq<Shape>)
      returns (yyval: Cell)
      requires (r == 4 || r == 5) && Fit(r, args, vs, loose) && Valid(loose)
      modifies `list, `made, `dropped, All(loose)
      ensures Valid([]) && fresh(All([]) - old(All(loose)))
      ensures Performed(r, vs, lval, old(ReadingAll(list)), old(nesting_level), loose, yyval, [])
      ensures old(list) != [] || r == 5 ==> dropped == old(dropped)
    {
      hide AtLevel, NotAtLevel, Valid, All;
      if r == 4 {
        yyval := Group(CellInt(args[1]));
      } else {
        yyval := args[1];
        if yyval.NodeCell? {
          Simple(yyval.node, loose);
        }
      }
    }

    /** The actions that make expressions. */
    method ReduceExpression(r: int, args: seq<Cell>, ghost lval: Token, ghost vs: seq<Value>)
      returns (yyval: Cell, ghost loose: seq<Shape>)
      requires 11 <= r <= 14 && Fit(r, args, vs, []) && Valid([])
      modifies `made
      ensures Valid(loose) && fresh(All(loose) - All([]))
      ensures Performed(r, vs, lval, ReadingAll(list), nesting_level, [], yyval, loose)
    {
      hide Valid, All, ReadingAll;
      match r
      case 11 => yyval, loose := Expression(EXPR_PRESENT, CellString(args[0]), StringVal("*"));
      case 12 =>
        yyval, loose := Expression(CellInt(args[1]), CellString(args[0]), IntegerVal(Unsigned(CellInt(args[2]))));
      case 13 => yyval, loose := Expression(CellInt(args[1]), CellString(args[0]), BooleanVal(CellInt(args[2])));
      case 14 => yyval, loose := Expression(CellInt(args[1]), CellString(args[0]), StringVal(CellString(args[2])));
    }

    /** The actions of the other rules, which touch no filter. */
    method ReduceOther(r: int, args: seq<Cell>, lval: Token, ghost vs: seq<Value>, ghost loose: seq<Shape>)
      returns (yyval: Cell)
      requires r != 4 && r != 5 && !(11 <= r <= 14) && r < 19 && Fit(r, args, vs, loose) && Valid(loose)
      modifies `nesting_level
      ensures Valid(loose) && Performed(r, vs, lval, ReadingAll(list), old(nesting_level), loose, yyval, loose)
    {
      hide ReadingAll, Valid;
      assert allocated(All(loose));
      yyval := args[0];
      match r
      case 6 => nesting_level := nesting_level + 1;
      case 7 => nesting_level := nesting_level - 1;
      case 10 => yyval := TokenCell(lval);
      case 18 => yyval := TokenCell(lval);
      case _ =>
    }

    /** The actions that allocate or link filters. */
    method ReduceMaking(r: int, args: seq<Cell>, ghost lval: Token, ghost vs: seq<Value>, ghost loose: seq<Shape>)
      returns (yyval: Cell, ghost loose': seq<Shape>)
      requires (r == 4 || r == 5 || 11 <= r <= 14) && Fit(r, args, vs, loose) && Valid(loose)
      modifies `list, `made, `dropped, All(loose)
      ensures Valid(loose') && fresh(All(loose') - old(All(loose)))
      ensures Performed(r, vs, lval, old(ReadingAll(list)), old(nesting_level), loose, yyval, loose')
      ensures old(list) != [] || r != 4 ==> dropped == old(dropped)
    {
      assert (11 <= r <= 14 ==> loose == []) && 0 < |vs| == |FilterRules(r).rhs|;
      hide *;
      if r == 4 || r == 5 {
        yyval := ReduceFilter(r, args, lval, vs, loose);
        loose' := [];
      } else {
        yyval, loose' := ReduceExpression(r, args, lval, vs);
      }
    }

    /** The action of rule `r`. */
    method Reduce(r: int, args: seq<Cell>, lval: Token, ghost vs: seq<Value>, ghost loose: seq<Shape>)
      returns (yyval: Cell, ghost loose': seq<Shape>)
      requires r < 19 && Fit(r, args, vs, loose) && Valid(loose)
      modifies this, All(loose)
      ensures Valid(loose') && fresh(All(loose') - old(All(loose)))
      ensures Performed(r, vs, lval, old(ReadingAll(list)), old(nesting_level), loose, yyval, loose')
      ensures old(list) != [] || r != 4 ==> dropped == old(dropped)
    {
      assert 0 < |vs| == |FilterRules(r).rhs|;
      hide *;
      if r == 4 || r == 5 || 11 <= r <= 14 {
        yyval, loose' := ReduceMaking(r, args, lval, vs, loose);
      } else {
        loose' := loose;
        yyval := ReduceOther(r, args, lval, vs, loose);
      }
    }

    /** The abstract state while the value stack stands for `values`. */
    ghost function Now(values: seq<Value>): State
      reads `list, `nesting_level
    {
      State(values, ReadingAll(list), nesting_level)
    }

    /** The value stack, the list and the level are what the state `s` says, with the waiting filter at `at`. */
    ghost predicate Matched(yyvs: seq<Cell>, s: State, at: int, loose: seq<Shape>)
      reads `list, `nesting_level
    {
      Shows(yyvs, s.values, at, loose) && Now(s.values) == s
    }

    /** A reduction has done to the stack, the list and the level what its event does to the state. */
    lemma {:induction false} Pushed(s: State, r: int, lval: Token, yyvs: seq<Cell>, at: int, loose: seq<Shape>,
                                    at': int, yyval: Cell, loose': seq<Shape>)
      requires Shows(yyvs, s.values, at, loose) && r < 19 && 0 < |FilterRules(r).rhs| <= |yyvs|
      requires Moves(Reduced(r, lval), |yyvs|, at, |yyvs| - |FilterRules(r).rhs| + 1, at')
      requires var k := |yyvs| - |FilterRules(r).rhs|;
        |s.values| == |yyvs| && Performed(r, s.values[k..], lval, s.ring, s.level, loose, yyval, loose')
      ensures var k := |yyvs| - |FilterRules(r).rhs|;
        Matched(yyvs[..k] + [yyval], Apply(s, Reduced(r, lval)), at', loose')
    {
      hide Perform, Shows, Moves, FilterRules;
      var k := |yyvs| - |FilterRules(r).rhs|;
      var v := Perform(r, s.values[k..], lval, s.ring, s.level).0;
      ShowsReduced(yyvs, s.values, at, loose, r, lval, at', yyval, v, loose');
    }

    /** The right-hand side of a reduction is fit for its action. */
    lemma {:induction false} Popped(s: State, r: int, lval: Token, yyvs: seq<Cell>, at: int, loose: seq<Shape>,
                                    at': int)
      requires Matched(yyvs, s, at, loose) && 0 < |FilterRules(r).rhs| <= |yyvs|
      requires Moves(Reduced(r, lval), |yyvs|, at, |yyvs| - |FilterRules(r).rhs| + 1, at')
      ensures var k := |yyvs| - |FilterRules(r).rhs|;
        && |s.values| == |yyvs| && |s.values[k..]| == |FilterRules(r).rhs| && Fit(r, yyvs[k..], s.values[k..], loose)
        && Shows(yyvs, s.values, at, loose) && s.ring == ReadingAll(list) && s.level == nesting_level
    {
      hide FilterRules, Shows, Moves;
      ShowsLength(yyvs, s.values, at, loose);
      ShowsArgs(yyvs, s.values, at, loose, r, lval, |yyvs| - |FilterRules(r).rhs| + 1, at');
    }

    method HandleReduced(r: int, lval: Token, yyvs: seq<Cell>, ghost s: State, ghost at: int, ghost at': int,
                         ghost loose: seq<Shape>)
      returns (yyvs': seq<Cell>, ghost loose': seq<Shape>)
      requires START < r < 19 && 0 < |FilterRules(r).rhs| <= |yyvs|
      requires Moves(Reduced(r, lval), |yyvs|, at, |yyvs| - |FilterRules(r).rhs| + 1, at')
      requires Matched(yyvs, s, at, loose) && Valid(loose)
      modifies this, All(loose)
      ensures Valid(loose') && fresh(All(loose') - old(All(loose)))
      ensures Matched(yyvs', Apply(s, Reduced(r, lval)), at', loose')
      ensures |yyvs'| == |yyvs| - |FilterRules(r).rhs| + 1
      ensures old(list) != [] || r != 4 ==> dropped == old(dropped)
    {
      hide *;
      Popped(s, r, lval, yyvs, at, loose, at');
      var n := |FilterRules(r).rhs|;
      var yyval;
      yyval, loose' := Reduce(r, yyvs[|yyvs| - n..], lval, s.values[|yyvs| - n..], loose);
      yyvs' := yyvs[..|yyvs| - n] + [yyval];
      Pushed(s, r, lval, yyvs, at, loose, at', yyval, loose');
    }

    /** Updates the value stack and runs the action of a reduction. */
    method Handle(event: Event, yyvs: seq<Cell>, ghost s: State, ghost n': int, ghost at: int, ghost at': int,
                  ghost loose: seq<Shape>)
      returns (yyvs': seq<Cell>, ghost loose': seq<Shape>)
      requires Resizes(FILTER_AUTOMATON, event, |yyvs| + 1, n' + 1) && Moves(event, |yyvs|, at, n', at')
      requires Matched(yyvs, s, at, loose) && Valid(loose)
      modifies this, All(loose)
      ensures Valid(loose') && fresh(All(loose') - old(All(loose)))
      ensures Matched(yyvs', Apply(s, event), at', loose') && |yyvs'| == n'
      ensures old(list) != [] || !(event.Reduced? && event.rule == 4) ==> dropped == old(dropped)
    {
      match event
      case Shifted(tok) =>
        ShowsShifted(yyvs, s.values, at, loose, tok);
        hide Shows, Valid, ReadingAll, All;
        yyvs', loose' := yyvs + [TokenCell(tok)], loose;
      case Reduced(r, lval) =>
        assert START < r < 19 && 0 < |FilterRules(r).rhs| <= |yyvs| && n' == |yyvs| - |FilterRules(r).rhs| + 1;
        hide *;
        yyvs', loose' := HandleReduced(r, lval, yyvs, s, at, at', loose);
    }

    /** Beside the stack, the list is sound and nothing has been dropped. */
    ghost predicate Stands(yyvs: seq<Cell>, s: State, at: int, loose: seq<Shape>)
      reads this, All(loose)
    {
      Matched(yyvs, s, at, loose) && Valid(loose) && dropped == {}
    }

    lemma {:induction false} StandsFacts(yyvs: seq<Cell>, s: State, at: int, loose: seq<Shape>)
      requires Stands(yyvs, s, at, loose)
      ensures Matched(yyvs, s, at, loose) && Valid(loose) && dropped == {}
      ensures s.ring == ReadingAll(list) && s.level == nesting_level && (s.ring == [] <==> list == [])
      ensures |loose| <= 1 && (at < 0 ==> loose == [])
    {
      ShowsLength(yyvs, s.values, at, loose);
      hide Valid;
    }

    lemma {:induction false} NowStands(yyvs: seq<Cell>, s: State, at: int, loose: seq<Shape>)
      requires Matched(yyvs, s, at, loose) && Valid(loose) && dropped == {}
      ensures Stands(yyvs, s, at, loose)
    {
    }

    /** Follows an event with its action. */
    method Follow(event: Event, yyvs: seq<Cell>, ghost s: State, ghost n': int, ghost at: int, ghost at': int,
                  ghost loose: seq<Shape>, ghost nodes: set<FilterNode>)
      returns (yyvs': seq<Cell>, ghost loose': seq<Shape>, ghost nodes': set<FilterNode>)
      requires Resizes(FILTER_AUTOMATON, event, |yyvs| + 1, n' + 1) && Moves(event, |yyvs|, at, n', at')
      requires Stands(yyvs, s, at, loose) && (event.Reduced? && event.rule == 4 ==> s.ring != [])
      requires nodes == All(loose)
      modifies this, nodes
      ensures Stands(yyvs', Apply(s, event), at', loose') && |yyvs'| == n'
      ensures nodes' == All(loose') && fresh(nodes' - nodes)
    {
      hide *;
      StandsFacts(yyvs, s, at, loose);
      yyvs', loose' := Handle(event, yyvs, s, n', at, at', loose);
      NowStands(yyvs', Apply(s, event), at', loose');
      nodes' := All(loose');
    }

    lemma {:induction false} Begins(w: seq<Token>, d: Driver)
      requires IsTokens(w) && d.Valid() && d.m == FILTER_AUTOMATON && d.w == w
      requires d.yyss == [0] && d.read == 0 && d.forest == []
      requires RingOf(list, reducedFilters) && list == [] && nesting_level == 1 && made == dropped == {}
      ensures Comes(w, d, INITIAL) && Stands([], INITIAL, Spot(d.yyss), []) && All([]) == {reducedFilters}
    {
      InitialList();
      hide ApplyAll, EventsAll, Run, ListOk, Matches, IsPath, IsInput;
    }

    /** The list and the memory at the end of a parse. */
    ghost predicate Ends(s: State, loose: seq<Shape>)
      reads this, All(loose)
    {
      Members(list);
      BelowIsInside(list);
      && IsList(list, reducedFilters, false) && ReadingAll(list) == s.ring && nesting_level == s.level
      && |loose| <= 1 && NodesAll(list) !! NodesAll(loose) && made == NodesAll(list) + NodesAll(loose)
    }

    lemma {:induction false} NowEnds(yyvs: seq<Cell>, s: State, at: int, loose: seq<Shape>)
      requires Stands(yyvs, s, at, loose)
      ensures Ends(s, loose) && (at < 0 ==> loose == [])
    {
      StandsFacts(yyvs, s, at, loose);
      hide IsRing;
    }

    lemma {:induction false} EndsReads(s: State, loose: seq<Shape>)
      requires Ends(s, loose)
      ensures ReadingAll(list) == s.ring
    {
    }

    /** One step of the driver, which does not look at the list. */
    method DriveBeside(w: seq<Token>, d: Driver, ghost yyvs: seq<Cell>, ghost s: State, ghost at: int,
                       ghost loose: seq<Shape>, ghost nodes: set<FilterNode>)
      returns (step: Step)
      requires IsTokens(w) && Comes(w, d, s) && d.Valid() && at == Spot(d.yyss)
      requires Stands(yyvs, s, at, loose) && nodes == All(loose)
      modifies d
      ensures step.Done? ==> Parse(w) == (step.outcome, s) && (step.outcome == Accepted ==> at == -1)
      ensures step.Do? ==> d.Valid() && Comes(w, d, Apply(s, step.event))
      ensures step.Do? ==> Resizes(FILTER_AUTOMATON, step.event, old(|d.yyss|), |d.yyss|)
      ensures step.Do? ==> Moves(step.event, old(|d.yyss|) - 1, at, |d.yyss| - 1, Spot(d.yyss))
      ensures step.Do? && step.event.Reduced? && step.event.rule == 4 ==> s.ring != []
      ensures step.Do? ==>
        old(d.read) < d.read <= |w| + 1 || (d.read == old(d.read) && d.Weight() < old(d.Weight()))
      ensures Stands(yyvs, s, at, loose) && nodes == All(loose)
    {
      hide *;
      assert allocated(nodes) && allocated(All(loose));
      step := Drive(w, d, s);
    }

    /** Follows an event with its action, which does not look at the driver. */
    method FollowBeside(ghost w: seq<Token>, ghost d: Driver, event: Event, yyvs: seq<Cell>, ghost s: State,
                        ghost at: int, ghost loose: seq<Shape>, ghost nodes: set<FilterNode>)
      returns (yyvs': seq<Cell>, ghost loose': seq<Shape>, ghost nodes': set<FilterNode>)
      requires IsTokens(w) && Comes(w, d, Apply(s, event)) && d.Valid()
      requires Resizes(FILTER_AUTOMATON, event, |yyvs| + 1, |d.yyss|)
      requires Moves(event, |yyvs|, at, |d.yyss| - 1, Spot(d.yyss))
      requires Stands(yyvs, s, at, loose) && (event.Reduced? && event.rule == 4 ==> s.ring != [])
      requires nodes == All(loose)
      modifies this, nodes
      ensures Comes(w, d, Apply(s, event)) && unchanged(d) && d.Valid() && d.Weight() == old(d.Weight())
      ensures Stands(yyvs', Apply(s, event), Spot(d.yyss), loose') && |yyvs'| == |d.yyss| - 1
      ensures nodes' == All(loose') && forall n :: n in nodes' ==> n in nodes || fresh(n)
    {
      hide *;
      yyvs', loose', nodes' := Follow(event, yyvs, s, |d.yyss| - 1, at, Spot(d.yyss), loose, nodes);
    }

    /** Parses the tokens, starting with an empty list.  Whether it succeeds or gives up, the list holds the
        filters that the events of the run make, in rings as the evaluator walks them; every filter allocated
        is in one of the trees of the list, once, but for one expression that a failed parse may lose. */
    method YyParse(w: seq<Token>) returns (yyresult: int, ghost loose: seq<Shape>)
      requires IsTokens(w) && RingOf(list, reducedFilters) && list == [] && nesting_level == 1 && made == dropped == {}
      modifies this, reducedFilters
      ensures yyresult == ResultCode(Parse(w).0) && Ends(Parse(w).1, loose) && (yyresult == 0 ==> loose == [])
      ensures yyresult == 0 ==> forall es :: WfExprs(es) && PrintAll(es) == w ==> ReadingAll(list) == MeaningAll(es, 1)
    {
      FilterAutomatonIsValid();
      assert IsInput(FILTER_AUTOMATON, w);
      hide *;
      var d := new Driver(FILTER_AUTOMATON, w);
      var yyvs: seq<Cell> := [];
      ghost var s, at, nodes := INITIAL, Spot(d.yyss), {reducedFilters};
      loose := [];
      Begins(w, d);
      while true
        invariant Comes(w, d, s) && d.Valid() && fresh(d) && |yyvs| == |d.yyss| - 1 && at == Spot(d.yyss)
        invariant Stands(yyvs, s, at, loose) && nodes == All(loose)
        invariant forall n :: n in nodes ==> n == reducedFilters || fresh(n)
        decreases |w| + 1 - d.read, d.Weight()
      {
        var step := DriveBeside(w, d, yyvs, s, at, loose, nodes);
        if step.Done? {
          NowEnds(yyvs, s, at, loose);
          EndsReads(s, loose);
          ParsedMeans(w);
          return ResultCode(step.outcome), loose;
        }
        label Before:
        ghost var was := nodes;
        yyvs, loose, nodes := FollowBeside(w, d, step.event, yyvs, s, at, loose, nodes);
        forall n | n in nodes
          ensures n == reducedFilters || fresh(n)
        {
          assert n in was || !old@Before(allocated(n));
        }
        s, at := Apply(s, step.event), Spot(d.yyss);
      }
    }
  }
}
