/** The trees of filters on the heap: nodes on rings, each with a ring of children of its own. */
module FilterTrees {
  import opened FilterParser
  import opened Ring
  import opened SlpAttr

  /** What a node holds, apart from its links and its logical value. */
  datatype FilterData = FilterData(operator: int, nestingLevel: int, attrs: seq<Attr>,
                                   children: Node?<FilterData, int>)  // the head of its ring of children

  /** A filter on the heap; its logical value is the mark of the node. */
  type FilterNode = Node<FilterData, int>

  /** The nodes of a filter tree, with what they hold and the trees of their children in order. */
  datatype Shape = Shape(node: FilterNode, data: FilterData, kids: seq<Shape>)

  ghost function Nodes(sh: Shape): set<FilterNode>
    decreases sh, 1
  {
    {sh.node} + NodesAll(sh.kids)
  }

  ghost function NodesAll(list: seq<Shape>): set<FilterNode>
    decreases list, 0
  {
    if list == [] then {} else Nodes(list[0]) + NodesAll(list[1..])
  }

  /** The nodes of a list without the roots of its trees. */
  ghost function BelowAll(list: seq<Shape>): set<FilterNode> {
    if list == [] then {} else NodesAll(list[0].kids) + BelowAll(list[1..])
  }

  /** The heads of all rings of children in a tree. */
  ghost function Heads(sh: Shape): set<FilterNode>
    decreases sh, 1
  {
    (if sh.data.children == null then {} else {sh.data.children}) + HeadsAll(sh.kids)
  }

  ghost function HeadsAll(list: seq<Shape>): set<FilterNode>
    decreases list, 0
  {
    if list == [] then {} else Heads(list[0]) + HeadsAll(list[1..])
  }

  /** The filter that a tree of nodes stands for. */
  ghost function Reading(sh: Shape): Filter
    decreases sh, 1
  {
    Filter(sh.data.operator, sh.data.nestingLevel, sh.data.attrs, ReadingAll(sh.kids))
  }

  ghost function ReadingAll(list: seq<Shape>): (fs: seq<Filter>)
    ensures |fs| == |list| && forall i :: 0 <= i < |list| ==> fs[i] == Reading(list[i])
    decreases list, 0
  {
    if list == [] then [] else [Reading(list[0])] + ReadingAll(list[1..])
  }

  lemma {:induction false} Members(list: seq<Shape>)
    ensures forall i {:trigger list[i]} :: 0 <= i < |list| ==>
              Nodes(list[i]) <= NodesAll(list) && list[i].node in NodesAll(list)
    decreases list
  {
    if list != [] {
      Members(list[1..]);
      forall i {:trigger list[i]} | 0 <= i < |list| ensures Nodes(list[i]) <= NodesAll(list) {
        assert i > 0 ==> list[i] == list[1..][i - 1];
      }
    }
  }

  ghost function NodeAt(list: seq<Shape>, i: int, head: FilterNode): FilterNode {
    if 0 <= i < |list| then list[i].node else head
  }

  /** The roots of the trees of a list. */
  ghost function Tops(list: seq<Shape>): (tops: seq<FilterNode>)
    ensures |tops| == |list| && forall i :: 0 <= i < |list| ==> tops[i] == list[i].node
  {
    seq(|list|, i requires 0 <= i < |list| => list[i].node)
  }

  /** The roots of the trees of a list are the nodes of the ring with head `head`. */
  ghost predicate RingOf(list: seq<Shape>, head: FilterNode)
    reads head`next, head`prev, head`owner, Tops(list)`next, Tops(list)`prev, Tops(list)`owner
  {
    IsRing([head] + Tops(list))
  }

  lemma {:induction false} LinkAt(list: seq<Shape>, i: nat, head: FilterNode)
    requires RingOf(list, head) && i < |list|
    ensures list[i].node.next == NodeAt(list, i + 1, head) && list[i].node.prev == NodeAt(list, i - 1, head)
    ensures !list[i].node.isHead && list[i].node.next != list[i].node
  {
    var r := [head] + Tops(list);
    Neighbours(r, i + 1);
    assert r[i + 1] != r[0] && (i + 2 < |r| ==> r[i + 1] != r[i + 2]);
  }

  lemma {:induction false} HeadLinks(list: seq<Shape>, head: FilterNode)
    requires RingOf(list, head)
    ensures head.isHead && head.next == NodeAt(list, 0, head)
    ensures head.next == head && head.prev == head <==> list == []
  {
    var r := [head] + Tops(list);
    Neighbours(r, 0);
    assert list != [] ==> r[1] != r[0];
  }

  /** The tree is linked as it says: every node holds what it should, its ring of children is the
      list of its subtrees, and no node or head occurs twice. */
  ghost predicate Linked(sh: Shape)
    reads sh.node`data, NodesAll(sh.kids)`data, NodesAll(sh.kids)`next, NodesAll(sh.kids)`prev, NodesAll(sh.kids)`owner
    reads Heads(sh)`next, Heads(sh)`prev, Heads(sh)`owner
    decreases sh, 1
  {
    Members(sh.kids);
    BelowIsInside(sh.kids);
    && !sh.node.isHead && sh.node.data == sh.data && sh.data.children != null
    && RingOf(sh.kids, sh.data.children)
    && sh.node !in NodesAll(sh.kids) && sh.data.children !in HeadsAll(sh.kids) && LinkedAll(sh.kids)
  }

  ghost predicate LinkedAll(list: seq<Shape>)
    reads NodesAll(list)`data, BelowAll(list)`next, BelowAll(list)`prev, BelowAll(list)`owner
    reads HeadsAll(list)`next, HeadsAll(list)`prev, HeadsAll(list)`owner
    decreases list, 0
  {
    BelowIsInside(list);
    || list == []
    || (Linked(list[0]) && LinkedAll(list[1..])
        && Nodes(list[0]) !! NodesAll(list[1..]) && Heads(list[0]) !! HeadsAll(list[1..]))
  }

  lemma {:induction false} BelowIsInside(list: seq<Shape>)
    ensures BelowAll(list) <= NodesAll(list)
  {
    if list != [] {
      BelowIsInside(list[1..]);
    }
  }

  /** A node that no ring holds: the root of a decoded filter. */
  ghost predicate Alone(n: FilterNode)
    reads n`next, n`prev
  {
    n.next == n && n.prev == n
  }

  // ----- Lists of trees -----

  lemma {:induction false} NodesConcat(a: seq<Shape>, b: seq<Shape>)
    ensures NodesAll(a + b) == NodesAll(a) + NodesAll(b)
    ensures HeadsAll(a + b) == HeadsAll(a) + HeadsAll(b)
    decreases a
  {
    hide Nodes, Heads;
    if a == [] {
      assert a + b == b;
    } else {
      assert (a + b)[0] == a[0] && (a + b)[1..] == a[1..] + b;
      NodesConcat(a[1..], b);
    }
  }

  lemma {:induction false} ReadingConcat(a: seq<Shape>, b: seq<Shape>)
    ensures ReadingAll(a + b) == ReadingAll(a) + ReadingAll(b)
    ensures Tops(a + b) == Tops(a) + Tops(b)
  {
    hide *;
  }

  lemma {:induction false} LinkedConcat(a: seq<Shape>, b: seq<Shape>)
    ensures LinkedAll(a + b) <==>
            LinkedAll(a) && LinkedAll(b) && NodesAll(a) !! NodesAll(b) && HeadsAll(a) !! HeadsAll(b)
    decreases a
  {
    if a == [] {
      assert a + b == b;
    } else {
      assert (a + b)[0] == a[0] && (a + b)[1..] == a[1..] + b;
      NodesConcat(a[1..], b);
      LinkedConcat(a[1..], b);
    }
  }

  lemma {:induction false} SetsOfOne(sh: Shape)
    ensures NodesAll([sh]) == Nodes(sh) && HeadsAll([sh]) == Heads(sh) && BelowAll([sh]) == NodesAll(sh.kids)
    ensures ReadingAll([sh]) == [Reading(sh)] && Tops([sh]) == [sh.node] && (LinkedAll([sh]) <==> Linked(sh))
  {
    assert [sh][0] == sh && [sh][1..] == [];
  }

  /** The trees of a list whose roots are, or are not, at level `n`, in list order. */
  ghost function Pick(list: seq<Shape>, n: int, deep: bool): seq<Shape> {
    if list == [] then []
    else
      var last := list[|list| - 1];
      Pick(list[..|list| - 1], n, deep) + (if (last.data.nestingLevel == n) == deep then [last] else [])
  }

  lemma {:induction false} PickStep(list: seq<Shape>, sh: Shape, n: int, deep: bool)
    ensures Pick([], n, deep) == []
    ensures Pick(list + [sh], n, deep) ==
            Pick(list, n, deep) + (if (sh.data.nestingLevel == n) == deep then [sh] else [])
  {
    assert (list + [sh])[..|list|] == list;
  }

  lemma {:induction false} PickNone(list: seq<Shape>, n: int)
    ensures Pick(list[..0], n, false) == Pick(list[..0], n, true) == []
    ensures [] + list[0..] == list
  {
  }

  lemma {:induction false} PickMore(list: seq<Shape>, k: nat, n: int)
    requires k < |list|
    ensures Pick(list[..k + 1], n, false) ==
            Pick(list[..k], n, false) + (if list[k].data.nestingLevel == n then [] else [list[k]])
    ensures Pick(list[..k + 1], n, true) ==
            Pick(list[..k], n, true) + (if list[k].data.nestingLevel == n then [list[k]] else [])
  {
    assert list[..k + 1] == list[..k] + [list[k]];
    PickStep(list[..k], list[k], n, false);
    PickStep(list[..k], list[k], n, true);
  }

  lemma {:induction false} PickInside(list: seq<Shape>, n: int, deep: bool)
    ensures forall i :: 0 <= i < |Pick(list, n, deep)| ==> Pick(list, n, deep)[i] in list
    decreases list
  {
    if list != [] {
      PickInside(list[..|list| - 1], n, deep);
    }
  }

  lemma {:induction false} PickReads(list: seq<Shape>, n: int)
    ensures ReadingAll(Pick(list, n, true)) == AtLevel(ReadingAll(list), n)
    ensures ReadingAll(Pick(list, n, false)) == NotAtLevel(ReadingAll(list), n)
    decreases list
  {
    hide AtLevel, NotAtLevel;
    if list == [] {
      LevelOfNothing(n);
    } else {
      var front, last := list[..|list| - 1], list[|list| - 1];
      assert list == front + [last];
      PickReads(front, n);
      SetsOfOne(last);
      ReadingConcat(front, [last]);
      LevelStep(ReadingAll(front), Reading(last), n);
      ReadingConcat(Pick(front, n, true), [last]);
      ReadingConcat(Pick(front, n, false), [last]);
    }
  }

  /** A tree moves from behind a list to its middle. */
  lemma {:induction false} LinkedSwap(a: seq<Shape>, b: seq<Shape>, c: seq<Shape>)
    requires LinkedAll(a + b) && LinkedAll(c) && NodesAll(a + b) !! NodesAll(c) && HeadsAll(a + b) !! HeadsAll(c)
    ensures LinkedAll(a + c + b) && NodesAll(a + c + b) == NodesAll(a + b) + NodesAll(c)
    ensures HeadsAll(a + c + b) == HeadsAll(a + b) + HeadsAll(c)
  {
    hide *;
    LinkedConcat(a, b);
    NodesConcat(a, b);
    LinkedConcat(a, c);
    NodesConcat(a, c);
    LinkedConcat(a + c, b);
    NodesConcat(a + c, b);
  }

  /** Picking apart a list keeps its trees. */
  lemma {:induction false} PickLinked(list: seq<Shape>, n: int)
    requires LinkedAll(list)
    ensures LinkedAll(Pick(list, n, false) + Pick(list, n, true))
    ensures var kept, kids := Pick(list, n, false), Pick(list, n, true);
      NodesAll(list) == NodesAll(kept + kids) && HeadsAll(list) == HeadsAll(kept + kids)
    decreases list
  {
    hide LinkedAll, NodesAll, HeadsAll;
    if list == [] {
      assert Pick(list, n, false) + Pick(list, n, true) == list;
    } else {
      var front, last := list[..|list| - 1], [list[|list| - 1]];
      assert list == front + last;
      hide *;
      var kept, kids := Pick(front, n, false), Pick(front, n, true);
      LinkedConcat(front, last);
      NodesConcat(front, last);
      PickLinked(front, n);
      PickStep(front, last[0], n, false);
      PickStep(front, last[0], n, true);
      if last[0].data.nestingLevel == n {
        LinkedConcat(kept + kids, last);
        NodesConcat(kept + kids, last);
        assert kept + kids + last == kept + (kids + last) && kept + [] == kept;
      } else {
        LinkedSwap(kept, kids, last);
        assert kids + [] == kids;
      }
    }
  }

  ghost predicate Within(list: seq<Shape>, nodes: set<FilterNode>) {
    forall n :: n in Tops(list) ==> n in nodes
  }

  /** No root of a list lies below another, and no node is a head. */
  lemma {:induction false} TopsApart(list: seq<Shape>)
    requires LinkedAll(list)
    ensures forall n :: n in NodesAll(list) ==> !n.isHead
    ensures forall i {:trigger list[i]} :: 0 <= i < |list| ==> list[i].node !in BelowAll(list)
    decreases list
  {
    if list != [] {
      TopsApart(list[1..]);
      TopsApart(list[0].kids);
      BelowIsInside(list[1..]);
      Members(list);
      Members(list[1..]);
      forall i {:trigger list[i]} | 0 <= i < |list| ensures list[i].node !in BelowAll(list) {
        assert i > 0 ==> list[i] == list[1..][i - 1];
      }
    }
  }

  lemma {:induction false} HeadsAreHeads(list: seq<Shape>)
    requires LinkedAll(list)
    ensures forall n :: n in HeadsAll(list) ==> n.isHead
    decreases list
  {
    if list != [] {
      HeadsAreHeads(list[1..]);
      HeadsAreHeads(list[0].kids);
      HeadLinks(list[0].kids, list[0].data.children);
    }
  }

  lemma {:induction false} SuffixLinked(list: seq<Shape>, i: nat)
    requires LinkedAll(list) && i < |list|
    ensures Linked(list[i]) && Nodes(list[i]) !! NodesAll(list[i + 1..])
    ensures NodesAll(list[i..]) == Nodes(list[i]) + NodesAll(list[i + 1..])
    decreases i
  {
    assert list[i..][0] == list[i] && list[i..][1..] == list[i + 1..];
    if i > 0 {
      SuffixLinked(list[1..], i - 1);
      assert list[1..][i - 1..] == list[i..] && list[1..][i..] == list[i + 1..];
    } else {
      assert list[i..] == list;
    }
  }
}
