/** The sentinel rings of the linked-list macros: nodes linked in a circle through a head node.
    The macros are proved against the sequence of nodes that a ring stands for. */
module Ring {

  /** A node with links, data, and a mark that is written after the links are made. */
  class Node<T, M> {
    var next: Node?<T, M>
    var prev: Node?<T, M>
    const isHead: bool
    var data: T
    var mark: M
    ghost var owner: Node?<T, M>  // the head of the ring that the node is on

    constructor (isHead: bool, data: T, mark: M)
      ensures next == null && prev == null && owner == null && this.isHead == isHead
      ensures this.data == data && this.mark == mark
    {
      this.next, this.prev, this.isHead, this.data, this.mark, this.owner := null, null, isHead, data, mark, null;
    }

    /** Turns a head node into an empty ring. */
    method Close()
      requires isHead
      modifies this`next, this`prev, this`owner
      ensures IsRing([this])
    {
      next, prev, owner := this, this, this;
    }
  }

  /** The nodes of `r`, head first, are linked in a circle in this order. */
  ghost predicate IsRing<T, M>(r: seq<Node<T, M>>)
    reads r`next, r`prev, r`owner
  {
    && r != [] && r[0].isHead
    && (forall i :: 0 < i < |r| ==> !r[i].isHead)
    && (forall i {:trigger r[i].owner} :: 0 <= i < |r| ==> r[i].owner == r[0])
    && (forall i, j :: 0 <= i < j < |r| ==> r[i] != r[j])
    && (forall i {:trigger r[i].next} :: 0 <= i < |r| - 1 ==> r[i].next == r[i + 1])
    && (forall i {:trigger r[i].prev} :: 0 < i < |r| ==> r[i].prev == r[i - 1])
    && r[|r| - 1].next == r[0] && r[0].prev == r[|r| - 1]
  }

  /** Rings with another head have no node in common with `r`. */
  lemma {:induction false} RingsApart<T, M>(r: seq<Node<T, M>>, n: Node<T, M>)
    requires IsRing(r) && (n.owner == null || n.owner == r[0])
    ensures forall u: seq<Node<T, M>> {:trigger IsRing(u)} ::
      IsRing(u) && u[0] != r[0] ==> forall i :: 0 <= i < |u| ==> u[i] !in r && u[i] != n
  {
    forall u: seq<Node<T, M>>, i | IsRing(u) && u[0] != r[0] && 0 <= i < |u| ensures u[i] !in r && u[i] != n {
      assert u[i].owner == u[0];
      forall j | 0 <= j < |r| ensures r[j] != u[i] {
        assert r[j].owner == r[0];
      }
    }
  }

  /** The neighbours of entry `k`. */
  lemma {:induction false} Neighbours<T, M>(r: seq<Node<T, M>>, k: nat)
    requires IsRing(r) && k < |r|
    ensures r[k].owner == r[0]
    ensures r[k].next == (if k + 1 < |r| then r[k + 1] else r[0])
    ensures r[k].prev == (if k > 0 then r[k - 1] else r[|r| - 1])
  {
  }

  /** The node `n` between two neighbours `x` and `y`. */
  method LinkBetween<T, M>(n: Node<T, M>, x: Node<T, M>, y: Node<T, M>, ghost r: seq<Node<T, M>>, ghost k: nat)
    requires IsRing(r) && 0 < k <= |r| && r[k - 1] == x && (y == if k < |r| then r[k] else r[0])
    requires n.owner == null && !n.isHead
    modifies n`next, n`prev, n`owner, x`next, y`prev
    ensures IsRing(r[..k] + [n] + r[k..])
  {
    forall i | 0 <= i < |r| ensures r[i] != n {
      Neighbours(r, i);
    }
    n.prev := x;
    n.next := y;
    y.prev := n;
    x.next := n;
    n.owner := x.owner;
  }

  /** `SLP_INSERT`: links `n` after the node `x`, so that it becomes entry `k` of the ring. */
  method Insert<T, M>(n: Node<T, M>, x: Node<T, M>, ghost r: seq<Node<T, M>>, ghost k: nat)
    requires IsRing(r) && 0 < k <= |r| && r[k - 1] == x && n.owner == null && !n.isHead
    modifies n`next, n`prev, n`owner, r`next, r`prev
    ensures IsRing(r[..k] + [n] + r[k..])
    ensures forall u: seq<Node<T, M>> {:trigger IsRing(u)} ::
      old(allocated(u)) && old(IsRing(u)) && u[0] != r[0] ==> IsRing(u)
  {
    RingsApart(r, n);
    Neighbours(r, k - 1);
    hide IsRing;
    LinkBetween(n, x, x.next, r, k);
  }

  /** `SLP_INSERT_BEFORE`: links `n` before the node `x`, so that it becomes entry `k` of the ring;
      before the head means at the end. */
  method InsertBefore<T, M>(n: Node<T, M>, x: Node<T, M>, ghost r: seq<Node<T, M>>, ghost k: nat)
    requires IsRing(r) && 0 < k <= |r| && (x == if k < |r| then r[k] else r[0]) && n.owner == null && !n.isHead
    modifies n`next, n`prev, n`owner, r`next, r`prev
    ensures IsRing(r[..k] + [n] + r[k..])
    ensures forall u: seq<Node<T, M>> {:trigger IsRing(u)} ::
      old(allocated(u)) && old(IsRing(u)) && u[0] != r[0] ==> IsRing(u)
  {
    RingsApart(r, n);
    Neighbours(r, if k < |r| then k else 0);
    hide IsRing;
    LinkBetween(n, x.prev, x, r, k);
  }

  method LinkPast<T, M>(x: Node<T, M>, before: Node<T, M>, after: Node<T, M>, ghost r: seq<Node<T, M>>, ghost k: nat)
    requires IsRing(r) && 0 < k < |r| && r[k] == x && before == r[k - 1]
    requires after == r[if k == |r| - 1 then 0 else k + 1]
    modifies before`next, after`prev, x`owner
    ensures IsRing(r[..k] + r[k + 1..]) && x.owner == null
  {
    Neighbours(r, k);
    before.next := after;
    after.prev := before;
    x.owner := null;
  }

  /** `SLP_UNLINK`: takes entry `k`, which is not the head, out of the ring. */
  method Unlink<T, M>(x: Node<T, M>, ghost r: seq<Node<T, M>>, ghost k: nat)
    requires IsRing(r) && 0 < k < |r| && r[k] == x
    modifies r`next, r`prev, x`owner
    ensures IsRing(r[..k] + r[k + 1..]) && x.owner == null
    ensures forall u: seq<Node<T, M>> {:trigger IsRing(u)} ::
      old(allocated(u)) && old(IsRing(u)) && u[0] != r[0] ==> IsRing(u)
  {
    Neighbours(r, k);
    RingsApart(r, x);
    hide IsRing;
    LinkPast(x, x.prev, x.next, r, k);
  }

  /** `SLP_IS_EMPTY` of a head tells whether the ring has no other node. */
  method IsEmpty<T, M>(h: Node<T, M>, ghost r: seq<Node<T, M>>) returns (empty: bool)
    requires IsRing(r) && r[0] == h
    ensures empty <==> |r| == 1
  {
    empty := h.next == h && h.prev == h;
    assert |r| > 1 ==> h.next == r[1];
  }

  /** `SLP_IS_HEAD` of the node after the head tells whether the ring has no other node. */
  method NextIsHead<T, M>(h: Node<T, M>, ghost r: seq<Node<T, M>>) returns (last: bool)
    requires IsRing(r) && r[0] == h
    ensures last <==> |r| == 1
  {
    assert h.next == if |r| == 1 then r[0] else r[1];
    last := h.next.isHead;
  }

  /** Takes the first node out of a ring. */
  method UnlinkFirst<T, M>(h: Node<T, M>, ghost r: seq<Node<T, M>>) returns (temp: Node<T, M>)
    requires IsRing(r) && |r| > 1 && r[0] == h
    modifies r`next, r`prev, r`owner
    ensures temp == r[1] && !temp.isHead && temp.owner == null && IsRing(r[..1] + r[2..])
    ensures forall u: seq<Node<T, M>> {:trigger IsRing(u)} ::
      old(allocated(u)) && old(IsRing(u)) && u[0] != r[0] ==> IsRing(u)
  {
    assert h.next == r[1];
    temp := h.next;
    Unlink(temp, r, 1);
  }

  /** Takes entry `k` out of one ring and links it at the end of another. */
  method Move<T, M>(x: Node<T, M>, to: Node<T, M>, ghost r: seq<Node<T, M>>, ghost k: nat, ghost s: seq<Node<T, M>>)
    requires IsRing(r) && IsRing(s) && 0 < k < |r| && r[k] == x && s[0] == to && r[0] != to
    modifies r`next, r`prev, s`next, s`prev, x`owner
    ensures IsRing(r[..k] + r[k + 1..]) && IsRing(s + [x])
    ensures forall u: seq<Node<T, M>> {:trigger IsRing(u)} ::
      old(allocated(u)) && old(IsRing(u)) && u[0] != r[0] && u[0] != s[0] ==> IsRing(u)
  {
    assert s != [] && !x.isHead;
    hide IsRing;
    Unlink(x, r, k);
    InsertBefore(x, to, s, |s|);
    assert s[..|s|] + [x] + s[|s|..] == s + [x];
  }

  /** Takes the first node of one ring and links it at the end of another. */
  method MoveFirst<T, M>(from: Node<T, M>, to: Node<T, M>, ghost r: seq<Node<T, M>>, ghost s: seq<Node<T, M>>)
    returns (temp: Node<T, M>)
    requires IsRing(r) && IsRing(s) && |r| > 1 && r[0] == from && s[0] == to && from != to
    modifies r`next, r`prev, s`next, s`prev, r`owner
    ensures temp == r[1] && IsRing(r[..1] + r[2..]) && IsRing(s + [temp])
    ensures forall u: seq<Node<T, M>> {:trigger IsRing(u)} ::
      old(allocated(u)) && old(IsRing(u)) && u[0] != r[0] && u[0] != s[0] ==> IsRing(u)
  {
    Neighbours(r, 0);
    hide IsRing;
    temp := from.next;
    Move(temp, to, r, 1, s);
  }

  /** Takes the first of the nodes from `k` on out of what is left of a ring, and looks whether it was
      the last. */
  method DrainOne<T, M>(h: Node<T, M>, ghost r: seq<Node<T, M>>, ghost k: nat, ghost nodes: set<Node<T, M>>)
    returns (done: bool)
    requires 0 < k < |r| && IsRing([h] + r[k..]) && (forall n :: n in r ==> n in nodes) && h in nodes
    modifies nodes`next, nodes`prev, nodes`owner
    ensures IsRing([h] + r[k + 1..]) && done == (k + 1 == |r|)
    ensures forall u: seq<Node<T, M>> {:trigger IsRing(u)} ::
      old(allocated(u)) && old(IsRing(u)) && u[0] != h ==> IsRing(u)
  {
    hide IsRing;
    RestOfRing(h, r, k);
    var temp := UnlinkFirst(h, [h] + r[k..]);
    done := NextIsHead(h, [h] + r[k + 1..]);
  }

  /** Takes every node out of a ring, from the front, as the loops that free a list do. */
  method Drain<T, M>(h: Node<T, M>, ghost r: seq<Node<T, M>>, ghost nodes: set<Node<T, M>>)
    returns (ghost taken: seq<Node<T, M>>)
    requires IsRing(r) && r[0] == h && (forall n :: n in r ==> n in nodes)
    modifies nodes`next, nodes`prev, nodes`owner
    ensures taken == r[1..] && IsRing([h])
    ensures forall u: seq<Node<T, M>> {:trigger IsRing(u)} ::
      old(allocated(u)) && old(IsRing(u)) && u[0] != r[0] ==> IsRing(u)
  {
    assert r != [] && r == [h] + r[1..] && h in r;
    hide IsRing;
    ghost var k := 1;
    taken := [];
    var done := NextIsHead(h, r);
    while !done
      invariant 1 <= k <= |r| && taken == r[1..k] && done == (k == |r|)
      invariant IsRing([h] + r[k..])
      invariant forall u: seq<Node<T, M>> {:trigger IsRing(u)} ::
        old(allocated(u)) && old(IsRing(u)) && u[0] != r[0] ==> IsRing(u)
      decreases |r| - k
    {
      done := DrainOne(h, r, k, nodes);
      taken, k := taken + [r[k]], k + 1;
    }
    assert [h] + r[k..] == [h];
  }

  lemma {:induction false} RestOfRing<T>(h: T, r: seq<T>, k: nat)
    requires 0 < k < |r|
    ensures var left := [h] + r[k..];
      left[0] == h && left[1] == r[k] && left[..1] + left[2..] == [h] + r[k + 1..]
    ensures r[1..k] + [r[k]] == r[1..k + 1]
    ensures forall n :: n in r[k..] ==> n in r
  {
  }

  /** `SLP_LINK_HEAD`: the head `d` takes the place of the head `h`, whose own links stay as they were. */
  method LinkHead<T, M>(d: Node<T, M>, h: Node<T, M>, ghost r: seq<Node<T, M>>)
    requires IsRing(r) && r[0] == h && |r| > 1 && IsRing([d]) && d != h
    modifies d`next, d`prev, r`next, r`prev, r`owner
    ensures IsRing([d] + r[1..])
    ensures h.next == r[1] && h.prev == r[|r| - 1]
  {
    Neighbours(r, 0);
    Neighbours(r, 1);
    Neighbours(r, |r| - 1);
    assert [d][0].owner == d;
    forall i | 0 <= i < |r| ensures r[i] != d {
      Neighbours(r, i);
    }
    d.next := h.next;
    d.prev := h.prev;
    h.next.prev := d;
    h.prev.next := d;
    forall n | n in r[1..] {
      n.owner := d;
    }
    Reheaded(d, r);
  }

  /** A ring with another head, once the links and the owners say so. */
  lemma {:induction false} Reheaded<T, M>(d: Node<T, M>, r: seq<Node<T, M>>)
    requires |r| > 1 && d.isHead && d !in r && d.owner == d && d.next == r[1] && d.prev == r[|r| - 1]
    requires forall i :: 0 < i < |r| ==> !r[i].isHead && r[i].owner == d
    requires forall i, j :: 0 <= i < j < |r| ==> r[i] != r[j]
    requires forall i {:trigger r[i].next} :: 0 < i < |r| - 1 ==> r[i].next == r[i + 1]
    requires forall i {:trigger r[i].prev} :: 1 < i < |r| ==> r[i].prev == r[i - 1]
    requires r[1].prev == d && r[|r| - 1].next == d
    ensures IsRing([d] + r[1..])
  {
    var s := [d] + r[1..];
    assert forall i :: 0 < i < |r| ==> s[i] == r[i];
  }
}
