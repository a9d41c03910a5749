/** The attribute-list parser on the heap: its actions relink nodes between three sentinel rings. */
module AttrRings {
  import opened Bison
  import opened AttrGrammar
  import opened AttrParser
  import opened AttrReader
  import opened Basics
  import opened Ring
  import opened SlpAttr

  type EntryNode = Node<Entry, ()>

  /** An entry of the value stack: a token's value, a pointer to a node that no ring holds yet, or a
      pointer to a node that is on a ring, which no action looks at again. */
  datatype Cell = TokenCell(tok: Token) | NodeCell(node: EntryNode) | LinkedCell

  /** What the nodes of a ring hold, after the head. */
  ghost function Data(r: seq<EntryNode>): seq<Entry>
    reads r`data
  {
    if |r| <= 1 then [] else Data(r[..|r| - 1]) + [r[|r| - 1].data]
  }

  lemma {:induction false} DataHead(r: seq<EntryNode>)
    requires |r| == 1
    ensures Data(r) == []
  {
  }

  lemma {:induction false} EmptyData(r: seq<EntryNode>, s: seq<EntryNode>, t: seq<EntryNode>)
    requires |r| == |s| == |t| == 1
    ensures State([], Data(t), Data(s), Data(r)) == INITIAL
  {
  }

  lemma {:induction false} DataLast(r: seq<EntryNode>, n: EntryNode)
    requires r != []
    ensures Data(r + [n]) == Data(r) + [n.data]
  {
    assert (r + [n])[..|r|] == r;
  }

  lemma {:induction false} DataFirst(r: seq<EntryNode>)
    requires |r| > 1
    ensures Data(r) == [r[1].data] + Data(r[..1] + r[2..])
    decreases r
  {
    var rest := r[..1] + r[2..];
    if |r| > 2 {
      DataFirst(r[..|r| - 1]);
      assert rest[..|rest| - 1] == r[..|r| - 1][..1] + r[..|r| - 1][2..];
      assert rest[|rest| - 1] == r[|r| - 1];
    } else {
      assert Data(r[..1]) == [] && rest == r[..1];
    }
  }

  /** Moving the first node of `r` to the end of `s` keeps the order of what the two hold. */
  lemma {:induction false} DataMove(r: seq<EntryNode>, s: seq<EntryNode>)
    requires |r| > 1 && s != []
    ensures Data(s + [r[1]]) + Data(r[..1] + r[2..]) == Data(s) + Data(r)
  {
    DataFirst(r);
    DataLast(s, r[1]);
  }

  lemma {:induction false} DataInsertFirst(r: seq<EntryNode>, n: EntryNode)
    requires r != []
    ensures Data(r[..1] + [n] + r[1..]) == [n.data] + Data(r)
  {
    var t := r[..1] + [n] + r[1..];
    DataFirst(t);
    assert t[..1] + t[2..] == r;
  }

  lemma {:induction false} TakeOne<T>(r: seq<T>, k: nat)
    requires k < |r|
    ensures multiset(r) == multiset(r[..k] + r[k + 1..]) + multiset{r[k]}
  {
    assert r == r[..k] + [r[k]] + r[k + 1..];
  }

  lemma {:induction false} PutOne<T>(r: seq<T>, k: nat, n: T)
    requires k <= |r|
    ensures multiset(r[..k] + [n] + r[k..]) == multiset(r) + multiset{n}
  {
    assert r == r[..k] + r[k..];
  }

  lemma {:induction false} MoveOne<T>(r: seq<T>, s: seq<T>, t: seq<T>, k: nat)
    requires k < |r|
    ensures Sum(s + [r[k]], r[..k] + r[k + 1..], t) == Sum(s, r, t)
    ensures Sum(t, s + [r[k]], r[..k] + r[k + 1..]) == Sum(t, s, r)
  {
    TakeOne(r, k);
  }

  lemma {:induction false} SumHeads<T>(a: T, b: T, c: T)
    ensures Sum([a], [b], [c]) + Sum([], [], []) == Sum([a, b, c], [], [])
  {
    assert [a, b, c] == [a] + [b] + [c];
  }

  lemma {:induction false} SumNew<T>(r: seq<T>, s: seq<T>, t: seq<T>, n: T)
    ensures Sum([n], r, []) == Sum([], r, []) + multiset{n}
    ensures Sum(t, s + [n], []) == Sum(t, s, []) + multiset{n}
  {
  }

  ghost function Abs(c: Cell): Value
    reads if c.NodeCell? then {c.node} else {}
  {
    match c
    case TokenCell(tok) => FromToken(tok)
    case NodeCell(n) => Made(n.data)
    case LinkedCell => Used
  }

  function CellString(c: Cell): string {
    if c.TokenCell? then c.tok.text else ""
  }

  function CellInt(c: Cell): int {
    if c.TokenCell? then c.tok.num else 0
  }

  /** The node that the top of the value stack holds ready to be linked, if there is one. */
  function Loose(cells: seq<Cell>): seq<EntryNode> {
    if cells != [] && cells[|cells| - 1].NodeCell? then [cells[|cells| - 1].node] else []
  }

  /** The value stack `cells` stands for `values`, and only its top may be a node yet to be linked. */
  ghost predicate Shows(cells: seq<Cell>, values: seq<Value>)
    reads set n | n in Loose(cells)
  {
    && |cells| == |values|
    && (forall i :: 0 <= i < |cells| - 1 ==> !cells[i].NodeCell?)
    && (forall i :: 0 <= i < |cells| - 1 ==> Abs(cells[i]) == values[i])
    && (cells != [] ==> Abs(cells[|cells| - 1]) == values[|cells| - 1])
    && (forall n :: n in Loose(cells) ==> n.owner == null && !n.isHead)
  }

  /** The top `n` entries of the stack, and what they leave below. */
  lemma {:induction false} ShowsTop(cells: seq<Cell>, values: seq<Value>, n: nat)
    requires Shows(cells, values) && 0 < n <= |cells|
    ensures Shows(cells[|cells| - n..], values[|cells| - n..]) && Loose(cells[|cells| - n..]) == Loose(cells)
    ensures Shows(cells[..|cells| - n], values[..|cells| - n]) && Loose(cells[..|cells| - n]) == []
  {
    hide Abs;
    assert cells[..|cells| - n] != [] ==> !cells[|cells| - n - 1].NodeCell?;
  }

  lemma {:induction false} ShowsPush(cells: seq<Cell>, values: seq<Value>, c: Cell, v: Value)
    requires Shows(cells, values) && Loose(cells) == [] && Shows([c], [v])
    ensures Shows(cells + [c], values + [v]) && Loose(cells + [c]) == Loose([c])
  {
    hide Abs;
    assert [c][0] == c && [v][0] == v;
  }

  lemma {:induction false} TokenShows(cells: seq<Cell>, values: seq<Value>, tok: Token, s: State)
    requires Shows(cells, values) && Loose(cells) == [] && s.values == values
    ensures Shows(cells + [TokenCell(tok)], Apply(s, Shifted(tok)).values) && Loose(cells + [TokenCell(tok)]) == []
    ensures Apply(s, Shifted(tok)) == s.(values := values + [FromToken(tok)])
  {
    ShowsPush(cells, values, TokenCell(tok), FromToken(tok));
  }

  lemma {:induction false} ParseMeans(w: seq<Token>)
    requires IsTokens(w)
    ensures ResultCode(Parse(w).0) == 0 <==> exists ps :: WfParts(ps) && Print(ps) == w
    ensures ResultCode(Parse(w).0) == 0 ==> Parse(w).1.attrs == [] && Parse(w).1.tags == []
    ensures forall ps :: WfParts(ps) && Print(ps) == w ==> Parse(w).1.head == Flatten(ps)
  {
    hide Parse, WfParts, Print, Flatten;
    AttrLanguage(w);
    forall ps | WfParts(ps) && Print(ps) == w
      ensures Parse(w).1.head == Flatten(ps) && Parse(w).1.attrs == [] && Parse(w).1.tags == []
    {
      AttrMeaning(w, ps);
    }
  }

  /** The top of the stack is a node to be linked just when the parser is about to link it. */
  lemma {:induction false} LooseIsLinked(w: seq<Token>, stack: seq<int>, pos: nat, forest: seq<Tree>, cells: seq<Cell>)
    requires Represents(ATTR_AUTOMATON, w, stack, pos, forest)
    requires Shows(cells, ApplyAll(INITIAL, EventsAll(forest)).values)
    ensures var events := Run(ATTR_AUTOMATON, w, stack, pos).1;
      Loose(cells) != [] <==> events != [] && Links(events[0])
  {
    OnlyTopWaits(stack, forest);
    WaitingLinks(w, stack, pos);
    hide ApplyAll, EventsAll, Run, AttrStos, IsPath, Matches;
  }

  lemma {:induction false} ParseCode(o: Outcome)
    ensures ResultCode(o) <= 1 <==> o != Exhausted
  {
  }

  lemma {:induction false} NothingYet()
    ensures ApplyAll(INITIAL, EventsAll([])) == INITIAL && Shows([], [])
  {
  }

  lemma {:induction false} NextState(s: State, before: seq<Event>, event: Event, after: seq<Event>)
    requires s == ApplyAll(INITIAL, before)
    ensures Apply(s, event) == ApplyAll(INITIAL, before + [event])
    ensures ApplyAll(s, [event] + after) == ApplyAll(Apply(s, event), after)
  {
    ApplyConcat(INITIAL, before, [event]);
    ApplyConcat(s, [event], after);
    ApplyOne(s, event);
  }

  lemma {:induction false} ApplyNone(s: State)
    ensures ApplyAll(s, []) == s
  {
  }

  /** An action only pushes its value on the stack below its right-hand side. */
  lemma {:induction false} ApplyReduced(s: State, r: int, lval: Token, v: Value)
    requires START < r < 14 && 0 < |AttrRules(r).rhs| <= |s.values|
    requires var n := |s.values| - |AttrRules(r).rhs|;
      Perform(r, s.values[n..], s.(values := [])).values == [v]
    ensures var n := |s.values| - |AttrRules(r).rhs|;
      Apply(s, Reduced(r, lval)) == Perform(r, s.values[n..], s.(values := [])).(values := s.values[..n] + [v])
  {
    hide NameAll;
  }

  /** Linking a loose node at the end of the second ring, or anywhere in the third, loses no node. */
  lemma {:induction false} SumLink<T>(r: seq<T>, s: seq<T>, t: seq<T>, u: seq<T>, n: T)
    ensures Sum(r, s + [n], t) + Sum([], u, []) == Sum(r, s, t) + Sum([n], u, [])
  {
  }

  lemma {:induction false} SumInsert<T>(r: seq<T>, s: seq<T>, t: seq<T>, u: seq<T>, n: T, k: nat)
    requires k <= |t|
    ensures Sum(r, s, t[..k] + [n] + t[k..]) + Sum([], u, []) == Sum(r, s, t) + Sum([n], u, [])
  {
    PutOne(t, k, n);
  }

  lemma {:induction false} FirstApart(r: seq<EntryNode>, s: seq<EntryNode>)
    requires IsRing(r) && IsRing(s) && |r| > 1 && r[0] != s[0]
    ensures r[1] !in s && r[1] !in r[..1] + r[2..]
  {
    RingsApart(r, r[1]);
  }

  lemma {:induction false} NextIsFirst(r: seq<EntryNode>)
    requires IsRing(r) && |r| > 1
    ensures r[0].next == r[1]
  {
  }

  lemma {:induction false} DataRehead(d: EntryNode, r: seq<EntryNode>)
    requires r != []
    ensures Data([d] + r[1..]) == Data(r)
    decreases r
  {
    var n := |r| - 1;
    if n > 0 {
      DataRehead(d, r[..n]);
      assert ([d] + r[1..])[..n] == [d] + r[..n][1..];
    }
  }

  /** Once the rings are empty, every node has been freed exactly once. */
  lemma {:induction false} SumFreed<T>(freed: seq<T>, made: seq<T>, a: T, b: T, c: T)
    requires Sum([a], [b], [c]) + Sum([], freed, []) == Sum([a, b, c], made, [])
    ensures multiset(freed) == multiset(made)
  {
    SumHeads(a, b, c);
    SumMiddle(freed);
    SumMiddle(made);
    SumOuter([a, b, c], made);
    hide Sum;
    Cancel(Sum([a], [b], [c]), multiset(freed), multiset(made));
  }

  lemma {:induction false} SumMiddle<T>(s: seq<T>)
    ensures Sum([], s, []) == multiset(s) && Sum<T>([], [], []) == multiset{}
  {
  }

  lemma {:induction false} SumOuter<T>(r: seq<T>, s: seq<T>)
    ensures Sum(r, s, []) == Sum(r, [], []) + multiset(s)
  {
  }

  lemma {:induction false} Cancel<T>(x: multiset<T>, y: multiset<T>, z: multiset<T>)
    requires x + y == x + z
    ensures y == z
  {
    forall e ensures y[e] == z[e] {
      assert (x + y)[e] == (x + z)[e];
    }
  }

  lemma {:induction false} EmptyRing(r: seq<EntryNode>)
    requires r != [] && Data(r) == []
    ensures |r| == 1
  {
  }

  lemma {:induction false} SumOneRing<T>(r: seq<T>, s: seq<T>, t: seq<T>)
    requires r != [] && |s| == |t| == 1
    ensures Sum(r, s, t) + Sum([], [], []) == Sum([r[0], s[0], t[0]], [], []) + multiset(r[1..])
  {
    assert r == [r[0]] + r[1..] && s == [s[0]] && t == [t[0]];
    SumHeads(r[0], s[0], t[0]);
  }

  /** Once the working rings are empty, and nothing has been freed, every node is on the final ring. */
  lemma {:induction false} SumDelivered(r: seq<EntryNode>, s: seq<EntryNode>, t: seq<EntryNode>, made: seq<EntryNode>)
    requires r != [] && s != [] && t != [] && Data(s) == [] && Data(t) == []
    requires Sum(r, s, t) + Sum([], [], []) == Sum([r[0], s[0], t[0]], made, [])
    ensures multiset(r[1..]) == multiset(made)
  {
    EmptyRing(s);
    EmptyRing(t);
    hide *;
    SumOneRing(r, s, t);
    SumOuter([r[0], s[0], t[0]], made);
    Cancel(Sum([r[0], s[0], t[0]], [], []), multiset(r[1..]), multiset(made));
  }

  /** What the three loops take out of the rings moves to the freed nodes. */
  lemma {:induction false} SumDrain<T>(r: seq<T>, s: seq<T>, t: seq<T>, u: seq<T>)
    requires r != [] && s != [] && t != []
    ensures Sum([r[0]], [s[0]], [t[0]]) + Sum([], u + t[1..] + s[1..] + r[1..], []) == Sum(r, s, t) + Sum([], u, [])
  {
    assert r == [r[0]] + r[1..] && s == [s[0]] + s[1..] && t == [t[0]] + t[1..];
  }

  class Reader {
    const attrHead: EntryNode
    const inProcessAttr: EntryNode
    const inProcessTag: EntryNode
    ghost var head: seq<EntryNode>   // the nodes of each ring, head node first
    ghost var attrs: seq<EntryNode>
    ghost var tags: seq<EntryNode>
    ghost var made: seq<EntryNode>   // every attribute node allocated so far
    ghost var freed: seq<EntryNode>  // every attribute node freed so far
    ghost var heads: seq<EntryNode>  // every head allocated for a result
    ghost var freedHeads: seq<EntryNode>

    ghost predicate HeadsOk() {
      && attrHead.isHead && inProcessAttr.isHead && inProcessTag.isHead
      && attrHead != inProcessAttr && attrHead != inProcessTag && inProcessAttr != inProcessTag
    }

    /** The three rings have the given heads and are linked in the order of the ghost sequences. */
    ghost predicate Shape()
      reads `head, `attrs, `tags, head, attrs, tags
    {
      && IsRing(head) && IsRing(attrs) && IsRing(tags) && head != [] && attrs != [] && tags != []
      && head[0] == attrHead && attrs[0] == inProcessAttr && tags[0] == inProcessTag
      && HeadsOk()
    }

    /** Every node that the parser may write to. */
    ghost function All(): set<EntryNode>
      reads `made
    {
      {attrHead, inProcessAttr, inProcessTag} + (set n | n in made)
    }

    /** How often each node is on a ring. */
    ghost function Nodes(): multiset<EntryNode>
      reads `head, `attrs, `tags
    {
      Sum(head, attrs, tags)
    }

    /** The rings are sound, and every node allocated so far is either on one ring, once, or `loose`,
        or has been freed, once. */
    ghost predicate Valid(loose: seq<EntryNode>)
      reads `head, `attrs, `tags, `made, `freed, head, attrs, tags
    {
      && Shape() && Distinct(made)
      && Nodes() + Sum(loose, freed, []) == Sum([attrHead, inProcessAttr, inProcessTag], made, [])
    }

    lemma {:induction false} Reach(loose: seq<EntryNode>)
      requires Valid(loose)
      ensures forall n :: n in head ==> n in All()
      ensures forall n :: n in attrs ==> n in All()
      ensures forall n :: n in tags ==> n in All()
      ensures forall n :: n in loose ==> n in All()
    {
      var every := Sum([attrHead, inProcessAttr, inProcessTag], made, []);
      forall n | n in head || n in attrs || n in tags || n in loose ensures n in All() {
        assert n in every;
      }
    }

    constructor ()
      ensures HeadsOk() && fresh(attrHead) && fresh(inProcessAttr) && fresh(inProcessTag)
      ensures made == [] && freed == [] && heads == [] && freedHeads == []
    {
      var blank := Entry(NoName, TagVal);
      attrHead := new Node(true, blank, ());
      inProcessAttr := new Node(true, blank, ());
      inProcessTag := new Node(true, blank, ());
      made, freed, heads, freedHeads := [], [], [], [];
    }

    /** `SLPInitInternalAttrList`: empties the three rings, whatever they hold. */
    method Init()
      requires HeadsOk()
      modifies this`head, this`attrs, this`tags, this`made, this`freed
      modifies attrHead`next, attrHead`prev, attrHead`owner, inProcessAttr`next, inProcessAttr`prev,
               inProcessAttr`owner, inProcessTag`next, inProcessTag`prev, inProcessTag`owner
      ensures Valid([]) && head == [attrHead] && attrs == [inProcessAttr] && tags == [inProcessTag]
      ensures made == [] && freed == []
    {
      hide IsRing, Sum;
      head, attrs, tags := [attrHead], [inProcessAttr], [inProcessTag];
      attrHead.Close();
      inProcessAttr.Close();
      assert IsRing(head);
      inProcessTag.Close();
      assert IsRing(head) && IsRing(attrs);
      made, freed := [], [];
      SumHeads(attrHead, inProcessAttr, inProcessTag);
    }

    /** Allocates a node that is on no ring. */
    method Alloc(name: Name, value: AttrValue) returns (n: EntryNode)
      requires Valid([])
      modifies this`made
      ensures Valid([n]) && fresh(n) && made == old(made) + [n]
      ensures n.owner == null && !n.isHead && n.data == Entry(name, value)
    {
      hide IsRing, Data, Sum;
      n := new Node(false, Entry(name, value), ());
      SumNew(freed, made, [attrHead, inProcessAttr, inProcessTag], n);
      made := made + [n];
    }

    method Make(value: AttrValue) returns (yyval: Cell)
      requires Valid([])
      modifies this`made
      ensures yyval.NodeCell? && Valid([yyval.node]) && fresh(yyval.node) && made == old(made) + [yyval.node]
      ensures Shows([yyval], [Made(Entry(NoName, value))])
    {
      hide Shape, Sum, Distinct;
      var n := Alloc(NoName, value);
      yyval := NodeCell(n);
    }

    /** Moves the first node of the attribute ring to the end of the final ring. */
    method FinishOne()
      requires Valid([]) && |attrs| > 1
      modifies this`head, this`attrs, All()`next, All()`prev, All()`owner
      ensures Valid([]) && head == old(head) + [old(attrs)[1]] && attrs == old(attrs)[..1] + old(attrs)[2..]
      ensures Data(head) + Data(attrs) == old(Data(head)) + old(Data(attrs))
    {
      hide IsRing, Data, Sum;
      Reach([]);
      MoveOne(attrs, head, tags, 1);
      DataMove(attrs, head);
      var temp := MoveFirst(inProcessAttr, attrHead, attrs, head);
      head, attrs := head + [temp], attrs[..1] + attrs[2..];
    }

    /** Rules 2 and 3: moves every node of the attribute ring to the end of the final ring. */
    method Finish()
      requires Valid([])
      modifies this`head, this`attrs, All()`next, All()`prev, All()`owner
      ensures Valid([]) && Data(attrs) == []
      ensures Data(head) == old(Data(head)) + old(Data(attrs))
    {
      hide IsRing, Data, Sum;
      var done := NextIsHead(inProcessAttr, attrs);
      while !done
        invariant Valid([]) && done == (|attrs| == 1)
        invariant Data(head) + Data(attrs) == old(Data(head)) + old(Data(attrs))
        decreases |attrs|
      {
        FinishOne();
        done := NextIsHead(inProcessAttr, attrs);
      }
      DataHead(attrs);
    }

    /** Links a node that no ring holds at the end of the attribute ring. */
    method LinkAttr(n: EntryNode)
      requires Valid([n]) && n.owner == null && !n.isHead
      modifies this`attrs, All()`next, All()`prev, All()`owner
      ensures Valid([]) && Data(attrs) == old(Data(attrs)) + [n.data]
    {
      hide IsRing, Data, Sum;
      Reach([n]);
      InsertBefore(n, inProcessAttr, attrs, |attrs|);
      SumLink(head, attrs, tags, freed, n);
      DataLast(attrs, n);
      assert attrs[..|attrs|] + [n] + attrs[|attrs|..] == attrs + [n];
      attrs := attrs + [n];
    }

    /** Rule 7: links a node at the front of the tag ring. */
    method LinkFirstTag(n: EntryNode)
      requires Valid([n]) && n.owner == null && !n.isHead
      modifies this`tags, All()`next, All()`prev, All()`owner
      ensures Valid([]) && Data(tags) == [n.data] + old(Data(tags))
    {
      hide IsRing, Data, Sum;
      Reach([n]);
      Insert(n, inProcessTag, tags, 1);
      SumInsert(head, attrs, tags, freed, n, 1);
      DataInsertFirst(tags, n);
      tags := tags[..1] + [n] + tags[1..];
    }

    /** Rule 8: links a node at the end of the tag ring. */
    method LinkLastTag(n: EntryNode)
      requires Valid([n]) && n.owner == null && !n.isHead
      modifies this`tags, All()`next, All()`prev, All()`owner
      ensures Valid([]) && Data(tags) == old(Data(tags)) + [n.data]
    {
      hide IsRing, Data, Sum;
      Reach([n]);
      InsertBefore(n, inProcessTag, tags, |tags|);
      SumInsert(head, attrs, tags, freed, n, |tags|);
      DataLast(tags, n);
      assert tags[..|tags|] + [n] + tags[|tags|..] == tags + [n];
      tags := tags + [n];
    }

    /** Names the first node of the tag ring. */
    method NameOne(name: string)
      requires Valid([]) && |tags| > 1
      modifies All()`data
      ensures Valid([]) && Data(head) == old(Data(head)) && Data(attrs) == old(Data(attrs))
      ensures var es := old(Data(tags)); es != [] && Data(tags) == [es[0].(name := Named(name))] + es[1..]
    {
      Reach([]);
      FirstApart(tags, attrs);
      FirstApart(tags, head);
      NextIsFirst(tags);
      hide IsRing, Data, Sum;
      DataFirst(tags);
      var temp := inProcessTag.next;
      temp.data := temp.data.(name := Named(name));
      DataFirst(tags);
    }

    /** Moves the first node of the tag ring to the end of the attribute ring. */
    method MoveTag()
      requires Valid([]) && |tags| > 1
      modifies this`attrs, this`tags, All()`next, All()`prev, All()`owner
      ensures Valid([]) && |tags| == |old(tags)| - 1
      ensures var es := old(Data(tags));
        es != [] && Data(tags) == es[1..] && Data(attrs) == old(Data(attrs)) + [es[0]]
    {
      hide IsRing, Data, Sum;
      Reach([]);
      MoveOne(tags, attrs, head, 1);
      DataFirst(tags);
      DataLast(attrs, tags[1]);
      var temp := MoveFirst(inProcessTag, inProcessAttr, tags, attrs);
      attrs, tags := attrs + [temp], tags[..1] + tags[2..];
    }

    method MoveNamed(name: string)
      requires Valid([]) && |tags| > 1
      modifies this`attrs, this`tags, All()`next, All()`prev, All()`owner, All()`data
      ensures Valid([]) && |tags| == |old(tags)| - 1 && Data(head) == old(Data(head))
      ensures Data(attrs) + NameAll(Data(tags), name) == old(Data(attrs) + NameAll(Data(tags), name))
    {
      hide IsRing, Data, Sum, Shape, Distinct;
      ghost var es := Data(tags);
      NameOne(name);
      MoveTag();
      assert NameAll(es, name) == [es[0].(name := Named(name))] + NameAll(es[1..], name);
    }

    /** Rule 6: names every node of the tag ring and moves it to the end of the attribute ring. */
    method NameTags(name: string)
      requires Valid([])
      modifies this`attrs, this`tags, All()`next, All()`prev, All()`owner, All()`data
      ensures Valid([]) && Data(tags) == [] && Data(head) == old(Data(head))
      ensures Data(attrs) == old(Data(attrs) + NameAll(Data(tags), name))
    {
      hide IsRing, Data, Sum;
      var done := NextIsHead(inProcessTag, tags);
      while !done
        invariant Valid([]) && done == (|tags| == 1) && Data(head) == old(Data(head))
        invariant Data(attrs) + NameAll(Data(tags), name) == old(Data(attrs) + NameAll(Data(tags), name))
        decreases |tags|
      {
        MoveNamed(name);
        done := NextIsHead(inProcessTag, tags);
      }
      DataHead(tags);
    }

    /** Rules 4 and 5: links a new node for a tag at the end of the attribute ring. */
    method AddTag(name: string)
      requires Valid([])
      modifies this`attrs, this`made, All()`next, All()`prev, All()`owner
      ensures Valid([]) && Data(attrs) == old(Data(attrs)) + [Entry(Named(name), TagVal)]
      ensures forall n :: n in made ==> n in old(made) || fresh(n)
    {
      hide Shape, Sum, Distinct, Data;
      var n := Alloc(Named(name), TagVal);
      LinkAttr(n);
    }

    /** The abstract state while the value stack holds `values`. */
    ghost function Now(values: seq<Value>): State
      reads `head, `attrs, `tags, head, attrs, tags
    {
      State(values, Data(tags), Data(attrs), Data(head))
    }

    /** The actions of the rules for attributes and lists of them. */
    method ReduceAttr(r: int, args: seq<Cell>, ghost vs: seq<Value>)
      requires 2 <= r <= 6 && |args| == |AttrRules(r).rhs| && Valid([]) && Shows(args, vs) && Loose(args) == []
      modifies this`head, this`attrs, this`tags, this`made, All()
      ensures Valid([]) && Now([Used]) == Perform(r, vs, old(Now([])))
      ensures forall n :: n in made ==> n in old(made) || fresh(n)
    {
      hide Shape, Sum, Distinct, Data, NameAll;
      match r
      case 2 => Finish();
      case 3 => Finish();
      case 4 => AddTag(CellString(args[0]));
      case 5 => AddTag(CellString(args[1]));
      case 6 => NameTags(CellString(args[1]));
    }

    /** The actions of the rules for lists of values. */
    method ReduceValues(r: int, args: seq<Cell>, ghost vs: seq<Value>)
      requires 7 <= r <= 8 && |args| == |AttrRules(r).rhs| && Valid(Loose(args)) && Shows(args, vs) && Loose(args) != []
      modifies this`tags, All()`next, All()`prev, All()`owner
      ensures Valid([]) && Now([Used]) == Perform(r, vs, old(Now([])))
    {
      hide Shape, Sum, Distinct, Data, NameAll;
      match r
      case 7 => LinkFirstTag(args[0].node);
      case 8 => LinkLastTag(args[2].node);
    }

    /** The actions of the rules for values. */
    method ReduceValue(r: int, arg: Cell, ghost v: Value) returns (yyval: Cell)
      requires 9 <= r <= 13 && Valid([]) && Abs(arg) == v && !arg.NodeCell?
      modifies this`made
      ensures yyval.NodeCell? && Valid([yyval.node]) && fresh(yyval.node) && made == old(made) + [yyval.node]
      ensures Shows([yyval], [Made(Entry(NoName, ValueOf(r, v)))])
    {
      hide Shape, Sum, Distinct, Data, NameAll;
      match r
      case 9 => yyval := Make(BooleanVal(1));
      case 10 => yyval := Make(BooleanVal(0));
      case 13 => yyval := Make(IntegerVal(Unsigned(CellInt(arg))));
      case _ => yyval := Make(StringVal(CellString(arg)));
    }

    /** The action of rule `r`. */
    method Reduce(r: int, args: seq<Cell>, ghost vs: seq<Value>) returns (yyval: Cell)
      requires START < r < 14 && |args| == |AttrRules(r).rhs|
      requires Valid(Loose(args)) && Shows(args, vs) && (7 <= r <= 8 <==> Loose(args) != [])
      modifies this`head, this`attrs, this`tags, this`made, All()
      ensures Valid(Loose([yyval])) && Shows([yyval], [Abs(yyval)])
      ensures Now([Abs(yyval)]) == Perform(r, vs, old(Now([])))
      ensures forall n :: n in made ==> n in old(made) || fresh(n)
    {
      hide Shape, Sum, Distinct, Data, NameAll, Valid;
      if r <= 6 {
        ReduceAttr(r, args, vs);
        yyval := LinkedCell;
      } else if r <= 8 {
        ReduceValues(r, args, vs);
        yyval := LinkedCell;
      } else {
        yyval := ReduceValue(r, args[0], vs[0]);
      }
    }

    lemma {:induction false} NowStack(values: seq<Value>)
      ensures Now(values).(values := []) == Now([]) && Now(values).values == values
    {
    }

    /** The value of a reduction, pushed on what its right-hand side leaves of the stack. */
    lemma {:induction false} Pushed(s: State, r: int, lval: Token, below: seq<Cell>, yyval: Cell, v: Value)
      requires START < r < 14 && 0 < |AttrRules(r).rhs| <= |s.values|
      requires var k := |s.values| - |AttrRules(r).rhs|;
        && Shows(below, s.values[..k]) && Loose(below) == [] && Shows([yyval], [v])
        && Now([v]) == Perform(r, s.values[k..], s.(values := []))
      ensures var s' := Apply(s, Reduced(r, lval));
        Shows(below + [yyval], s'.values) && Now(s'.values) == s' && Loose(below + [yyval]) == Loose([yyval])
    {
      hide Perform, Apply, Data, Shows, Loose;
      ApplyReduced(s, r, lval, v);
      ShowsPush(below, s.values[..|s.values| - |AttrRules(r).rhs|], yyval, v);
    }

    method HandleReduced(r: int, lval: Token, yyvs: seq<Cell>, ghost values: seq<Value>) returns (yyvs': seq<Cell>)
      requires START < r < 14 && 0 < |AttrRules(r).rhs| <= |yyvs|
      requires Valid(Loose(yyvs)) && Shows(yyvs, values) && (7 <= r <= 8 <==> Loose(yyvs) != [])
      modifies this`head, this`attrs, this`tags, this`made, All()
      ensures Valid(Loose(yyvs')) && |yyvs'| == |yyvs| - |AttrRules(r).rhs| + 1
      ensures var s' := Apply(old(Now(values)), Reduced(r, lval)); Shows(yyvs', s'.values) && Now(s'.values) == s'
      ensures forall n :: n in made ==> n in old(made) || fresh(n)
    {
      assert |yyvs| == |values|;
      NowStack(values);
      ghost var s := Now(values);
      var n := |AttrRules(r).rhs|;
      ShowsTop(yyvs, values, n);
      hide Shape, Sum, Distinct, Data, NameAll, Valid, Shows, Perform, Apply, Loose, Abs, AttrRules, Now;
      var yyval := Reduce(r, yyvs[|yyvs| - n..], values[|yyvs| - n..]);
      yyvs' := yyvs[..|yyvs| - n] + [yyval];
      Pushed(s, r, lval, yyvs[..|yyvs| - n], yyval, Abs(yyval));
    }

    /** Updates the value stack and runs the action of a reduction. */
    method Handle(event: Event, yyvs: seq<Cell>, ghost values: seq<Value>) returns (yyvs': seq<Cell>)
      requires Resizes(ATTR_AUTOMATON, event, |yyvs| + 1, if event.Shifted? then |yyvs| + 2
                       else |yyvs| + 2 - |AttrRules(event.rule).rhs|)
      requires Valid(Loose(yyvs)) && Shows(yyvs, values) && (Links(event) <==> Loose(yyvs) != [])
      modifies this`head, this`attrs, this`tags, this`made, All()
      ensures Now(values).values == values && Valid(Loose(yyvs'))
      ensures Shows(yyvs', Apply(old(Now(values)), event).values)
      ensures Now(Apply(old(Now(values)), event).values) == Apply(old(Now(values)), event)
      ensures Resizes(ATTR_AUTOMATON, event, |yyvs| + 1, |yyvs'| + 1)
      ensures forall n :: n in made ==> n in old(made) || fresh(n)
    {
      assert |yyvs| == |values|;
      assert event.Reduced? ==> (Links(event) <==> 7 <= event.rule <= 8);
      hide Shape, Sum, Distinct, Data, NameAll, Valid, Shows, Perform, Apply, Loose, Abs, AttrRules, Links;
      ghost var s := Now(values);
      match event
      case Shifted(tok) =>
        yyvs' := yyvs + [TokenCell(tok)];
        TokenShows(yyvs, values, tok, s);
      case Reduced(r, lval) => yyvs' := HandleReduced(r, lval, yyvs, values);
    }

    /** The parser's stacks and rings are where the actions so far have left the abstract state `s`. */
    ghost predicate Agrees(w: seq<Token>, d: Driver, yyvs: seq<Cell>, s: State)
      requires IsTokens(w)
      reads `head, `attrs, `tags, `made, `freed, head, attrs, tags, d, set n | n in Loose(yyvs)
    {
      && d.Valid() && d.m == ATTR_AUTOMATON && d.w == w && d.yystacksize == YYINITDEPTH
      && s == ApplyAll(INITIAL, EventsAll(d.forest)) && Now(s.values) == s
      && |yyvs| == |d.yyss| - 1 && Shows(yyvs, s.values) && Valid(Loose(yyvs))
      && Parse(w) == (d.Rest().0, ApplyAll(s, d.Rest().1))
    }

    lemma {:induction false} Ready(w: seq<Token>, d: Driver, yyvs: seq<Cell>, s: State)
      requires IsTokens(w) && Agrees(w, d, yyvs, s)
      ensures |d.yyss| < d.yystacksize
      ensures Loose(yyvs) != [] <==> d.Rest().1 != [] && Links(d.Rest().1[0])
    {
      LooseIsLinked(w, d.yyss, d.read, d.forest, yyvs);
      StackIsBounded(d.yyss);
    }

    /** One pass through the parser loop. */
    method Step(w: seq<Token>, d: Driver, yyvs: seq<Cell>, ghost s: State)
      returns (step: Step, yyvs': seq<Cell>, ghost s': State)
      requires IsTokens(w) && Agrees(w, d, yyvs, s)
      modifies this`head, this`attrs, this`tags, this`made, All(), d
      ensures step.Done? ==> Parse(w) == (step.outcome, s) && Now(s.values) == s && Valid([])
      ensures step.Do? ==> Agrees(w, d, yyvs', s') && d.Valid()
      ensures step.Do? ==>
        old(d.read) < d.read <= |w| + 1 || (d.read == old(d.read) && d.Weight() < old(d.Weight()))
      ensures forall n :: n in made ==> n in old(made) || fresh(n)
    {
      yyvs', s' := yyvs, s;
      hide Shape, Sum, Distinct, Data, NameAll, Valid, Shows, Perform, Apply, ApplyAll, StackWeight, EventsAll, Matches,
           IsPath, IsInput, Run, Driver.Valid, Driver.Rest, Driver.Weight, Parse;
      Ready(w, d, yyvs, s);
      ghost var events := EventsAll(d.forest);
      step := d.Advance();
      if step.Done? {
        ApplyNone(s);
      } else {
        NextState(s, events, step.event, d.Rest().1);
        yyvs' := Handle(step.event, yyvs, s.values);
        s' := Apply(s, step.event);
      }
    }

    /** Parses the tokens, starting with empty rings.  Whether it succeeds or gives up, every node
        allocated on the way ends up on one of the rings, once. */
    method YyParse(w: seq<Token>) returns (yyresult: int)
      requires IsTokens(w) && Valid([]) && Now([]) == INITIAL
      modifies this`head, this`attrs, this`tags, this`made, All()
      ensures yyresult == ResultCode(Parse(w).0) <= 1
      ensures Valid([]) && Now(Parse(w).1.values) == Parse(w).1
      ensures forall n :: n in made ==> n in old(made) || fresh(n)
    {
      AttrAutomatonIsValid();
      NeverExhausted(w);
      assert IsInput(ATTR_AUTOMATON, w);
      hide *;
      var d := new Driver(ATTR_AUTOMATON, w);
      var yyvs: seq<Cell> := [];
      ghost var s := INITIAL;
      Begins(w, d);
      while true
        invariant Agrees(w, d, yyvs, s) && d.Valid() && fresh(d)
        invariant forall n :: n in made ==> n in old(made) || fresh(n)
        decreases |w| + 1 - d.read, d.Weight()
      {
        var step;
        step, yyvs, s := Step(w, d, yyvs, s);
        if step.Done? {
          ParseCode(step.outcome);
          return ResultCode(step.outcome);
        }
      }
    }

    lemma {:induction false} Begins(w: seq<Token>, d: Driver)
      requires IsTokens(w) && Valid([]) && Now([]) == INITIAL && d.Valid() && d.m == ATTR_AUTOMATON && d.w == w
      requires d.yyss == [0] && d.read == 0 && d.forest == [] && d.yystacksize == YYINITDEPTH
      ensures Agrees(w, d, [], INITIAL)
    {
      NothingYet();
      hide Shape, Sum, Distinct, Data, NameAll, Valid, Shows, Perform, Apply, ApplyAll, StackWeight, EventsAll, Matches,
           IsPath, IsInput;
    }

    /** After a failed parse: frees every node on the rings, ring by ring. */
    method Cleanup()
      requires Valid([])
      modifies this`head, this`attrs, this`tags, this`freed, All()`next, All()`prev, All()`owner
      ensures Valid([]) && head == [attrHead] && attrs == [inProcessAttr] && tags == [inProcessTag]
      ensures freed == old(freed) + old(tags)[1..] + old(attrs)[1..] + old(head)[1..]
    {
      hide IsRing, Sum, Distinct;
      Reach([]);
      SumDrain(head, attrs, tags, freed);
      ghost var nodes := All();
      ghost var t := Drain(inProcessTag, tags, nodes);
      ghost var a := Drain(inProcessAttr, attrs, nodes);
      ghost var h := Drain(attrHead, head, nodes);
      freed := freed + t + a + h;
      head, attrs, tags := [attrHead], [inProcessAttr], [inProcessTag];
    }

    /** After a successful parse: hands the nodes of the final ring over to the head `temp`. */
    method Deliver(temp: EntryNode) returns (ghost ring: seq<EntryNode>)
      requires Valid([]) && IsRing([temp]) && temp != attrHead
      modifies temp`next, temp`prev, All()`next, All()`prev, All()`owner
      ensures IsRing(ring) && ring != [] && ring[0] == temp && Data(ring) == Data(head) && ring[1..] == head[1..]
    {
      hide IsRing, Data, Sum;
      Reach([]);
      ring := [temp];
      DataHead(ring);
      var empty := IsEmpty(attrHead, head);
      if empty {
        DataHead(head);
      } else {
        DataRehead(temp, head);
        LinkHead(temp, attrHead, head);
        ring := [temp] + head[1..];
      }
    }

    lemma {:induction false} NothingOnRings()
      requires head == [attrHead] && attrs == [inProcessAttr] && tags == [inProcessTag]
      ensures Now([]) == INITIAL
    {
      EmptyData(head, attrs, tags);
    }

    lemma {:induction false} AllFreed()
      requires Valid([]) && head == [attrHead] && attrs == [inProcessAttr] && tags == [inProcessTag]
      ensures Shape() && Distinct(made) && multiset(freed) == multiset(made)
    {
      hide Sum;
      SumFreed(freed, made, attrHead, inProcessAttr, inProcessTag);
    }

    lemma {:induction false} AllDelivered(values: seq<Value>)
      requires Valid([]) && Now(values).attrs == [] && Now(values).tags == [] && freed == []
      ensures head != [] && Distinct(made) && multiset(head[1..]) == multiset(made)
    {
      hide Sum, Data;
      SumDelivered(head, attrs, tags, made);
    }

    lemma {:induction false} NowHolds(s: State)
      requires Now(s.values) == s
      ensures Data(head) == s.head
    {
    }

    /** `SLPAllocAttrList`: a head that is alone on its ring. */
    method AllocAttrList() returns (temp: EntryNode)
      modifies this`heads
      ensures fresh(temp) && temp.isHead && IsRing([temp]) && heads == old(heads) + [temp]
    {
      temp := new Node(true, Entry(NoName, TagVal), ());
      temp.Close();
      heads := heads + [temp];
    }

    /** `SLPFreeAttrList`: frees the nodes of a ring, and its head if the flag says so. */
    method FreeAttrList(list: EntryNode, staticFlag: bool, ghost ring: seq<EntryNode>, ghost nodes: set<EntryNode>)
      requires IsRing(ring) && ring[0] == list && forall n :: n in ring ==> n in nodes
      modifies this`freed, this`freedHeads, nodes`next, nodes`prev, nodes`owner
      ensures IsRing([list]) && freed == old(freed) + ring[1..]
      ensures freedHeads == if staticFlag then old(freedHeads) + [list] else old(freedHeads)
      ensures forall u: seq<EntryNode> {:trigger IsRing(u)} ::
        old(allocated(u)) && old(IsRing(u)) && u[0] != ring[0] ==> IsRing(u)
    {
      assert ring != [];
      hide IsRing;
      ghost var taken := Drain(list, ring, nodes);
      freed := freed + taken;
      if staticFlag {
        freedHeads := freedHeads + [list];
      }
    }

    /** Frees the ring of the result, on which there is no node yet.  Its head is not freed. */
    method FreeResult(temp: EntryNode)
      requires Valid([]) && IsRing([temp]) && temp != attrHead && temp != inProcessAttr && temp != inProcessTag
      modifies this`freed, this`freedHeads, temp`next, temp`prev, temp`owner
      ensures Valid([]) && freedHeads == old(freedHeads)
    {
      assert [temp][0] == temp;
      hide IsRing, Sum, Distinct;
      ghost var before := freed;
      FreeAttrList(temp, false, [temp], {temp});
      assert [temp][1..] == [] && before + [] == before;
    }

    /** `_SLPDecodeAttrString`.  A list of attributes comes back as a ring that holds its flattening;
        for anything else the result is null, and every attribute node allocated has been freed exactly
        once.  The head allocated for the result is never freed: it is returned, or it is lost. */
    method Decode(w: seq<Token>) returns (list: Node?<Entry, ()>, ghost ring: seq<EntryNode>, ghost temp: EntryNode)
      requires IsTokens(w) && HeadsOk()
      modifies this, attrHead, inProcessAttr, inProcessTag
      ensures list == null <==> !exists ps :: WfParts(ps) && Print(ps) == w
      ensures list == null ==> Distinct(made) && multiset(freed) == multiset(made)
      ensures list == null ==> head == [attrHead] && attrs == [inProcessAttr] && tags == [inProcessTag] && Shape()
      ensures list != null ==> IsRing(ring) && ring != [] && ring[0] == list && fresh(list)
      ensures list != null ==> forall ps :: WfParts(ps) && Print(ps) == w ==> Data(ring) == Flatten(ps)
      ensures list != null ==> Distinct(made) && multiset(ring[1..]) == multiset(made) && freed == []
      ensures heads == old(heads) + [temp] && fresh(temp) && freedHeads == old(freedHeads)
      ensures (list == null || list == temp) && temp !in freedHeads
    {
      hide IsRing, Data, Sum, Parse, WfParts, Print, Flatten, IsTokens, Valid, Shape, Distinct, Now;
      Init();
      var result := AllocAttrList();
      temp := result;
      NothingOnRings();
      var yyresult := YyParse(w);
      ParseMeans(w);
      if yyresult != 0 {
        FreeResult(result);
        Cleanup();
        AllFreed();
        list, ring := null, [temp];
      } else {
        AllDelivered(Parse(w).1.values);
        NowHolds(Parse(w).1);
        ring := Deliver(result);
        list := result;
      }
    }
  }
}
