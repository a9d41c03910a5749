/** The reduction actions of the attribute-list parser, which move nodes between three rings, and
    what they make of a derivation. */
module AttrParser {
  import opened Bison
  import opened AttrGrammar
  import opened SlpAttr

  /** The parser's value union.  A made entry is linked into no ring yet; pointers to entries that
      are on a ring are never used again. */
  datatype Value = FromToken(tok: Token) | Made(entry: Entry) | Used

  function AsString(v: Value): string {
    if v.FromToken? then v.tok.text else ""
  }

  function AsInt(v: Value): int {
    if v.FromToken? then v.tok.num else 0
  }

  /** The value stack and the rings `inProcessTag`, `inProcessAttr` and `attrHead`. */
  datatype State = State(values: seq<Value>, tags: seq<Entry>, attrs: seq<Entry>, head: seq<Entry>)

  const INITIAL := State([], [], [], [])

  function NameAll(es: seq<Entry>, name: string): seq<Entry> {
    if es == [] then [] else [es[0].(name := Named(name))] + NameAll(es[1..], name)
  }

  /** The value that the action of rule `r`, 9 to 13, allocates for its token. */
  function ValueOf(r: int, v: Value): AttrValue {
    match r
    case 9 => BooleanVal(1)
    case 10 => BooleanVal(0)
    case 13 => IntegerVal(Unsigned(AsInt(v)))
    case _ => StringVal(AsString(v))
  }

  /** The effect of the action of rule `r`, whose right-hand side has the values `args`. */
  function Perform(r: int, args: seq<Value>, s: State): State
    requires START < r < 14 && |args| == |AttrRules(r).rhs|
  {
    match r
    case 2 => s.(values := s.values + [Used], attrs := [], head := s.head + s.attrs)
    case 3 => s.(values := s.values + [Used], attrs := [], head := s.head + s.attrs)
    case 4 => s.(values := s.values + [Used], attrs := s.attrs + [Entry(Named(AsString(args[0])), TagVal)])
    case 5 => s.(values := s.values + [Used], attrs := s.attrs + [Entry(Named(AsString(args[1])), TagVal)])
    case 6 => s.(values := s.values + [Used], tags := [], attrs := s.attrs + NameAll(s.tags, AsString(args[1])))
    case 7 => s.(values := s.values + [Used], tags := if args[0].Made? then [args[0].entry] + s.tags else s.tags)
    case 8 => s.(values := s.values + [Used], tags := if args[2].Made? then s.tags + [args[2].entry] else s.tags)
    case _ => s.(values := s.values + [Made(Entry(NoName, ValueOf(r, args[0])))])
  }

  function Apply(s: State, e: Event): State {
    match e
    case Shifted(tok) => s.(values := s.values + [FromToken(tok)])
    case Reduced(r, lval) =>
      var n := |AttrRules(r).rhs|;
      if r <= START || n == 0 || |s.values| < n then s
      else Perform(r, s.values[|s.values| - n..], s.(values := s.values[..|s.values| - n]))
  }

  function ApplyAll(s: State, es: seq<Event>): State
    decreases es
  {
    if es == [] then s else ApplyAll(Apply(s, es[0]), es[1..])
  }

  function ApplyTree(s: State, tree: Tree): State {
    ApplyAll(s, Events(tree))
  }

  lemma {:induction false} ApplyConcat(s: State, a: seq<Event>, b: seq<Event>)
    ensures ApplyAll(s, a + b) == ApplyAll(ApplyAll(s, a), b)
    decreases a
  {
    if a == [] {
      assert a + b == b;
    } else {
      assert (a + b)[1..] == a[1..] + b;
      ApplyConcat(Apply(s, a[0]), a[1..], b);
    }
  }

  lemma {:induction false} ApplyOne(s: State, e: Event)
    ensures ApplyAll(s, [e]) == Apply(s, e)
  {
    assert [e][1..] == [];
    assert ApplyAll(Apply(s, e), []) == Apply(s, e);
  }

  lemma {:induction false} ApplyFront(s: State, front: seq<Tree>, last: Tree)
    ensures ApplyAll(s, EventsAll(front + [last])) == ApplyTree(ApplyAll(s, EventsAll(front)), last)
    ensures ApplyAll(s, EventsAll([])) == s
  {
    YieldAllConcat(front, [last]);
    ApplyConcat(s, EventsAll(front), EventsAll([last]));
    YieldAllOne(last);
  }

  lemma {:induction false} ApplyLeaf(s: State, tok: Token)
    ensures ApplyTree(s, Leaf(tok)) == s.(values := s.values + [FromToken(tok)])
  {
    ApplyOne(s, Shifted(tok));
  }

  /** A reduction after its right-hand side, whose trees push the values `args`. */
  lemma {:induction false} ApplyNode(s: State, r: int, kids: seq<Tree>, s': State, below: seq<Value>, args: seq<Value>)
    requires START < r < 14 && |args| == |AttrRules(r).rhs|
    requires s' == ApplyAll(s, EventsAll(kids)) && s'.values == below + args
    ensures ApplyTree(s, Node(r, kids)) == Perform(r, args, s'.(values := below))
  {
    var last := Reduced(r, LastToken(Yield(Node(r, kids))));
    ApplyConcat(s, EventsAll(kids), [last]);
    ApplyOne(s', last);
    assert s'.values[|s'.values| - |args|..] == args;
    assert s'.values[..|s'.values| - |args|] == below;
  }

  lemma {:induction false} ApplyKids(s: State, a: Tree, b: Tree, c: Tree)
    ensures ApplyAll(s, EventsAll([a])) == ApplyTree(s, a)
    ensures ApplyAll(s, EventsAll([a, b])) == ApplyTree(ApplyTree(s, a), b)
    ensures ApplyAll(s, EventsAll([a, b, c])) == ApplyTree(ApplyTree(ApplyTree(s, a), b), c)
  {
    assert [a] == [] + [a] && [a, b] == [a] + [b] && [a, b, c] == [a, b] + [c];
    ApplyFront(s, [], a);
    ApplyFront(s, [a], b);
    ApplyFront(s, [a, b], c);
  }

  // ----- Attribute lists -----

  /** A value of a multi-valued attribute, after its separator; the first has none. */
  datatype Slot = Slot(sep: Token, tok: Token)

  /** An attribute as it is written. */
  datatype Attribute =
    | Bare(tag: Token)
    | Enclosed(left: Token, tag: Token, right: Token)
    | Multi(left: Token, tag: Token, eq: Token, slots: seq<Slot>, right: Token)

  /** An attribute of a list, after its comma; the first has none. */
  datatype Part = Part(sep: Token, item: Attribute)

  predicate WfSlots(slots: seq<Slot>) {
    && slots != [] && slots[0].sep == END_TOKEN
    && (forall i :: 0 < i < |slots| ==> slots[i].sep.sym == MULTIVAL)
    && (forall i :: 0 <= i < |slots| ==> slots[i].tok.sym in {TRUE_VAL, FALSE_VAL, INT_VAL, ESCAPED, STRING_VAL})
  }

  predicate WfItem(item: Attribute) {
    && item.tag.sym == TAG
    && (!item.Bare? ==> item.left.sym == LEFT && item.right.sym == RIGHT)
    && (item.Multi? ==> item.eq.sym == EQUALS && WfSlots(item.slots))
  }

  predicate WfParts(ps: seq<Part>) {
    && ps != [] && ps[0].sep == END_TOKEN
    && (forall i :: 0 < i < |ps| ==> ps[i].sep.sym == COMMA)
    && (forall i :: 0 <= i < |ps| ==> WfItem(ps[i].item))
  }

  function PrintSlots(slots: seq<Slot>): seq<Token> {
    if slots == [] then []
    else if |slots| == 1 then [slots[0].tok]
    else
      var last := slots[|slots| - 1];
      PrintSlots(slots[..|slots| - 1]) + [last.sep, last.tok]
  }

  function PrintItem(item: Attribute): seq<Token> {
    match item
    case Bare(tag) => [tag]
    case Enclosed(left, tag, right) => [left, tag, right]
    case Multi(left, tag, eq, slots, right) => [left, tag, eq] + PrintSlots(slots) + [right]
  }

  function Print(ps: seq<Part>): seq<Token> {
    if ps == [] then []
    else if |ps| == 1 then PrintItem(ps[0].item)
    else
      var last := ps[|ps| - 1];
      Print(ps[..|ps| - 1]) + [last.sep] + PrintItem(last.item)
  }

  function RuleOf(sym: int): int {
    if sym == TRUE_VAL then 9 else if sym == FALSE_VAL then 10 else if sym == ESCAPED then 11
    else if sym == STRING_VAL then 12 else 13
  }

  /** The typed value that a token stands for. */
  function Typed(tok: Token): AttrValue {
    if tok.sym == TRUE_VAL then BooleanVal(1)
    else if tok.sym == FALSE_VAL then BooleanVal(0)
    else if tok.sym == INT_VAL then IntegerVal(Unsigned(tok.num))
    else StringVal(tok.text)
  }

  /** The entries that the values of an attribute called `name` stand for. */
  function ValuesOf(slots: seq<Slot>, name: Name): seq<Entry> {
    if slots == [] then []
    else ValuesOf(slots[..|slots| - 1], name) + [Entry(name, Typed(slots[|slots| - 1].tok))]
  }

  /** One entry for a tag; one per value for a multi-valued attribute. */
  function EntriesOf(item: Attribute): seq<Entry> {
    if item.Multi? then ValuesOf(item.slots, Named(item.tag.text)) else [Entry(Named(item.tag.text), TagVal)]
  }

  /** The flattening of an attribute list in source order. */
  function Flatten(ps: seq<Part>): seq<Entry> {
    if ps == [] then [] else Flatten(ps[..|ps| - 1]) + EntriesOf(ps[|ps| - 1].item)
  }

  /** What a value of an attribute list is read as, token by token: truth values as 1 and 0, other than
      integers as their text, and the number of an `int` as an `unsigned int`. */
  predicate ReadsAs(tok: Token, v: AttrValue) {
    if tok.sym == INT_VAL then
      v.IntegerVal? && (0 <= tok.num < 0x8000_0000 ==> v.num == tok.num) &&
      (-0x8000_0000 <= tok.num < 0 ==> v.num == tok.num + 0x1_0000_0000)
    else if tok.sym == TRUE_VAL then v == BooleanVal(1)
    else if tok.sym == FALSE_VAL then v == BooleanVal(0)
    else v == StringVal(tok.text)
  }

  lemma {:induction false} ValuesRead(slots: seq<Slot>, name: Name)
    ensures |ValuesOf(slots, name)| == |slots|
    ensures forall j :: 0 <= j < |slots| ==>
      ValuesOf(slots, name)[j].name == name && ReadsAs(slots[j].tok, ValuesOf(slots, name)[j].value)
    decreases slots
  {
    if slots != [] {
      var n := |slots| - 1;
      ValuesRead(slots[..n], name);
    }
  }

  /** Flattening goes attribute by attribute: a tag alone becomes one entry without a value, and an attribute
      with values one entry for each of them, in order, with the name and the value as they are read. */
  lemma {:induction false} FlattenReads(before: seq<Part>, part: Part, after: seq<Part>)
    ensures Flatten(before + [part] + after) == Flatten(before) + Flatten([part]) + Flatten(after)
    ensures !part.item.Multi? ==> Flatten([part]) == [Entry(Named(part.item.tag.text), TagVal)]
    ensures part.item.Multi? ==> |Flatten([part])| == |part.item.slots|
    ensures part.item.Multi? ==> forall j :: 0 <= j < |part.item.slots| ==>
      Flatten([part])[j].name == Named(part.item.tag.text) &&
      ReadsAs(part.item.slots[j].tok, Flatten([part])[j].value)
  {
    FlattenConcat(before, [part]);
    FlattenConcat(before + [part], after);
    assert [part][..0] == [] && Flatten([part]) == EntriesOf(part.item);
    if part.item.Multi? {
      ValuesRead(part.item.slots, Named(part.item.tag.text));
    }
  }

  lemma {:induction false} FlattenConcat(a: seq<Part>, b: seq<Part>)
    ensures Flatten(a + b) == Flatten(a) + Flatten(b)
    decreases b
  {
    hide EntriesOf;
    if b == [] {
      assert a + b == a;
    } else {
      var n := |b| - 1;
      FlattenConcat(a, b[..n]);
      assert (a + b)[..|a + b| - 1] == a + b[..n];
    }
  }

  // ----- Derivations -----

  function TreeOfValue(tok: Token): Tree { Node(RuleOf(tok.sym), [Leaf(tok)]) }

  function TreeOfSlots(slots: seq<Slot>): Tree {
    if slots == [] then Leaf(END_TOKEN)
    else
      var last := slots[|slots| - 1];
      if |slots| == 1 then Node(7, [TreeOfValue(last.tok)])
      else Node(8, [TreeOfSlots(slots[..|slots| - 1]), Leaf(last.sep), TreeOfValue(last.tok)])
  }

  function TreeOfItem(item: Attribute): Tree {
    match item
    case Bare(tag) => Node(4, [Leaf(tag)])
    case Enclosed(left, tag, right) => Node(5, [Leaf(left), Leaf(tag), Leaf(right)])
    case Multi(left, tag, eq, slots, right) =>
      Node(6, [Leaf(left), Leaf(tag), Leaf(eq), TreeOfSlots(slots), Leaf(right)])
  }

  function TreeOf(ps: seq<Part>): Tree {
    if ps == [] then Leaf(END_TOKEN)
    else
      var last := ps[|ps| - 1];
      if |ps| == 1 then Node(2, [TreeOfItem(last.item)])
      else Node(3, [TreeOf(ps[..|ps| - 1]), Leaf(last.sep), TreeOfItem(last.item)])
  }

  // ----- What the actions make of a derivation -----

  lemma {:induction false} MakeValue(s: State, tok: Token)
    requires tok.sym in {TRUE_VAL, FALSE_VAL, INT_VAL, ESCAPED, STRING_VAL}
    ensures ApplyTree(s, TreeOfValue(tok)) == s.(values := s.values + [Made(Entry(NoName, Typed(tok)))])
  {
    hide ApplyAll, ApplyTree, EventsAll, YieldAll;
    var r := RuleOf(tok.sym);
    var s' := s.(values := s.values + [FromToken(tok)]);
    ApplyKids(s, Leaf(tok), Leaf(tok), Leaf(tok));
    ApplyLeaf(s, tok);
    ApplyNode(s, r, [Leaf(tok)], s', s.values, [FromToken(tok)]);
  }

  /** The values of one attribute collect on the tag ring in source order. */
  lemma {:induction false} CollectSlots(s: State, slots: seq<Slot>)
    requires WfSlots(slots) && s.tags == []
    ensures ApplyTree(s, TreeOfSlots(slots)) == s.(values := s.values + [Used], tags := ValuesOf(slots, NoName))
    decreases slots
  {
    hide ApplyAll, ApplyTree, EventsAll, YieldAll;
    var n := |slots| - 1;
    var last := slots[n];
    var entry := Entry(NoName, Typed(last.tok));
    var v := TreeOfValue(last.tok);
    if n == 0 {
      ApplyKids(s, v, v, v);
      MakeValue(s, last.tok);
      ApplyNode(s, 7, [v], s.(values := s.values + [Made(entry)]), s.values, [Made(entry)]);
      assert ValuesOf([], NoName) == [] && slots[..n] == [];
    } else {
      var front := slots[..n];
      CollectSlots(s, front);
      var s1 := s.(values := s.values + [Used], tags := ValuesOf(front, NoName));
      var s2 := s1.(values := s1.values + [FromToken(last.sep)]);
      ApplyKids(s, TreeOfSlots(front), Leaf(last.sep), v);
      ApplyLeaf(s1, last.sep);
      MakeValue(s2, last.tok);
      var args := [Used, FromToken(last.sep), Made(entry)];
      assert s2.values + [Made(entry)] == s.values + args;
      ApplyNode(s, 8, [TreeOfSlots(front), Leaf(last.sep), v], s2.(values := s.values + args), s.values, args);
    }
  }

  lemma {:induction false} NameValues(slots: seq<Slot>, name: string)
    ensures NameAll(ValuesOf(slots, NoName), name) == ValuesOf(slots, Named(name))
    decreases slots
  {
    if slots != [] {
      var front := slots[..|slots| - 1];
      NameValues(front, name);
      NameMore(ValuesOf(front, NoName), Entry(NoName, Typed(slots[|slots| - 1].tok)), name);
    }
  }

  lemma {:induction false} NameMore(es: seq<Entry>, e: Entry, name: string)
    ensures NameAll(es + [e], name) == NameAll(es, name) + [e.(name := Named(name))]
    decreases es
  {
    if es == [] {
      assert es + [e] == [e];
    } else {
      assert (es + [e])[1..] == es[1..] + [e];
      NameMore(es[1..], e, name);
    }
  }

  /** An attribute puts its entries on the attribute ring. */
  lemma {:induction false} LinkItem(s: State, item: Attribute)
    requires WfItem(item) && s.tags == []
    ensures ApplyTree(s, TreeOfItem(item)) == s.(values := s.values + [Used], attrs := s.attrs + EntriesOf(item))
  {
    match item
    case Bare(tag) =>
      hide ApplyAll, ApplyTree, EventsAll, YieldAll;
      ApplyKids(s, Leaf(tag), Leaf(tag), Leaf(tag));
      ApplyLeaf(s, tag);
      ApplyNode(s, 4, [Leaf(tag)], s.(values := s.values + [FromToken(tag)]), s.values, [FromToken(tag)]);
    case Enclosed(left, tag, right) =>
      hide ApplyAll, ApplyTree, EventsAll, YieldAll;
      ApplyKids(s, Leaf(left), Leaf(tag), Leaf(right));
      ApplyThree(s, left, tag, right);
      var args := [FromToken(left), FromToken(tag), FromToken(right)];
      ApplyNode(s, 5, [Leaf(left), Leaf(tag), Leaf(right)], s.(values := s.values + args), s.values, args);
    case Multi(_, _, _, _, _) => LinkMulti(s, item);
  }

  lemma {:induction false} ApplyThree(s: State, a: Token, b: Token, c: Token)
    ensures ApplyTree(ApplyTree(ApplyTree(s, Leaf(a)), Leaf(b)), Leaf(c))
         == s.(values := s.values + [FromToken(a), FromToken(b), FromToken(c)])
  {
    hide ApplyAll, ApplyTree;
    var s1 := s.(values := s.values + [FromToken(a)]);
    var s2 := s1.(values := s1.values + [FromToken(b)]);
    ApplyLeaf(s, a);
    ApplyLeaf(s1, b);
    ApplyLeaf(s2, c);
    assert s2.values + [FromToken(c)] == s.values + [FromToken(a), FromToken(b), FromToken(c)];
  }

  lemma {:induction false} LinkMulti(s: State, item: Attribute)
    requires WfItem(item) && s.tags == [] && item.Multi?
    ensures ApplyTree(s, TreeOfItem(item)) == s.(values := s.values + [Used], attrs := s.attrs + EntriesOf(item))
  {
    hide ApplyAll, ApplyTree, EventsAll, YieldAll;
    var Multi(left, tag, eq, slots, right) := item;
    var first := [Leaf(left), Leaf(tag), Leaf(eq)];
    var list := TreeOfSlots(slots);
    var three := [FromToken(left), FromToken(tag), FromToken(eq)];
    var s1 := s.(values := s.values + three);
    var s2 := s1.(values := s1.values + [Used], tags := ValuesOf(slots, NoName));
    ApplyKids(s, Leaf(left), Leaf(tag), Leaf(eq));
    ApplyThree(s, left, tag, eq);
    ApplyFront(s, first, list);
    CollectSlots(s1, slots);
    ApplyFront(s, first + [list], Leaf(right));
    ApplyLeaf(s2, right);
    var args := three + [Used, FromToken(right)];
    assert s2.values + [FromToken(right)] == s.values + args;
    assert first + [list] + [Leaf(right)] == [Leaf(left), Leaf(tag), Leaf(eq), list, Leaf(right)];
    ApplyNode(s, 6, first + [list] + [Leaf(right)], s2.(values := s.values + args), s.values, args);
    NameValues(slots, tag.text);
  }

  /** A list moves the entries of each attribute to the final ring, in source order. */
  lemma {:induction false} LinkParts(s: State, ps: seq<Part>)
    requires WfParts(ps) && s.tags == [] && s.attrs == []
    ensures ApplyTree(s, TreeOf(ps)) == s.(values := s.values + [Used], head := s.head + Flatten(ps))
    decreases ps
  {
    hide ApplyAll, ApplyTree, EventsAll, YieldAll, EntriesOf, TreeOfItem, WfItem;
    var n := |ps| - 1;
    var Part(sep, item) := ps[n];
    var t := TreeOfItem(item);
    if n == 0 {
      ApplyKids(s, t, t, t);
      LinkItem(s, item);
      var s1 := s.(values := s.values + [Used], attrs := [] + EntriesOf(item));
      ApplyNode(s, 2, [t], s1, s.values, [Used]);
      assert Flatten(ps[..n]) == [];
    } else {
      var front := ps[..n];
      LinkParts(s, front);
      var s1 := s.(values := s.values + [Used], head := s.head + Flatten(front));
      var s2 := s1.(values := s1.values + [FromToken(sep)]);
      ApplyKids(s, TreeOf(front), Leaf(sep), t);
      ApplyLeaf(s1, sep);
      LinkItem(s2, item);
      var args := [Used, FromToken(sep), Used];
      assert s2.values + [Used] == s.values + args;
      ApplyNode(s, 3, [TreeOf(front), Leaf(sep), t],
                s2.(values := s.values + args, attrs := [] + EntriesOf(item)), s.values, args);
      assert Flatten(ps) == Flatten(front) + EntriesOf(item);
      assert (s.head + Flatten(front)) + EntriesOf(item) == s.head + Flatten(ps);
    }
  }
}
