/** Printing the filters that a parse leaves behind: when they give back the tokens that were read. */
module FilterPrinter {
  import opened Bison
  import opened FilterGrammar
  import opened FilterParser
  import opened SlpAttr

  const STAR := "*"

  /** What a token says: an operand its text, a literal its value, other tokens only their kind. */
  function Spell(tok: Token): Token {
    if tok.sym == VAL_INT then Token(VAL_INT, Unsigned(tok.num), "")
    else if tok.sym == VAL_BOOL then Token(VAL_BOOL, tok.num, "")
    else if tok.sym == OPERAND then Token(OPERAND, 0, tok.text)
    else Token(tok.sym, 0, "")
  }

  /** So two tokens say the same exactly if they are of one kind, and as literals have the same value, numbers
      up to multiples of 2^32, and as operands the same text. */
  lemma {:induction false} SpellSays(a: Token, b: Token)
    ensures Spell(a) == Spell(b) <==>
      && a.sym == b.sym && (a.sym == VAL_INT ==> (a.num - b.num) % 0x1_0000_0000 == 0)
      && (a.sym == VAL_BOOL ==> a.num == b.num) && (a.sym == OPERAND ==> a.text == b.text)
  {
    var m, n := Unsigned(a.num), Unsigned(b.num);
    assert (m - n) % 0x1_0000_0000 == 0 ==> m == n;
    hide Unsigned;
  }

  function SpellAll(toks: seq<Token>): seq<Token> {
    seq(|toks|, i requires 0 <= i < |toks| => Spell(toks[i]))
  }

  function ShowValue(v: AttrValue): Token {
    match v
    case IntegerVal(n) => Token(VAL_INT, n, "")
    case BooleanVal(b) => Token(VAL_BOOL, b, "")
    case StringVal(s) => Token(OPERAND, 0, s)
    case _ => Token(OPERAND, 0, "")
  }

  /** A filter as text.  A node that says "`<=` the string `*`" can only be shown as a presence test. */
  function Show(f: Filter): seq<Token>
    decreases f, 1
  {
    var open, close := Token(L_PAREN, 0, ""), Token(R_PAREN, 0, "");
    if f.children != [] then [open, Token(f.operator - 255, 0, "")] + ShowAll(f.children) + [close]
    else if f.attrs == [] then [open, close]
    else
      var name, value := Token(OPERAND, 0, f.attrs[0].name), f.attrs[0].value;
      if f.operator == EXPR_PRESENT && value == StringVal(STAR) then [open, name, Token(OP_PRESENT, 0, ""), close]
      else [open, name, Token(f.operator - 255, 0, ""), ShowValue(value), close]
  }

  function ShowAll(fs: seq<Filter>): seq<Token>
    decreases fs, 0
  {
    if fs == [] then [] else ShowAll(fs[..|fs| - 1]) + Show(fs[|fs| - 1])
  }

  /** How many comparisons `<=` with the operand `*` a filter contains. */
  function Stars(e: Expr): nat
    decreases e, 1
  {
    match e
    case Group(_, _, kids, _) => StarsAll(kids)
    case Compare(_, _, op, value, _) => if op.sym == OP_LT && value.sym == OPERAND && value.text == STAR then 1 else 0
    case Present(_, _, _, _) => 0
  }

  function StarsAll(es: seq<Expr>): nat
    decreases es, 0
  {
    if es == [] then 0 else StarsAll(es[..|es| - 1]) + Stars(es[|es| - 1])
  }

  lemma {:induction false} SpellConcat(a: seq<Token>, b: seq<Token>)
    ensures SpellAll(a + b) == SpellAll(a) + SpellAll(b)
  {
  }

  lemma {:induction false} ShowCompare(e: Expr, level: int)
    requires WfExpr(e) && e.Compare? && CarriesCode(e.op)
    ensures |Show(Meaning(e, level))| == |Print(e)| - Stars(e)
    ensures Stars(e) == 0 ==> Show(Meaning(e, level)) == SpellAll(Print(e))
  {
    var Compare(open, name, op, value, close) := e;
    assert SpellAll([open, name, op, value, close]) == [Spell(open), Spell(name), Spell(op), Spell(value),
           Spell(close)];
    assert ShowValue(ValueOf(value)) == Spell(value);
    hide SpellAll;
  }

  lemma {:induction false} ShowPresent(e: Expr, level: int)
    requires WfExpr(e) && e.Present?
    ensures Show(Meaning(e, level)) == SpellAll(Print(e)) && |Show(Meaning(e, level))| == |Print(e)| == 4
  {
    var Present(open, name, op, close) := e;
    assert SpellAll([open, name, op, close]) == [Spell(open), Spell(name), Spell(op), Spell(close)];
    hide SpellAll;
  }

  lemma {:induction false} ShowGroup(e: Expr, level: int)
    requires WfExpr(e) && e.Group? && CarriesCode(e.op)
    requires |ShowAll(MeaningAll(e.kids, level + 1))| == |PrintAll(e.kids)| - StarsAll(e.kids)
    requires StarsAll(e.kids) == 0 ==> ShowAll(MeaningAll(e.kids, level + 1)) == SpellAll(PrintAll(e.kids))
    ensures |Show(Meaning(e, level))| == |Print(e)| - Stars(e)
    ensures Stars(e) == 0 ==> Show(Meaning(e, level)) == SpellAll(Print(e))
  {
    var Group(open, op, kids, close) := e;
    assert MeaningAll(kids, level + 1) != [] && Stars(e) == StarsAll(kids);
    assert SpellAll([open, op]) == [Spell(open), Spell(op)] && SpellAll([close]) == [Spell(close)];
    SpellConcat([open, op], PrintAll(kids));
    SpellConcat([open, op] + PrintAll(kids), [close]);
    hide SpellAll, PrintAll, MeaningAll, ShowAll, StarsAll, Stars, WfExpr;
  }

  lemma {:induction false} TokensOfGroup(e: Expr)
    requires e.Group?
    ensures e.op in Print(e) && forall t :: t in PrintAll(e.kids) ==> t in Print(e)
  {
    assert Print(e)[1] == e.op;
  }

  /** A node prints one token less for every `<=*`, and prints back exactly when there is none. */
  lemma {:induction false} ShowMeaning(e: Expr, level: int)
    requires WfExpr(e) && forall t :: t in Print(e) ==> CarriesCode(t)
    ensures |Show(Meaning(e, level))| == |Print(e)| - Stars(e)
    ensures Stars(e) == 0 ==> Show(Meaning(e, level)) == SpellAll(Print(e))
    decreases e, 1
  {
    if e.Group? {
      TokensOfGroup(e);
      ShowMeanings(e.kids, level + 1);
      hide *;
      ShowGroup(e, level);
    } else if e.Compare? {
      assert Print(e)[2] == e.op;
      hide *;
      ShowCompare(e, level);
    } else {
      assert Stars(e) == 0;
      hide *;
      ShowPresent(e, level);
    }
  }

  lemma {:induction false} ShowMeanings(es: seq<Expr>, level: int)
    requires (forall e :: e in es ==> WfExpr(e)) && forall t :: t in PrintAll(es) ==> CarriesCode(t)
    ensures |ShowAll(MeaningAll(es, level))| == |PrintAll(es)| - StarsAll(es)
    ensures StarsAll(es) == 0 ==> ShowAll(MeaningAll(es, level)) == SpellAll(PrintAll(es))
    decreases es, 0
  {
    if es != [] {
      var n := |es| - 1;
      assert forall t :: t in Print(es[n]) || t in PrintAll(es[..n]) ==> t in PrintAll(es);
      ShowMeaning(es[n], level);
      ShowMeanings(es[..n], level);
      SpellConcat(PrintAll(es[..n]), Print(es[n]));
      var fs := MeaningAll(es, level);
      assert fs[..|fs| - 1] == MeaningAll(es[..n], level) && fs[|fs| - 1] == Meaning(es[n], level);
    }
  }

  /** The trees that a parse leaves print as the tokens it read exactly when no filter says `<=*`. */
  lemma {:induction false} PrintsBack(es: seq<Expr>, level: int)
    requires WfExprs(es) && forall t :: t in PrintAll(es) ==> CarriesCode(t)
    ensures ShowAll(MeaningAll(es, level)) == SpellAll(PrintAll(es)) <==> StarsAll(es) == 0
  {
    ShowMeanings(es, level);
  }

  /** The code of `<=` is the code of a presence test: these two texts build the same node, so no
      printer can give back both. */
  lemma {:induction false} LessOrEqualStar(level: int)
    ensures var open, close := Token(L_PAREN, 0, ""), Token(R_PAREN, 0, "");
      var a, star := Token(OPERAND, 0, "a"), Token(OPERAND, 0, STAR);
      var le, present := Token(OP_LT, 265, ""), Token(OP_PRESENT, 266, "");
      var x, y := Compare(open, a, le, star, close), Present(open, a, present, close);
      && WfExpr(x) && WfExpr(y) && Meaning(x, level) == Meaning(y, level)
      && SpellAll(Print(x)) != SpellAll(Print(y))
      && (forall t :: t in Print(x) || t in Print(y) ==> CarriesCode(t))
  {
    var open, close := Token(L_PAREN, 0, ""), Token(R_PAREN, 0, "");
    var a, star := Token(OPERAND, 0, "a"), Token(OPERAND, 0, STAR);
    assert |Print(Compare(open, a, Token(OP_LT, 265, ""), star, close))| == 5;
    assert |Print(Present(open, a, Token(OP_PRESENT, 266, ""), close))| == 4;
  }
}
