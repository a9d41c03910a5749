/** What the evaluator makes of a filter that was read from text.  The parser stores token codes as
    operators, and those are one more than the codes that the evaluator gives to the operators. */
module FilterMatch {
  import opened Bison
  import opened FilterGrammar
  import opened FilterParser
  import opened FilterEval
  import opened SlpAttr
  import opened Wildcard

  /** A group written with `&` holds when some filter of it holds, one written with `|` when none
      holds, and one written with `!` never. */
  lemma {:induction false} GroupAsRead(e: Expr, level: int, attrs: seq<Attr>, fn: Matcher)
    requires WfExpr(e) && e.Group? && CarriesCode(e.op)
    ensures e.op.sym == OP_AND ==> (Holds(Meaning(e, level), attrs, fn) <==> SomeHolds(e.kids, level + 1, attrs, fn))
    ensures e.op.sym == OP_OR ==> (Holds(Meaning(e, level), attrs, fn) <==> !SomeHolds(e.kids, level + 1, attrs, fn))
    ensures e.op.sym == OP_NOT ==> !Holds(Meaning(e, level), attrs, fn)
  {
    MeaningAt(e.kids, level + 1);
    var f := Meaning(e, level);
    assert f.children == MeaningAll(e.kids, level + 1);
    assert forall k :: 0 <= k < |e.kids| ==> f.children[k] == Meaning(e.kids[k], level + 1);
  }

  ghost predicate SomeHolds(es: seq<Expr>, level: int, attrs: seq<Attr>, fn: Matcher) {
    exists k :: 0 <= k < |es| && Holds(Meaning(es[k], level), attrs, fn)
  }

  ghost predicate AllHold(es: seq<Expr>, level: int, attrs: seq<Attr>, fn: Matcher) {
    forall k :: 0 <= k < |es| ==> Holds(Meaning(es[k], level), attrs, fn)
  }

  /** So `&` computes the conjunction exactly for groups whose filters all hold or all fail. */
  lemma {:induction false} AndAsRead(e: Expr, level: int, attrs: seq<Attr>, fn: Matcher)
    requires WfExpr(e) && e.Group? && CarriesCode(e.op) && e.op.sym == OP_AND
    ensures (Holds(Meaning(e, level), attrs, fn) <==> AllHold(e.kids, level + 1, attrs, fn))
       <==> AllHold(e.kids, level + 1, attrs, fn) || !SomeHolds(e.kids, level + 1, attrs, fn)
  {
    GroupAsRead(e, level, attrs, fn);
    assert e.kids != [] && AllHold(e.kids, level + 1, attrs, fn) ==> Holds(Meaning(e.kids[0], level + 1), attrs, fn);
    assert e.kids != [];
    hide Holds, Meaning;
  }

  /** `|` never computes the disjunction. */
  lemma {:induction false} OrAsRead(e: Expr, level: int, attrs: seq<Attr>, fn: Matcher)
    requires WfExpr(e) && e.Group? && CarriesCode(e.op) && e.op.sym == OP_OR
    ensures Holds(Meaning(e, level), attrs, fn) != SomeHolds(e.kids, level + 1, attrs, fn)
  {
    GroupAsRead(e, level, attrs, fn);
    hide *;
  }

  /** `!` computes the negation exactly when some filter of the group holds. */
  lemma {:induction false} NotAsRead(e: Expr, level: int, attrs: seq<Attr>, fn: Matcher)
    requires WfExpr(e) && e.Group? && CarriesCode(e.op) && e.op.sym == OP_NOT
    ensures (Holds(Meaning(e, level), attrs, fn) <==> !SomeHolds(e.kids, level + 1, attrs, fn))
       <==> SomeHolds(e.kids, level + 1, attrs, fn)
  {
    GroupAsRead(e, level, attrs, fn);
    hide *;
  }

  /** Each operator at an input, for every matcher that tells "a" from "b": with "a" as the only
      attribute, `(&(a=*)(b=*))` holds, `(|(a=*)(b=*))` does not, and neither does `(!(b=*))`. */
  lemma {:induction false} GroupsGoneWrong(fn: Matcher)
    requires fn("a", "a") != FNM_NOMATCH && fn("b", "a") == FNM_NOMATCH
    ensures var attrs, a, b := [Attr("a", TagVal)], Present(OPEN, Operand("a"), IS_THERE, CLOSE),
                               Present(OPEN, Operand("b"), IS_THERE, CLOSE);
      && Holds(Meaning(a, 2), attrs, fn) && !Holds(Meaning(b, 2), attrs, fn)
      && Holds(Meaning(Group(OPEN, Token(OP_AND, 260, ""), [a, b], CLOSE), 1), attrs, fn)
      && !Holds(Meaning(Group(OPEN, Token(OP_OR, 261, ""), [a, b], CLOSE), 1), attrs, fn)
      && !Holds(Meaning(Group(OPEN, Token(OP_NOT, 262, ""), [b], CLOSE), 1), attrs, fn)
  {
    var attrs, a, b := [Attr("a", TagVal)], Present(OPEN, Operand("a"), IS_THERE, CLOSE),
                       Present(OPEN, Operand("b"), IS_THERE, CLOSE);
    var and := Group(OPEN, Token(OP_AND, 260, ""), [a, b], CLOSE);
    var or := Group(OPEN, Token(OP_OR, 261, ""), [a, b], CLOSE);
    var not := Group(OPEN, Token(OP_NOT, 262, ""), [b], CLOSE);
    assert WfExpr(a) && WfExpr(b) && WfExpr(and) && WfExpr(or) && WfExpr(not);
    PresenceAsRead(a, 2, attrs, fn);
    PresenceAsRead(b, 2, attrs, fn);
    assert attrs[0].name == "a";
    hide Holds, Meaning, WfExpr;
    GroupAsRead(and, 1, attrs, fn);
    GroupAsRead(or, 1, attrs, fn);
    GroupAsRead(not, 1, attrs, fn);
    assert and.kids[0] == or.kids[0] == a;
  }

  /** With the local matcher, without any assumption. */
  lemma {:induction false} GroupsGoneWrongLocally()
    ensures var attrs, a, b := [Attr("a", TagVal)], Present(OPEN, Operand("a"), IS_THERE, CLOSE),
                               Present(OPEN, Operand("b"), IS_THERE, CLOSE);
      && Holds(Meaning(a, 2), attrs, Local) && !Holds(Meaning(b, 2), attrs, Local)
      && Holds(Meaning(Group(OPEN, Token(OP_AND, 260, ""), [a, b], CLOSE), 1), attrs, Local)
      && !Holds(Meaning(Group(OPEN, Token(OP_OR, 261, ""), [a, b], CLOSE), 1), attrs, Local)
      && !Holds(Meaning(Group(OPEN, Token(OP_NOT, 262, ""), [b], CLOSE), 1), attrs, Local)
  {
    LocalTellsApart();
    assert Local("a", "a") != FNM_NOMATCH;
    hide *;
    GroupsGoneWrong(Local);
  }

  const OPEN := Token(L_PAREN, 0, "")
  const CLOSE := Token(R_PAREN, 0, "")
  const IS_THERE := Token(OP_PRESENT, 266, "")

  function Operand(text: string): Token { Token(OPERAND, 0, text) }

  /** What a comparison tests, for every kind of value: `=` whether it is greater or equal, `>=` whether
      it is less or equal, `~=` only the type, and `<=` only the attribute.  Truth values are compared by
      all of them but `<=`. */
  lemma {:induction false} ComparisonAsRead(e: Expr, level: int, attrs: seq<Attr>, fn: Matcher, i: int)
    requires WfExpr(e) && e.Compare? && CarriesCode(e.op) && IsFirstNamed(e.name.text, attrs, fn, i)
    ensures Holds(Meaning(e, level), attrs, fn) <==>
      (e.op.sym == OP_LT ||
       match (ValueOf(e.value), attrs[i].value)
       case (StringVal(s), StringVal(t)) =>
         (e.op.sym == OP_EQU ==> fn(s, t) >= 0) && (e.op.sym == OP_GT ==> fn(s, t) <= 0)
       case (IntegerVal(m), IntegerVal(n)) =>
         exists d :: IsDifference(d, m, n) && (e.op.sym == OP_EQU ==> d >= 0) && (e.op.sym == OP_GT ==> d <= 0)
       case (BooleanVal(x), BooleanVal(y)) => x != 0 <==> y != 0
       case _ => false)
  {
    var f := Meaning(e, level);
    assert f.attrs == [Attr(e.name.text, ValueOf(e.value))];
    assert forall k :: IsFirstNamed(e.name.text, attrs, fn, k) ==> k == i;
    assert Holds(f, attrs, fn) <==> Passes(f, attrs[i].value, fn);
    hide Holds, Meaning, IntDifference, IsDifference;
    if ValueOf(e.value).IntegerVal? && attrs[i].value.IntegerVal? {
      OneDifference(ValueOf(e.value).num, attrs[i].value.num);
    }
  }

  /** What comparing the literal `j` with an attribute that was read from the literal `k` tests, for numbers
      that are `int`s: `>=` and `=` ask whether the attribute is greater or equal, and less or equal, exactly
      if the difference is an `int`; otherwise they ask whether it is less, and greater. */
  lemma {:induction false} IntegersAsRead(e: Expr, level: int, attrs: seq<Attr>, fn: Matcher, i: int, k: int)
    requires WfExpr(e) && e.Compare? && CarriesCode(e.op) && IsFirstNamed(e.name.text, attrs, fn, i)
    requires e.value.sym == VAL_INT && -0x8000_0000 <= e.value.num < 0x8000_0000 && -0x8000_0000 <= k < 0x8000_0000
    requires attrs[i].value == IntegerVal(if k >= 0 then k else k + 0x1_0000_0000)
    ensures var j, holds := e.value.num, Holds(Meaning(e, level), attrs, fn);
      if -0x8000_0000 <= j - k < 0x8000_0000 then
        (e.op.sym == OP_GT ==> (holds <==> k >= j)) && (e.op.sym == OP_EQU ==> (holds <==> k <= j))
      else
        (e.op.sym == OP_GT ==> (holds <==> k < j)) && (e.op.sym == OP_EQU ==> (holds <==> k > j))
    ensures e.op.sym == OP_LT || e.op.sym == OP_APPROX ==> Holds(Meaning(e, level), attrs, fn)
  {
    var j, m, n := e.value.num, ValueOf(e.value).num, attrs[i].value.num;
    ComparisonAsRead(e, level, attrs, fn, i);
    assert m == if j >= 0 then j else j + 0x1_0000_0000;
    var d := if j - k >= 0x8000_0000 then j - k - 0x1_0000_0000
             else if j - k < -0x8000_0000 then j - k + 0x1_0000_0000 else j - k;
    Congruent(j, k, m, n, d);
    OneDifference(m, n);
    hide Holds, Meaning, IntDifference, IsDifference;
  }

  lemma {:induction false} Congruent(j: int, k: int, m: int, n: int, d: int)
    requires m == j || m == j + 0x1_0000_0000
    requires n == k || n == k + 0x1_0000_0000
    requires d == j - k || d == j - k - 0x1_0000_0000 || d == j - k + 0x1_0000_0000
    requires -0x8000_0000 <= d < 0x8000_0000
    ensures IsDifference(d, m, n)
  {
  }

  /** For integers from 0 up to 2^31, `(name>=j)` holds exactly if the first attribute with the name is an
      integer that is at least `j`, and `(name=j)` exactly if it is one that is at most `j`. */
  lemma {:induction false} SmallIntegersAsRead(e: Expr, level: int, attrs: seq<Attr>, fn: Matcher)
    requires WfExpr(e) && e.Compare? && CarriesCode(e.op) && e.value.sym == VAL_INT && 0 <= e.value.num < 0x8000_0000
    requires forall i :: 0 <= i < |attrs| && attrs[i].value.IntegerVal? ==> 0 <= attrs[i].value.num < 0x8000_0000
    ensures e.op.sym == OP_GT ==> (Holds(Meaning(e, level), attrs, fn) <==>
      exists i :: IsFirstNamed(e.name.text, attrs, fn, i) && attrs[i].value.IntegerVal? &&
                  attrs[i].value.num >= e.value.num)
    ensures e.op.sym == OP_EQU ==> (Holds(Meaning(e, level), attrs, fn) <==>
      exists i :: IsFirstNamed(e.name.text, attrs, fn, i) && attrs[i].value.IntegerVal? &&
                  attrs[i].value.num <= e.value.num)
  {
    var f := Meaning(e, level);
    assert f.attrs == [Attr(e.name.text, ValueOf(e.value))];
    assert Holds(f, attrs, fn) ==> exists i :: IsFirstNamed(e.name.text, attrs, fn, i);
    assert forall i, k :: IsFirstNamed(e.name.text, attrs, fn, i) && IsFirstNamed(e.name.text, attrs, fn, k) ==> k == i;
    if i :| IsFirstNamed(e.name.text, attrs, fn, i) {
      if attrs[i].value.IntegerVal? {
        IntegersAsRead(e, level, attrs, fn, i, attrs[i].value.num);
      } else {
        ComparisonAsRead(e, level, attrs, fn, i);
      }
      hide Holds, Meaning;
    }
  }

  /** A presence test means what it says: some attribute has the name. */
  lemma {:induction false} PresenceAsRead(e: Expr, level: int, attrs: seq<Attr>, fn: Matcher)
    requires WfExpr(e) && e.Present?
    ensures Holds(Meaning(e, level), attrs, fn) <==>
      exists i :: 0 <= i < |attrs| && fn(e.name.text, attrs[i].name) != FNM_NOMATCH
  {
    var f := Meaning(e, level);
    assert Holds(f, attrs, fn) <==> exists i :: IsFirstNamed(e.name.text, attrs, fn, i);
    if i :| 0 <= i < |attrs| && fn(e.name.text, attrs[i].name) != FNM_NOMATCH {
      var k := FirstNamed(e.name.text, attrs, fn, i);
    }
  }

  lemma {:induction false} FirstNamed(name: string, attrs: seq<Attr>, fn: Matcher, i: nat) returns (k: nat)
    requires i < |attrs| && fn(name, attrs[i].name) != FNM_NOMATCH
    ensures IsFirstNamed(name, attrs, fn, k)
    decreases i
  {
    if j :| 0 <= j < i && fn(name, attrs[j].name) != FNM_NOMATCH {
      k := FirstNamed(name, attrs, fn, j);
    } else {
      k := i;
    }
  }
}
