/** Comma-separated string lists.  The comparison of two items is a parameter: items compare equal
    when `norm` takes them to the same string. */
module StringList {

  type Norm = string -> string

  // ----- The items of a list -----

  /** The position of the first comma from `p` on, or the length if there is none. */
  function Comma(s: string, p: nat): (k: nat)
    requires p <= |s|
    ensures p <= k <= |s| && (forall i :: p <= i < k ==> s[i] != ',') && (k < |s| ==> s[k] == ',')
    decreases |s| - p
  {
    if p == |s| || s[p] == ',' then p else Comma(s, p + 1)
  }

  /** The items of a list from position `p` on; an empty item at the very end is not one. */
  function ItemsFrom(s: string, p: nat): seq<string>
    decreases |s| - p
  {
    if p >= |s| then [] else [s[p..Comma(s, p)]] + ItemsFrom(s, Comma(s, p) + 1)
  }

  function Items(s: string): seq<string> {
    ItemsFrom(s, 0)
  }

  lemma {:induction false} CommaIs(s: string, p: nat, e: nat)
    requires p <= e <= |s| && (forall i :: p <= i < e ==> s[i] != ',') && (e < |s| ==> s[e] == ',')
    ensures Comma(s, p) == e
  {
  }

  lemma {:induction false} ItemsEnds(s: string)
    ensures Items(s) == ItemsFrom(s, 0) && forall p :: p >= |s| ==> ItemsFrom(s, p) == []
  {
  }

  /** What a cursor loop sees when it has scanned an item from `p` to `e`. */
  lemma {:induction false} NextItem(s: string, p: nat, e: nat)
    requires p < |s| && p <= e <= |s|
    requires (forall i :: p <= i < e ==> s[i] != ',') && (e < |s| ==> s[e] == ',')
    ensures ItemsFrom(s, p) == [s[p..e]] + ItemsFrom(s, e + 1)
  {
    CommaIs(s, p, e);
  }

  /** A cursor at `p` has passed the items `done`. */
  ghost predicate Passed(s: string, p: nat, done: seq<string>) {
    Items(s) == done + ItemsFrom(s, p)
  }

  lemma {:induction false} NonePassed(s: string)
    ensures Passed(s, 0, [])
  {
  }

  lemma {:induction false} AllPassed(s: string, p: nat, done: seq<string>)
    requires Passed(s, p, done) && p >= |s|
    ensures Items(s) == done
  {
  }

  lemma {:induction false} PassItem(s: string, p: nat, e: nat, done: seq<string>)
    requires p < |s| && p <= e <= |s| && Passed(s, p, done)
    requires (forall i :: p <= i < e ==> s[i] != ',') && (e < |s| ==> s[e] == ',')
    ensures Passed(s, e + 1, done + [s[p..e]])
    ensures Items(s) == done + [s[p..e]] + ItemsFrom(s, e + 1)
  {
    hide Items, ItemsFrom;
    NextItem(s, p, e);
  }

  predicate Has(norm: Norm, items: seq<string>, item: string) {
    exists i :: 0 <= i < |items| && norm(items[i]) == norm(item)
  }

  /** Where item `k` of a list starts. */
  function Offset(items: seq<string>, k: nat): nat
    requires k <= |items|
  {
    if k == 0 then 0 else Offset(items, k - 1) + |items[k - 1]| + 1
  }

  lemma {:induction false} OffsetPrefix(a: seq<string>, b: seq<string>, k: nat)
    requires k <= |a|
    ensures Offset(a + b, k) == Offset(a, k)
    decreases k
  {
    if k > 0 {
      OffsetPrefix(a, b, k - 1);
    }
  }

  /** An item covers the list from its position to the next comma, or to the end. */
  ghost predicate IsItem(s: string, p: nat, item: string, isLast: bool) {
    var e := p + |item|;
    && e <= |s| && item == s[p..e] && ',' !in item && (p > 0 ==> s[p - 1] == ',') && (e < |s| ==> s[e] == ',')
    && (isLast <==> e + 1 >= |s|)
  }

  lemma {:induction false} ItemStandsAt(s: string, k: nat)
    requires k < |Items(s)|
    ensures IsItem(s, Offset(Items(s), k), Items(s)[k], k == |Items(s)| - 1)
  {
    ItemStandsFrom(s, 0, [], k);
  }

  lemma {:induction false} ItemStandsFrom(s: string, p: nat, done: seq<string>, k: nat)
    requires k < |Items(s)| && |done| <= k && Passed(s, p, done)
    requires p == Offset(done, |done|) && p <= |s| + 1 && (0 < p <= |s| ==> s[p - 1] == ',')
    ensures IsItem(s, Offset(Items(s), k), Items(s)[k], k == |Items(s)| - 1)
    decreases |s| + 1 - p
  {
    hide *;
    if p >= |s| {
      AllPassed(s, p, done);
      assert false;
    }
    var e := ItemIs(s, p);
    var found, rest := s[p..e], ItemsFrom(s, e + 1);
    PassItem(s, p, e, done);
    assert Items(s) == done + ([found] + rest);
    if k == |done| {
      OffsetPrefix(done, [found] + rest, k);
    } else {
      OffsetMore(done, found);
      ItemStandsFrom(s, e + 1, done + [found], k);
    }
  }

  lemma {:induction false} ItemIs(s: string, p: nat) returns (e: nat)
    requires p < |s| && (p > 0 ==> s[p - 1] == ',')
    ensures p <= e <= |s| && (forall i :: p <= i < e ==> s[i] != ',') && (e < |s| ==> s[e] == ',')
    ensures IsItem(s, p, s[p..e], e + 1 >= |s|) && (ItemsFrom(s, e + 1) == [] <==> e + 1 >= |s|)
  {
    e := Comma(s, p);
  }

  lemma {:induction false} OffsetMore(done: seq<string>, found: string)
    ensures Offset(done + [found], |done| + 1) == Offset(done, |done|) + |found| + 1
  {
    OffsetPrefix(done, [found], |done|);
  }

  /** The item that starts at `at` is the first one equal to `item`. */
  ghost predicate IsFirst(norm: Norm, items: seq<string>, item: string, at: nat) {
    exists k :: 0 <= k < |items| && norm(items[k]) == norm(item) && Offset(items, k) == at
           && !Has(norm, items[..k], item)
  }

  lemma {:induction false} HasMore(norm: Norm, done: seq<string>, found: string, rest: seq<string>, item: string)
    ensures Has(norm, done + [found], item) <==> Has(norm, done, item) || norm(found) == norm(item)
    ensures norm(found) == norm(item) ==> Has(norm, done + [found] + rest, item)
    ensures norm(found) == norm(item) && !Has(norm, done, item) ==>
      IsFirst(norm, done + [found] + rest, item, Offset(done, |done|))
    ensures Offset(done + [found], |done| + 1) == Offset(done, |done|) + |found| + 1
  {
    var items, k := done + [found] + rest, |done|;
    assert items[k] == found && items[..k] == done && (done + [found])[k] == found;
    OffsetPrefix(done, [found], k);
    OffsetPrefix(done + [found], rest, k);
    if Has(norm, done, item) {
      var i :| 0 <= i < |done| && norm(done[i]) == norm(item);
      assert (done + [found])[i] == done[i];
    }
  }

  /** `SLPContainsStringList`: one more than the position of the first equal item, or zero. */
  method ContainsStringList(norm: Norm, list: string, item: string) returns (pos: nat)
    ensures pos > 0 <==> Has(norm, Items(list), item)
    ensures pos > 0 ==> IsFirst(norm, Items(list), item, pos - 1)
  {
    hide *;
    NonePassed(list);
    var itemend := 0;
    ghost var done: seq<string> := [];
    HasNone(norm, item);
    while itemend < |list|
      invariant 0 <= itemend <= |list| + 1
      invariant Passed(list, itemend, done)
      invariant !Has(norm, done, item) && Offset(done, |done|) == itemend
      decreases |list| + 1 - itemend
    {
      var itembegin := itemend;
      itemend := ScanItem(list, itembegin);
      PassItem(list, itembegin, itemend, done);
      ghost var found := list[itembegin..itemend];
      HasMore(norm, done, found, ItemsFrom(list, itemend + 1), item);
      if norm(list[itembegin..itemend]) == norm(item) {
        return 1 + itembegin;
      }
      done := done + [found];
      itemend := itemend + 1;
    }
    AllPassed(list, itemend, done);
    return 0;
  }

  /** `SLPIntersectStringList`: how many items of the first list have an equal one in the second. */
  method IntersectStringList(norm: Norm, list1: string, list2: string) returns (result: nat)
    ensures result == Common(norm, Items(list1), Items(list2))
  {
    hide *;
    NonePassed(list1);
    result := 0;
    var itemend := 0;
    ghost var done: seq<string> := [];
    CommonMore(norm, [], [], Items(list2));
    while itemend < |list1|
      invariant 0 <= itemend <= |list1| + 1
      invariant Passed(list1, itemend, done)
      invariant result == Common(norm, done, Items(list2))
      decreases |list1| + 1 - itemend
    {
      var itembegin := itemend;
      itemend := ScanItem(list1, itembegin);
      PassItem(list1, itembegin, itemend, done);
      ghost var found := list1[itembegin..itemend];
      CommonMore(norm, done, found, Items(list2));
      var pos := ContainsStringList(norm, list2, list1[itembegin..itemend]);
      if pos > 0 {
        result := result + 1;
      }
      done := done + [found];
      itemend := itemend + 1;
    }
    AllPassed(list1, itemend, done);
  }

  /** How many of `a` have an equal item in `b`. */
  function Common(norm: Norm, a: seq<string>, b: seq<string>): nat {
    if a == [] then 0 else Common(norm, a[..|a| - 1], b) + (if Has(norm, b, a[|a| - 1]) then 1 else 0)
  }

  lemma {:induction false} CommonMore(norm: Norm, a: seq<string>, item: string, b: seq<string>)
    ensures Common(norm, a + [item], b) == Common(norm, a, b) + (if Has(norm, b, item) then 1 else 0)
    ensures Common(norm, [], b) == 0
  {
    assert (a + [item])[..|a|] == a;
  }

  /** The places of the items of `a` that some item of `b` is equal to. */
  ghost function Places(norm: Norm, a: seq<string>, b: seq<string>): set<int> {
    set i | 0 <= i < |a| && exists j :: 0 <= j < |b| && norm(b[j]) == norm(a[i])
  }

  lemma {:induction false} PlacesMore(norm: Norm, a: seq<string>, b: seq<string>)
    requires a != []
    ensures var n := |a| - 1;
      && Places(norm, a, b) == Places(norm, a[..n], b) + (if Has(norm, b, a[n]) then {n} else {})
      && n !in Places(norm, a[..n], b)
  {
    var n := |a| - 1;
    forall i ensures i in Places(norm, a, b) <==>
      i in Places(norm, a[..n], b) + (if Has(norm, b, a[n]) then {n} else {})
    {
      if 0 <= i < n {
        assert a[i] == a[..n][i];
      }
    }
  }

  /** The count is that of those places. */
  lemma {:induction false} CommonCounts(norm: Norm, a: seq<string>, b: seq<string>)
    ensures Common(norm, a, b) == |Places(norm, a, b)|
    decreases a
  {
    if a == [] {
      assert Places(norm, a, b) == {};
    } else {
      PlacesMore(norm, a, b);
      hide Places, Has;
      CommonCounts(norm, a[..|a| - 1], b);
    }
  }

  // ----- Splitting at every comma -----

  /** What is between the commas from position `p` on, including an empty string at the end. */
  function SplitFrom(s: string, p: nat): (parts: seq<string>)
    requires p <= |s|
    ensures parts != []
    decreases |s| - p
  {
    var e := Comma(s, p);
    [s[p..e]] + (if e < |s| then SplitFrom(s, e + 1) else [])
  }

  function Split(s: string): seq<string> {
    SplitFrom(s, 0)
  }

  /** A list without the empty string at its end, if there is one. */
  function Trim(parts: seq<string>): seq<string> {
    if parts != [] && parts[|parts| - 1] == "" then parts[..|parts| - 1] else parts
  }

  lemma {:induction false} ItemsAreSplit(s: string)
    ensures Items(s) == Trim(Split(s))
    ensures Trim(Split(s)) == Split(s) <==> s != "" && s[|s| - 1] != ','
  {
    ItemsAreSplitFrom(s, 0);
  }

  lemma {:induction false} ItemsAreSplitFrom(s: string, p: nat)
    requires p <= |s|
    ensures var parts := SplitFrom(s, p);
      ItemsFrom(s, p) == Trim(parts) && (parts[|parts| - 1] == "" <==> p == |s| || s[|s| - 1] == ',')
    decreases |s| - p
  {
    hide *;
    var e := Comma(s, p);
    SplitStep(s, p);
    ItemsEnds(s);
    if p < |s| {
      NextItem(s, p, e);
    }
    if e < |s| {
      ItemsAreSplitFrom(s, e + 1);
      TrimMore(s[p..e], SplitFrom(s, e + 1));
    } else {
      TrimOne(s[p..e]);
      assert SplitFrom(s, p) == [s[p..e]];
      if p < |s| {
        assert ItemsFrom(s, p) == [s[p..e]] && s[p..e][0] == s[p];
      } else {
        assert s[p..e] == "";
      }
    }
  }

  lemma {:induction false} TrimOne(item: string)
    ensures Trim([item]) == if item == "" then [] else [item]
  {
  }

  lemma {:induction false} TrimMore(item: string, rest: seq<string>)
    requires rest != []
    ensures Trim([item] + rest) == [item] + Trim(rest)
    ensures ([item] + rest)[|rest|] == rest[|rest| - 1]
  {
  }

  lemma {:induction false} SplitStep(s: string, p: nat)
    requires p <= |s|
    ensures var e := Comma(s, p);
      SplitFrom(s, p) == [s[p..e]] + (if e < |s| then SplitFrom(s, e + 1) else [])
  {
  }

  lemma {:induction false} SplitOne(item: string)
    requires ',' !in item
    ensures Split(item) == [item]
  {
    CommaIs(item, 0, |item|);
    assert item[0..|item|] == item;
  }

  /** Appending a comma and an item appends the item to what a list splits into. */
  lemma {:induction false} SplitAppend(s: string, item: string)
    requires ',' !in item
    ensures Split(s + "," + item) == Split(s) + [item]
  {
    SplitAppendFrom(s, item, 0);
  }

  lemma {:induction false} SplitAppendFrom(s: string, item: string, p: nat)
    requires ',' !in item && p <= |s|
    ensures SplitFrom(s + "," + item, p) == SplitFrom(s, p) + [item]
    decreases |s| - p
  {
    hide *;
    var t, e := s + "," + item, Comma(s, p);
    CommaIs(t, p, e);
    SplitStep(t, p);
    SplitStep(s, p);
    assert t[p..e] == s[p..e];
    if e < |s| {
      SplitAppendFrom(s, item, e + 1);
    } else {
      LastItem(s, item);
    }
  }

  lemma {:induction false} LastItem(s: string, item: string)
    requires ',' !in item
    ensures SplitFrom(s + "," + item, |s| + 1) == [item]
  {
    var t := s + "," + item;
    forall i | |s| + 1 <= i < |t| ensures t[i] != ',' {
      assert t[i] == item[i - |s| - 1];
    }
    CommaIs(t, |s| + 1, |t|);
    assert t[|s| + 1..|t|] == item;
  }

  // ----- Subsets -----

  /** `SLPSubsetStringList`, which compares two counts. */
  method SubsetStringList(norm: Norm, list: string, sublist: string) returns (result: int)
    ensures result == 0 || result == 1
    ensures result == 1 <==>
      list != "" && sublist != "" && Common(norm, Items(list), Items(sublist)) == 1 + Commas(sublist)
  {
    if sublist == "" || list == "" {
      return 0;
    }
    var curpos, sublistcount := 0, 1;
    while curpos < |sublist|
      invariant 0 <= curpos <= |sublist| && sublistcount == 1 + Commas(sublist[..curpos])
    {
      assert sublist[..curpos + 1][..curpos] == sublist[..curpos];
      if sublist[curpos] == ',' {
        sublistcount := sublistcount + 1;
      }
      curpos := curpos + 1;
    }
    assert sublist[..curpos] == sublist;
    var common := IntersectStringList(norm, list, sublist);
    return if common == sublistcount then 1 else 0;
  }

  function Commas(s: string): nat {
    if s == [] then 0 else Commas(s[..|s| - 1]) + (if s[|s| - 1] == ',' then 1 else 0)
  }

  lemma {:induction false} CommasConcat(a: string, b: string)
    ensures Commas(a + b) == Commas(a) + Commas(b)
    decreases b
  {
    if b == [] {
      assert a + b == a;
    } else {
      assert (a + b)[..|a + b| - 1] == a + b[..|b| - 1];
      CommasConcat(a, b[..|b| - 1]);
    }
  }

  lemma {:induction false} NoCommas(s: string)
    requires ',' !in s
    ensures Commas(s) == 0
    decreases s
  {
    if s != [] {
      NoCommas(s[..|s| - 1]);
    }
  }

  /** A list that does not end in a comma has one item more than it has commas. */
  lemma {:induction false} CountItems(s: string, p: nat)
    requires p <= |s| && (p < |s| ==> s[|s| - 1] != ',')
    ensures |ItemsFrom(s, p)| == if p == |s| then 0 else 1 + Commas(s[p..])
    decreases |s| - p
  {
    hide *;
    ItemsEnds(s);
    if p < |s| {
      var e := Comma(s, p);
      NextItem(s, p, e);
      NoCommas(s[p..e]);
      if e < |s| {
        CountItems(s, e + 1);
        CommasSplit(s, p, e);
      } else {
        assert s[p..e] == s[p..];
      }
    }
  }

  lemma {:induction false} CommasSplit(s: string, p: nat, e: nat)
    requires p <= e < |s| && ',' !in s[p..e] && s[e] == ','
    ensures Commas(s[p..]) == 1 + Commas(s[e + 1..])
  {
    NoCommas(s[p..e]);
    assert Commas([',']) == 1 by { assert [','][..0] == []; }
    hide Commas;
    CommasConcat(s[p..e], s[e..]);
    CommasConcat([','], s[e + 1..]);
    assert s[p..e] + s[e..] == s[p..] && [','] + s[e + 1..] == s[e..];
  }

  ghost predicate Distinct(norm: Norm, items: seq<string>) {
    forall i, j :: 0 <= i < j < |items| ==> norm(items[i]) != norm(items[j])
  }

  function Norms(norm: Norm, items: seq<string>): set<string> {
    set i | 0 <= i < |items| :: norm(items[i])
  }

  lemma {:induction false} NormsMore(norm: Norm, items: seq<string>)
    requires items != []
    ensures var n := |items| - 1; Norms(norm, items) == Norms(norm, items[..n]) + {norm(items[n])}
    ensures Distinct(norm, items) ==>
      norm(items[|items| - 1]) !in Norms(norm, items[..|items| - 1]) && Distinct(norm, items[..|items| - 1])
  {
  }

  lemma {:induction false} HasNorm(norm: Norm, items: seq<string>, item: string)
    ensures Has(norm, items, item) <==> norm(item) in Norms(norm, items)
  {
  }

  lemma {:induction false} CommonOfDistinct(norm: Norm, a: seq<string>, b: seq<string>)
    requires Distinct(norm, a)
    ensures Common(norm, a, b) == |Norms(norm, a) * Norms(norm, b)|
    ensures |Norms(norm, a)| == |a|
    decreases a
  {
    if a == [] {
      assert Norms(norm, a) * Norms(norm, b) == {};
    } else {
      var n := |a| - 1;
      NormsMore(norm, a);
      HasNorm(norm, b, a[n]);
      hide Norms, Has, Distinct;
      CommonOfDistinct(norm, a[..n], b);
      var front, last, other := Norms(norm, a[..n]), norm(a[n]), Norms(norm, b);
      if last in other {
        assert (front + {last}) * other == front * other + {last};
      } else {
        assert (front + {last}) * other == front * other;
      }
    }
  }

  lemma {:induction false} SameSize(a: set<string>, b: set<string>)
    requires a <= b && |a| == |b|
    ensures a == b
  {
    if x :| x in b && x !in a {
      assert a <= b - {x} && |b - {x}| == |b| - 1;
      SizeGrows(a, b - {x});
    }
  }

  lemma {:induction false} SizeGrows(a: set<string>, b: set<string>)
    requires a <= b
    ensures |a| <= |b|
    decreases a
  {
    if x :| x in a {
      SizeGrows(a - {x}, b - {x});
    }
  }

  /** As many different items as items: exactly when none is repeated. */
  lemma {:induction false} NormsSize(norm: Norm, items: seq<string>)
    ensures |Norms(norm, items)| <= |items|
    ensures |Norms(norm, items)| == |items| <==> Distinct(norm, items)
    decreases items
  {
    if items == [] {
      assert Norms(norm, items) == {};
    } else {
      var n := |items| - 1;
      var front, last := Norms(norm, items[..n]), norm(items[n]);
      NormsMore(norm, items);
      NormsSize(norm, items[..n]);
      DistinctMore(norm, items);
      hide Norms, Distinct;
      if last in front {
        assert front + {last} == front;
      }
    }
  }

  lemma {:induction false} DistinctMore(norm: Norm, items: seq<string>)
    requires items != []
    ensures var n := |items| - 1;
      Distinct(norm, items) <==> Distinct(norm, items[..n]) && norm(items[n]) !in Norms(norm, items[..n])
  {
    var n := |items| - 1;
    assert forall i :: 0 <= i < n ==> norm(items[i]) in Norms(norm, items[..n]) by {
      forall i | 0 <= i < n ensures norm(items[i]) in Norms(norm, items[..n]) {
        assert items[..n][i] == items[i];
      }
    }
  }

  /** A list that ends in a comma has as many items as commas. */
  lemma {:induction false} CountTrailing(s: string, p: nat)
    requires p < |s| && s[|s| - 1] == ','
    ensures |ItemsFrom(s, p)| == Commas(s[p..])
    decreases |s| - p
  {
    hide *;
    ItemsEnds(s);
    var e := Comma(s, p);
    NextItem(s, p, e);
    CommasSplit(s, p, e);
    if e + 1 < |s| {
      CountTrailing(s, e + 1);
    } else {
      NoCommas(s[e + 1..]);
    }
  }

  /** How the items of a sublist and the commas that are counted instead go together. */
  lemma {:induction false} CountAll(s: string)
    requires s != ""
    ensures |Items(s)| == if s[|s| - 1] == ',' then Commas(s) else 1 + Commas(s)
  {
    hide *;
    ItemsEnds(s);
    assert s[0..] == s;
    if s[|s| - 1] == ',' {
      CountTrailing(s, 0);
    } else {
      CountItems(s, 0);
    }
  }

  /** In a list without repeated items, the number of items that occur in `b` is at most the number of
      items of `b`, and equal exactly when `b` has no repeated item either and is a part of the list. */
  lemma {:induction false} CommonIsAll(norm: Norm, a: seq<string>, b: seq<string>)
    requires Distinct(norm, a)
    ensures Common(norm, a, b) <= |b|
    ensures Common(norm, a, b) == |b| <==> Distinct(norm, b) && forall i :: 0 <= i < |b| ==> Has(norm, a, b[i])
  {
    CommonOfDistinct(norm, a, b);
    NormsSize(norm, b);
    var s, t := Norms(norm, a), Norms(norm, b);
    assert (forall i :: 0 <= i < |b| ==> Has(norm, a, b[i])) <==> t <= s by {
      forall i | 0 <= i < |b| ensures Has(norm, a, b[i]) <==> norm(b[i]) in s {}
      forall i | 0 <= i < |b| ensures norm(b[i]) in t {}
    }
    hide *;
    SizeGrows(s * t, t);
    if |s * t| == |t| {
      SameSize(s * t, t);
    }
    assert t <= s <==> s * t == t;
  }

  /** For a list without repeated items, the two counts agree exactly when every item of the sublist is
      in the list, no item of the sublist is repeated, and the sublist does not end in a comma. */
  lemma {:induction false} SubsetByCounting(norm: Norm, list: string, sublist: string)
    requires list != "" && sublist != "" && Distinct(norm, Items(list))
    ensures Common(norm, Items(list), Items(sublist)) == 1 + Commas(sublist) <==>
      && sublist[|sublist| - 1] != ',' && Distinct(norm, Items(sublist))
      && forall i :: 0 <= i < |Items(sublist)| ==> Has(norm, Items(list), Items(sublist)[i])
  {
    CountAll(sublist);
    hide *;
    CommonIsAll(norm, Items(list), Items(sublist));
  }

  lemma {:induction false} CommonAtLeast(norm: Norm, a: seq<string>, b: seq<string>, i: nat, j: nat)
    requires i < j < |a| && Has(norm, b, a[i]) && Has(norm, b, a[j])
    ensures Common(norm, a, b) >= 2
    decreases a
  {
    hide Has;
    var n := |a| - 1;
    if j < n {
      CommonAtLeast(norm, a[..n], b, i, j);
    } else {
      CommonPositive(norm, a[..n], b, i);
    }
  }

  lemma {:induction false} CommonThree(norm: Norm, a: seq<string>, b: seq<string>, i: nat, j: nat, k: nat)
    requires i < j < |a| && k < |a| && k != i && k != j
    requires Has(norm, b, a[i]) && Has(norm, b, a[j]) && Has(norm, b, a[k])
    ensures Common(norm, a, b) >= 3
    decreases a
  {
    hide Has;
    var n := |a| - 1;
    if k == n {
      CommonAtLeast(norm, a[..n], b, i, j);
    } else if j == n {
      CommonAtLeast(norm, a[..n], b, if i < k then i else k, if i < k then k else i);
    } else {
      CommonThree(norm, a[..n], b, i, j, k);
    }
  }

  lemma {:induction false} CommonPositive(norm: Norm, a: seq<string>, b: seq<string>, i: nat)
    requires i < |a| && Has(norm, b, a[i])
    ensures Common(norm, a, b) >= 1
    decreases a
  {
    hide Has;
    if i < |a| - 1 {
      CommonPositive(norm, a[..|a| - 1], b, i);
    }
  }

  /** The items of a sublist, when none of them is empty at the end. */
  lemma {:induction false} ItemsOfOne(x: string)
    requires ',' !in x && x != ""
    ensures Items(x) == [x] && Commas(x) == 0 && Items("," + x) == ["", x] && Commas("," + x) == 1
    ensures x[|x| - 1] != ',' && ("," + x)[|x|] != ','
  {
    NoCommas(x);
    SplitOne(x);
    ItemsAreSplit(x);
    ItemsOfTwo("", x);
    assert "" + "," + x == "," + x;
    assert x[|x| - 1] in x;
    NoCommas("");
    assert ("," + x)[0..] == "," + x && ("," + x)[1..] == x && ("," + x)[0..0] == "";
    CommasSplit("," + x, 0, 0);
  }

  /** Whether the counts decide rightly about a sublist. */
  ghost predicate Decided(norm: Norm, list: string, sublist: string) {
    Common(norm, Items(list), Items(sublist)) == 1 + Commas(sublist) <==>
      forall i :: 0 <= i < |Items(sublist)| ==> Has(norm, Items(list), Items(sublist)[i])
  }

  /** A sublist with neither a repeated item nor a comma at its end. */
  ghost predicate IsPlain(norm: Norm, sublist: string) {
    sublist != "" && sublist[|sublist| - 1] != ',' && Distinct(norm, Items(sublist))
  }

  /** A list with a repeated item is answered wrongly for the sublist of that item alone: the item is
      in the list, and the counts do not agree. */
  lemma {:induction false} RepeatedItemIsMissed(norm: Norm, list: string, i: nat, j: nat)
    requires i < |Items(list)| && j < |Items(list)| && i != j && norm(Items(list)[i]) == norm(Items(list)[j])
    requires Items(list)[i] != ""
    ensures var x := Items(list)[i];
      && IsPlain(norm, x) && Has(norm, Items(list), x) && Common(norm, Items(list), Items(x)) != 1 + Commas(x)
      && !Decided(norm, list, x)
  {
    var items := Items(list);
    var x := items[i];
    ItemsAreCommaFree(list, 0);
    ItemsOfOne(x);
    assert norm([x][0]) == norm(items[i]) == norm(items[j]);
    hide Items, Common, Commas;
    CommonAtLeast(norm, items, [x], if i < j then i else j, if i < j then j else i);
  }

  /** If the empty item is repeated, the wrong answer is given for it together with another item. */
  lemma {:induction false} RepeatedEmptyIsMissed(norm: Norm, list: string, i: nat, j: nat, k: nat)
    requires i < j < |Items(list)| && Items(list)[i] == "" == Items(list)[j]
    requires k < |Items(list)| && norm(Items(list)[k]) != norm("")
    ensures var x := "," + Items(list)[k]; IsPlain(norm, x) && !Decided(norm, list, x)
  {
    var items := Items(list);
    var x := items[k];
    var b := ["", x];
    ItemsAreCommaFree(list, 0);
    ItemsOfOne(x);
    assert norm(b[0]) == norm(items[i]) && norm(b[1]) == norm(items[k]);
    hide Items, Common, Commas;
    CommonThree(norm, items, b, i, j, k);
    assert forall m :: 0 <= m < |b| ==> Has(norm, items, b[m]);
  }

  /** For every list with more than commas in it: the counts decide rightly about all plain sublists
      exactly when the list has no repeated item. */
  lemma {:induction false} ListsForCounting(norm: Norm, list: string, k: nat)
    requires k < |Items(list)| && Items(list)[k] != ""
    ensures Distinct(norm, Items(list)) <==> forall sublist :: IsPlain(norm, sublist) ==> Decided(norm, list, sublist)
  {
    var items := Items(list);
    assert list != "";
    if Distinct(norm, items) {
      forall sublist | IsPlain(norm, sublist) ensures Decided(norm, list, sublist) {
        SubsetByCounting(norm, list, sublist);
      }
    } else {
      var i, j :| 0 <= i < j < |items| && norm(items[i]) == norm(items[j]);
      hide *;
      if items[i] != "" {
        RepeatedItemIsMissed(norm, list, i, j);
      } else if items[j] != "" {
        RepeatedItemIsMissed(norm, list, j, i);
      } else if norm(items[k]) == norm("") {
        RepeatedItemIsMissed(norm, list, k, i);
      } else {
        RepeatedEmptyIsMissed(norm, list, i, j, k);
      }
    }
  }

  lemma {:induction false} CommasOfExamples()
    ensures Commas("a,b") == 1 && Commas("a,a") == 1 && Commas("a,") == 1 && Commas("a") == 0
  {
    NoCommas("a");
    NoCommas("b");
    NoCommas("");
    assert "a,b"[0..] == "a,b" && "a,b"[2..] == "b" && "a,a"[0..] == "a,a" && "a,a"[2..] == "a";
    assert "a,"[0..] == "a," && "a,"[2..] == "";
    CommasSplit("a,b", 0, 1);
    CommasSplit("a,a", 0, 1);
    CommasSplit("a,", 0, 1);
  }

  /** Such answers: "b" is not in "a,a", yet "a,b" passes; "a" is in it, yet does not pass; and of "a,b"
      neither "a,a" nor "a," passes, though both consist of items of it. */
  lemma {:induction false} SubsetNeedsDistinct(norm: Norm)
    requires norm("a") != norm("b")
    ensures Common(norm, Items("a,a"), Items("a,b")) == 1 + Commas("a,b") && !Has(norm, Items("a,a"), "b")
    ensures Common(norm, Items("a,a"), Items("a")) != 1 + Commas("a") && Has(norm, Items("a,a"), "a")
    ensures Common(norm, Items("a,b"), Items("a,a")) != 1 + Commas("a,a") && Has(norm, Items("a,b"), "a")
    ensures Common(norm, Items("a"), Items("a,")) != 1 + Commas("a,") && Items("a,") == ["a"] == Items("a")
  {
    ItemsOfExamples();
    CommasOfExamples();
    HasOfTwo(norm, "a", "b", "a");
    HasOfTwo(norm, "a", "a", "a");
    HasOfTwo(norm, "a", "a", "b");
    hide *;
    CommonOfTwo(norm, "a", "a", ["a", "b"]);
    CommonOfTwo(norm, "a", "a", ["a"]);
    CommonOfTwo(norm, "a", "b", ["a", "a"]);
  }

  lemma {:induction false} HasOfTwo(norm: Norm, x: string, y: string, item: string)
    ensures Has(norm, [x, y], item) <==> norm(x) == norm(item) || norm(y) == norm(item)
    ensures Has(norm, [x], item) <==> norm(x) == norm(item)
  {
    assert norm([x, y][0]) == norm(x) && norm([x, y][1]) == norm(y) && norm([x][0]) == norm(x);
  }

  lemma {:induction false} CommonOfTwo(norm: Norm, x: string, y: string, b: seq<string>)
    ensures Common(norm, [x], b) == if Has(norm, b, x) then 1 else 0
    ensures Common(norm, [x, y], b) == (if Has(norm, b, x) then 1 else 0) + (if Has(norm, b, y) then 1 else 0)
  {
    hide *;
    CommonMore(norm, [], x, b);
    CommonMore(norm, [x], y, b);
    assert [] + [x] == [x] && [x] + [y] == [x, y];
  }

  lemma {:induction false} ItemsOfExamples()
    ensures Items("a,a") == ["a", "a"] && Items("a,b") == ["a", "b"] && Items("a") == ["a"] && Items("a,") == ["a"]
  {
    assert "a" + "," + "a" == "a,a" && "a" + "," + "b" == "a,b" && "a" + "," + "" == "a,";
    ItemsOfTwo("a", "a");
    ItemsOfTwo("a", "b");
    ItemsOfTwo("a", "");
    SplitOne("a");
    ItemsAreSplit("a");
  }

  lemma {:induction false} ItemsOfTwo(x: string, y: string)
    requires ',' !in x && ',' !in y
    ensures Items(x + "," + y) == Trim([x, y])
  {
    hide *;
    SplitOne(x);
    SplitAppend(x, y);
    ItemsAreSplit(x + "," + y);
    assert [x] + [y] == [x, y];
  }

  lemma {:induction false} HasNone(norm: Norm, item: string)
    ensures !Has(norm, [], item) && Offset([], 0) == 0
  {
  }

  /** Seeks to the end of an item. */
  method ScanItem(list: string, itembegin: nat) returns (itemend: nat)
    requires itembegin <= |list|
    ensures itembegin <= itemend <= |list| && (forall i :: itembegin <= i < itemend ==> list[i] != ',')
    ensures itemend < |list| ==> list[itemend] == ','
  {
    itemend := itembegin;
    while itemend != |list| && list[itemend] != ','
      invariant itembegin <= itemend <= |list|
      invariant forall i :: itembegin <= i < itemend ==> list[i] != ','
    {
      itemend := itemend + 1;
    }
  }

  // ----- Unions -----

  /** The items that have no equal one in a list. */
  function Kept(norm: Norm, items: seq<string>, list: seq<string>): seq<string> {
    if items == [] then []
    else
      var last := items[|items| - 1];
      Kept(norm, items[..|items| - 1], list) + (if Has(norm, list, last) then [] else [last])
  }

  /** A list with items appended, each after a comma unless nothing is in front of it. */
  function Joined(s: string, items: seq<string>): string {
    if items == [] then s
    else
      var front := Joined(s, items[..|items| - 1]);
      (if front == "" then "" else front + ",") + items[|items| - 1]
  }

  lemma {:induction false} KeptMore(norm: Norm, items: seq<string>, item: string, list: seq<string>)
    ensures Kept(norm, items + [item], list) == Kept(norm, items, list) + (if Has(norm, list, item) then [] else [item])
    ensures Kept(norm, [], list) == []
  {
    assert (items + [item])[..|items|] == items;
  }

  lemma {:induction false} JoinedMore(s: string, items: seq<string>, item: string)
    ensures Joined(s, items + [item]) == (if Joined(s, items) == "" then "" else Joined(s, items) + ",") + item
    ensures Joined(s, []) == s
  {
    assert (items + [item])[..|items|] == items;
  }

  // The union takes a comma behind a backslash as a part of an item.  At the front of the list it looks
  // at the byte `before` the list.

  predicate EndsItem(s: string, before: char, k: nat) {
    k <= |s| && (k < |s| ==> s[k] == ',') && (if k == 0 then before else s[k - 1]) != '\\'
  }

  /** A list in which a backslash is not the last byte: every item has an end. */
  predicate Closed(s: string) {
    s == "" || s[|s| - 1] != '\\'
  }

  /** The end of the item that begins at `p`. */
  function EndOf(s: string, before: char, p: nat): (k: nat)
    requires s != "" && Closed(s) && p <= |s|
    ensures p <= k && EndsItem(s, before, k) && forall i :: p <= i < k ==> !EndsItem(s, before, i)
    decreases |s| - p
  {
    if EndsItem(s, before, p) then p else EndOf(s, before, p + 1)
  }

  function EscapedFrom(s: string, before: char, p: nat): seq<string>
    requires Closed(s)
    decreases |s| - p
  {
    if p >= |s| then []
    else
      var e := EndOf(s, before, p);
      [s[p..e]] + EscapedFrom(s, before, e + 1)
  }

  function EscapedItems(s: string, before: char): seq<string>
    requires Closed(s)
  {
    EscapedFrom(s, before, 0)
  }

  /** Without backslashes these are the items of the list. */
  lemma {:induction false} PlainItems(s: string, before: char)
    requires '\\' !in s && (s != "" && s[0] == ',' ==> before != '\\')
    ensures Closed(s) && EscapedItems(s, before) == Items(s)
  {
    PlainFrom(s, before, 0);
  }

  lemma {:induction false} PlainFrom(s: string, before: char, p: nat)
    requires '\\' !in s && (s != "" && s[0] == ',' ==> before != '\\')
    ensures Closed(s) && EscapedFrom(s, before, p) == ItemsFrom(s, p)
    decreases |s| - p
  {
    assert Closed(s);
    ItemsEnds(s);
    if p < |s| {
      var e := EndOf(s, before, p);
      EscapedStep(s, before, p, e);
      PlainEnd(s, before, p, e);
      hide *;
      NextItem(s, p, e);
      if e < |s| {
        PlainFrom(s, before, e + 1);
      }
    }
  }

  lemma {:induction false} PlainEnd(s: string, before: char, p: nat, e: nat)
    requires '\\' !in s && (s != "" && s[0] == ',' ==> before != '\\')
    requires p <= e && EndsItem(s, before, e) && forall i :: p <= i < e ==> !EndsItem(s, before, i)
    ensures e <= |s| && (e < |s| ==> s[e] == ',') && forall i :: p <= i < e ==> s[i] != ','
  {
    forall i | p <= i < e ensures s[i] != ',' {
      assert !EndsItem(s, before, i) && (i > 0 ==> s[i - 1] in s);
    }
  }

  lemma {:induction false} EscapedStep(s: string, before: char, p: nat, e: nat)
    requires Closed(s) && p < |s| && p <= e && EndsItem(s, before, e)
    requires forall i :: p <= i < e ==> !EndsItem(s, before, i)
    ensures e <= |s| && EscapedFrom(s, before, p) == [s[p..e]] + EscapedFrom(s, before, e + 1)
    ensures e + 1 >= |s| ==> EscapedFrom(s, before, e + 1) == []
  {
    assert EndOf(s, before, p) == e;
  }

  /** A cursor at `p` has passed the items `done`. */
  ghost predicate Seen(s: string, before: char, p: nat, done: seq<string>)
    requires Closed(s)
  {
    EscapedItems(s, before) == done + EscapedFrom(s, before, p)
  }

  lemma {:induction false} NoneSeen(s: string, before: char)
    requires Closed(s)
    ensures Seen(s, before, 0, [])
  {
  }

  lemma {:induction false} AllSeen(s: string, before: char, p: nat, done: seq<string>)
    requires Closed(s) && Seen(s, before, p, done) && p >= |s|
    ensures EscapedItems(s, before) == done
  {
  }

  lemma {:induction false} SeeItem(s: string, before: char, p: nat, e: nat, done: seq<string>)
    requires Closed(s) && p < |s| && p <= e && EndsItem(s, before, e) && Seen(s, before, p, done)
    requires forall i :: p <= i < e ==> !EndsItem(s, before, i)
    ensures e <= |s| && Seen(s, before, e + 1, done + [s[p..e]])
  {
    hide EscapedItems, EscapedFrom;
    EscapedStep(s, before, p, e);
  }

  /** A comma with a backslash, or at the front with a backslash before the list, does not end an item. */
  predicate IsEscaped(s: string, before: char, i: nat)
    requires i < |s|
  {
    s[i] == ',' && (if i == 0 then before else s[i - 1]) == '\\'
  }

  /** An item of the escaped reading covers the list from its position to the next comma that is not
      escaped, or to the end: all commas in it are escaped. */
  ghost predicate IsEscapedItem(s: string, before: char, p: nat, item: string, isLast: bool) {
    var e := p + |item|;
    && e <= |s| && item == s[p..e] && (forall i :: p <= i < e && s[i] == ',' ==> IsEscaped(s, before, i))
    && (e < |s| ==> s[e] == ',' && !IsEscaped(s, before, e)) && (isLast <==> e + 1 >= |s|)
  }

  lemma {:induction false} EscapedStandsAt(s: string, before: char, k: nat)
    requires Closed(s) && k < |EscapedItems(s, before)|
    ensures var items := EscapedItems(s, before);
      IsEscapedItem(s, before, Offset(items, k), items[k], k == |items| - 1)
  {
    EscapedStandsFrom(s, before, 0, [], k);
  }

  lemma {:induction false} EscapedStandsFrom(s: string, before: char, p: nat, done: seq<string>, k: nat)
    requires Closed(s) && k < |EscapedItems(s, before)| && |done| <= k && Seen(s, before, p, done)
    requires p == Offset(done, |done|) && p <= |s| + 1
    ensures var items := EscapedItems(s, before);
      IsEscapedItem(s, before, Offset(items, k), items[k], k == |items| - 1)
    decreases |s| + 1 - p
  {
    if p >= |s| {
      AllSeen(s, before, p, done);
      assert false;
    }
    var e := EndOf(s, before, p);
    var found, rest := s[p..e], EscapedFrom(s, before, e + 1);
    SeeItem(s, before, p, e, done);
    EscapedStep(s, before, p, e);
    OffsetPrefix(done, [found], |done|);
    assert (done + [found])[|done|] == found;
    assert rest == [] <==> e + 1 >= |s|;
    EscapedIs(s, before, p, e);
    assert EscapedItems(s, before) == done + ([found] + rest);
    hide *;
    if k == |done| {
      OffsetPrefix(done, [found] + rest, k);
    } else {
      OffsetMore(done, found);
      EscapedStandsFrom(s, before, e + 1, done + [found], k);
    }
  }

  lemma {:induction false} EscapedIs(s: string, before: char, p: nat, e: nat)
    requires Closed(s) && p <= e && EndsItem(s, before, e) && forall i :: p <= i < e ==> !EndsItem(s, before, i)
    ensures e <= |s| && IsEscapedItem(s, before, p, s[p..e], e + 1 >= |s|)
  {
    forall i | p <= i < e && s[i] == ',' ensures IsEscaped(s, before, i) {
      assert !EndsItem(s, before, i);
    }
  }

  /** Seeks to the end of an item as the union does, looking for a backslash before the end. */
  method SeekItem(list: string, before: char, itembegin: nat) returns (itemend: nat)
    requires itembegin < |list| && Closed(list)
    ensures itembegin <= itemend <= |list| && EndsItem(list, before, itemend)
    ensures forall i :: itembegin <= i < itemend ==> !EndsItem(list, before, i)
  {
    itemend := itembegin;
    while true
      invariant itembegin <= itemend <= |list|
      invariant forall i :: itembegin <= i < itemend ==> !EndsItem(list, before, i)
      decreases |list| - itemend
    {
      if itemend == |list| || list[itemend] == ',' {
        if (if itemend == 0 then before else list[itemend - 1]) != '\\' {
          break;
        }
      }
      itemend := itemend + 1;
    }
  }

  /** Whether some item does not fit when `kept` is appended to `list1` in a buffer of `room` bytes. */
  ghost predicate Overflows(list1: string, kept: seq<string>, room: nat) {
    exists k :: 0 <= k < |kept| && |Joined(list1, kept[..k])| + |kept[k]| + 1 > room
  }

  /** `SLPUnionStringList`.  It writes only inside the buffer; it fails exactly when some item does
      not fit, which cannot happen with one byte more than both lists take together. */
  method UnionStringList(norm: Norm, list1: string, list2: string, before: char, unionlist: array<char>)
    returns (result: int, unionlistlen: nat)
    requires Closed(list2)
    modifies unionlist
    ensures var kept := Kept(norm, EscapedItems(list2, before), Items(list1));
      && (result == -1 <==> unionlist.Length == 0 || unionlist.Length < |list1| ||
                            Overflows(list1, kept, unionlist.Length))
      && (result != -1 ==> result == unionlistlen <= unionlist.Length && unionlist[..result] == Joined(list1, kept))
    ensures result == -1 ==> unionlistlen == |list1| + |list2| + 1
    ensures unionlist.Length >= |list1| + |list2| + 1 ==> result != -1
  {
    if unionlist.Length == 0 || unionlist.Length < |list1| {
      return -1, |list1| + |list2| + 1;
    }
    hide *;
    Copy(unionlist, 0, list1);
    StartBuffer(unionlist, list1);
    var ok, copiedlen := AppendMissing(norm, list1, list2, before, unionlist);
    if !ok {
      return -1, |list1| + |list2| + 1;
    }
    IsUnion(unionlist, copiedlen, list1, Kept(norm, EscapedItems(list2, before), Items(list1)));
    return copiedlen, copiedlen;
  }

  /** Appends the items of `list2` that have no equal one in `list1`, as far as they fit. */
  method AppendMissing(norm: Norm, list1: string, list2: string, before: char, unionlist: array<char>)
    returns (ok: bool, copiedlen: int)
    requires Closed(list2) && IsJoined(unionlist, |list1|, list1, [])
    modifies unionlist
    ensures ok <==> !Overflows(list1, Kept(norm, EscapedItems(list2, before), Items(list1)), unionlist.Length)
    ensures ok ==> IsJoined(unionlist, copiedlen, list1, Kept(norm, EscapedItems(list2, before), Items(list1)))
    ensures unionlist.Length >= |list1| + |list2| + 1 ==> ok
  {
    hide *;
    var itemend := 0;
    copiedlen := |list1|;
    ghost var items1, done, kept := Items(list1), [], [];
    NoneSeen(list2, before);
    KeptMore(norm, [], "", items1);
    while itemend < |list2|
      invariant 0 <= itemend <= |list2| + 1 && copiedlen <= |list1| + itemend
      invariant Seen(list2, before, itemend, done) && kept == Kept(norm, done, items1)
      invariant IsJoined(unionlist, copiedlen, list1, kept)
      decreases |list2| + 1 - itemend
    {
      var itembegin := itemend;
      itemend := SeekItem(list2, before, itembegin);
      SeeItem(list2, before, itembegin, itemend, done);
      var item := list2[itembegin..itemend];
      ok, copiedlen := AppendIfMissing(norm, list1, item, unionlist, copiedlen, done);
      done := done + [item];
      kept := Kept(norm, done, items1);
      itemend := itemend + 1;
      if !ok {
        OverflowsSoFar(norm, list1, list2, before, itemend, done, unionlist.Length);
        return false, copiedlen;
      }
    }
    AllSeen(list2, before, itemend, done);
    IsUnion(unionlist, copiedlen, list1, kept);
    return true, copiedlen;
  }

  /** Appends one item, unless an equal one is in `list1`. */
  method AppendIfMissing(norm: Norm, list1: string, item: string, unionlist: array<char>, copiedlen: int,
                         ghost done: seq<string>)
    returns (ok: bool, copiedlen': int)
    requires IsJoined(unionlist, copiedlen, list1, Kept(norm, done, Items(list1)))
    modifies unionlist
    ensures ok ==> copiedlen' <= copiedlen + |item| + 1
    ensures ok ==> IsJoined(unionlist, copiedlen', list1, Kept(norm, done + [item], Items(list1)))
    ensures !ok ==> copiedlen + |item| + 1 > unionlist.Length
    ensures !ok ==> Overflows(list1, Kept(norm, done + [item], Items(list1)), unionlist.Length)
  {
    hide *;
    KeptMore(norm, done, item, Items(list1));
    ghost var kept := Kept(norm, done, Items(list1));
    var found := ContainsStringList(norm, list1, item);
    if found > 0 {
      assert kept + [] == kept;
      return true, copiedlen;
    }
    if copiedlen + |item| + 1 > unionlist.Length {
      KeptOverflows(unionlist, copiedlen, list1, kept, item, kept + [item]);
      return false, copiedlen;
    }
    copiedlen' := AppendItem(unionlist, copiedlen, item, list1, kept);
    return true, copiedlen';
  }

  lemma {:induction false} OverflowsSoFar(norm: Norm, list1: string, s: string, before: char, p: nat,
                                          done: seq<string>, room: nat)
    requires Closed(s) && Seen(s, before, p, done) && Overflows(list1, Kept(norm, done, Items(list1)), room)
    ensures Overflows(list1, Kept(norm, EscapedItems(s, before), Items(list1)), room)
  {
    var list := Items(list1);
    KeptRest(norm, done, EscapedFrom(s, before, p), list);
    var kept, all := Kept(norm, done, list), Kept(norm, EscapedItems(s, before), list);
    hide Kept, Items, EscapedItems, EscapedFrom, Joined;
    var k :| 0 <= k < |kept| && |Joined(list1, kept[..k])| + |kept[k]| + 1 > room;
    assert all[..k] == kept[..k] && all[k] == kept[k];
  }

  /** The buffer begins with `list1` and the items `kept`, which all have fitted. */
  ghost predicate IsJoined(unionlist: array<char>, copiedlen: int, list1: string, kept: seq<string>)
    reads unionlist
  {
    && 0 <= copiedlen <= unionlist.Length && unionlist[..copiedlen] == Joined(list1, kept)
    && !Overflows(list1, kept, unionlist.Length)
  }

  /** Whether the items fit, from the length of the result: with the first item a byte for a comma is asked
      for even where nothing is in front of it. */
  lemma {:induction false} FitsExactly(list1: string, kept: seq<string>, room: nat)
    requires kept != [] && (list1 != "" || kept[0] != "")
    ensures Overflows(list1, kept, room) <==> |Joined(list1, kept)| > room || (list1 == "" && |kept[0]| + 1 > room)
    decreases kept
  {
    var n := |kept| - 1;
    var front, last := kept[..n], kept[n];
    assert kept == front + [last];
    JoinedMore(list1, front, last);
    if n > 0 {
      FitsExactly(list1, front, room);
      if list1 == "" {
        JoinedFirst(front);
        JoinedNotEmpty(kept[0], front[1..]);
      } else {
        JoinedNotEmpty(list1, front);
      }
    }
    OverflowsMore(list1, front, last, room);
    hide Joined, Overflows;
  }

  lemma {:induction false} OverflowsMore(list1: string, front: seq<string>, last: string, room: nat)
    ensures Overflows(list1, front + [last], room) <==>
      Overflows(list1, front, room) || |Joined(list1, front)| + |last| + 1 > room
    ensures !Overflows(list1, [], room) && Joined(list1, []) == list1
  {
    hide Joined;
    var kept := front + [last];
    assert kept[..|front|] == front;
    assert forall k :: 0 <= k < |front| ==> kept[..k] == front[..k] && kept[k] == front[k];
    JoinedMore(list1, [], "");
  }

  lemma {:induction false} IsUnion(unionlist: array<char>, copiedlen: int, list1: string, kept: seq<string>)
    requires IsJoined(unionlist, copiedlen, list1, kept)
    ensures 0 <= copiedlen <= unionlist.Length && unionlist[..copiedlen] == Joined(list1, kept)
    ensures !Overflows(list1, kept, unionlist.Length)
  {
  }

  lemma {:induction false} StartBuffer(unionlist: array<char>, list1: string)
    requires |list1| <= unionlist.Length && unionlist[..|list1|] == list1
    ensures IsJoined(unionlist, |list1|, list1, [])
  {
  }

  lemma {:induction false} KeptOverflows(unionlist: array<char>, copiedlen: int, list1: string, kept: seq<string>,
                                         item: string, all: seq<string>)
    requires IsJoined(unionlist, copiedlen, list1, kept)
    requires kept + [item] <= all && copiedlen + |item| + 1 > unionlist.Length
    ensures Overflows(list1, all, unionlist.Length)
  {
    hide Joined;
    assert all[|kept|] == item && all[..|kept|] == kept;
  }

  lemma {:induction false} KeptRoom(list1: string, kept: seq<string>, item: string, room: nat)
    requires !Overflows(list1, kept, room) && |Joined(list1, kept)| + |item| + 1 <= room
    ensures !Overflows(list1, kept + [item], room)
  {
    hide Joined;
    var all := kept + [item];
    forall k | 0 <= k < |all| ensures |Joined(list1, all[..k])| + |all[k]| + 1 <= room {
      assert all[..k] == kept[..k];
      assert k == |kept| ==> kept[..k] == kept;
    }
  }

  /** Appends an item to the first `copiedlen` bytes of a buffer, after a comma if there are any. */
  method AppendItem(unionlist: array<char>, copiedlen: int, item: string, ghost list1: string, ghost kept: seq<string>)
    returns (copiedlen': int)
    requires IsJoined(unionlist, copiedlen, list1, kept) && copiedlen + |item| + 1 <= unionlist.Length
    modifies unionlist
    ensures copiedlen' <= copiedlen + |item| + 1 && IsJoined(unionlist, copiedlen', list1, kept + [item])
  {
    hide Joined, Overflows;
    JoinedMore(list1, kept, item);
    KeptRoom(list1, kept, item, unionlist.Length);
    copiedlen' := copiedlen;
    if copiedlen' > 0 {
      unionlist[copiedlen'] := ',';
      copiedlen' := copiedlen' + 1;
      assert unionlist[..copiedlen'] == old(unionlist[..copiedlen]) + ",";
    }
    Copy(unionlist, copiedlen', item);
    copiedlen' := copiedlen' + |item|;
  }

  /** `memcpy` into a buffer. */
  method Copy(a: array<char>, at: nat, s: string)
    requires at + |s| <= a.Length
    modifies a
    ensures a[..at + |s|] == old(a[..at]) + s
    ensures a[at + |s|..] == old(a[at + |s|..])
  {
    forall i | 0 <= i < |s| {
      a[at + i] := s[i];
    }
  }

  lemma {:induction false} KeptRest(norm: Norm, done: seq<string>, rest: seq<string>, list: seq<string>)
    ensures Kept(norm, done, list) <= Kept(norm, done + rest, list)
    decreases rest
  {
    hide *;
    if rest == [] {
      assert done + rest == done;
    } else {
      var n := |rest| - 1;
      KeptRest(norm, done, rest[..n], list);
      KeptMore(norm, done + rest[..n], rest[n], list);
      assert done + rest[..n] + [rest[n]] == done + rest;
    }
  }

  ghost predicate CommaFree(items: seq<string>) {
    forall i :: 0 <= i < |items| ==> ',' !in items[i]
  }

  lemma {:induction false} ItemsAreCommaFree(s: string, p: nat)
    ensures CommaFree(ItemsFrom(s, p))
    decreases |s| - p
  {
    if p < |s| {
      ItemsAreCommaFree(s, Comma(s, p) + 1);
    }
  }

  lemma {:induction false} KeptItems(norm: Norm, items: seq<string>, list: seq<string>)
    ensures forall x :: x in Kept(norm, items, list) <==> x in items && !Has(norm, list, x)
    decreases items
  {
    if items != [] {
      KeptItems(norm, items[..|items| - 1], list);
      assert items == items[..|items| - 1] + [items[|items| - 1]];
    }
  }

  lemma {:induction false} SplitJoined(s: string, kept: seq<string>)
    requires CommaFree(kept) && s != ""
    ensures Split(Joined(s, kept)) == Split(s) + kept && Joined(s, kept) != ""
    decreases kept
  {
    JoinedMore(s, [], "");
    if kept == [] {
      assert Split(s) + [] == Split(s);
    } else {
      var front, last := kept[..|kept| - 1], kept[|kept| - 1];
      assert CommaFree(front) && ',' !in last && kept == front + [last];
      hide *;
      SplitJoined(s, front);
      SplitAppend(Joined(s, front), last);
      JoinedMore(s, front, last);
      assert Split(s) + front + [last] == Split(s) + kept;
    }
  }

  /** Appending to nothing is appending to the first item. */
  lemma {:induction false} JoinedFirst(kept: seq<string>)
    requires kept != [] && kept[0] != ""
    ensures Joined("", kept) == Joined(kept[0], kept[1..])
    decreases kept
  {
    var n := |kept| - 1;
    var front, last := kept[..n], kept[n];
    assert kept == front + [last];
    hide *;
    JoinedMore("", [], last);
    JoinedMore(kept[0], [], last);
    JoinedMore("", front, last);
    if n > 0 {
      JoinedFirst(front);
      assert kept[1..] == front[1..] + [last];
      JoinedMore(kept[0], front[1..], last);
      JoinedNotEmpty(kept[0], front[1..]);
    } else {
      assert front == [] && kept[1..] == [];
    }
  }

  lemma {:induction false} JoinedNotEmpty(s: string, kept: seq<string>)
    requires s != ""
    ensures Joined(s, kept) != ""
    decreases kept
  {
    if kept != [] {
      JoinedNotEmpty(s, kept[..|kept| - 1]);
    }
  }

  /** An empty item in front of nothing leaves no trace. */
  lemma {:induction false} JoinedSkips(rest: seq<string>)
    ensures Joined("", [""] + rest) == Joined("", rest)
    decreases rest
  {
    hide *;
    if rest == [] {
      JoinedMore("", [], "");
      assert [""] + rest == [] + [""];
    } else {
      var n := |rest| - 1;
      JoinedSkips(rest[..n]);
      JoinedMore("", rest[..n], rest[n]);
      JoinedMore("", [""] + rest[..n], rest[n]);
      assert rest[..n] + [rest[n]] == rest && [""] + rest[..n] + [rest[n]] == [""] + rest;
    }
  }

  /** Items appended to nothing: all come back if the first is not empty, else at least one is missing. */
  lemma {:induction false} JoinedToNothing(kept: seq<string>)
    requires CommaFree(kept)
    ensures kept == [] || kept[0] != "" ==> Items(Joined("", kept)) == Trim(kept)
    ensures |Items(Joined("", kept))| <= |kept|
    ensures kept != [] && kept[0] == "" ==> |Items(Joined("", kept))| < |kept|
    decreases kept
  {
    if kept == [] {
      JoinedMore("", [], "");
    } else {
      assert CommaFree(kept[1..]) && [kept[0]] + kept[1..] == kept && ',' !in kept[0];
      hide *;
      if kept[0] == "" {
        JoinedSkips(kept[1..]);
        JoinedToNothing(kept[1..]);
      } else {
        JoinedFirst(kept);
        SplitJoined(kept[0], kept[1..]);
        SplitOne(kept[0]);
        ItemsAreSplit(Joined("", kept));
        TrimAll([], kept);
      }
    }
  }

  /** Behind a comma at the end of a list, items come back only if all of them are empty. */
  lemma {:induction false} TrimShifted(parts: seq<string>, kept: seq<string>)
    requires parts != [] && parts[|parts| - 1] == "" && kept != []
    ensures Trim(parts + kept) == parts[..|parts| - 1] + kept <==> forall i :: 0 <= i < |kept| ==> kept[i] == ""
  {
    var p, n := |parts| - 1, |kept| - 1;
    var all, due := parts + kept, parts[..p] + kept;
    assert all[|all| - 1] == kept[n];
    if Trim(all) == due {
      assert |due| == |all| - 1;
      assert Trim(all) == all[..|all| - 1];
      forall i | 0 <= i <= n ensures due[p + i] == kept[i] && all[..|all| - 1][p + i] == all[p + i] {}
      forall i | 0 < i <= n ensures kept[i] == kept[i - 1] {
        assert due[p + i] == all[p + i];
      }
      assert kept[0] == due[p] == all[p] == "";
      AllTheSame(kept, n);
    }
    if forall i :: 0 <= i < |kept| ==> kept[i] == "" {
      assert all[..|all| - 1] == due;
    }
  }

  lemma {:induction false} AllTheSame(s: seq<string>, n: nat)
    requires n < |s| && forall i :: 0 < i <= n ==> s[i] == s[i - 1]
    ensures forall i :: 0 <= i <= n ==> s[i] == s[0]
    decreases n
  {
    if n > 0 {
      AllTheSame(s, n - 1);
      assert s[n] == s[n - 1];
    }
  }

  /** When a list with items appended gives back its own items and then those. */
  ghost predicate ComesBack(list: string, kept: seq<string>) {
    || kept == []
    || (if list == "" then kept[0] != "" && kept[|kept| - 1] != ""
        else if list[|list| - 1] == ',' then forall i :: 0 <= i < |kept| ==> kept[i] == ""
        else kept[|kept| - 1] != "")
  }

  /** For any list and any items appended to it. */
  lemma {:induction false} JoinedItems(list: string, kept: seq<string>)
    ensures Items(Joined(list, kept)) == Items(list) + kept <==> CommaFree(kept) && ComesBack(list, kept)
  {
    hide Items, Joined, CommaFree;
    if CommaFree(kept) {
      CommaFreeItems(list, kept);
    } else if Items(Joined(list, kept)) == Items(list) + kept {
      ItemsHaveNoCommas(Joined(list, kept));
      BackIsCommaFree(Items(list), kept);
    }
  }

  lemma {:induction false} ItemsHaveNoCommas(s: string)
    ensures CommaFree(Items(s))
  {
    ItemsAreCommaFree(s, 0);
  }

  lemma {:induction false} BackIsCommaFree(front: seq<string>, back: seq<string>)
    requires CommaFree(front + back)
    ensures CommaFree(back)
  {
    forall i | 0 <= i < |back| ensures ',' !in back[i] {
      assert (front + back)[|front| + i] == back[i];
    }
  }

  lemma {:induction false} CommaFreeItems(list: string, kept: seq<string>)
    requires CommaFree(kept)
    ensures Items(Joined(list, kept)) == Items(list) + kept <==> ComesBack(list, kept)
  {
    assert Items("") == [];
    hide Items, Joined, Split, Trim, CommaFree;
    if kept == [] {
      JoinedMore(list, [], "");
      assert Items(list) + [] == Items(list);
    } else if list == "" {
      JoinedToNothing(kept);
      TrimAll([], kept);
      assert [] + kept == kept;
    } else {
      SplitJoined(list, kept);
      ItemsAreSplit(list);
      ItemsAreSplit(Joined(list, kept));
      TrimEnd(Split(list));
      TrimAll(Split(list), kept);
      if list[|list| - 1] == ',' {
        TrimShifted(Split(list), kept);
      }
    }
  }

  lemma {:induction false} TrimEnd(parts: seq<string>)
    requires parts != []
    ensures Trim(parts) == parts <==> parts[|parts| - 1] != ""
    ensures parts[|parts| - 1] == "" ==> Trim(parts) == parts[..|parts| - 1]
  {
  }

  /** For every second list of which the items have an end: the union splits into the items of the first
      list and then the items of the second that have no equal one in the first, exactly if none of the
      latter has a comma (behind a backslash), and nothing is appended; or the first list does not end in a
      comma and the last item appended is not empty, nor is the first one if nothing is in front of it; or
      the first list ends in a comma and only empty items are appended. */
  lemma {:induction false} UnionItems(norm: Norm, list1: string, list2: string, before: char)
    requires Closed(list2)
    ensures var kept := Kept(norm, EscapedItems(list2, before), Items(list1));
      Items(Joined(list1, kept)) == Items(list1) + kept <==> CommaFree(kept) && ComesBack(list1, kept)
  {
    JoinedItems(list1, Kept(norm, EscapedItems(list2, before), Items(list1)));
  }

  /** Without backslashes no item has a comma. */
  lemma {:induction false} PlainUnion(norm: Norm, list1: string, list2: string, before: char)
    requires '\\' !in list2 && (list2 != "" && list2[0] == ',' ==> before != '\\')
    ensures Closed(list2)
    ensures var kept := Kept(norm, EscapedItems(list2, before), Items(list1));
      Items(Joined(list1, kept)) == Items(list1) + kept <==> ComesBack(list1, kept)
  {
    PlainItems(list2, before);
    var items1, items2 := Items(list1), Items(list2);
    var kept := Kept(norm, items2, items1);
    ItemsAreCommaFree(list2, 0);
    KeptItems(norm, items2, items1);
    hide Items, Kept, Has;
    forall i | 0 <= i < |kept| ensures ',' !in kept[i] {
      assert kept[i] in items2;
    }
    JoinedItems(list1, kept);
  }

  /** An item with a comma behind a backslash: the union of "b" with it splits into three items. */
  lemma {:induction false} UnionSplitsEscaped(norm: Norm, before: char)
    requires norm("a\\,b") != norm("b") && before != '\\'
    ensures Closed("a\\,b")
    ensures var kept := Kept(norm, EscapedItems("a\\,b", before), Items("b"));
      && kept == ["a\\,b"] && Joined("b", kept) == "b,a\\,b" && ComesBack("b", kept)
      && Items(Joined("b", kept)) == ["b", "a\\", "b"]
  {
    var x := "a\\,b";
    EscapedOne(before);
    ItemsOfEscaped();
    LastNotEmpty("b", x);
    assert "b" + "," + x == "b,a\\,b" && [] + [x] == [x];
    hide *;
    KeptMore(norm, [], x, ["b"]);
    HasOfTwo(norm, "b", "b", x);
    JoinedMore("b", [], x);
  }

  lemma {:induction false} EscapedOne(before: char)
    requires before != '\\'
    ensures Closed("a\\,b") && EscapedItems("a\\,b", before) == ["a\\,b"]
  {
    var x := "a\\,b";
    assert !EndsItem(x, before, 0) && !EndsItem(x, before, 1) && !EndsItem(x, before, 2) && !EndsItem(x, before, 3);
    EscapedStep(x, before, 0, 4);
    assert x[0..4] == x;
    hide EscapedFrom, EndsItem;
  }

  lemma {:induction false} LastNotEmpty(list: string, x: string)
    requires list != "" && list[|list| - 1] != ',' && x != ""
    ensures ComesBack(list, [x])
  {
  }

  lemma {:induction false} ItemsOfEscaped()
    ensures Items("b") == ["b"] && Items("b,a\\,b") == ["b", "a\\", "b"]
  {
    assert "b" + "," + "a\\" + "," + "b" == "b,a\\,b";
    ItemsOfThree("b", "a\\", "b");
    SplitOne("b");
    ItemsAreSplit("b");
  }

  lemma {:induction false} TrimAll(a: seq<string>, b: seq<string>)
    ensures a + [] == a && [] + b == b
    ensures b != [] ==> (Trim(a + b) == a + b <==> b[|b| - 1] != "")
  {
    if b != [] {
      assert (a + b)[|a + b| - 1] == b[|b| - 1];
    }
  }

  /** Such a loss: the union of "b" and "a,,b" is "b,a,". */
  lemma {:induction false} UnionLosesEmptyItem(norm: Norm)
    requires norm("a") != norm("b") && norm("") != norm("b")
    ensures var kept := Kept(norm, Items("a,,b"), Items("b"));
      kept == ["a", ""] && Joined("b", kept) == "b,a," && Items(Joined("b", kept)) == ["b", "a"]
  {
    ItemsOfLoss();
    hide Items;
    KeptMore(norm, [], "a", ["b"]);
    KeptMore(norm, ["a"], "", ["b"]);
    KeptMore(norm, ["a", ""], "b", ["b"]);
    JoinedMore("b", [], "a");
    JoinedMore("b", ["a"], "");
    hide Kept, Joined;
    assert ["a"] + [""] == ["a", ""] && [] + ["a"] == ["a"] && ["a", ""] + ["b"] == ["a", "", "b"];
    assert norm(["b"][0]) == norm("b");
  }

  lemma {:induction false} ItemsOfLoss()
    ensures Items("a,,b") == ["a", "", "b"] && Items("b") == ["b"] && Items("b,a,") == ["b", "a"]
  {
    assert "a" + "," + "" + "," + "b" == "a,,b" && "b" + "," + "a" + "," + "" == "b,a,";
    ItemsOfThree("a", "", "b");
    ItemsOfThree("b", "a", "");
    SplitOne("b");
    ItemsAreSplit("b");
  }

  lemma {:induction false} ItemsOfThree(x: string, y: string, z: string)
    requires ',' !in x && ',' !in y && ',' !in z
    ensures Items(x + "," + y + "," + z) == Trim([x, y, z])
  {
    hide *;
    SplitOne(x);
    SplitAppend(x, y);
    SplitAppend(x + "," + y, z);
    ItemsAreSplit(x + "," + y + "," + z);
    assert [x] + [y] + [z] == [x, y, z];
  }
}
