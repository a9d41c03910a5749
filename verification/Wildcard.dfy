/** The `fnmatch` that the predicate code brings along where the system has none: a loop with recursion
    that decides whether a string matches a pattern. */
module Wildcard {

  const STAR := '*'
  const FNM_NOMATCH := 1

  /** Equal, or with case folding equal up to the bit that tells lower from upper case. */
  predicate Alike(p: char, c: char, fold: bool) {
    AlikeBits(p as bv32, c as bv32, fold)
  }

  predicate AlikeBits(x: bv32, y: bv32, fold: bool) {
    ((x ^ y) & (if fold then !(0x20 as bv32) else !(0 as bv32))) == 0
  }

  /** Without folding codes are alike if they are equal.  With it the bit 0x20 makes no difference, so that
      lower and upper case are alike, and so are '@' and '`', which are no letters. */
  lemma {:induction false} AlikeExactly(x: bv32, y: bv32)
    ensures AlikeBits(x, y, false) <==> x == y
    ensures AlikeBits(x, y, true) <==> x | 0x20 == y | 0x20
  {
    hide AlikeBits;
    EqualBits(x, y);
    FoldedBits(x, y);
    UnfoldedBits(x, y);
  }

  lemma {:induction false} EqualBits(x: bv32, y: bv32)
    ensures AlikeBits(x, y, false) <==> x == y
  {
  }

  lemma {:induction false} FoldedBits(x: bv32, y: bv32)
    ensures AlikeBits(x, y, true) ==> x | 0x20 == y | 0x20
  {
  }

  lemma {:induction false} UnfoldedBits(x: bv32, y: bv32)
    ensures x | 0x20 == y | 0x20 ==> AlikeBits(x, y, true)
  {
  }

  lemma {:induction false} AlikeLetters()
    ensures Alike('z', 'Z', true) && !Alike('z', 'Z', false)
  {
    assert 'z' as bv32 == 0x7A && 'Z' as bv32 == 0x5A;
  }

  /** The pattern character `c` stands for `s[from..to]`: a star for any run, any other character for
      one that is alike. */
  predicate Stands(c: char, s: string, from: int, to: int, fold: bool) {
    0 <= from <= to <= |s| && (c != STAR ==> to == from + 1 && Alike(c, s[from], fold))
  }

  ghost predicate StandsAt(p: string, s: string, fold: bool, cut: seq<int>, i: int)
    requires |cut| == |p| + 1 && 0 <= i < |p|
  {
    Stands(p[i], s, cut[i], cut[i + 1], fold)
  }

  /** `cut` says which part of `s` each character of the pattern stands for. */
  ghost predicate IsAlignment(p: string, s: string, fold: bool, cut: seq<int>) {
    && |cut| == |p| + 1 && cut[0] == 0 && cut[|p|] == |s|
    && (forall i :: 0 <= i < |p| ==> StandsAt(p, s, fold, cut, i))
  }

  ghost predicate IsMatch(p: string, s: string, fold: bool) {
    exists cut :: IsAlignment(p, s, fold, cut)
  }

  // ----- How matches are built -----

  lemma {:induction false} Prepend(p: string, s: string, fold: bool, k: nat, cut: seq<int>) returns (whole: seq<int>)
    requires p != [] && k <= |s| && IsAlignment(p[1..], s[k..], fold, cut)
    requires p[0] == STAR || (k == 1 && Alike(p[0], s[0], fold))
    ensures IsAlignment(p, s, fold, whole)
  {
    hide Alike;
    whole := [0] + seq(|cut|, i requires 0 <= i < |cut| => cut[i] + k);
    forall i | 0 <= i < |p| ensures StandsAt(p, s, fold, whole, i) {
      if i > 0 {
        assert StandsAt(p[1..], s[k..], fold, cut, i - 1);
        assert whole[i] == cut[i - 1] + k && whole[i + 1] == cut[i] + k && p[i] == p[1..][i - 1];
      } else {
        assert whole[1] == k;
      }
    }
  }

  lemma {:induction false} Behead(p: string, s: string, fold: bool, cut: seq<int>)
    requires p != [] && IsAlignment(p, s, fold, cut)
    ensures 0 <= cut[1] <= |s| && IsMatch(p[1..], s[cut[1]..], fold)
  {
    hide Alike;
    assert StandsAt(p, s, fold, cut, 0);
    var k := cut[1];
    var rest := seq(|p|, i requires 0 <= i < |p| => cut[i + 1] - k);
    Monotone(p, s, fold, cut, 1);
    forall i | 0 <= i < |p| - 1 ensures StandsAt(p[1..], s[k..], fold, rest, i) {
      assert StandsAt(p, s, fold, cut, i + 1);
      assert rest[i] == cut[i + 1] - k && rest[i + 1] == cut[i + 2] - k && p[1..][i] == p[i + 1];
    }
    assert IsAlignment(p[1..], s[k..], fold, rest);
  }

  lemma {:induction false} Monotone(p: string, s: string, fold: bool, cut: seq<int>, j: nat)
    requires IsAlignment(p, s, fold, cut) && j <= |p|
    ensures forall i :: j <= i <= |p| ==> cut[j] <= cut[i]
    decreases |p| - j
  {
    hide Alike;
    if j < |p| {
      assert StandsAt(p, s, fold, cut, j);
      Monotone(p, s, fold, cut, j + 1);
    }
  }

  /** A star matches some run, and the rest matches what follows. */
  lemma {:induction false} MatchesStar(p: string, s: string, fold: bool)
    requires p != [] && p[0] == STAR
    ensures IsMatch(p, s, fold) <==> exists k :: 0 <= k <= |s| && IsMatch(p[1..], s[k..], fold)
  {
    hide Alike;
    if IsMatch(p, s, fold) {
      var cut :| IsAlignment(p, s, fold, cut);
      assert StandsAt(p, s, fold, cut, 0);
      Behead(p, s, fold, cut);
    }
    if k :| 0 <= k <= |s| && IsMatch(p[1..], s[k..], fold) {
      var cut :| IsAlignment(p[1..], s[k..], fold, cut);
      var whole := Prepend(p, s, fold, k, cut);
    }
  }

  lemma {:induction false} MatchesOne(p: string, s: string, fold: bool)
    requires p != [] && p[0] != STAR
    ensures IsMatch(p, s, fold) <==> s != [] && Alike(p[0], s[0], fold) && IsMatch(p[1..], s[1..], fold)
  {
    hide Alike;
    if IsMatch(p, s, fold) {
      var cut :| IsAlignment(p, s, fold, cut);
      assert StandsAt(p, s, fold, cut, 0);
      Behead(p, s, fold, cut);
    }
    if s != [] && Alike(p[0], s[0], fold) && IsMatch(p[1..], s[1..], fold) {
      var cut :| IsAlignment(p[1..], s[1..], fold, cut);
      var whole := Prepend(p, s, fold, 1, cut);
    }
  }

  lemma {:induction false} MatchesNothing(s: string, fold: bool)
    ensures IsMatch([], s, fold) <==> s == []
  {
    if s == [] {
      assert IsAlignment([], s, fold, [0]);
    }
  }

  /** A star alone matches everything; a text without a star matches what is alike, one by one. */
  lemma {:induction false} StarsAndTexts(p: string, s: string, fold: bool)
    ensures IsMatch("*", s, fold)
    ensures '*' !in p ==>
      (IsMatch(p, s, fold) <==> |p| == |s| && forall i :: 0 <= i < |p| ==> Alike(p[i], s[i], fold))
    decreases p
  {
    hide Alike, IsMatch;
    MatchesStar("*", s, fold);
    assert "*"[1..] == [] && s[|s|..] == [];
    MatchesNothing([], fold);
    if p == "" {
      MatchesNothing(s, fold);
    } else if p[0] != '*' {
      MatchesOne(p, s, fold);
      if s != "" {
        StarsAndTexts(p[1..], s[1..], fold);
        assert |p| == |s| ==> forall i :: 1 <= i < |p| ==> p[i] == p[1..][i - 1] && s[i] == s[1..][i - 1];
      }
    }
  }

  // ----- The matcher -----

  /** What `fnmatch` returns for a pattern and a string, with case folding. */
  type Matcher = (string, string) -> int

  /** The rule as a function. */
  predicate Matches(p: string, s: string, fold: bool)
    decreases |p| + |s|
  {
    if p == "" then s == ""
    else if p[0] == STAR then Matches(p[1..], s, fold) || (s != "" && Matches(p, s[1..], fold))
    else s != "" && Alike(p[0], s[0], fold) && Matches(p[1..], s[1..], fold)
  }

  lemma {:induction false} MatchesIsMatch(p: string, s: string, fold: bool)
    ensures Matches(p, s, fold) <==> IsMatch(p, s, fold)
    decreases |p| + |s|
  {
    hide Alike, IsMatch;
    if p == "" {
      MatchesNothing(s, fold);
    } else if p[0] == STAR {
      MatchesStar(p, s, fold);
      MatchesIsMatch(p[1..], s, fold);
      assert s[0..] == s;
      if s != "" {
        MatchesStar(p, s[1..], fold);
        MatchesIsMatch(p, s[1..], fold);
        assert forall k :: 0 <= k <= |s| - 1 ==> s[1..][k..] == s[k + 1..];
        assert forall k :: 1 <= k <= |s| ==> s[1..][k - 1..] == s[k..];
      }
    } else {
      MatchesOne(p, s, fold);
      if s != "" {
        MatchesIsMatch(p[1..], s[1..], fold);
      }
    }
  }

  /** The local `fnmatch` as a matcher. */
  function Local(p: string, s: string): int {
    if Matches(p, s, true) then 0 else FNM_NOMATCH
  }

  /** The local matcher tells different characters apart. */
  lemma {:induction false} LocalTellsApart()
    ensures Local("a", "a") == 0 && Local("b", "a") == FNM_NOMATCH
  {
    MatchesIsMatch("a", "a", true);
    MatchesIsMatch("b", "a", true);
    MatchesOne("a", "a", true);
    MatchesOne("b", "a", true);
    MatchesNothing("", true);
    assert "a"[1..] == "" && "b"[1..] == "";
    assert Alike('a', 'a', true) && !Alike('b', 'a', true);
    hide Alike, IsMatch, Matches;
  }

  method Fnmatch(pattern: string, text: string, fold: bool) returns (r: int)
    ensures r == 0 || r == 1
    ensures r == 0 <==> IsMatch(pattern, text, fold)
    ensures fold ==> r == Local(pattern, text)
    decreases |pattern|
  {
    MatchesIsMatch(pattern, text, fold);
    hide Alike, IsAlignment, IsMatch, Matches;
    var p, s := 0, 0;
    assert pattern[0..] == pattern && text[0..] == text;
    while p < |pattern| && s < |text|
      invariant p <= |pattern| && s <= |text|
      invariant IsMatch(pattern, text, fold) <==> IsMatch(pattern[p..], text[s..], fold)
      decreases |pattern| - p
    {
      assert pattern[p..][1..] == pattern[p + 1..];
      if pattern[p] == STAR {
        MatchesStar(pattern[p..], text[s..], fold);
        ghost var start := s;
        p := p + 1;
        while s < |text|
          invariant start <= s <= |text|
          invariant forall k :: start <= k < s ==> !IsMatch(pattern[p..], text[k..], fold)
        {
          var sub := Fnmatch(pattern[p..], text[s..], fold);
          if sub == 0 {
            assert text[start..][s - start..] == text[s..];
            return 0;
          }
          s := s + 1;
        }
        assert forall k :: 0 <= k <= |text| - start ==> text[start..][k..] == text[start + k..];
        assert text[start..][|text| - start..] == text[s..];
        assert IsMatch(pattern[p..], text[s..], fold) ==>
            exists k :: 0 <= k <= |text| - start && IsMatch(pattern[p..], text[start..][k..], fold);
      } else {
        MatchesOne(pattern[p..], text[s..], fold);
        if !Alike(pattern[p], text[s], fold) {
          return FNM_NOMATCH;
        }
        assert text[s..][1..] == text[s + 1..];
        p, s := p + 1, s + 1;
      }
    }
    if s < |text| {
      MatchesNothing(text[s..], fold);
      return FNM_NOMATCH;
    }
    assert text[s..] == [];
    while p < |pattern|
      invariant p <= |pattern|
      invariant IsMatch(pattern, text, fold) <==> IsMatch(pattern[p..], [], fold)
    {
      assert pattern[p..][1..] == pattern[p + 1..];
      if pattern[p] == STAR {
        MatchesStar(pattern[p..], [], fold);
        assert ""[0..] == "";
      } else {
        MatchesOne(pattern[p..], [], fold);
        return FNM_NOMATCH;
      }
      p := p + 1;
    }
    assert pattern[p..] == [];
    MatchesNothing([], fold);
    return 0;
  }
}
