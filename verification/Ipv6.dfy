/** The expansion of IPv6 addresses from the shorthand of section 2.2 of RFC 4291. */
module Ipv6 {
  import opened Basics

  const TEMPLATE :=
    "0000" + ":" + "0000" + ":" + "0000" + ":" + "0000" + ":" + "0000" + ":" + "0000" + ":" + "0000" + ":" + "0000"
  const TEMPLATE_SIZE := 39
  const GROUPS := 8

  /** Up to four characters, none of which separates groups.  The code does not look whether they are
      hexadecimal digits. */
  predicate IsGroup(g: string) {
    1 <= |g| <= 4 && ':' !in g && ',' !in g
  }

  predicate AreGroups(gs: seq<string>) {
    forall i :: 0 <= i < |gs| ==> IsGroup(gs[i])
  }

  /** Groups with colons between them. */
  function Join(gs: seq<string>): string {
    if gs == [] then ""
    else if |gs| == 1 then gs[0]
    else Join(gs[..|gs| - 1]) + ":" + gs[|gs| - 1]
  }

  function Pad(g: string): string
    requires |g| <= 4
  {
    ZEROS[..4 - |g|] + g
  }

  const ZEROS := "0000"

  function PadAll(gs: seq<string>): (ps: seq<string>)
    requires AreGroups(gs)
    ensures |ps| == |gs| && forall i :: 0 <= i < |gs| ==> ps[i] == Pad(gs[i])
  {
    seq(|gs|, i requires 0 <= i < |gs| => Pad(gs[i]))
  }

  /** An address as it is written: eight groups, or at most seven with `::` somewhere.  The code also
      takes fewer than eight groups without `::`. */
  datatype Shorthand = Whole(groups: seq<string>) | Gap(pre: seq<string>, post: seq<string>)

  predicate WellFormed(a: Shorthand) {
    match a
    case Whole(gs) => |gs| <= GROUPS && AreGroups(gs)
    case Gap(pre, post) => |pre| + |post| < GROUPS && AreGroups(pre) && AreGroups(post)
  }

  /** These are all the addresses of groups of one to four characters, none of them a colon or a comma. */
  lemma {:induction false} WhichShorthands(pre: seq<string>, post: seq<string>)
    requires forall g :: g in pre || g in post ==> 1 <= |g| <= 4 && ':' !in g && ',' !in g
    ensures |pre| <= 8 <==> WellFormed(Whole(pre))
    ensures |pre| + |post| < 8 <==> WellFormed(Gap(pre, post))
  {
    forall i | 0 <= i < |pre| ensures IsGroup(pre[i]) {
      assert pre[i] in pre;
    }
    forall i | 0 <= i < |post| ensures IsGroup(post[i]) {
      assert post[i] in post;
    }
  }

  function Print(a: Shorthand): string {
    match a
    case Whole(gs) => Join(gs)
    case Gap(pre, post) => Join(pre) + "::" + Join(post)
  }

  /** The eight groups that an address stands for: `::` is as many zero groups as are missing, which come
      last if there is no `::`. */
  function GroupsOf(a: Shorthand): (gs: seq<string>)
    requires WellFormed(a)
    ensures |gs| == GROUPS && AreGroups(gs)
  {
    match a
    case Whole(gs) => gs + seq(GROUPS - |gs|, _ => "0")
    case Gap(pre, post) => pre + seq(GROUPS - |pre| - |post|, _ => "0") + post
  }

  // ----- Positions in a text -----

  /** Where group `k` starts. */
  function Pos(gs: seq<string>, k: nat): nat
    requires k <= |gs|
  {
    if k == 0 then 0 else Pos(gs, k - 1) + |gs[k - 1]| + 1
  }

  lemma {:induction false} PosFront(gs: seq<string>, k: nat)
    requires k < |gs|
    ensures Pos(gs[..|gs| - 1], k) == Pos(gs, k)
    decreases k
  {
    if k > 0 {
      PosFront(gs, k - 1);
    }
  }

  /** Group `k` of a joined text, and the colon after it. */
  lemma {:induction false} GroupAt(gs: seq<string>, k: nat)
    requires k < |gs|
    ensures var p, q := Pos(gs, k), Pos(gs, k) + |gs[k]|;
      && q <= |Join(gs)| && Join(gs)[p..q] == gs[k]
      && (if k == |gs| - 1 then q == |Join(gs)| else q < |Join(gs)| && Join(gs)[q] == ':')
    decreases gs
  {
    var n := |gs| - 1;
    if n > 0 {
      var front := gs[..n];
      assert Join(gs) == Join(front) + ":" + gs[n];
      if k < n {
        GroupAt(front, k);
        PosFront(gs, k);
      } else {
        GroupAt(front, n - 1);
        PosFront(gs, n - 1);
        assert Pos(gs, n) == |Join(front)| + 1;
      }
    }
  }

  lemma {:induction false} HasNoColon(g: string)
    requires IsGroup(g)
    ensures ':' !in g && ',' !in g
  {
  }

  // ----- Library functions -----

  /** `strchr` from position `p`. */
  function StrChr(s: string, p: nat, c: char): (k: int)
    requires p <= |s|
    ensures k == -1 || p <= k < |s|
    decreases |s| - p
  {
    if p == |s| then -1 else if s[p] == c then p else StrChr(s, p + 1, c)
  }

  lemma {:induction false} StrChrIs(s: string, p: nat, c: char, q: nat)
    requires p <= q <= |s| && (forall i :: p <= i < q ==> s[i] != c) && (q < |s| ==> s[q] == c)
    ensures StrChr(s, p, c) == if q == |s| then -1 else q
    decreases q - p
  {
    if p < q {
      StrChrIs(s, p + 1, c, q);
    }
  }

  /** `strrchr`. */
  function StrRChr(s: string, c: char): (k: int)
    ensures k == -1 || 0 <= k < |s|
  {
    if s == "" then -1 else if s[|s| - 1] == c then |s| - 1 else StrRChr(s[..|s| - 1], c)
  }

  lemma {:induction false} StrRChrIs(s: string, c: char, q: nat)
    requires q < |s| && s[q] == c && forall i :: q < i < |s| ==> s[i] != c
    ensures StrRChr(s, c) == q
    decreases s
  {
    if q < |s| - 1 {
      StrRChrIs(s[..|s| - 1], c, q);
    }
  }

  /** `strstr` for two colons, from position `p`. */
  function DoubleColon(s: string, p: nat): (k: int)
    requires p <= |s|
    ensures k == -1 || p <= k < |s| - 1
    decreases |s| - p
  {
    if p + 1 >= |s| then -1 else if s[p] == ':' && s[p + 1] == ':' then p else DoubleColon(s, p + 1)
  }

  ghost predicate TwoColons(s: string, i: int) {
    0 <= i < |s| - 1 && s[i] == ':' && s[i + 1] == ':'
  }

  lemma {:induction false} DoubleColonIs(s: string, p: nat, q: nat)
    requires p <= q <= |s| && (forall i :: p <= i < q ==> !TwoColons(s, i)) && (q < |s| ==> TwoColons(s, q))
    ensures DoubleColon(s, p) == if q == |s| then -1 else q
    decreases q - p
  {
    if p < q {
      assert !TwoColons(s, p);
      DoubleColonIs(s, p + 1, q);
    }
  }

  // ----- The buffer -----

  /** Groups padded to four digits, with colons between them. */
  function Full(gs: seq<string>): string
    requires AreGroups(gs)
  {
    Join(PadAll(gs))
  }

  function FullAt(gs: seq<string>, i: nat): char
    requires AreGroups(gs) && i < 5 * |gs| - 1
  {
    if i % 5 == 4 then ':' else Pad(gs[i / 5])[i % 5]
  }

  lemma {:induction false} FullChars(gs: seq<string>)
    requires AreGroups(gs) && gs != []
    ensures |Full(gs)| == 5 * |gs| - 1 && forall i :: 0 <= i < |Full(gs)| ==> Full(gs)[i] == FullAt(gs, i)
    decreases gs
  {
    var n := |gs| - 1;
    if n > 0 {
      FullChars(gs[..n]);
      assert PadAll(gs)[..n] == PadAll(gs[..n]);
      forall i | 0 <= i < |Full(gs)| ensures Full(gs)[i] == FullAt(gs, i) {
        if i < 5 * n - 1 {
          assert Full(gs)[i] == Full(gs[..n])[i] == FullAt(gs[..n], i);
        }
      }
    }
  }

  lemma {:induction false} JoinZeros(n: nat)
    requires n > 0
    ensures Join(seq(n + 1, _ => "0000")) == Join(seq(n, _ => "0000")) + ":" + "0000"
    ensures Join(seq(1, _ => "0000")) == "0000"
  {
    assert seq(n + 1, _ => "0000")[..n] == seq(n, _ => "0000");
  }

  lemma {:induction false} Template()
    ensures AreGroups(seq(GROUPS, _ => "0")) && TEMPLATE == Full(seq(GROUPS, _ => "0")) && |TEMPLATE| == 39
  {
    var zeros := seq(GROUPS, _ => "0");
    assert Pad("0") == "0000";
    assert PadAll(zeros) == seq(GROUPS, _ => "0000");
    hide Join;
    JoinZeros(1);
    JoinZeros(2);
    JoinZeros(3);
    JoinZeros(4);
    JoinZeros(5);
    JoinZeros(6);
    JoinZeros(7);
  }

  /** The buffer holds the eight slots, padded, and then `tail`. */
  ghost predicate BufferIs(result: array<char>, slots: seq<string>, tail: string)
    reads result
  {
    && result.Length > TEMPLATE_SIZE && |slots| == GROUPS && AreGroups(slots)
    && result[..TEMPLATE_SIZE] == Full(slots) && result[TEMPLATE_SIZE..] == tail
  }

  /** `strncpy` of a group to the end of a slot that still holds zeros. */
  method PutGroup(result: array<char>, at: int, g: string, ghost slots: seq<string>, ghost k: nat, ghost tail: string)
    requires BufferIs(result, slots, tail) && IsGroup(g)
    requires k < GROUPS && slots[k] == "0" && at == 5 * k + 4 - |g|
    modifies result
    ensures BufferIs(result, slots[k := g], tail)
  {
    FullChars(slots);
    FullChars(slots[k := g]);
    forall i | 0 <= i < |g| {
      result[at + i] := g[i];
    }
    hide Full;
    forall i | 0 <= i < TEMPLATE_SIZE ensures result[i] == FullAt(slots[k := g], i) {
      assert old(result[..TEMPLATE_SIZE])[i] == FullAt(slots, i);
    }
  }

  // ----- The part before the double colon -----

  /** A text that begins with groups, and goes on with `::` or ends there. */
  ghost predicate BeginsWithGroups(s: string, gs: seq<string>) {
    var n := |Join(gs)|;
    && AreGroups(gs) && n <= |s| && s[..n] == Join(gs)
    && (n == |s| || (n + 1 < |s| && s[n] == ':' && s[n + 1] == ':'))
  }

  lemma {:induction false} Slice(s: string, n: nat, p: nat, q: nat)
    requires p <= q <= n <= |s|
    ensures s[..n][p..q] == s[p..q]
  {
  }

  lemma {:induction false} PreStep(s: string, gs: seq<string>, k: nat)
    requires BeginsWithGroups(s, gs) && k < |gs|
    ensures var p, q := Pos(gs, k), Pos(gs, k) + |gs[k]|;
      && p < q <= |Join(gs)| && s[p..q] == gs[k] && (k == |gs| - 1 ==> q == |Join(gs)|)
      && StrChr(s, p, ':') == if q == |s| then -1 else q
  {
    GroupAt(gs, k);
    HasNoColon(gs[k]);
    var p, q := Pos(gs, k), Pos(gs, k) + |gs[k]|;
    Slice(s, |Join(gs)|, p, q);
    assert q < |Join(gs)| ==> s[q] == s[..|Join(gs)|][q];
    forall i | p <= i < q ensures s[i] != ':' {
      assert s[i] == gs[k][i - p];
    }
    StrChrIs(s, p, ':', q);
  }

  /** Where `handlePreArea` stops: at the double colon, or at the end of the groups. */
  lemma {:induction false} PreEnd(s: string, gs: seq<string>)
    requires BeginsWithGroups(s, gs)
    ensures DoubleColon(s, 0) == if |Join(gs)| == |s| then -1 else |Join(gs)|
    ensures |Join(gs)| == |s| ==> StrChr(s, 0, ',') == -1
  {
    hide Join;
    var n := |Join(gs)|;
    forall i | 0 <= i < n ensures !TwoColons(s, i) && s[i] != ',' {
      NoDoubleColon(gs, i);
      assert s[i] == s[..n][i];
      assert i + 1 < n ==> s[i + 1] == s[..n][i + 1];
    }
    DoubleColonIs(s, 0, n);
    if n == |s| {
      StrChrIs(s, 0, ',', n);
    }
  }

  /** Joined groups have no comma, no two colons in a row, and no colon at the end. */
  lemma {:induction false} NoDoubleColon(gs: seq<string>, i: nat)
    requires AreGroups(gs) && i < |Join(gs)|
    ensures Join(gs)[i] != ',' && (Join(gs)[i] == ':' ==> i + 1 < |Join(gs)| && Join(gs)[i + 1] != ':')
  {
    hide Join;
    var k := GroupOf(gs, i);
    GroupAt(gs, k);
    HasNoColon(gs[k]);
    var p, q := Pos(gs, k), Pos(gs, k) + |gs[k]|;
    if i < q {
      assert Join(gs)[i] == Join(gs)[p..q][i - p];
    } else {
      GroupAt(gs, k + 1);
      HasNoColon(gs[k + 1]);
      assert Join(gs)[i + 1] == Join(gs)[Pos(gs, k + 1)..Pos(gs, k + 1) + |gs[k + 1]|][0];
    }
  }

  /** The group that position `i` is in, or comes right after. */
  lemma {:induction false} GroupOf(gs: seq<string>, i: nat) returns (k: nat)
    requires i < |Join(gs)|
    ensures k < |gs| && Pos(gs, k) <= i <= Pos(gs, k) + |gs[k]|
    ensures i == Pos(gs, k) + |gs[k]| ==> k + 1 < |gs|
    decreases gs
  {
    var n := |gs| - 1;
    if n == 0 {
      k := 0;
    } else {
      var front := gs[..n];
      GroupAt(front, n - 1);
      PosFront(gs, n - 1);
      if i < |Join(front)| {
        k := GroupOf(front, i);
        PosFront(gs, k);
      } else if i == |Join(front)| {
        k := n - 1;
      } else {
        k := n;
      }
    }
  }

  /** The slots after the first `k` groups have been copied. */
  function SlotsPre(pre: seq<string>, k: nat): (slots: seq<string>)
    requires k <= |pre| <= GROUPS && AreGroups(pre)
    ensures |slots| == GROUPS && AreGroups(slots)
  {
    pre[..k] + seq(GROUPS - k, _ => "0")
  }

  lemma {:induction false} NextSlotPre(pre: seq<string>, k: nat)
    requires k < |pre| <= GROUPS && AreGroups(pre)
    ensures SlotsPre(pre, k)[k] == "0" && SlotsPre(pre, k + 1) == SlotsPre(pre, k)[k := pre[k]] && IsGroup(pre[k])
  {
  }

  lemma {:induction false} GroupsBegin(s: string, gs: seq<string>)
    requires BeginsWithGroups(s, gs)
    ensures AreGroups(gs) && Pos(gs, 0) == 0 && forall k :: 0 <= k < |gs| ==> Pos(gs, k + 1) == Pos(gs, k) + |gs[k]| + 1
  {
  }

  method PutPre(result: array<char>, at: int, g: string, ghost pre: seq<string>, ghost k: nat, ghost tail: string)
    requires k < |pre| <= GROUPS && AreGroups(pre) && g == pre[k] && at == 5 * k + 4 - |g|
    requires BufferIs(result, SlotsPre(pre, k), tail)
    modifies result
    ensures BufferIs(result, SlotsPre(pre, k + 1), tail)
  {
    hide BufferIs, SlotsPre;
    NextSlotPre(pre, k);
    PutGroup(result, at, g, SlotsPre(pre, k), k, tail);
  }

  /** Copies one group, up to the next colon or to the end; there is no next group after the latter. */
  method CopyPre(start: string, result: array<char>, slider1: int, end: int, out: int, ghost pre: seq<string>,
                 ghost k: nat, ghost tail: string)
    returns (next: int)
    requires BeginsWithGroups(start, pre) && k < |pre| <= GROUPS && slider1 == Pos(pre, k) && end == |Join(pre)|
    requires out == 5 * k && BufferIs(result, SlotsPre(pre, k), tail)
    modifies result
    ensures BufferIs(result, SlotsPre(pre, k + 1), tail)
    ensures next == if k == |pre| - 1 && |Join(pre)| == |start| then -1 else Pos(pre, k + 1)
  {
    GroupsBegin(start, pre);
    assert GROUPS == 8;
    hide *;
    PreStep(start, pre, k);
    if k + 1 < |pre| {
      PreStep(start, pre, k + 1);
    }
    var slider2 := StrChr(start, slider1, ':');
    if slider2 != -1 {
      PutPre(result, out + 4 - (slider2 - slider1), start[slider1..slider2], pre, k, tail);
      return slider2 + 1;
    } else {
      PutPre(result, out + 4 - (end - slider1), start[slider1..end], pre, k, tail);
      return -1;
    }
  }

  lemma {:induction false} PosWithin(start: string, pre: seq<string>)
    requires BeginsWithGroups(start, pre)
    ensures Pos(pre, 0) == 0 && (pre == [] ==> |Join(pre)| == 0)
    ensures forall k :: 0 <= k < |pre| ==> Pos(pre, k) < |Join(pre)|
    ensures pre != [] ==> Pos(pre, |pre|) > |Join(pre)|
  {
    GroupsBegin(start, pre);
    hide BeginsWithGroups, Pos;
    forall k | 0 <= k < |pre| ensures Pos(pre, k) < |Join(pre)| {
      PreStep(start, pre, k);
    }
    if pre != [] {
      PreStep(start, pre, |pre| - 1);
    }
  }

  /** `handlePreArea`: copies the groups before the double colon to the front of the buffer. */
  method HandlePreArea(start: string, result: array<char>, ghost pre: seq<string>, ghost tail: string)
    requires BeginsWithGroups(start, pre) && |pre| <= GROUPS
    requires BufferIs(result, SlotsPre(pre, 0), tail)
    modifies result
    ensures BufferIs(result, SlotsPre(pre, |pre|), tail)
  {
    GroupsBegin(start, pre);
    hide *;
    PreEnd(start, pre);
    PosWithin(start, pre);
    var end := DoubleColon(start, 0);
    if end == -1 {
      end := StrChr(start, 0, ',');
      if end == -1 {
        end := |start|;
      }
    }
    var slider1, out := 0, 0;
    ghost var k := 0;
    while slider1 < end
      invariant 0 <= k <= |pre| && out == 5 * k && slider1 == Pos(pre, k)
      invariant k < |pre| <==> slider1 < end
      invariant BufferIs(result, SlotsPre(pre, k), tail)
      decreases |pre| - k
    {
      var next := CopyPre(start, result, slider1, end, out, pre, k, tail);
      k := k + 1;
      if next == -1 {
        break;
      }
      out := out + 5;
      slider1 := next;
    }
  }

  // ----- The part after the double colon -----

  /** What is left of the copy when the groups from `j` on have been taken off its end. */
  function PostText(post: seq<string>, j: nat): string
    requires j <= |post|
  {
    if post == [] then ":" else if j == 0 then "" else ":" + Join(post[..j])
  }

  function SlotsPost(pre: seq<string>, post: seq<string>, j: nat): (slots: seq<string>)
    requires j <= |post| && |pre| + |post| < GROUPS && AreGroups(pre) && AreGroups(post)
    ensures |slots| == GROUPS && AreGroups(slots)
  {
    pre + seq(GROUPS - |pre| - |post| + j, _ => "0") + post[j..]
  }

  lemma {:induction false} NextSlotPost(pre: seq<string>, post: seq<string>, j: nat)
    requires 0 < j <= |post| && |pre| + |post| < GROUPS && AreGroups(pre) && AreGroups(post)
    ensures var k := GROUPS - |post| + j - 1;
      && SlotsPost(pre, post, j)[k] == "0" && IsGroup(post[j - 1])
      && SlotsPost(pre, post, j - 1) == SlotsPost(pre, post, j)[k := post[j - 1]]
  {
  }

  /** The last group of what is left of the copy. */
  lemma {:induction false} PostStep(post: seq<string>, j: nat)
    requires AreGroups(post) && 0 < j <= |post|
    ensures var s, g := PostText(post, j), post[j - 1];
      && |s| > |g| && s[|s| - |g|..] == g && StrRChr(s, ':') == |s| - |g| - 1
      && s[..|s| - |g| - 1] == PostText(post, j - 1) && |g| > 0
  {
    var s, g, front := PostText(post, j), post[j - 1], post[..j - 1];
    HasNoColon(g);
    assert post[..j][..j - 1] == front;
    if j == 1 {
      assert s == ":" + g;
    } else {
      assert s == ":" + (Join(front) + ":" + g);
      assert s == ":" + Join(front) + ":" + g;
    }
    var q := |s| - |g| - 1;
    forall i | q < i < |s| ensures s[i] != ':' {
      assert s[i] == g[i - q - 1];
    }
    StrRChrIs(s, ':', q);
  }

  method PutPost(result: array<char>, at: int, g: string, ghost pre: seq<string>, ghost post: seq<string>, ghost j: nat,
                 ghost tail: string)
    requires 0 < j <= |post| && |pre| + |post| < GROUPS && AreGroups(pre) && AreGroups(post)
    requires g == post[j - 1] && at == 5 * (GROUPS - |post| + j - 1) + 4 - |g|
    requires BufferIs(result, SlotsPost(pre, post, j), tail)
    modifies result
    ensures BufferIs(result, SlotsPost(pre, post, j - 1), tail)
  {
    hide BufferIs, SlotsPost;
    NextSlotPost(pre, post, j);
    PutGroup(result, at, g, SlotsPost(pre, post, j), GROUPS - |post| + j - 1, tail);
  }

  /** `handlePostArea`: copies the groups after the double colon to the end of the buffer, from the
      back, cutting them off a copy of the text that begins with the second colon. */
  method HandlePostArea(start: string, result: array<char>, ghost pre: seq<string>, ghost post: seq<string>,
                        ghost tail: string)
    requires |pre| + |post| < GROUPS && AreGroups(pre) && AreGroups(post) && start == ":" + Join(post)
    requires BufferIs(result, SlotsPost(pre, post, |post|), tail)
    modifies result
    ensures BufferIs(result, SlotsPost(pre, post, 0), tail)
  {
    PostBegins(post);
    assert GROUPS == 8 && TEMPLATE_SIZE == 39;
    hide *;
    var ourCopy, out := start, TEMPLATE_SIZE;
    ghost var j := |post|;
    while |ourCopy| > 0
      invariant 0 <= j <= |post| && ourCopy == PostText(post, j) && (j > 0 ==> ourCopy != "")
      invariant out == 5 * (GROUPS - |post| + j) - 1
      invariant BufferIs(result, SlotsPost(pre, post, j), tail)
      decreases |ourCopy|
    {
      var g, rest := CutGroup(ourCopy, post, j);
      if g == "" {
        break;
      }
      PutPost(result, out - |g|, g, pre, post, j, tail);
      ourCopy, out := rest, out - 5;
      j := j - 1;
    }
  }

  /** Cuts the last group, with the colon in front of it, off the copy; there is none if the last
      colon ends the copy. */
  method CutGroup(ourCopy: string, ghost post: seq<string>, ghost j: nat) returns (g: string, rest: string)
    requires AreGroups(post) && j <= |post| && ourCopy == PostText(post, j) && ourCopy != ""
    ensures g == "" <==> j == 0
    ensures j > 0 ==> g == post[j - 1] && rest == PostText(post, j - 1) && |rest| < |ourCopy|
    ensures j > 1 ==> rest != ""
  {
    if j > 0 {
      PostStep(post, j);
    }
    var slider1, slider2 := |ourCopy|, StrRChr(ourCopy, ':');
    if slider2 != -1 && slider2 < slider1 - 1 {
      slider2 := slider2 + 1;
      g, rest := ourCopy[slider2..slider1], ourCopy[..slider2 - 1];
    } else {
      g, rest := "", ourCopy;
    }
  }

  lemma {:induction false} PostBegins(post: seq<string>)
    ensures PostText(post, |post|) == ":" + Join(post)
    ensures post == [] ==> PostText(post, 0) == ":" && StrRChr(":", ':') == 0
  {
    assert post[..|post|] == post;
  }

  // ----- The whole address -----

  /** `SLPNetExpandIpv6Addr`: the buffer receives the eight groups of the address, padded to four
      digits, and a zero byte.  A null pointer or a buffer that is too small is refused. */
  method ExpandIpv6Addr(ipv6Addr: Option<string>, result: array?<char>, ghost a: Shorthand) returns (sts: int)
    requires ipv6Addr.Some? ==> WellFormed(a) && ipv6Addr.value == Print(a)
    modifies if result == null then {} else {result}
    ensures sts == if ipv6Addr.None? || result == null || result.Length <= TEMPLATE_SIZE then -1 else 0
    ensures sts == -1 && result != null ==> result[..] == old(result[..])
    ensures sts == 0 ==> result[..TEMPLATE_SIZE] == Full(GroupsOf(a)) && result[TEMPLATE_SIZE] == '\0'
  {
    if result != null && result.Length < TEMPLATE_SIZE + 1 {
      return -1;
    }
    if ipv6Addr.None? || result == null {
      return -1;
    }
    Template();
    forall i | 0 <= i < |TEMPLATE| {
      result[i] := TEMPLATE[i];
    }
    result[|TEMPLATE|] := '\0';
    ghost var pre, tail := if a.Whole? then a.groups else a.pre, result[TEMPLATE_SIZE..];
    PrintBegins(a);
    assert SlotsPre(pre, 0) == seq(GROUPS, _ => "0");
    HandlePreArea(ipv6Addr.value, result, pre, tail);
    var doublec := DoubleColon(ipv6Addr.value, 0);
    if doublec != -1 {
      doublec := doublec + 1;
      HandlePostArea(ipv6Addr.value[doublec..], result, pre, a.post, tail);
    }
    return 0;
  }

  lemma {:induction false} PrintBegins(a: Shorthand)
    requires WellFormed(a)
    ensures var pre := if a.Whole? then a.groups else a.pre;
      && BeginsWithGroups(Print(a), pre) && AreGroups(pre) && |pre| <= GROUPS
      && (a.Whole? ==> DoubleColon(Print(a), 0) == -1 && SlotsPre(pre, |pre|) == GroupsOf(a))
      && (a.Gap? ==>
            && DoubleColon(Print(a), 0) != -1
            && Print(a)[DoubleColon(Print(a), 0) + 1..] == ":" + Join(a.post)
            && SlotsPre(pre, |pre|) == SlotsPost(pre, a.post, |a.post|)
            && SlotsPost(pre, a.post, 0) == GroupsOf(a))
  {
    match a
    case Whole(gs) =>
      assert Join(gs)[..|Join(gs)|] == Join(gs);
      PreEnd(Join(gs), gs);
      assert SlotsPre(gs, |gs|) == GroupsOf(a);
    case Gap(pre, post) =>
      var s, n := Print(a), |Join(pre)|;
      assert s[..n] == Join(pre) && s[n + 1..] == ":" + Join(post);
      PreEnd(s, pre);
      assert SlotsPre(pre, |pre|) == SlotsPost(pre, post, |post|);
      assert SlotsPost(pre, post, 0) == GroupsOf(a);
  }

  /** The expanded text, character by character: group `k` is the `k`-th of the groups in front of the gap,
      or the `k`-th from the end of the address counted from the end, or else zero; it stands at the end of
      its four places, with zeros before it, and there are colons between. */
  lemma {:induction false} ExpandedAt(a: Shorthand, k: nat, i: nat)
    requires WellFormed(a) && k < 8 && i < 4
    ensures var text := Full(GroupsOf(a));
      var pre, post := if a.Whole? then a.groups else a.pre, if a.Whole? then [] else a.post;
      var g := if k < |pre| then pre[k] else if k >= 8 - |post| then post[k - (8 - |post|)] else "0";
      && |text| == 39 && 1 <= |g| <= 4 && text[5 * k + i] == (if i < 4 - |g| then '0' else g[i - (4 - |g|)])
      && (k < 7 ==> text[5 * k + 4] == ':')
  {
    var gs := GroupsOf(a);
    FullChars(gs);
    assert (5 * k + i) / 5 == k && (5 * k + i) % 5 == i && (5 * k + 4) % 5 == 4;
    assert IsGroup(gs[k]);
    hide Full, GroupsOf;
    assert FullAt(gs, 5 * k + i) == Pad(gs[k])[i];
  }

  // ----- What an address means -----

  function Digit(c: char): int {
    if '0' <= c <= '9' then c as int - '0' as int
    else if 'a' <= c <= 'f' then c as int - 'a' as int + 10
    else c as int - 'A' as int + 10
  }

  function Value(g: string): int {
    if g == "" then 0 else Value(g[..|g| - 1]) * 16 + Digit(g[|g| - 1])
  }

  /** Padding a group does not change the number that it stands for. */
  lemma {:induction false} PadKeepsValue(g: string)
    requires IsGroup(g)
    ensures Value(Pad(g)) == Value(g)
  {
    ValueOfZeros(4 - |g|, g);
  }

  lemma {:induction false} ValueOfZeros(n: nat, g: string)
    requires n <= 4
    ensures Value(ZEROS[..n] + g) == Value(g)
    decreases n, g
  {
    if g == "" {
      assert ZEROS[..n] + g == ZEROS[..n];
      if n > 0 {
        assert ZEROS[..n][..n - 1] == ZEROS[..n - 1] + "";
        ValueOfZeros(n - 1, "");
      }
    } else {
      assert (ZEROS[..n] + g)[..n + |g| - 1] == ZEROS[..n] + g[..|g| - 1];
      ValueOfZeros(n, g[..|g| - 1]);
    }
  }
  predicate IsHexDigit(c: char) {
    '0' <= c <= '9' || 'a' <= c <= 'f'
  }

  predicate IsHex(g: string) {
    forall i :: 0 <= i < |g| ==> IsHexDigit(g[i])
  }

  /** The digits have their values, and digits count by powers of sixteen. */
  lemma {:induction false} ValueIs(g: string, c: char)
    ensures Value("") == 0 && Value(g + [c]) == Value(g) * 16 + Value([c])
    ensures '0' <= c <= '9' ==> Value([c]) == c as int - 48
    ensures 'a' <= c <= 'f' ==> Value([c]) == c as int - 87
    ensures 'A' <= c <= 'F' ==> Value([c]) == c as int - 55
  {
    assert (g + [c])[..|g|] == g && [c][..0] == "";
  }

  /** Hexadecimal groups in lower case stand for the same number exactly if they expand to the same text. */
  lemma {:induction false} SameValueSameText(g: string, h: string)
    requires IsGroup(g) && IsGroup(h) && IsHex(g) && IsHex(h)
    ensures Value(g) == Value(h) <==> Pad(g) == Pad(h)
  {
    PadKeepsValue(g);
    PadKeepsValue(h);
    if Value(g) == Value(h) {
      SameDigits(Pad(g), Pad(h));
    }
  }

  lemma {:induction false} SameDigits(g: string, h: string)
    requires |g| == |h| && IsHex(g) && IsHex(h) && Value(g) == Value(h)
    ensures g == h
    decreases g
  {
    if g != "" {
      var n := |g| - 1;
      LastDigit(g);
      LastDigit(h);
      hide *;
      Unique(Value(g[..n]), Digit(g[n]), Value(h[..n]), Digit(h[n]));
      SameDigit(g[n], h[n]);
      SameDigits(g[..n], h[..n]);
      assert g == g[..n] + [g[n]] && h == h[..n] + [h[n]];
    }
  }

  lemma {:induction false} LastDigit(g: string)
    requires IsHex(g) && g != ""
    ensures var n := |g| - 1;
      && Value(g) == Value(g[..n]) * 16 + Digit(g[n]) && 0 <= Digit(g[n]) < 16
      && IsHexDigit(g[n]) && IsHex(g[..n])
  {
    assert IsHexDigit(g[|g| - 1]);
  }

  lemma {:induction false} Unique(a: int, c: int, b: int, d: int)
    requires 0 <= c < 16 && 0 <= d < 16
    ensures a * 16 + c == b * 16 + d ==> a == b && c == d
  {
  }

  lemma {:induction false} SameDigit(c: char, d: char)
    requires IsHexDigit(c) && IsHexDigit(d) && Digit(c) == Digit(d)
    ensures c == d
  {
  }
}
