/** UTF-8 in the form of section 2 of RFC 2279, with up to six bytes for a character.  Masks are all
    of the form 2^k - 1 or 256 - 2^k, so that masking is written with remainders. */
module Utf8 {

  import opened Basics

  const MAX_CHAR := 0x7FFFFFFF

  /** The conversion table: row `i` describes the sequences of `i + 1` bytes. */
  datatype Tab = Tab(cmask: int, cval: int, shift: nat, lmask: int, lval: int)

  function Row(i: int): Tab {
    match i
    case 0 => Tab(0x80, 0x00, 0, 0x7F, 0)
    case 1 => Tab(0xE0, 0xC0, 6, 0x7FF, 0x80)
    case 2 => Tab(0xF0, 0xE0, 12, 0xFFFF, 0x800)
    case 3 => Tab(0xF8, 0xF0, 18, 0x1FFFFF, 0x10000)
    case 4 => Tab(0xFC, 0xF8, 24, 0x3FFFFFF, 0x200000)
    case 5 => Tab(0xFE, 0xFC, 30, 0x7FFFFFFF, 0x4000000)
    case _ => Tab(0, 0, 0, 0, 0)
  }

  /** The first byte `c` announces a sequence of `i + 1` bytes. */
  predicate InClass(c: int, i: int)
    requires 0 <= i < 6
  {
    c - c % (0x100 - Row(i).cmask) == Row(i).cval
  }

  // ----- The encoding -----

  predicate IsChar(w: int) { 0 <= w <= MAX_CHAR }

  /** The number of bytes of a character, by the ranges of the standard. */
  function Length(w: int): nat {
    if w < 0x80 then 1 else if w < 0x800 then 2 else if w < 0x10000 then 3
    else if w < 0x200000 then 4 else if w < 0x4000000 then 5 else 6
  }

  /** What the first byte of a sequence of `n` bytes adds to the character's first bits. */
  function Lead(n: int): int {
    match n
    case 2 => 0xC0
    case 3 => 0xE0
    case 4 => 0xF0
    case 5 => 0xF8
    case 6 => 0xFC
    case _ => 0
  }

  function Pow64(n: nat): nat {
    if n == 0 then 1 else 64 * Pow64(n - 1)
  }

  /** The last `n` groups of six bits, each in a byte of its own. */
  function Tail(n: nat, w: nat): (s: seq<byte>)
    ensures |s| == n && forall i :: 0 <= i < n ==> 0x80 <= s[i] < 0xC0
  {
    if n == 0 then [] else Tail(n - 1, w / 64) + [0x80 + w % 64]
  }

  function High(n: nat, w: nat): nat {
    if n == 0 then w else High(n - 1, w / 64)
  }

  function Low(n: nat, w: nat): nat {
    if n == 0 then 0 else Low(n - 1, w / 64) * 64 + w % 64
  }

  function FirstByte(w: int): (b: byte)
    requires IsChar(w)
    ensures b == Lead(Length(w)) + High(Length(w) - 1, w) && InClass(b, Length(w) - 1)
  {
    HighBits(w);
    Lead(Length(w)) + High(Length(w) - 1, w)
  }

  function Encoding(w: int): (s: seq<byte>)
    requires IsChar(w)
    ensures |s| == Length(w)
  {
    [FirstByte(w)] + Tail(Length(w) - 1, w)
  }

  lemma {:induction false} HighBits(w: int)
    requires IsChar(w)
    ensures var n := Length(w); 0 <= Lead(n) + High(n - 1, w) < 0x100 && InClass(Lead(n) + High(n - 1, w), n - 1)
  {
    var i := Length(w) - 1;
    SplitBits(i, w);
    var h, l := High(i, w), Low(i, w);
    Pows();
    ClassRange(Lead(i + 1) + h, i);
    hide High, Low, Pow64, InClass;
    if i == 0 {
      assert w == h;
    } else if i == 1 {
      assert w == h * 0x40 + l;
    } else if i == 2 {
      assert w == h * 0x1000 + l;
    } else if i == 3 {
      assert w == h * 0x40000 + l;
    } else if i == 4 {
      assert w == h * 0x1000000 + l;
    } else {
      assert w == h * 0x40000000 + l;
    }
  }

  /** The first bytes of a class are consecutive. */
  lemma {:induction false} ClassRange(c: int, i: int)
    requires 0 <= i < 6
    ensures InClass(c, i) <==> Row(i).cval <= c < Row(i).cval + (0x100 - Row(i).cmask)
  {
  }

  lemma {:induction false} Pows()
    ensures Pow64(0) == 1 && Pow64(1) == 0x40 && Pow64(2) == 0x1000 && Pow64(3) == 0x40000
    ensures Pow64(4) == 0x1000000 && Pow64(5) == 0x40000000
  {
    assert Pow64(2) == 64 * Pow64(1);
    assert Pow64(3) == 64 * Pow64(2);
    assert Pow64(4) == 64 * Pow64(3);
    assert Pow64(5) == 64 * Pow64(4);
  }

  lemma {:induction false} Regroup(h: nat, p: nat)
    ensures h * (64 * p) == 64 * (h * p)
  {
  }

  /** A number is put together from its high bits and its last groups of bits. */
  lemma {:induction false} SplitBits(n: nat, w: nat)
    ensures w == High(n, w) * Pow64(n) + Low(n, w) && Low(n, w) < Pow64(n)
    ensures Tail(n, Low(n, w)) == Tail(n, w)
    decreases n
  {
    if n == 0 {
      assert Tail(0, 0) == Tail(0, w) == [];
    } else {
      hide *;
      SplitBits(n - 1, w / 64);
      var h, l, p := High(n - 1, w / 64), Low(n - 1, w / 64), Pow64(n - 1);
      Regroup(h, p);
      SplitStep(w, h * p, l, p);
      HighStep(n, w);
      TailStep(n, w);
      TailStep(n, Low(n, w));
    }
  }

  lemma {:induction false} SplitStep(w: nat, hp: nat, l: nat, p: nat)
    requires w / 64 == hp + l && l < p
    ensures w == 64 * hp + (l * 64 + w % 64) && l * 64 + w % 64 < 64 * p
    ensures (l * 64 + w % 64) / 64 == l && (l * 64 + w % 64) % 64 == w % 64
  {
  }

  lemma {:induction false} HighStep(n: nat, w: nat)
    requires n > 0
    ensures High(n, w) == High(n - 1, w / 64) && Pow64(n) == 64 * Pow64(n - 1)
    ensures Low(n, w) == Low(n - 1, w / 64) * 64 + w % 64
  {
  }

  lemma {:induction false} TailStep(n: nat, w: nat)
    requires n > 0
    ensures Tail(n, w) == Tail(n - 1, w / 64) + [0x80 + w % 64]
  {
  }

  lemma {:induction false} JoinBits(n: nat, h: nat, l: nat)
    requires l < Pow64(n)
    ensures High(n, h * Pow64(n) + l) == h && Low(n, h * Pow64(n) + l) == l && Tail(n, h * Pow64(n) + l) == Tail(n, l)
    decreases n
  {
    if n > 0 {
      var w, p := h * Pow64(n) + l, Pow64(n - 1);
      Regroup(h, p);
      HighStep(n, w);
      HighStep(n, l);
      JoinStep(h * p, l);
      TailStep(n, w);
      TailStep(n, l);
      hide High, Low, Pow64, Tail;
      JoinBits(n - 1, h, l / 64);
    }
  }

  lemma {:induction false} JoinStep(hp: nat, l: nat)
    ensures (64 * hp + l) / 64 == hp + l / 64 && (64 * hp + l) % 64 == l % 64
    ensures l == l / 64 * 64 + l % 64
  {
  }

  lemma {:induction false} TailInjective(n: nat, a: nat, b: nat)
    requires a < Pow64(n) && b < Pow64(n) && Tail(n, a) == Tail(n, b)
    ensures a == b
    decreases n
  {
    if n > 0 {
      assert Tail(n, a)[n - 1] == Tail(n, b)[n - 1];
      assert Tail(n, a)[..n - 1] == Tail(n, b)[..n - 1];
      TailInjective(n - 1, a / 64, b / 64);
    }
  }

  // ----- Encoding a character -----

  /** `l >> c`, for a shift by whole groups of six bits. */
  function ShiftRight(l: nat, c: nat): nat
    requires c % 6 == 0
  {
    High(c / 6, l)
  }

  lemma {:induction false} TailAt(n: nat, w: nat, i: nat)
    requires i < n
    ensures Tail(n, w)[i] as int == 0x80 + High(n - 1 - i, w) % 64
    decreases n
  {
    if i < n - 1 {
      TailAt(n - 1, w / 64, i);
    }
  }

  /** `unitoutf`. */
  method UniToUtf(wc: int) returns (s: seq<byte>, nc: int)
    requires 0 <= wc < 0x1_0000_0000
    ensures IsChar(wc) ==> nc == |s| && s == Encoding(wc)
    ensures !IsChar(wc) ==> nc == -1
  {
    hide High, Pow64, Tail;
    nc := 0;
    var t := 0;
    while t < 6
      invariant 0 <= t <= 6 && nc == t
      invariant forall i :: 0 <= i < t ==> wc > Row(i).lmask
    {
      nc := nc + 1;
      if wc <= Row(t).lmask {
        assert t > 0 ==> wc > Row(t - 1).lmask;
        assert Length(wc) == nc && Row(t).shift == 6 * (nc - 1) && (t > 0 ==> Row(t).cval == Lead(nc));
        var c := Row(t).shift;
        s := [First(wc, t)];
        while c > 0
          invariant c % 6 == 0 && 0 <= c <= 6 * (nc - 1)
          invariant s == [FirstByte(wc)] + Tail(nc - 1, wc)[..nc - 1 - c / 6]
        {
          ghost var k := nc - 1 - c / 6;
          TailAt(nc - 1, wc, k);
          assert Tail(nc - 1, wc)[..k + 1] == Tail(nc - 1, wc)[..k] + [Tail(nc - 1, wc)[k]];
          c := c - 6;
          s := s + [0x80 + ShiftRight(wc, c) % 64];
        }
        assert Tail(nc - 1, wc)[..nc - 1] == Tail(nc - 1, wc);
        return s, nc;
      }
      t := t + 1;
    }
    assert wc > Row(5).lmask;
    return [], -1;
  }

  /** The first byte of a character whose row is `t`. */
  function First(wc: int, t: int): (b: byte)
    requires IsChar(wc) && 0 <= t < 6 && Length(wc) == t + 1
    ensures b == FirstByte(wc)
  {
    HighBits(wc);
    Row(t).cval + ShiftRight(wc, Row(t).shift)
  }

  /** The six forms, byte by byte: the first byte tells the length by its leading ones and holds the high
      bits, and each of the others holds the next six. */
  lemma {:induction false} SixForms(w: int)
    requires 0 <= w <= 0x7FFFFFFF
    ensures var a, b, c, d, e := w / 0x40, w / 0x1000, w / 0x40000, w / 0x1000000, w / 0x40000000;
      Encoding(w) ==
        if w <= 0x7F then [w]
        else if w <= 0x7FF then [0xC0 + a, Six(w)]
        else if w <= 0xFFFF then [0xE0 + b, Six(a), Six(w)]
        else if w <= 0x1FFFFF then [0xF0 + c, Six(b), Six(a), Six(w)]
        else if w <= 0x3FFFFFF then [0xF8 + d, Six(c), Six(b), Six(a), Six(w)]
        else [0xFC + e, Six(d), Six(c), Six(b), Six(a), Six(w)]
  {
    HighIs(w);
    var n, code := Length(w) - 1, Encoding(w);
    assert code[0] as int == Lead(n + 1) + High(n, w);
    EncodingAt(w);
    hide Tail, High, Encoding, InClass, Six;
    assert n > 0 ==> code[n] == Six(High(0, w));
    assert n > 1 ==> code[n - 1] == Six(High(1, w));
    assert n > 2 ==> code[n - 2] == Six(High(2, w));
    assert n > 3 ==> code[n - 3] == Six(High(3, w));
    assert n > 4 ==> code[n - 4] == Six(High(4, w));
  }

  /** The low six bits in a byte that continues a sequence. */
  function Six(w: nat): byte { 0x80 + w % 0x40 }

  lemma {:induction false} EncodingAt(w: int)
    requires IsChar(w)
    ensures var n := Length(w) - 1; forall k :: 0 <= k < n ==> Encoding(w)[n - k] == Six(High(k, w))
  {
    var n := Length(w) - 1;
    forall k | 0 <= k < n ensures Encoding(w)[n - k] == Six(High(k, w)) {
      TailAt(n, w, n - k - 1);
    }
  }

  lemma {:induction false} HighIs(w: nat)
    ensures High(0, w) == w && High(1, w) == w / 0x40 && High(2, w) == w / 0x1000 && High(3, w) == w / 0x40000
    ensures High(4, w) == w / 0x1000000 && High(5, w) == w / 0x40000000
  {
    var w1, w2, w3, w4, w5 := w / 0x40, w / 0x1000, w / 0x40000, w / 0x1000000, w / 0x40000000;
    assert w2 == w1 / 0x40 && w3 == w2 / 0x40 && w4 == w3 / 0x40 && w5 == w4 / 0x40;
    assert High(1, w4) == w5;
    assert High(1, w3) == w4 && High(2, w3) == w5;
    assert High(1, w2) == w3 && High(2, w2) == w4 && High(3, w2) == w5;
    assert High(1, w1) == w2 && High(2, w1) == w3 && High(3, w1) == w4 && High(4, w1) == w5;
  }

  // ----- Decoding a character -----

  /** `w` is the character that `s` begins with. */
  predicate BeginsWith(s: seq<byte>, w: int) {
    IsChar(w) && Encoding(w) <= s
  }

  /** With a first byte of class `i` and low bits `d`: the character `v`, which is encoded like this
      exactly when it is not too small for so many bytes. */
  lemma {:induction false} Assemble(s: seq<byte>, i: nat, d: nat, v: int)
    requires i < 6 && |s| > i && InClass(s[0], i) && d < Pow64(i) && s[1..i + 1] == Tail(i, d)
    requires v == (s[0] * Pow64(i) + d) % (Row(i).lmask + 1)
    ensures v >= Row(i).lval ==> BeginsWith(s, v) && Length(v) == i + 1
    ensures forall w :: BeginsWith(s, w) ==> w == v && v >= Row(i).lval
  {
    hide *;
    MaskValue(s[0], i, d);
    if v >= Row(i).lval {
      AssembleOk(s, i, d, v);
    }
    forall w | BeginsWith(s, w) ensures w == v && v >= Row(i).lval {
      OnlyAssembly(s, i, d, w);
    }
  }

  lemma {:induction false} AssembleOk(s: seq<byte>, i: nat, d: nat, v: int)
    requires i < 6 && |s| > i && InClass(s[0], i) && d < Pow64(i) && s[1..i + 1] == Tail(i, d)
    requires v == (s[0] - Row(i).cval) * Pow64(i) + d && Row(i).lval <= v <= Row(i).lmask && s[0] >= Row(i).cval
    ensures BeginsWith(s, v) && Length(v) == i + 1
  {
    JoinBits(i, s[0] - Row(i).cval, d);
    assert Length(v) == i + 1 && Row(i).cval == (if i == 0 then 0 else Lead(i + 1));
    hide Tail, High, Low, Pow64, InClass;
    assert Encoding(v) == [s[0]] + Tail(i, d);
    assert s[..i + 1] == [s[0]] + s[1..i + 1];
  }

  lemma {:induction false} OnlyAssembly(s: seq<byte>, i: nat, d: nat, w: int)
    requires i < 6 && |s| > i && InClass(s[0], i) && d < Pow64(i) && s[1..i + 1] == Tail(i, d)
    requires BeginsWith(s, w)
    ensures w == (s[0] - Row(i).cval) * Pow64(i) + d && w >= Row(i).lval
  {
    var code := Encoding(w);
    assert s[..|code|] == code && s[0] == code[0] && s[1..|code|] == code[1..];
    OneClass(s[0], i, Length(w) - 1);
    SplitBits(i, w);
    assert Row(i).cval == (if i == 0 then 0 else Lead(i + 1));
    hide Tail, High, Low, Pow64, InClass;
    assert code[1..] == Tail(i, w);
    TailInjective(i, Low(i, w), d);
  }

  lemma {:induction false} OneClass(c: byte, i: nat, j: nat)
    requires i < 6 && j < 6 && InClass(c, i) && InClass(c, j)
    ensures i == j
  {
  }

  lemma {:induction false} MaskValue(c: byte, i: nat, d: nat)
    requires i < 6 && InClass(c, i) && d < Pow64(i)
    ensures (c * Pow64(i) + d) % (Row(i).lmask + 1) == (c - Row(i).cval) * Pow64(i) + d && c >= Row(i).cval
    ensures (c - Row(i).cval) * Pow64(i) + d <= Row(i).lmask
  {
    ClassRange(c, i);
    Pows();
    hide Pow64, InClass;
    if i == 0 {
      assert c * Pow64(i) == c;
    } else if i == 1 {
      assert c * Pow64(i) == c * 0x40;
    } else if i == 2 {
      assert c * Pow64(i) == c * 0x1000;
    } else if i == 3 {
      assert c * Pow64(i) == c * 0x40000;
    } else if i == 4 {
      assert c * Pow64(i) == c * 0x1000000;
    } else {
      assert c * Pow64(i) == c * 0x40000000;
    }
  }

  /** What a character's bytes look like. */
  lemma {:induction false} Announces(s: seq<byte>)
    ensures forall w :: BeginsWith(s, w) ==>
      var n := Length(w);
      1 <= n <= 6 && n <= |s| && InClass(s[0], n - 1) && (forall j :: 0 < j < n ==> 0x80 <= s[j] < 0xC0)
  {
    forall w | BeginsWith(s, w)
      ensures var n := Length(w);
        1 <= n <= 6 && n <= |s| && InClass(s[0], n - 1) && (forall j :: 0 < j < n ==> 0x80 <= s[j] < 0xC0)
    {
      var code := Encoding(w);
      forall j | 0 <= j < |code| ensures s[j] == code[j] {
        assert s[..|code|][j] == code[j];
      }
      hide InClass, High, Tail;
      forall j | 0 < j < |code| ensures 0x80 <= s[j] < 0xC0 {
        assert code[j] == Tail(|code| - 1, w)[j - 1];
      }
    }
  }

  /** A byte string begins with at most one character. */
  lemma {:induction false} OnlyOne(s: seq<byte>, v: int, w: int)
    requires BeginsWith(s, v) && BeginsWith(s, w)
    ensures v == w
  {
    Announces(s);
    var i := Length(v) - 1;
    var code := Encoding(v);
    assert s[..i + 1] == code && s[1..i + 1] == code[1..] == Tail(i, v);
    SplitBits(i, v);
    Assemble(s, i, Low(i, v), (s[0] * Pow64(i) + Low(i, v)) % (Row(i).lmask + 1));
  }

  /** Decoding what was encoded: the bytes of a character, whatever follows them, begin with that
      character and no other. */
  lemma {:induction false} DecodesBack(w: int, rest: seq<byte>)
    requires IsChar(w)
    ensures BeginsWith(Encoding(w) + rest, w) && forall v :: BeginsWith(Encoding(w) + rest, v) ==> v == w
  {
    hide Encoding;
    forall v | BeginsWith(Encoding(w) + rest, v) ensures v == w {
      OnlyOne(Encoding(w) + rest, v, w);
    }
  }

  lemma {:induction false} TailMore(n: nat, d: nat, c: nat)
    requires d < Pow64(n) && c < 64
    ensures Tail(n + 1, d * 64 + c) == Tail(n, d) + [0x80 + c] && d * 64 + c < Pow64(n + 1)
  {
    TailStep(n + 1, d * 64 + c);
  }

  /** `utftouni`. */
  method UtfToUni(s: seq<byte>) returns (p: int, nc: int)
    ensures nc == -1 || 1 <= nc <= 6
    ensures nc > 0 ==> BeginsWith(s, p) && nc == Length(p)
    ensures nc == -1 ==> forall w :: !BeginsWith(s, w)
  {
    Announces(s);
    hide BeginsWith, Length, Tail, InClass;
    p, nc := 0, 0;
    if |s| <= nc {
      return p, -1;
    }
    var l := s[0] as int;
    var t := 0;
    ghost var d := 0;
    NoTail(s);
    while t < 6
      invariant 0 <= t <= 6 && nc == t < |s|
      invariant 0 <= d < Pow64(t) && s[1..t + 1] == Tail(t, d) && l == s[0] * Pow64(t) + d
      invariant forall j :: 0 <= j < t ==> !InClass(s[0], j)
    {
      nc := nc + 1;
      if InClass(s[0], t) {
        Assemble(s, t, d, l % (Row(t).lmask + 1));
        l := l % (Row(t).lmask + 1);
        if l < Row(t).lval {
          return p, -1;
        }
        return l, nc;
      }
      if |s| <= nc {
        return p, -1;
      }
      var c := (s[nc] as int + 0x80) % 0x100;
      if c >= 0x40 {
        return p, -1;
      }
      TailMore(t, d, c);
      Regroup(s[0], Pow64(t));
      assert s[1..nc + 1] == s[1..nc] + [s[nc]];
      l, d := l * 64 + c, d * 64 + c;
      t := t + 1;
    }
    return p, -1;
  }

  lemma {:induction false} NoTail(s: seq<byte>)
    requires s != []
    ensures Pow64(0) == 1 && s[1..1] == Tail(0, 0)
  {
  }

  /** Encoding what was decoded: if bytes begin with a character at all, then decoding it and encoding
      the result gives back just the bytes that were taken. */
  method Recode(s: seq<byte>) returns (nc: int, t: seq<byte>)
    ensures nc == -1 <==> forall w :: !BeginsWith(s, w)
    ensures nc != -1 ==> 1 <= nc <= 6 && nc <= |s| && t == s[..nc]
  {
    var p;
    p, nc := UtfToUni(s);
    t := [];
    if nc != -1 {
      var nc2;
      t, nc2 := UniToUtf(p);
      assert s[..Length(p)] == Encoding(p);
    }
  }

  // ----- Counting the bytes of a conversion -----

  const SLP_CHAR_ASCII := 3
  const SLP_CHAR_UTF8 := 106
  const SLP_CHAR_UNICODE16 := 1000
  const SLP_CHAR_UNICODE32 := 1001
  const SLP_ERROR_INTERNAL_ERROR := 10

  predicate AreChars(ws: seq<int>) {
    forall i :: 0 <= i < |ws| ==> IsChar(ws[i])
  }

  function EncodingAll(ws: seq<int>): seq<byte>
    requires AreChars(ws)
  {
    if ws == [] then [] else Encoding(ws[0]) + EncodingAll(ws[1..])
  }

  predicate Spells(s: seq<byte>, ws: seq<int>) {
    AreChars(ws) && s == EncodingAll(ws)
  }

  /** A string is spelled by at most one sequence of characters, one character at a time. */
  lemma {:induction false} SpellsFirst(s: seq<byte>, ws: seq<int>)
    requires Spells(s, ws)
    ensures s == [] <==> ws == []
    ensures s != [] ==> BeginsWith(s, ws[0]) && Spells(s[Length(ws[0])..], ws[1..])
  {
    if ws != [] {
      assert s[..Length(ws[0])] == Encoding(ws[0]);
      assert s[Length(ws[0])..] == EncodingAll(ws[1..]);
    }
  }

  lemma {:induction false} SpellsMore(s: seq<byte>, ws: seq<int>, rest: seq<byte>, w: int)
    requires Spells(s, ws) && BeginsWith(rest, w)
    ensures Spells(s + rest[..Length(w)], ws + [w])
    decreases ws
  {
    hide Encoding, Length;
    var code := rest[..Length(w)];
    if ws == [] {
      assert code == Encoding(w);
      assert [w][1..] == [] && ws + [w] == [w] && s + code == Encoding(w) + [];
    } else {
      SpellsFirst(s, ws);
      var tail := s[Length(ws[0])..];
      SpellsMore(tail, ws[1..], rest, w);
      assert (ws + [w])[1..] == ws[1..] + [w];
      assert s == Encoding(ws[0]) + tail && s + code == Encoding(ws[0]) + (tail + code);
    }
  }

  lemma {:induction false} SpelledOnce(s: seq<byte>, a: seq<int>, b: seq<int>)
    requires Spells(s, a) && Spells(s, b)
    ensures a == b
    decreases a
  {
    SpellsFirst(s, a);
    SpellsFirst(s, b);
    if s != [] {
      OnlyOne(s, a[0], b[0]);
      hide Spells, BeginsWith;
      SpelledOnce(s[Length(a[0])..], a[1..], b[1..]);
      assert a == [a[0]] + a[1..] && b == [b[0]] + b[1..];
    }
  }

  /** The `int` that a `size_t` is cast to is negative. */
  predicate IsNegative(n: nat) { n % 0x1_0000_0000 >= 0x8000_0000 }

  /** The bytes that `n` characters take in a Unicode encoding. */
  function Width(encoding: int, n: nat): nat {
    if encoding == SLP_CHAR_UNICODE16 then 2 * n else 4 * n
  }

  /** What the code asks of the bytes left after the first character. */
  predicate Manageable(utf: seq<byte>, ws: seq<int>)
    requires ws != []
  {
    |utf| < 0x8000_0000 + Length(ws[0])
  }

  /** `SLPv1ToEncoding` without a buffer.  For the two Unicode encodings it succeeds exactly when the
      string is UTF-8, the bytes that it needs fit, and fewer than 2^31 bytes are left after its first
      character; for ASCII and UTF-8 it returns the length of the string if that fits. */
  method ToEncoding(len: nat, encoding: int, utf: seq<byte>) returns (rc: int, len': nat)
    ensures rc == 0 || rc == SLP_ERROR_INTERNAL_ERROR
    ensures encoding == SLP_CHAR_ASCII || encoding == SLP_CHAR_UTF8 ==>
      (rc == 0 <==> |utf| <= len) && (rc == 0 ==> len' == |utf|)
    ensures encoding !in {SLP_CHAR_ASCII, SLP_CHAR_UTF8, SLP_CHAR_UNICODE16, SLP_CHAR_UNICODE32} ==> rc != 0
    ensures encoding == SLP_CHAR_UNICODE16 || encoding == SLP_CHAR_UNICODE32 ==>
      (rc == 0 <==> exists ws :: Converts(utf, ws, encoding, len)) &&
      (rc == 0 ==> forall ws :: Spells(utf, ws) ==> len' == Width(encoding, |ws|))
    ensures rc != 0 ==> len' == len
  {
    if encoding == SLP_CHAR_ASCII || encoding == SLP_CHAR_UTF8 {
      if len < |utf| {
        return SLP_ERROR_INTERNAL_ERROR, len;
      }
      return 0, |utf|;
    }
    if encoding != SLP_CHAR_UNICODE16 && encoding != SLP_CHAR_UNICODE32 {
      return SLP_ERROR_INTERNAL_ERROR, len;
    }
    rc, len' := CountEncoding(len, encoding, utf);
  }

  /** The string is UTF-8, what it needs fits, and the code can manage its length. */
  ghost predicate Converts(utf: seq<byte>, ws: seq<int>, encoding: int, len: nat) {
    Spells(utf, ws) && Width(encoding, |ws|) <= len && (ws == [] || Manageable(utf, ws))
  }

  /** The loop over the characters, for the two Unicode encodings. */
  method CountEncoding(len: nat, encoding: int, utf: seq<byte>) returns (rc: int, len': nat)
    requires encoding == SLP_CHAR_UNICODE16 || encoding == SLP_CHAR_UNICODE32
    ensures rc == 0 || rc == SLP_ERROR_INTERNAL_ERROR
    ensures rc == 0 <==> exists ws :: Converts(utf, ws, encoding, len)
    ensures rc == 0 ==> forall ws :: Spells(utf, ws) ==> len' == Width(encoding, |ws|)
    ensures rc != 0 ==> len' == len
  {
    rc, len' := SLP_ERROR_INTERNAL_ERROR, len;
    assert rc != 0;
    hide *;
    ghost var isUtf, all := TheSpelling(utf);
    var total, pos := 0, 0;
    ghost var ws, k, left: seq<int> := [], 0, all;
    assert utf[..0] == [] && utf[0..] == utf;
    SpellsNothing();
    WidthStep(encoding, 0, 0);
    while pos < |utf|
      invariant 0 <= pos <= |utf| && Spells(utf[..pos], ws) && k == |ws|
      invariant total == Width(encoding, k) <= len
      invariant isUtf ==> Spells(utf[pos..], left) && |all| == k + |left|
      invariant if pos == 0 then left == all && ws == [] else !IsNegative(|utf| - pos)
      invariant isUtf && pos > 0 ==> StaysLong(|utf|, all, pos)
      decreases |utf| - pos
    {
      if isUtf {
        StartsWell(utf[pos..], left);
      }
      var uni, nc := UtfToUni(utf[pos..]);
      if nc < 0 {
        assert !isUtf;
        Refuses(utf, isUtf, all, encoding, len);
        return;
      }
      Advance(utf, pos, ws, uni, isUtf, left);
      WidthStep(encoding, k, |all|);
      if isUtf {
        Shrinks(|utf|, all, pos, nc, uni);
      }
      if IsNegative(|utf| - pos - nc) {
        Refuses(utf, isUtf, all, encoding, len);
        return;
      }
      pos := pos + nc;
      ws, k := ws + [uni], k + 1;
      if isUtf {
        left := left[1..];
      }
      total := total + (if encoding == SLP_CHAR_UNICODE16 then 2 else 4);
      if total > len {
        Refuses(utf, isUtf, all, encoding, len);
        return;
      }
    }
    assert utf[..pos] == utf;
    Accepts(utf, ws, encoding, len);
    return 0, total;
  }

  /** If too many bytes are left after the first character, then still after `pos` bytes. */
  predicate StaysLong(size: nat, all: seq<int>, pos: nat) {
    all != [] && Length(all[0]) <= pos <= size && (size >= 0x8000_0000 + Length(all[0]) ==> size - pos >= 0x8000_0000)
  }

  lemma {:induction false} Shrinks(size: nat, all: seq<int>, pos: nat, nc: nat, w: int)
    requires 0 < nc <= 6 && pos + nc <= size && nc == Length(w)
    requires if pos == 0 then all != [] && w == all[0] else StaysLong(size, all, pos) && !IsNegative(size - pos)
    ensures StaysLong(size, all, pos + nc)
    ensures IsNegative(size - pos - nc) ==> size >= 0x8000_0000 + Length(all[0])
  {
  }

  lemma {:induction false} Refuses(utf: seq<byte>, isUtf: bool, all: seq<int>, encoding: int, len: nat)
    requires forall ws :: Spells(utf, ws) ==> isUtf && ws == all
    requires isUtf ==> Width(encoding, |all|) > len || (all != [] && |utf| >= 0x8000_0000 + Length(all[0]))
    ensures !exists ws :: Converts(utf, ws, encoding, len)
  {
  }

  lemma {:induction false} Accepts(utf: seq<byte>, ws: seq<int>, encoding: int, len: nat)
    requires Spells(utf, ws) && Width(encoding, |ws|) <= len
    requires utf == [] || exists all :: Spells(utf, all) && StaysLong(|utf|, all, |utf|)
    ensures Converts(utf, ws, encoding, len) && forall vs :: Spells(utf, vs) ==> vs == ws
  {
    SpellsFirst(utf, ws);
    forall vs | Spells(utf, vs) ensures vs == ws {
      SpelledOnce(utf, vs, ws);
    }
    hide Spells, Length;
  }

  lemma {:induction false} StartsWell(s: seq<byte>, ws: seq<int>)
    requires Spells(s, ws) && s != []
    ensures ws != [] && BeginsWith(s, ws[0])
  {
    SpellsFirst(s, ws);
  }

  lemma {:induction false} WidthStep(encoding: int, n: nat, all: nat)
    ensures Width(encoding, 0) == 0
    ensures Width(encoding, n + 1) == Width(encoding, n) + (if encoding == SLP_CHAR_UNICODE16 then 2 else 4)
    ensures n < all ==> Width(encoding, n + 1) <= Width(encoding, all)
  {
  }

  lemma {:induction false} TheSpelling(s: seq<byte>) returns (isUtf: bool, all: seq<int>)
    ensures isUtf ==> Spells(s, all)
    ensures forall ws :: Spells(s, ws) ==> isUtf && ws == all
  {
    isUtf, all := exists ws :: Spells(s, ws), [];
    if isUtf {
      all :| Spells(s, all);
      forall ws | Spells(s, ws) ensures ws == all {
        SpelledOnce(s, ws, all);
      }
    }
  }

  lemma {:induction false} Advance(s: seq<byte>, pos: nat, ws: seq<int>, w: int, isUtf: bool, left: seq<int>)
    requires pos < |s| && Spells(s[..pos], ws) && BeginsWith(s[pos..], w)
    requires isUtf ==> Spells(s[pos..], left)
    ensures var next := pos + Length(w);
      && next <= |s| && Spells(s[..next], ws + [w])
      && (isUtf ==> left != [] && w == left[0] && Spells(s[next..], left[1..]))
  {
    AtMostAll(s[pos..], w);
    hide BeginsWith, Spells, Length;
    var n := Length(w);
    SpellsMore(s[..pos], ws, s[pos..], w);
    assert s[..pos] + s[pos..][..n] == s[..pos + n] && s[pos..][n..] == s[pos + n..];
    if isUtf {
      SpellsFirst(s[pos..], left);
      OnlyOne(s[pos..], left[0], w);
    }
  }

  lemma {:induction false} AtMostAll(s: seq<byte>, w: int)
    requires BeginsWith(s, w)
    ensures Length(w) <= |s|
  {
  }

  lemma {:induction false} SpellsNothing()
    ensures Spells([], [])
  {
  }
}
