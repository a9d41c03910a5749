/** Big-endian integers in message buffers, and the byte strings that are hashed to sign messages
    (authentication blocks, section 9.2 of RFC 2608). */
module Wire {

  import opened Basics

  function Pow256(n: nat): nat {
    if n == 0 then 1 else 0x100 * Pow256(n - 1)
  }

  /** The lowest `n` bytes of a value, most significant first. */
  function Bytes(n: nat, val: nat): (s: seq<byte>)
    ensures |s| == n
  {
    if n == 0 then [] else Bytes(n - 1, val / 0x100) + [val % 0x100]
  }

  /** The value of big-endian bytes. */
  function Value(s: seq<byte>): nat {
    if s == [] then 0 else Value(s[..|s| - 1]) * 0x100 + s[|s| - 1] as int
  }

  /** Extracting what was inserted gives back the value, if it fits in the field. */
  lemma {:induction false} ValueOfBytes(n: nat, val: nat)
    requires val < Pow256(n)
    ensures Value(Bytes(n, val)) == val
    decreases n
  {
    if n > 0 {
      ValueOfBytes(n - 1, val / 0x100);
      assert Bytes(n, val)[..n - 1] == Bytes(n - 1, val / 0x100);
    }
  }

  /** A value that does not fit is cut to the width of the field. */
  lemma {:induction false} ValueIsCut(val: nat)
    ensures Value(Bytes(2, val)) == val % 0x1_0000
    ensures Value(Bytes(3, val)) == val % 0x100_0000
    ensures Value(Bytes(4, val)) == val % 0x1_0000_0000
  {
    BytesUnfold(val);
    ValueUnfold(Bytes(2, val));
    ValueUnfold(Bytes(3, val));
    ValueUnfold(Bytes(4, val));
    hide Bytes, Value;
    Cut2(val);
    Cut3(val);
    Cut4(val);
  }

  lemma {:induction false} Cut2(v: nat)
    ensures v % 0x1_0000 == 0x100 * (v / 0x100 % 0x100) + v % 0x100
  {
    var q := v / 0x100;
    assert v == 0x1_0000 * (q / 0x100) + (0x100 * (q % 0x100) + v % 0x100);
  }

  lemma {:induction false} Cut3(v: nat)
    ensures v % 0x100_0000 == 0x1_0000 * (v / 0x1_0000 % 0x100) + v % 0x1_0000
  {
    var q := v / 0x1_0000;
    assert v == 0x100_0000 * (q / 0x100) + (0x1_0000 * (q % 0x100) + v % 0x1_0000);
  }

  lemma {:induction false} Cut4(v: nat)
    ensures v % 0x1_0000_0000 == 0x100_0000 * (v / 0x100_0000 % 0x100) + v % 0x100_0000
  {
    var q := v / 0x100_0000;
    assert v == 0x1_0000_0000 * (q / 0x100) + (0x100_0000 * (q % 0x100) + v % 0x100_0000);
  }

  /** Inserting what was extracted gives back the bytes. */
  lemma {:induction false} BytesOfValue(s: seq<byte>)
    ensures Bytes(|s|, Value(s)) == s
    decreases s
  {
    if s != [] {
      BytesOfValue(s[..|s| - 1]);
    }
  }

  // ----- Buffers -----

  /** A buffer and the pointer that moves through it. */
  class Buffer {
    const data: array<byte>
    var curpos: nat

    ghost predicate Valid()
      reads this
    {
      curpos <= data.Length
    }

    /** What has been written so far. */
    ghost function Written(): seq<byte>
      requires Valid()
      reads this, data
    {
      data[..curpos]
    }

    constructor (size: nat)
      ensures Valid() && data.Length == size && curpos == 0 && fresh(data)
    {
      data := new byte[size](_ => 0);
      curpos := 0;
    }

    method PutUINT16(val: nat)
      requires Valid() && curpos + 2 <= data.Length
      modifies this, data
      ensures Valid() && Written() == old(Written()) + Bytes(2, val) && data[curpos..] == old(data[curpos + 2..])
    {
      data[curpos] := val / 0x100 % 0x100;
      data[curpos + 1] := val % 0x100;
      curpos := curpos + 2;
      BytesUnfold(val);
    }

    method PutUINT24(val: nat)
      requires Valid() && curpos + 3 <= data.Length
      modifies this, data
      ensures Valid() && Written() == old(Written()) + Bytes(3, val) && data[curpos..] == old(data[curpos + 3..])
    {
      data[curpos] := val / 0x1_0000 % 0x100;
      data[curpos + 1] := val / 0x100 % 0x100;
      data[curpos + 2] := val % 0x100;
      curpos := curpos + 3;
      BytesUnfold(val);
    }

    method PutUINT32(val: nat)
      requires Valid() && curpos + 4 <= data.Length
      modifies this, data
      ensures Valid() && Written() == old(Written()) + Bytes(4, val) && data[curpos..] == old(data[curpos + 4..])
    {
      data[curpos] := val / 0x100_0000 % 0x100;
      data[curpos + 1] := val / 0x1_0000 % 0x100;
      data[curpos + 2] := val / 0x100 % 0x100;
      data[curpos + 3] := val % 0x100;
      curpos := curpos + 4;
      BytesUnfold(val);
    }

    method GetUINT16() returns (rv: nat)
      requires Valid() && curpos + 2 <= data.Length
      modifies this
      ensures Valid() && curpos == old(curpos) + 2 && rv == Value(data[old(curpos)..curpos])
    {
      rv := 0x100 * data[curpos] as int + data[curpos + 1] as int;
      ValueUnfold(data[curpos..curpos + 2]);
      curpos := curpos + 2;
    }

    method GetUINT24() returns (rv: nat)
      requires Valid() && curpos + 3 <= data.Length
      modifies this
      ensures Valid() && curpos == old(curpos) + 3 && rv == Value(data[old(curpos)..curpos])
    {
      rv := 0x1_0000 * data[curpos] as int + 0x100 * data[curpos + 1] as int + data[curpos + 2] as int;
      ValueUnfold(data[curpos..curpos + 3]);
      curpos := curpos + 3;
    }

    method GetUINT32() returns (rv: nat)
      requires Valid() && curpos + 4 <= data.Length
      modifies this
      ensures Valid() && curpos == old(curpos) + 4 && rv == Value(data[old(curpos)..curpos])
    {
      rv := 0x100_0000 * data[curpos] as int + 0x1_0000 * data[curpos + 1] as int
            + 0x100 * data[curpos + 2] as int + data[curpos + 3] as int;
      ValueUnfold(data[curpos..curpos + 4]);
      curpos := curpos + 4;
    }

    /** `memcpy` at the pointer, which moves on. */
    method PutBytes(s: seq<byte>)
      requires Valid() && curpos + |s| <= data.Length
      modifies this, data
      ensures Valid() && Written() == old(Written()) + s && data[curpos..] == old(data[curpos + |s|..])
    {
      forall i | 0 <= i < |s| {
        data[curpos + i] := s[i];
      }
      curpos := curpos + |s|;
    }
  }

  /** A length and the bytes that it counts: one field of what is hashed. */
  method PutField(buf: Buffer, s: seq<byte>)
    requires buf.Valid() && buf.curpos + 2 + |s| <= buf.data.Length
    modifies buf, buf.data
    ensures buf.Valid() && buf.curpos == old(buf.curpos) + 2 + |s|
    ensures buf.Written() == old(buf.Written()) + Field(s)
  {
    hide Bytes;
    buf.PutUINT16(|s|);
    buf.PutBytes(s);
  }

  lemma {:induction false} BytesUnfold(v: nat)
    ensures Bytes(2, v) == [v / 0x100 % 0x100, v % 0x100]
    ensures Bytes(3, v) == [v / 0x1_0000 % 0x100, v / 0x100 % 0x100, v % 0x100]
    ensures Bytes(4, v) == [v / 0x100_0000 % 0x100, v / 0x1_0000 % 0x100, v / 0x100 % 0x100, v % 0x100]
  {
    var q1 := v / 0x100;
    var q2 := q1 / 0x100;
    var q3 := q2 / 0x100;
    assert q2 == v / 0x1_0000 && q3 == v / 0x100_0000;
    assert Bytes(1, q3) == [q3 % 0x100] && Bytes(1, q2) == [q2 % 0x100] && Bytes(1, q1) == [q1 % 0x100];
    assert Bytes(2, q2) == [q3 % 0x100, q2 % 0x100] && Bytes(2, q1) == [q2 % 0x100, q1 % 0x100];
    assert Bytes(3, q1) == [q3 % 0x100, q2 % 0x100, q1 % 0x100];
  }

  lemma {:induction false} ValueUnfold(s: seq<byte>)
    ensures |s| == 2 ==> Value(s) == 0x100 * s[0] as int + s[1] as int
    ensures |s| == 3 ==> Value(s) == 0x1_0000 * s[0] as int + 0x100 * s[1] as int + s[2] as int
    ensures |s| == 4 ==>
      Value(s) == 0x100_0000 * s[0] as int + 0x1_0000 * s[1] as int + 0x100 * s[2] as int + s[3] as int
    decreases s
  {
    if |s| == 4 {
      assert s[..3] == [s[0], s[1], s[2]];
      ValueUnfold(s[..3]);
    } else if |s| == 3 {
      assert s[..2] == [s[0], s[1]];
      ValueUnfold(s[..2]);
    } else if |s| == 2 {
      assert s[..1] == [s[0]] && [s[0]][..0] == [];
      assert Value([s[0]]) == s[0] as int;
    }
  }

  // ----- The byte strings that are hashed -----

  /** A string in front of its length. */
  function Field(s: seq<byte>): seq<byte> {
    Bytes(2, |s|) + s
  }

  /** What is hashed for a URL or an attribute string. */
  function StringLayout(spi: seq<byte>, text: seq<byte>, timestamp: nat): seq<byte> {
    Field(spi) + (Field(text) + Bytes(4, timestamp))
  }

  /** What is signed about a directory agent. */
  datatype DAAdvert = DAAdvert(spi: seq<byte>, bootstamp: nat, url: seq<byte>, scopes: seq<byte>, attrs: seq<byte>,
                               daSpi: seq<byte>, timestamp: nat)
  {
    function Layout(): seq<byte> {
      Field(spi) + (Bytes(4, bootstamp) +
        (Field(url) + (Field(scopes) + (Field(attrs) + (Field(daSpi) + Bytes(4, timestamp))))))
    }

    /** The lengths are passed as `unsigned short`. */
    predicate Fits() {
      |spi| < 0x1_0000 && |url| < 0x1_0000 && |scopes| < 0x1_0000 && |attrs| < 0x1_0000 && |daSpi| < 0x1_0000
    }
  }

  /** Reads what a length of two bytes, the highest first, counts, if all of it is there. */
  function TakeField(s: seq<byte>): (r: Option<(seq<byte>, seq<byte>)>) {
    if |s| < 2 || |s| < 2 + 0x100 * s[0] as int + s[1] as int then None
    else var end := 2 + 0x100 * s[0] as int + s[1] as int; Some((s[2..end], s[end..]))
  }

  /** Reads a number of four bytes, the highest first. */
  function TakeNumber(s: seq<byte>): (r: Option<(int, seq<byte>)>) {
    if |s| < 4 then None
    else
      Some((0x100_0000 * s[0] as int + 0x1_0000 * s[1] as int + 0x100 * s[2] as int + s[3] as int, s[4..]))
  }

  lemma {:induction false} TakesField(a: seq<byte>, rest: seq<byte>)
    requires |a| < 0x1_0000
    ensures TakeField(Field(a) + rest) == Some((a, rest))
  {
    BytesUnfold(|a|);
    hide Bytes;
    var s := Field(a) + rest;
    assert s[0] as int == |a| / 0x100 && s[1] as int == |a| % 0x100;
    assert s[2..2 + |a|] == a && s[2 + |a|..] == rest;
  }

  lemma {:induction false} TakesNumber(n: nat, rest: seq<byte>)
    ensures TakeNumber(Bytes(4, n) + rest) == Some((n % 0x1_0000_0000, rest))
  {
    ValueIsCut(n);
    ValueUnfold(Bytes(4, n));
    hide Bytes, Value;
    var s := Bytes(4, n) + rest;
    assert s[0] == Bytes(4, n)[0] && s[1] == Bytes(4, n)[1] && s[2] == Bytes(4, n)[2] && s[3] == Bytes(4, n)[3];
    assert s[4..] == rest;
  }

  /** What is hashed about a directory agent reads back, field by field, as the name of the parameters, the boot
      stamp, the URL, the scopes, the attributes, the names it supports, and the time stamp, and nothing is left. */
  lemma {:induction false} DAAdvertReads(a: DAAdvert)
    requires |a.spi| < 0x1_0000 && |a.url| < 0x1_0000 && |a.scopes| < 0x1_0000 && |a.attrs| < 0x1_0000
    requires |a.daSpi| < 0x1_0000
    ensures a.Fits()
    ensures var r1 := TakeField(a.Layout());
      && r1.Some? && r1.value.0 == a.spi
      && var r2 := TakeNumber(r1.value.1);
      && r2.Some? && r2.value.0 == a.bootstamp % 0x1_0000_0000
      && var r3 := TakeField(r2.value.1);
      && r3.Some? && r3.value.0 == a.url
      && var r4 := TakeField(r3.value.1);
      && r4.Some? && r4.value.0 == a.scopes
      && var r5 := TakeField(r4.value.1);
      && r5.Some? && r5.value.0 == a.attrs
      && var r6 := TakeField(r5.value.1);
      && r6.Some? && r6.value.0 == a.daSpi
      && TakeNumber(r6.value.1) == Some((a.timestamp % 0x1_0000_0000, []))
  {
    hide Field, Bytes, TakeField, TakeNumber;
    var l7 := Bytes(4, a.timestamp);
    assert l7 + [] == l7;
    var l6 := Field(a.daSpi) + l7;
    var l5 := Field(a.attrs) + l6;
    var l4 := Field(a.scopes) + l5;
    var l3 := Field(a.url) + l4;
    var l2 := Bytes(4, a.bootstamp) + l3;
    TakesField(a.spi, l2);
    TakesNumber(a.bootstamp, l3);
    TakesField(a.url, l4);
    TakesField(a.scopes, l5);
    TakesField(a.attrs, l6);
    TakesField(a.daSpi, l7);
    TakesNumber(a.timestamp, []);
  }

  /** And what is hashed for a string, as the name, the text and the time stamp. */
  lemma {:induction false} StringReads(spi: seq<byte>, text: seq<byte>, timestamp: nat)
    requires |spi| < 0x1_0000 && |text| < 0x1_0000
    ensures var r1 := TakeField(StringLayout(spi, text, timestamp));
      && r1.Some? && r1.value.0 == spi
      && var r2 := TakeField(r1.value.1);
      && r2.Some? && r2.value.0 == text
      && TakeNumber(r2.value.1) == Some((timestamp % 0x1_0000_0000, []))
  {
    hide Field, Bytes, TakeField, TakeNumber;
    var l3 := Bytes(4, timestamp);
    assert l3 + [] == l3;
    TakesField(spi, Field(text) + l3);
    TakesField(text, l3);
    TakesNumber(timestamp, []);
  }

  lemma {:induction false} Split(a: seq<byte>, x: seq<byte>, b: seq<byte>, y: seq<byte>)
    requires |a| == |b| && a + x == b + y
    ensures a == b && x == y
  {
    assert a == (a + x)[..|a|] && x == (a + x)[|a|..];
    assert b == (b + y)[..|b|] && y == (b + y)[|b|..];
  }

  lemma {:induction false} FieldSplit(a: seq<byte>, x: seq<byte>, b: seq<byte>, y: seq<byte>)
    requires |a| < 0x1_0000 && |b| < 0x1_0000 && Field(a) + x == Field(b) + y
    ensures a == b && x == y
  {
    hide Bytes, Value;
    FieldFront(a, x);
    FieldFront(b, y);
    Split(Bytes(2, |a|), a + x, Bytes(2, |b|), b + y);
    ValueIsCut(|a|);
    ValueIsCut(|b|);
    Split(a, x, b, y);
  }

  lemma {:induction false} FieldFront(a: seq<byte>, x: seq<byte>)
    ensures Field(a) + x == Bytes(2, |a|) + (a + x)
  {
  }

  lemma {:induction false} StampSplit(m: nat, x: seq<byte>, n: nat, y: seq<byte>)
    requires Bytes(4, m) + x == Bytes(4, n) + y
    ensures m % 0x1_0000_0000 == n % 0x1_0000_0000 && x == y
  {
    Split(Bytes(4, m), x, Bytes(4, n), y);
    ValueIsCut(m);
    ValueIsCut(n);
  }

  /** Two directory agents are signed over the same bytes exactly when everything that is signed about
      them is the same, with stamps cut to 32 bits. */
  lemma {:induction false} DAAdvertInjective(a: DAAdvert, b: DAAdvert)
    requires a.Fits() && b.Fits()
    ensures a.Layout() == b.Layout() <==>
      && a.spi == b.spi && a.url == b.url && a.scopes == b.scopes && a.attrs == b.attrs && a.daSpi == b.daSpi
      && a.bootstamp % 0x1_0000_0000 == b.bootstamp % 0x1_0000_0000
      && a.timestamp % 0x1_0000_0000 == b.timestamp % 0x1_0000_0000
  {
    hide Field, Bytes;
    StampBytes(a.bootstamp, b.bootstamp);
    StampBytes(a.timestamp, b.timestamp);
    if a.Layout() == b.Layout() {
      var a6, b6 := Bytes(4, a.timestamp), Bytes(4, b.timestamp);
      var a5, b5 := Field(a.daSpi) + a6, Field(b.daSpi) + b6;
      var a4, b4 := Field(a.attrs) + a5, Field(b.attrs) + b5;
      var a3, b3 := Field(a.scopes) + a4, Field(b.scopes) + b4;
      var a2, b2 := Field(a.url) + a3, Field(b.url) + b3;
      FieldSplit(a.spi, Bytes(4, a.bootstamp) + a2, b.spi, Bytes(4, b.bootstamp) + b2);
      StampSplit(a.bootstamp, a2, b.bootstamp, b2);
      FieldSplit(a.url, a3, b.url, b3);
      FieldSplit(a.scopes, a4, b.scopes, b4);
      FieldSplit(a.attrs, a5, b.attrs, b5);
      FieldSplit(a.daSpi, a6, b.daSpi, b6);
      StampSplit(a.timestamp, [], b.timestamp, []);
    }
  }

  /** Stamps are the same on the wire exactly when they agree in their lowest 32 bits. */
  lemma {:induction false} StampBytes(m: nat, n: nat)
    ensures Bytes(4, m) == Bytes(4, n) <==> m % 0x1_0000_0000 == n % 0x1_0000_0000
    ensures Bytes(4, m) + [] == Bytes(4, m) && Bytes(4, n) + [] == Bytes(4, n)
  {
    ValueIsCut(m);
    ValueIsCut(n);
    BytesOfValue(Bytes(4, m));
    BytesOfValue(Bytes(4, n));
  }

  /** Two signed strings. */
  ghost predicate SameSigned(spi: seq<byte>, text: seq<byte>, t: nat, spi': seq<byte>, text': seq<byte>, t': nat) {
    spi == spi' && text == text' && t % 0x1_0000_0000 == t' % 0x1_0000_0000
  }

  /** For lengths under 2^16: only the same strings, with stamps cut to 32 bits, are signed over the same
      bytes, however long the other name and text are. */
  lemma {:induction false} StringInjective(spi: seq<byte>, text: seq<byte>, t: nat, spi': seq<byte>, text': seq<byte>,
                                           t': nat)
    requires |spi| < 0x1_0000 && |text| < 0x1_0000
    ensures StringLayout(spi, text, t) == StringLayout(spi', text', t') <==> SameSigned(spi, text, t, spi', text', t')
  {
    hide Bytes;
    StampBytes(t, t');
    if StringLayout(spi, text, t) == StringLayout(spi', text', t') {
      SameLength(spi, text, t, spi', text', t');
      hide Field, StringLayout;
      StringUnfolds(spi, text, t);
      StringUnfolds(spi', text', t');
      FieldSplit(spi, Field(text) + Bytes(4, t), spi', Field(text') + Bytes(4, t'));
      FieldSplit(text, Bytes(4, t), text', Bytes(4, t'));
    }
  }

  lemma {:induction false} StringUnfolds(spi: seq<byte>, text: seq<byte>, t: nat)
    ensures StringLayout(spi, text, t) == Field(spi) + (Field(text) + Bytes(4, t))
    ensures |StringLayout(spi, text, t)| == 8 + |spi| + |text|
  {
  }

  /** The first length in the layout leaves no choice if the lengths are small. */
  lemma {:induction false} SameLength(spi: seq<byte>, text: seq<byte>, t: nat, spi': seq<byte>, text': seq<byte>,
                                      t': nat)
    requires |spi| < 0x1_0000 && |text| < 0x1_0000 && StringLayout(spi, text, t) == StringLayout(spi', text', t')
    ensures |spi'| == |spi| && |text'| == |text|
  {
    hide Bytes, Value;
    StringUnfolds(spi, text, t);
    StringUnfolds(spi', text', t');
    FieldFront(spi, Field(text) + Bytes(4, t));
    FieldFront(spi', Field(text') + Bytes(4, t'));
    hide Field, StringLayout;
    Split(Bytes(2, |spi|), spi + (Field(text) + Bytes(4, t)), Bytes(2, |spi'|), spi' + (Field(text') + Bytes(4, t')));
    ValueIsCut(|spi|);
    ValueIsCut(|spi'|);
  }

  function Zeros(n: nat): (s: seq<byte>)
    ensures |s| == n && forall i :: 0 <= i < n ==> s[i] == 0
  {
    seq(n, _ => 0)
  }

  /** What is behind the length of a text of 2^16 bytes or more can be read as a part of the name. */
  lemma {:induction false} Shifted(x: seq<byte>, rest: seq<byte>, text: seq<byte>, t: nat)
    requires |rest| == 0x1_0000 - 2
    ensures StringLayout(x + Bytes(2, |text|) + rest, text, t) == StringLayout(x, rest + Bytes(2, |text|) + text, t)
  {
    var n, spi, text' := Bytes(2, |text|), x + Bytes(2, |text|) + rest, rest + Bytes(2, |text|) + text;
    Wraps(|x|);
    Wraps(|text|);
    hide Bytes;
    assert Bytes(2, |spi|) == Bytes(2, |x|) && Bytes(2, |text'|) == n;
    var stamp := Bytes(4, t);
    assert (Bytes(2, |x|) + (x + n + rest)) + ((n + text) + stamp)
        == (Bytes(2, |x|) + x) + ((n + (rest + n + text)) + stamp);
  }

  lemma {:induction false} Wraps(n: nat)
    ensures Bytes(2, n + 0x1_0000) == Bytes(2, n)
  {
    BytesUnfold(n);
    BytesUnfold(n + 0x1_0000);
    hide Bytes;
    WrapDigits(n);
  }

  lemma {:induction false} WrapDigits(n: nat)
    ensures (n + 0x1_0000) / 0x100 % 0x100 == n / 0x100 % 0x100 && (n + 0x1_0000) % 0x100 == n % 0x100
  {
    var q, r := n / 0x100, n % 0x100;
    assert n == 0x100 * q + r;
    assert n + 0x1_0000 == 0x100 * (q + 0x100) + r;
    Digit(q + 0x100, r);
    Digit(1, q);
  }

  lemma {:induction false} Digit(q: nat, r: nat)
    ensures r < 0x100 ==> (0x100 * q + r) / 0x100 == q && (0x100 * q + r) % 0x100 == r
    ensures (r + 0x100) % 0x100 == r % 0x100
  {
  }

  /** For every pair of lengths of which one is 2^16 or more there are different strings, the first with
      these lengths, that are signed over the same bytes. */
  lemma {:induction false} StringCollision(m: nat, n: nat, t: nat)
    returns (spi: seq<byte>, text: seq<byte>, spi': seq<byte>, text': seq<byte>)
    requires m >= 0x1_0000 || n >= 0x1_0000
    ensures |spi| == m && |text| == n && spi != spi'
    ensures StringLayout(spi, text, t) == StringLayout(spi', text', t)
  {
    hide StringLayout;
    var rest := Zeros(0x1_0000 - 2);
    if m >= 0x1_0000 {
      spi', text := Zeros(m - 0x1_0000), Zeros(n);
      spi, text' := spi' + Bytes(2, n) + rest, rest + Bytes(2, n) + text;
      Shifted(spi', rest, text, t);
    } else {
      var k := n - 0x1_0000;
      spi, text' := Zeros(m), Zeros(k);
      text, spi' := rest + Bytes(2, k) + text', spi + Bytes(2, k) + rest;
      Shifted(spi, rest, text', t);
    }
  }

  /** Whether what is signed over strings of these lengths says which strings they are. */
  ghost predicate Unambiguous(m: nat, n: nat) {
    forall spi: seq<byte>, text: seq<byte>, t: nat, spi': seq<byte>, text': seq<byte>, t': nat ::
      |spi| == m && |text| == n && StringLayout(spi, text, t) == StringLayout(spi', text', t') ==>
        SameSigned(spi, text, t, spi', text', t')
  }

  /** Exactly the strings of which both lengths are under 2^16 are signed unambiguously. */
  lemma {:induction false} UnambiguousLengths(m: nat, n: nat)
    ensures Unambiguous(m, n) <==> m < 0x1_0000 && n < 0x1_0000
  {
    hide StringLayout;
    if m < 0x1_0000 && n < 0x1_0000 {
      forall spi: seq<byte>, text: seq<byte>, t: nat, spi': seq<byte>, text': seq<byte>, t': nat |
        |spi| == m && |text| == n && StringLayout(spi, text, t) == StringLayout(spi', text', t')
        ensures SameSigned(spi, text, t, spi', text', t')
      {
        StringInjective(spi, text, t, spi', text', t');
      }
    } else {
      var spi, text, spi', text' := StringCollision(m, n, 0);
      assert !SameSigned(spi, text, 0, spi', text', 0);
    }
  }

  // ----- Filling the buffers -----

  /** The buffer that `SLPAuthDigestString` hashes; it is filled exactly. */
  method FillString(spi: seq<byte>, text: seq<byte>, timestamp: nat) returns (tmpbuf: Buffer)
    ensures tmpbuf.Valid() && tmpbuf.curpos == tmpbuf.data.Length
    ensures tmpbuf.Written() == StringLayout(spi, text, timestamp)
  {
    hide Bytes, Field;
    tmpbuf := new Buffer(2 + |spi| + 2 + |text| + 4);
    PutField(tmpbuf, spi);
    PutField(tmpbuf, text);
    tmpbuf.PutUINT32(timestamp);
    assert tmpbuf.Written() == StringLayout(spi, text, timestamp);
  }

  /** The buffer that `SLPAuthDigestDAAdvert` hashes; it is filled exactly. */
  method FillDAAdvert(a: DAAdvert) returns (tmpbuf: Buffer)
    requires a.Fits()
    ensures tmpbuf.Valid() && tmpbuf.curpos == tmpbuf.data.Length && tmpbuf.Written() == a.Layout()
  {
    hide Bytes, Field;
    tmpbuf := new Buffer(2 + |a.spi| + 4 + 2 + |a.url| + 2 + |a.attrs| + 2 + |a.scopes| + 2 + |a.daSpi| + 4);
    PutField(tmpbuf, a.spi);
    tmpbuf.PutUINT32(a.bootstamp);
    PutField(tmpbuf, a.url);
    PutField(tmpbuf, a.scopes);
    PutField(tmpbuf, a.attrs);
    PutField(tmpbuf, a.daSpi);
    tmpbuf.PutUINT32(a.timestamp);
    Associate(Field(a.spi), Bytes(4, a.bootstamp), Field(a.url), Field(a.scopes), Field(a.attrs), Field(a.daSpi),
              Bytes(4, a.timestamp));
  }

  lemma {:induction false} Associate(a: seq<byte>, b: seq<byte>, c: seq<byte>, d: seq<byte>, e: seq<byte>, f: seq<byte>,
                                     g: seq<byte>)
    ensures [] + a + b + c + d + e + f + g == a + (b + (c + (d + (e + (f + g)))))
  {
    assert e + f + g == e + (f + g);
    assert c + d + (e + (f + g)) == c + (d + (e + (f + g)));
    assert a + b + (c + (d + (e + (f + g)))) == a + (b + (c + (d + (e + (f + g)))));
  }
}
