/** The walk over the options of a DHCP message (section 2 of RFC 2132), and the collection of
    directory agents and scopes from them (sections 3 and 4 of RFC 2610, and an older format). */
module Dhcp {

  import opened Basics

  const COOKIE: seq<byte> := [99, 130, 83, 99]
  const TAG_PAD := 0
  const TAG_SLP_DA := 78
  const TAG_SLP_SCOPE := 79
  const TAG_END := 255
  const DA_NAME_PRESENT := 0x80
  const DA_NAME_IS_DNS := 0x40
  const CT_ASCII := 3
  const CT_UNICODE := 1000
  const ADDRLIST_SIZE := 256
  const SCOPELIST_SIZE := 256

  datatype Opt = Opt(tag: byte, payload: seq<byte>)

  /** What an options field is made of. */
  datatype Piece = Pad | Option(opt: Opt)

  predicate WfOpt(o: Opt) {
    TAG_PAD < o.tag < TAG_END && |o.payload| < 0x100
  }

  predicate WfPieces(ps: seq<Piece>) {
    forall i :: 0 <= i < |ps| ==> ps[i].Option? ==> WfOpt(ps[i].opt)
  }

  function EncodePiece(p: Piece): seq<byte>
    requires p.Option? ==> WfOpt(p.opt)
  {
    if p.Pad? then [TAG_PAD] else [p.opt.tag, |p.opt.payload|] + p.opt.payload
  }

  function Encode(ps: seq<Piece>): seq<byte>
    requires WfPieces(ps)
  {
    if ps == [] then [] else EncodePiece(ps[0]) + Encode(ps[1..])
  }

  /** The options of a field, in order. */
  function Options(ps: seq<Piece>): seq<Opt> {
    if ps == [] then [] else (if ps[0].Option? then [ps[0].opt] else []) + Options(ps[1..])
  }

  /** The `int` that a `size_t` is cast to. */
  function AsInt(n: nat): (i: int)
    ensures -0x8000_0000 <= i < 0x8000_0000 && (i - n) % 0x1_0000_0000 == 0
  {
    var low := n % 0x1_0000_0000;
    if low < 0x8000_0000 then low else low - 0x1_0000_0000
  }

  /** What a walk finds: whether it gets to the end, and the options on the way. */
  datatype Walk = Walk(ok: bool, opts: seq<Opt>)

  function WalkFrom(data: seq<byte>, pos: nat): Walk
    decreases |data| - pos
  {
    if pos >= |data| || data[pos] == TAG_END then Walk(true, [])
    else if data[pos] == TAG_PAD then WalkFrom(data, pos + 1)
    else if pos + 1 >= |data| || data[pos + 1] as int > AsInt(|data| - pos - 2) then Walk(false, [])
    else
      AsIntBelow(|data| - pos - 2);
      var end := pos + 2 + data[pos + 1] as int;
      var rest := WalkFrom(data, end);
      Walk(rest.ok, [Opt(data[pos], data[pos + 2..end])] + rest.opts)
  }

  lemma {:induction false} AsIntBelow(n: nat)
    ensures AsInt(n) <= n && (n < 0x8000_0000 ==> AsInt(n) == n)
  {
  }

  /** A callback, with the context that it is handed: what it returns, and the context afterwards. */
  type Callback<!S> = (S, byte, seq<byte>) -> (int, S)

  /** The callback on one option after the other, up to the first that it refuses: what it returned for
      that one, or `end`, and the context afterwards. */
  function Deliver<S>(cb: Callback<S>, opts: seq<Opt>, context: S, end: int): (int, S)
    decreases opts
  {
    if opts == [] then (end, context)
    else
      var (err, context') := cb(context, opts[0].tag, opts[0].payload);
      if err != 0 then (err, context') else Deliver(cb, opts[1..], context', end)
  }

  predicate HasCookie(data: seq<byte>) {
    |data| >= 4 && data[..4] == COOKIE
  }

  /** The result of a walk that gets to the end, or does not. */
  function EndOf(w: Walk): int { if w.ok then 0 else -1 }

  /** `dhcpProcessOptions`.  Every slice passed to the callback lies inside the data. */
  method ProcessOptions<S>(data: seq<byte>, cb: Callback<S>, context: S) returns (err: int, context': S)
    ensures !HasCookie(data) ==> err == -1 && context' == context
    ensures HasCookie(data) ==> var w := WalkFrom(data, 4); (err, context') == Deliver(cb, w.opts, context, EndOf(w))
  {
    hide WalkFrom, Deliver;
    if |data| < 4 || data[0] != COOKIE[0] || data[1] != COOKIE[1] || data[2] != COOKIE[2] || data[3] != COOKIE[3] {
      return -1, context;
    }
    err, context' := ProcessTags(data, cb, context);
  }

  /** The loop over the tags, after the cookie. */
  method ProcessTags<S>(data: seq<byte>, cb: Callback<S>, context: S) returns (err: int, context': S)
    requires |data| >= 4
    ensures var w := WalkFrom(data, 4); (err, context') == Deliver(cb, w.opts, context, EndOf(w))
  {
    hide *;
    context' := context;
    var pos, datasz := 4, |data| - 4;
    ghost var all := WalkFrom(data, 4);
    ghost var end := EndOf(all);
    while datasz > 0 && data[pos] != TAG_END
      invariant 4 <= pos && pos + datasz == |data|
      invariant EndOf(WalkFrom(data, pos)) == end
      invariant Deliver(cb, WalkFrom(data, pos).opts, context', end) == Deliver(cb, all.opts, context, end)
      decreases datasz
    {
      WalkStep(data, pos);
      datasz := datasz - 1;
      var tag := data[pos];
      pos := pos + 1;
      if tag != TAG_PAD {
        if datasz == 0 {
          Finish(cb, context', end);
          return -1, context';
        }
        datasz := datasz - 1;
        var taglen := data[pos];
        pos := pos + 1;
        if taglen as int > AsInt(datasz) {
          Finish(cb, context', end);
          return -1, context';
        }
        AsIntBelow(datasz);
        var optdata := data[pos..pos + taglen];
        Proceed(cb, Opt(tag, optdata), WalkFrom(data, pos + taglen).opts, context', end);
        var (e, next) := cb(context', tag, optdata);
        context' := next;
        if e != 0 {
          return e, context';
        }
        datasz := datasz - taglen;
        pos := pos + taglen;
      }
    }
    WalkStep(data, pos);
    Finish(cb, context', end);
    err := 0;
  }

  lemma {:induction false} Finish<S>(cb: Callback<S>, context: S, end: int)
    ensures Deliver(cb, [], context, end) == (end, context)
  {
  }

  lemma {:induction false} Proceed<S>(cb: Callback<S>, o: Opt, rest: seq<Opt>, context: S, end: int)
    ensures var (err, context') := cb(context, o.tag, o.payload);
      Deliver(cb, [o] + rest, context, end) == if err != 0 then (err, context') else Deliver(cb, rest, context', end)
  {
    assert ([o] + rest)[1..] == rest;
  }

  lemma {:induction false} WalkStep(data: seq<byte>, pos: nat)
    ensures var w := WalkFrom(data, pos);
      if pos >= |data| || data[pos] == TAG_END then w == Walk(true, []) && EndOf(w) == 0
      else if data[pos] == TAG_PAD then w == WalkFrom(data, pos + 1)
      else if pos + 1 >= |data| || data[pos + 1] as int > AsInt(|data| - pos - 2) then
        w == Walk(false, []) && EndOf(w) == -1
      else
        AsInt(|data| - pos - 2) <= |data| - pos - 2 &&
        var end := pos + 2 + data[pos + 1] as int;
        && w == Walk(WalkFrom(data, end).ok, [Opt(data[pos], data[pos + 2..end])] + WalkFrom(data, end).opts)
        && EndOf(w) == EndOf(WalkFrom(data, end))
  {
    if pos + 1 < |data| {
      AsIntBelow(|data| - pos - 2);
    }
  }

  /** One step of the walk for data of any size: a byte 255 and the end of the data end it, a byte 0 is passed
      over, and another tag is refused without a size byte behind it, or if the bytes left, as an `int`, are
      fewer than the size says; so with 2^31 bytes left every option is refused. */
  lemma {:induction false} TagRead(data: seq<byte>, pos: nat)
    ensures var w, left := WalkFrom(data, pos), (|data| - pos - 2) % 0x1_0000_0000;
      && (pos >= |data| || data[pos] == 255 ==> w == Walk(true, []))
      && (pos < |data| && data[pos] == 0 ==> w == WalkFrom(data, pos + 1))
      && (pos < |data| && data[pos] != 255 && data[pos] != 0 ==>
            if pos + 1 == |data| || left >= 0x8000_0000 || data[pos + 1] as int > left then w == Walk(false, [])
            else
              var end := pos + 2 + data[pos + 1] as int;
              && end <= |data|
              && w == Walk(WalkFrom(data, end).ok, [Opt(data[pos], data[pos + 2..end])] + WalkFrom(data, end).opts))
  {
    WalkStep(data, pos);
    hide WalkFrom;
  }

  // ----- Walks and fields -----

  lemma {:induction false} EncodeMore(ps: seq<Piece>, p: Piece)
    requires WfPieces(ps) && (p.Option? ==> WfOpt(p.opt))
    ensures WfPieces([p] + ps) && Encode([p] + ps) == EncodePiece(p) + Encode(ps)
    ensures Options([p] + ps) == (if p.Option? then [p.opt] else []) + Options(ps)
  {
    assert ([p] + ps)[1..] == ps;
  }

  /** The pieces from position `pos` of the data on. */
  ghost predicate PiecesAt(data: seq<byte>, pos: nat, ps: seq<Piece>) {
    && WfPieces(ps) && pos + |Encode(ps)| <= |data| && data[pos..pos + |Encode(ps)|] == Encode(ps)
    && (pos + |Encode(ps)| == |data| || data[pos + |Encode(ps)|] == TAG_END)
  }

  lemma {:induction false} FirstPiece(data: seq<byte>, pos: nat, ps: seq<Piece>)
    requires PiecesAt(data, pos, ps) && ps != []
    ensures var e := EncodePiece(ps[0]);
      && (ps[0].Option? ==> WfOpt(ps[0].opt))
      && pos + |e| <= |data| && data[pos..pos + |e|] == e && PiecesAt(data, pos + |e|, ps[1..])
      && Options(ps) == (if ps[0].Option? then [ps[0].opt] else []) + Options(ps[1..])
  {
    hide Encode, Options, EncodePiece, WfPieces;
    EncodeFirst(ps);
    var rest, e := ps[1..], EncodePiece(ps[0]);
    Slices(data, pos, |e|, |Encode(rest)|);
    Parts(e, Encode(rest));
  }

  lemma {:induction false} EncodeFirst(ps: seq<Piece>)
    requires WfPieces(ps) && ps != []
    ensures WfPieces(ps[1..]) && (ps[0].Option? ==> WfOpt(ps[0].opt))
    ensures Encode(ps) == EncodePiece(ps[0]) + Encode(ps[1..])
    ensures Options(ps) == (if ps[0].Option? then [ps[0].opt] else []) + Options(ps[1..])
  {
  }

  lemma {:induction false} Parts(a: seq<byte>, b: seq<byte>)
    ensures (a + b)[..|a|] == a && (a + b)[|a|..] == b
  {
  }

  lemma {:induction false} Slices(data: seq<byte>, pos: nat, m: nat, n: nat)
    requires pos + m + n <= |data|
    ensures var whole := data[pos..pos + (m + n)];
      && whole[..m] == data[pos..pos + m] && whole[m..] == data[pos + m..pos + m + n]
      && whole == data[pos..pos + m] + data[pos + m..pos + m + n]
  {
  }

  /** The walk over a field finds exactly its options, in order. */
  lemma {:induction false} WalkOfPieces(data: seq<byte>, pos: nat, ps: seq<Piece>)
    requires PiecesAt(data, pos, ps) && |data| < 0x8000_0000
    ensures WalkFrom(data, pos) == Walk(true, Options(ps))
    decreases ps
  {
    hide *;
    if ps == [] {
      NoPieces(data, pos);
    } else {
      FirstPiece(data, pos, ps);
      WalkOfPieces(data, pos + |EncodePiece(ps[0])|, ps[1..]);
      ReadPiece(data, pos, ps[0]);
    }
  }

  lemma {:induction false} NoPieces(data: seq<byte>, pos: nat)
    requires PiecesAt(data, pos, [])
    ensures WalkFrom(data, pos) == Walk(true, []) && Options([]) == []
  {
  }

  lemma {:induction false} ReadPiece(data: seq<byte>, pos: nat, p: Piece)
    requires (p.Option? ==> WfOpt(p.opt)) && |data| < 0x8000_0000
    requires var e := EncodePiece(p); pos + |e| <= |data| && data[pos..pos + |e|] == e
    ensures var rest := WalkFrom(data, pos + |EncodePiece(p)|);
      WalkFrom(data, pos) == Walk(rest.ok, (if p.Option? then [p.opt] else []) + rest.opts)
  {
    var e := EncodePiece(p);
    WalkStep(data, pos);
    hide WalkFrom;
    var whole := data[pos..pos + |e|];
    assert data[pos] == whole[0];
    if p.Option? {
      assert data[pos + 1] == whole[1];
      assert data[pos + 2..pos + |e|] == whole[2..] == p.opt.payload;
      AsIntBelow(|data| - pos - 2);
    }
  }

  /** A walk that gets to the end has gone over a field. */
  lemma {:induction false} PiecesOfWalk(data: seq<byte>, pos: nat) returns (ps: seq<Piece>)
    requires pos <= |data| && WalkFrom(data, pos).ok
    ensures PiecesAt(data, pos, ps) && WalkFrom(data, pos).opts == Options(ps)
    decreases |data| - pos
  {
    WalkStep(data, pos);
    if pos >= |data| || data[pos] == TAG_END {
      ps := [];
      NothingAt(data, pos);
    } else if data[pos] == TAG_PAD {
      hide *;
      var rest := PiecesOfWalk(data, pos + 1);
      PadFound(data, pos, rest);
      ps := [Pad] + rest;
    } else {
      var end := pos + 2 + data[pos + 1] as int;
      var o := Opt(data[pos], data[pos + 2..end]);
      assert WfOpt(o);
      hide *;
      var rest := PiecesOfWalk(data, end);
      OptionFound(data, pos, o, rest);
      ps := [Option(o)] + rest;
    }
  }

  lemma {:induction false} NothingAt(data: seq<byte>, pos: nat)
    requires pos == |data| || (pos < |data| && data[pos] == TAG_END)
    ensures PiecesAt(data, pos, []) && Options([]) == []
  {
    assert data[pos..pos] == [];
  }

  lemma {:induction false} PadFound(data: seq<byte>, pos: nat, rest: seq<Piece>)
    requires pos < |data| && data[pos] == TAG_PAD && PiecesAt(data, pos + 1, rest)
    ensures PiecesAt(data, pos, [Pad] + rest) && Options([Pad] + rest) == Options(rest)
  {
    assert WfPieces(rest) && EncodePiece(Pad) == [TAG_PAD] == data[pos..pos + 1];
    hide *;
    EncodeMore(rest, Pad);
    AddPiece(data, pos, Pad, rest);
  }

  lemma {:induction false} OptionFound(data: seq<byte>, pos: nat, o: Opt, rest: seq<Piece>)
    requires WfOpt(o) && pos + 2 + |o.payload| <= |data| && data[pos] == o.tag && data[pos + 1] as int == |o.payload|
    requires data[pos + 2..pos + 2 + |o.payload|] == o.payload && PiecesAt(data, pos + 2 + |o.payload|, rest)
    ensures PiecesAt(data, pos, [Option(o)] + rest) && Options([Option(o)] + rest) == [o] + Options(rest)
  {
    OptionBytes(data, pos, |o.payload|);
    assert WfPieces(rest) && EncodePiece(Option(o)) == [data[pos], data[pos + 1]] + o.payload;
    hide *;
    EncodeMore(rest, Option(o));
    AddPiece(data, pos, Option(o), rest);
  }

  lemma {:induction false} OptionBytes(data: seq<byte>, pos: nat, n: nat)
    requires pos + 2 + n <= |data|
    ensures data[pos..pos + 2 + n] == [data[pos], data[pos + 1]] + data[pos + 2..pos + 2 + n]
  {
  }

  lemma {:induction false} AddPiece(data: seq<byte>, pos: nat, p: Piece, rest: seq<Piece>)
    requires p.Option? ==> WfOpt(p.opt)
    requires var e := EncodePiece(p);
      pos + |e| <= |data| && data[pos..pos + |e|] == e && PiecesAt(data, pos + |e|, rest)
    ensures PiecesAt(data, pos, [p] + rest)
  {
    EncodeMore(rest, p);
    hide Encode, Options, EncodePiece, WfPieces;
    Slices(data, pos, |EncodePiece(p)|, |Encode(rest)|);
  }

  /** The callback accepts every option it is handed. */
  ghost predicate Accepts<S(!new)>(cb: Callback<S>) {
    forall context: S, tag: byte, payload: seq<byte> :: cb(context, tag, payload).0 == 0
  }

  /** The contexts that an accepting callback goes through. */
  function Fold<S>(cb: Callback<S>, opts: seq<Opt>, context: S): S {
    if opts == [] then context
    else
      var last := opts[|opts| - 1];
      cb(Fold(cb, opts[..|opts| - 1], context), last.tag, last.payload).1
  }

  lemma {:induction false} FoldFirst<S>(cb: Callback<S>, opts: seq<Opt>, context: S)
    requires opts != []
    ensures Fold(cb, opts, context) == Fold(cb, opts[1..], cb(context, opts[0].tag, opts[0].payload).1)
    decreases opts
  {
    var n := |opts| - 1;
    if n > 0 {
      FoldFirst(cb, opts[..n], context);
      assert opts[..n][1..] == opts[1..][..n - 1];
    } else {
      assert opts[..n] == [] && opts[1..] == [];
    }
  }

  lemma {:induction false} AllDelivered<S(!new)>(cb: Callback<S>, opts: seq<Opt>, context: S, end: int)
    requires Accepts(cb)
    ensures Deliver(cb, opts, context, end) == (end, Fold(cb, opts, context))
    decreases opts
  {
    if opts != [] {
      FoldFirst(cb, opts, context);
      hide Fold;
      AllDelivered(cb, opts[1..], cb(context, opts[0].tag, opts[0].payload).1, end);
    }
  }

  /** The walk gets to the end exactly on fields; on a field, a callback that accepts every option is
      handed exactly its options, in order, and the result is zero; on other data it is -1. */
  lemma {:induction false} AcceptedFields<S(!new)>(data: seq<byte>, cb: Callback<S>, context: S)
    requires HasCookie(data) && |data| < 0x8000_0000 && Accepts(cb)
    ensures WalkFrom(data, 4).ok <==> exists ps :: PiecesAt(data, 4, ps)
    ensures forall ps :: PiecesAt(data, 4, ps) ==>
      var w := WalkFrom(data, 4); Deliver(cb, w.opts, context, EndOf(w)) == (0, Fold(cb, Options(ps), context))
    ensures (forall ps :: !PiecesAt(data, 4, ps)) ==>
      var w := WalkFrom(data, 4); Deliver(cb, w.opts, context, EndOf(w)) == (-1, Fold(cb, w.opts, context))
  {
    assert |data| >= 4;
    assert EndOf(Walk(true, [])) == 0;
    hide *;
    if WalkFrom(data, 4).ok {
      var ps := PiecesOfWalk(data, 4);
    }
    forall ps | PiecesAt(data, 4, ps)
      ensures WalkFrom(data, 4) == Walk(true, Options(ps))
      ensures Deliver(cb, Options(ps), context, 0) == (0, Fold(cb, Options(ps), context))
    {
      WalkOfPieces(data, 4, ps);
      AllDelivered(cb, Options(ps), context, 0);
    }
    Ends();
    AllDelivered(cb, WalkFrom(data, 4).opts, context, -1);
  }

  lemma {:induction false} Ends()
    ensures forall w :: EndOf(w) == if w.ok then 0 else -1
  {
  }

  /** The first option that the callback refuses ends the delivery, with what the callback has returned; its
      context is that after this option. */
  lemma {:induction false} FirstRefusal<S>(cb: Callback<S>, opts: seq<Opt>, context: S, end: int, k: nat)
    requires k < |opts|
    requires forall j :: 0 <= j < k ==> cb(Fold(cb, opts[..j], context), opts[j].tag, opts[j].payload).0 == 0
    requires cb(Fold(cb, opts[..k], context), opts[k].tag, opts[k].payload).0 != 0
    ensures Deliver(cb, opts, context, end) ==
            (cb(Fold(cb, opts[..k], context), opts[k].tag, opts[k].payload).0, Fold(cb, opts[..k + 1], context))
    decreases k
  {
    FoldNone(cb, opts, context);
    if k == 0 {
      FoldShift(cb, opts, context, 0);
      assert Fold(cb, opts[1..][..0], cb(context, opts[0].tag, opts[0].payload).1) ==
             cb(context, opts[0].tag, opts[0].payload).1;
    } else {
      var next := cb(context, opts[0].tag, opts[0].payload).1;
      forall j | 0 <= j <= k ensures Fold(cb, opts[..j + 1], context) == Fold(cb, opts[1..][..j], next) {
        FoldShift(cb, opts, context, j);
      }
      hide Fold;
      forall j | 0 <= j < k
        ensures cb(Fold(cb, opts[1..][..j], next), opts[1..][j].tag, opts[1..][j].payload).0 ==
                cb(Fold(cb, opts[..j + 1], context), opts[j + 1].tag, opts[j + 1].payload).0
      {
      }
      FirstRefusal(cb, opts[1..], next, end, k - 1);
    }
  }

  lemma {:induction false} FoldNone<S>(cb: Callback<S>, opts: seq<Opt>, context: S)
    ensures opts[..0] == [] && Fold(cb, [], context) == context
  {
  }

  lemma {:induction false} FoldShift<S>(cb: Callback<S>, opts: seq<Opt>, context: S, j: nat)
    requires j < |opts|
    ensures Fold(cb, opts[..j + 1], context) ==
            Fold(cb, opts[1..][..j], cb(context, opts[0].tag, opts[0].payload).1)
  {
    FoldFirst(cb, opts[..j + 1], context);
    hide Fold;
    assert opts[..j + 1][1..] == opts[1..][..j];
  }

  /** A field is written piece by piece: a zero byte for padding, and an option as its tag, a byte that counts
      its payload, and the payload; what makes a message one with options are four bytes at its front. */
  lemma {:induction false} FieldBytes(p: Piece, ps: seq<Piece>, data: seq<byte>)
    requires WfPieces([p] + ps)
    ensures WfPieces(ps) && Encode([]) == []
    ensures p.Pad? ==> Encode([p] + ps) == [0] + Encode(ps)
    ensures p.Option? ==>
      |p.opt.payload| < 256 && Encode([p] + ps) == [p.opt.tag, |p.opt.payload|] + p.opt.payload + Encode(ps)
    ensures HasCookie(data) <==>
      |data| >= 4 && data[0] == 0x63 && data[1] == 0x82 && data[2] == 0x53 && data[3] == 0x63
  {
    assert ([p] + ps)[0] == p && ([p] + ps)[1..] == ps;
    assert forall i :: 0 <= i < |ps| ==> ([p] + ps)[i + 1] == ps[i];
    if |data| >= 4 {
      assert data[..4] == [data[0], data[1], data[2], data[3]];
    }
  }

  // ----- Directory agents and scopes -----

  /** What is collected: the addresses, and a buffer for the scopes with the length of its text. */
  datatype Found = Found(addrs: seq<byte>, scopes: seq<byte>, scopelen: nat)
  {
    predicate Fits() {
      |addrs| <= ADDRLIST_SIZE && |scopes| == SCOPELIST_SIZE && scopelen <= SCOPELIST_SIZE
    }

    function Scopes(): seq<byte>
      requires Fits()
    {
      scopes[..scopelen]
    }
  }

  /** `wcstombs`: the bytes that it makes of wide characters. */
  type Narrow = seq<byte> -> seq<byte>

  function Min(a: nat, b: nat): nat { if a < b then a else b }

  /** The addresses in an option for directory agents: in the format of RFC 2610 all that follows the
      flags; in the older format one address, if the agent is not given by name. */
  function Addresses(o: Opt): seq<byte> {
    if o.tag != TAG_SLP_DA || o.payload == [] then []
    else if o.payload[0] < DA_NAME_PRESENT then o.payload[1..]
    else if o.payload[0] % DA_NAME_PRESENT >= DA_NAME_IS_DNS || |o.payload| < 6 || o.payload[1] < 4 then []
    else o.payload[2..6]
  }

  /** Tag 78 in the format of RFC 2610 adds all its addresses, whatever follows the flag byte; in the older
      format, with the highest bit of the flags set, it adds the four bytes behind the size, unless the next bit
      says that the agent is given by name, or there are fewer than four; other tags add nothing. */
  lemma {:induction false} AddressesOf(flags: byte, size: byte, rest: seq<byte>, tag: byte)
    ensures flags < 128 ==> Addresses(Opt(78, [flags] + rest)) == rest
    ensures 128 <= flags < 192 && size >= 4 && |rest| >= 4 ==>
            Addresses(Opt(78, [flags, size] + rest)) == rest[..4]
    ensures 128 <= flags && (flags >= 192 || size < 4 || |rest| < 4) ==>
            Addresses(Opt(78, [flags, size] + rest)) == []
    ensures Addresses(Opt(78, [])) == [] && (tag != 78 ==> Addresses(Opt(tag, rest)) == [])
  {
    assert ([flags] + rest)[1..] == rest;
    var p := [flags, size] + rest;
    assert p[0] == flags && p[1] == size && |p| == |rest| + 2;
    if |rest| >= 4 {
      assert p[2..6] == rest[..4];
    }
  }

  function AllAddresses(opts: seq<Opt>): seq<byte> {
    if opts == [] then [] else AllAddresses(opts[..|opts| - 1]) + Addresses(opts[|opts| - 1])
  }

  /** What of a list of addresses fits. */
  function Truncated(s: seq<byte>): (t: seq<byte>)
    ensures |t| <= ADDRLIST_SIZE
  {
    if |s| <= ADDRLIST_SIZE then s else s[..ADDRLIST_SIZE]
  }

  lemma {:induction false} TruncatedMore(a: seq<byte>, b: seq<byte>)
    ensures Truncated(Truncated(a) + b) == Truncated(a + b)
  {
    if |a| > ADDRLIST_SIZE {
      assert (Truncated(a) + b)[..ADDRLIST_SIZE] == (a + b)[..ADDRLIST_SIZE];
    }
  }

  /** `strncpy`: a text up to its first zero byte, filled up with zeros. */
  function StrNCpy(p: seq<byte>): (s: seq<byte>)
    ensures |s| == |p|
  {
    if p == [] then [] else if p[0] == 0 then seq(|p|, _ => 0) else [p[0]] + StrNCpy(p[1..])
  }

  /** That keeps every byte in front of the first zero, and makes every other one zero. */
  lemma {:induction false} StrNCpyBytes(p: seq<byte>, i: nat)
    requires i < |p|
    ensures (forall j :: 0 <= j <= i ==> p[j] != 0) ==> StrNCpy(p)[i] == p[i]
    ensures (exists j :: 0 <= j <= i && p[j] == 0) ==> StrNCpy(p)[i] == 0
    decreases p
  {
    if p[0] != 0 && i > 0 {
      StrNCpyBytes(p[1..], i - 1);
      assert forall j :: 0 < j <= i ==> p[j] == p[1..][j - 1];
    }
  }

  lemma {:induction false} StrNCpyText(p: seq<byte>)
    requires forall i :: 0 <= i < |p| ==> p[i] != 0
    ensures StrNCpy(p) == p
  {
    forall i | 0 <= i < |p|
      ensures StrNCpy(p)[i] == p[i]
    {
      StrNCpyBytes(p, i);
    }
    hide StrNCpy;
  }

  /** The encoding that the first two bytes of a scope option name, if they name one. */
  function EncodingOf(p: seq<byte>): int {
    if |p| > 1 then 0x100 * p[0] as int + p[1] as int else 0
  }

  /** An option that sets the scopes to a text. */
  predicate SetsScopes(o: Opt) {
    o.tag == TAG_SLP_SCOPE && |o.payload| > 1 && EncodingOf(o.payload) != CT_UNICODE
  }

  /** The text of such an option, behind a flag byte, or behind the encoding in the older format. */
  function RawText(o: Opt): seq<byte>
    requires SetsScopes(o)
  {
    o.payload[if EncodingOf(o.payload) == CT_ASCII then 2 else 1..]
  }

  /** The text as it is stored: cut to the buffer, of which the last byte is always zero. */
  function ScopeText(o: Opt): (s: seq<byte>)
    requires SetsScopes(o)
    ensures |s| == Min(|RawText(o)|, SCOPELIST_SIZE)
  {
    var s := StrNCpy(RawText(o)[..Min(|RawText(o)|, SCOPELIST_SIZE)]);
    if |s| == SCOPELIST_SIZE then s[SCOPELIST_SIZE - 1 := 0] else s
  }

  /** Tag 79 with a flag byte and a text sets the scopes to the text, and in the older format, behind the two
      bytes 0 and 3, likewise; the two bytes 3 and 232 mark wide characters, which do not set them. */
  lemma {:induction false} ScopesOf(flag: byte, text: seq<byte>)
    requires text != [] && |text| < 256 && forall i :: 0 <= i < |text| ==> text[i] != 0
    ensures var o := Opt(79, [flag] + text);
      !(flag == 0 && text[0] == 3) && !(flag == 3 && text[0] == 232) ==> SetsScopes(o) && ScopeText(o) == text
    ensures var o := Opt(79, [0, 3] + text); SetsScopes(o) && ScopeText(o) == text
    ensures var o := Opt(79, [3, 232] + text); IsWide(o) && !SetsScopes(o)
    ensures !SetsScopes(Opt(79, [flag]))
  {
    StrNCpyText(text);
    hide StrNCpy;
    var p, q := [flag] + text, [0, 3] + text;
    assert text[..|text|] == text && p[1] == text[0] && p[1..] == text && q[2..] == text;
    assert ([3, 232] + text)[0] == 3 && ([3, 232] + text)[1] == 232;
  }

  /** Addresses are cut to 256 bytes; of a longer text the first 255 bytes are stored, and a zero. */
  lemma {:induction false} CutTo256(addrs: seq<byte>, flag: byte, text: seq<byte>)
    ensures Truncated(addrs) == if |addrs| <= 256 then addrs else addrs[..256]
    ensures |text| >= 256 && flag > 3 && (forall i :: 0 <= i < |text| ==> text[i] != 0) ==>
      var o := Opt(79, [flag] + text); SetsScopes(o) && ScopeText(o) == text[..255] + [0]
  {
    if |text| >= 256 && flag > 3 && forall i :: 0 <= i < |text| ==> text[i] != 0 {
      var p := [flag] + text;
      assert p[1] == text[0] && p[1..] == text;
      StrNCpyText(text[..256]);
      hide StrNCpy;
    }
  }

  /** A buffer with a text at its front. */
  function Overlaid(buffer: seq<byte>, text: seq<byte>): (b: seq<byte>)
    requires |buffer| == SCOPELIST_SIZE
    ensures |b| == SCOPELIST_SIZE
  {
    var n := Min(|text|, SCOPELIST_SIZE);
    text[..n] + buffer[n..]
  }

  /** What one option adds. */
  function AfterOption(c: Found, o: Opt, narrow: Narrow): (c': Found)
    requires c.Fits()
    ensures c'.Fits()
  {
    if SetsScopes(o) then
      c.(scopes := Overlaid(c.scopes, ScopeText(o))[SCOPELIST_SIZE - 1 := 0], scopelen := |ScopeText(o)|)
    else if o.tag == TAG_SLP_SCOPE && |o.payload| > 1 then c.(scopes := Overlaid(c.scopes, narrow(o.payload[2..])))
    else c.(addrs := Truncated(c.addrs + Addresses(o)))
  }

  /** What one option does to the buffers, byte by byte: a text replaces the front and ends the buffer with a
      zero, wide characters replace the front, and neither touches the addresses. */
  lemma {:induction false} BufferAfter(c: Found, o: Opt, narrow: Narrow, j: nat)
    requires c.Fits() && o.tag == 79 && |o.payload| > 1 && j < 256
    ensures var c' := AfterOption(c, o, narrow);
      && c'.addrs == c.addrs
      && (SetsScopes(o) ==>
            c'.scopelen == |ScopeText(o)| &&
            c'.scopes[j] == if j == 255 then 0 else if j < |ScopeText(o)| then ScopeText(o)[j] else c.scopes[j])
      && (!SetsScopes(o) ==>
            var w := narrow(o.payload[2..]);
            c'.scopelen == c.scopelen && c'.scopes[j] == if j < |w| then w[j] else c.scopes[j])
  {
    hide ScopeText;
  }

  /** In the older format, an option for directory agents has a size byte.  The code relies on it. */
  predicate HasSize(o: Opt) {
    o.tag == TAG_SLP_DA && o.payload != [] && o.payload[0] >= DA_NAME_PRESENT ==> |o.payload| > 1
  }

  /** `DHCPParseSLPTags` as a callback. */
  function ParseTags(narrow: Narrow): Callback<Found> {
    (c: Found, tag: byte, payload: seq<byte>) =>
      (0, if c.Fits() then AfterOption(c, Opt(tag, payload), narrow) else c)
  }

  lemma {:induction false} ParsedOne(c: Found, o: Opt, narrow: Narrow)
    requires c.Fits()
    ensures var c' := ParseTags(narrow)(c, o.tag, o.payload).1;
      c'.Fits() && c'.addrs == Truncated(c.addrs + Addresses(o)) && c' == AfterOption(c, o, narrow)
  {
    assert Opt(o.tag, o.payload) == o;
    AddsAddresses(c, o, narrow);
    hide AfterOption;
  }

  lemma {:induction false} NothingCollected(c: Found, narrow: Narrow)
    requires c.Fits()
    ensures Fold(ParseTags(narrow), [], c) == c && c.addrs == Truncated(c.addrs + AllAddresses([]))
  {
    assert c.addrs + [] == c.addrs;
  }

  lemma {:induction false} MoreAddresses(a: seq<byte>, opts: seq<Opt>)
    requires opts != []
    ensures var n := |opts| - 1; a + AllAddresses(opts[..n]) + Addresses(opts[n]) == a + AllAddresses(opts)
  {
    var n := |opts| - 1;
    assert AllAddresses(opts) == AllAddresses(opts[..n]) + Addresses(opts[n]);
    hide *;
  }

  /** Every address is kept as long as there is room. */
  lemma {:induction false} CollectsAddresses(c: Found, opts: seq<Opt>, narrow: Narrow)
    requires c.Fits()
    ensures Fold(ParseTags(narrow), opts, c).Fits()
    ensures Fold(ParseTags(narrow), opts, c).addrs == Truncated(c.addrs + AllAddresses(opts))
    decreases opts
  {
    hide *;
    if opts == [] {
      NothingCollected(c, narrow);
    } else {
      var n := |opts| - 1;
      FoldLast(ParseTags(narrow), opts, c);
      CollectsAddresses(c, opts[..n], narrow);
      ParsedOne(Fold(ParseTags(narrow), opts[..n], c), opts[n], narrow);
      TruncatedMore(c.addrs + AllAddresses(opts[..n]), Addresses(opts[n]));
      MoreAddresses(c.addrs, opts);
    }
  }

  lemma {:induction false} AddsAddresses(c: Found, o: Opt, narrow: Narrow)
    requires c.Fits()
    ensures AfterOption(c, o, narrow).addrs == Truncated(c.addrs + Addresses(o))
  {
    assert c.addrs + [] == c.addrs;
  }

  /** A scope option with wide characters: it overwrites the front of the text, and leaves its length. */
  predicate IsWide(o: Opt) {
    o.tag == TAG_SLP_SCOPE && |o.payload| > 1 && EncodingOf(o.payload) == CT_UNICODE
  }

  /** A text with another one written over its front, and no further than its end. */
  function Over(text: seq<byte>, w: seq<byte>): (r: seq<byte>)
    ensures |r| == |text|
  {
    var n := Min(|w|, |text|);
    w[..n] + text[n..]
  }

  /** What the options with wide characters leave of a text. */
  function WideOver(text: seq<byte>, opts: seq<Opt>, narrow: Narrow): (r: seq<byte>)
    ensures |r| == |text|
  {
    if opts == [] then text
    else
      var n := |opts| - 1;
      var front := WideOver(text, opts[..n], narrow);
      if IsWide(opts[n]) then Over(front, narrow(opts[n].payload[2..])) else front
  }

  predicate SetsNone(opts: seq<Opt>) {
    forall i :: 0 <= i < |opts| ==> !SetsScopes(opts[i])
  }

  lemma {:induction false} KeepsScopes(c: Found, o: Opt, narrow: Narrow)
    requires c.Fits() && !SetsScopes(o)
    ensures AfterOption(c, o, narrow).Scopes() ==
            if IsWide(o) then Over(c.Scopes(), narrow(o.payload[2..])) else c.Scopes()
  {
    if IsWide(o) {
      var w := narrow(o.payload[2..]);
      assert Overlaid(c.scopes, w)[..c.scopelen] == Over(c.scopes[..c.scopelen], w);
    }
  }

  /** Options of which none sets the scopes leave what those with wide characters leave. */
  lemma {:induction false} NoneSetsScopes(c: Found, opts: seq<Opt>, narrow: Narrow)
    requires c.Fits() && SetsNone(opts)
    ensures var end := Fold(ParseTags(narrow), opts, c);
      end.Fits() && end.Scopes() == WideOver(c.Scopes(), opts, narrow)
    decreases opts
  {
    CollectsAddresses(c, opts, narrow);
    if opts != [] {
      var n := |opts| - 1;
      assert SetsNone(opts[..n]) && !SetsScopes(opts[n]);
      WideMore(c.Scopes(), opts, narrow);
      hide *;
      var front := Fold(ParseTags(narrow), opts[..n], c);
      NoneSetsScopes(c, opts[..n], narrow);
      FoldLast(ParseTags(narrow), opts, c);
      ParsedOne(front, opts[n], narrow);
      KeepsScopes(front, opts[n], narrow);
    }
  }

  lemma {:induction false} WideMore(text: seq<byte>, opts: seq<Opt>, narrow: Narrow)
    requires opts != []
    ensures var n := |opts| - 1;
      WideOver(text, opts, narrow) ==
      if IsWide(opts[n]) then Over(WideOver(text, opts[..n], narrow), narrow(opts[n].payload[2..]))
      else WideOver(text, opts[..n], narrow)
  {
  }

  lemma {:induction false} FoldConcat<S>(cb: Callback<S>, a: seq<Opt>, b: seq<Opt>, context: S)
    ensures Fold(cb, a + b, context) == Fold(cb, b, Fold(cb, a, context))
    decreases b
  {
    if b == [] {
      assert a + b == a;
    } else {
      var n := |b| - 1;
      FoldLast(cb, b, Fold(cb, a, context));
      FoldLast(cb, a + b, context);
      assert (a + b)[..|a + b| - 1] == a + b[..n] && (a + b)[|a + b| - 1] == b[n];
      hide Fold;
      FoldConcat(cb, a, b[..n], context);
    }
  }

  /** The last option that sets the scopes decides, up to what options with wide characters behind it
      have overwritten. */
  lemma {:induction false} LastScopeDecides(c: Found, before: seq<Opt>, o: Opt, after: seq<Opt>, narrow: Narrow)
    requires c.Fits() && SetsScopes(o) && SetsNone(after)
    ensures var end := Fold(ParseTags(narrow), before + [o] + after, c);
      end.Fits() && end.Scopes() == WideOver(ScopeText(o), after, narrow)
  {
    hide *;
    var cb := ParseTags(narrow);
    var front := Fold(cb, before, c);
    CollectsAddresses(c, before, narrow);
    FoldConcat(cb, before + [o], after, c);
    FoldLast(cb, before + [o], c);
    assert (before + [o])[..|before|] == before;
    ParsedOne(front, o, narrow);
    ScopesSet(front, o, narrow);
    NoneSetsScopes(Fold(cb, before + [o], c), after, narrow);
  }

  /** The byte that the last option with so many wide characters leaves at place `j`, where `b` was. */
  function LastByte(opts: seq<Opt>, j: nat, b: byte, narrow: Narrow): byte {
    if opts == [] then b
    else
      var n := |opts| - 1;
      if IsWide(opts[n]) && j < |narrow(opts[n].payload[2..])| then narrow(opts[n].payload[2..])[j]
      else LastByte(opts[..n], j, b, narrow)
  }

  lemma {:induction false} WideAt(text: seq<byte>, opts: seq<Opt>, narrow: Narrow, j: nat)
    requires j < |text|
    ensures WideOver(text, opts, narrow)[j] == LastByte(opts, j, text[j], narrow)
    decreases opts
  {
    if opts != [] {
      WideAt(text, opts[..|opts| - 1], narrow, j);
    }
  }

  /** The text survives exactly if at each of its places the last option that writes there writes what
      was there. */
  lemma {:induction false} TextSurvives(text: seq<byte>, opts: seq<Opt>, narrow: Narrow)
    ensures WideOver(text, opts, narrow) == text <==>
      forall j :: 0 <= j < |text| ==> LastByte(opts, j, text[j], narrow) == text[j]
  {
    forall j | 0 <= j < |text| ensures WideOver(text, opts, narrow)[j] == LastByte(opts, j, text[j], narrow) {
      WideAt(text, opts, narrow, j);
    }
    hide LastByte;
    if forall j :: 0 <= j < |text| ==> LastByte(opts, j, text[j], narrow) == text[j] {
      assert forall j :: 0 <= j < |text| ==> WideOver(text, opts, narrow)[j] == text[j];
    }
    hide WideOver;
  }

  /** It does not here: the text "A", and then a wide character that becomes anything else. */
  lemma {:induction false} WideOverwrites(c: Found, narrow: Narrow)
    requires c.Fits() && narrow([0, 66]) != [] && narrow([0, 66])[0] != 65
    ensures var o, wide := Opt(TAG_SLP_SCOPE, [0, 65]), Opt(TAG_SLP_SCOPE, [3, 0xE8, 0, 66]);
      var end := Fold(ParseTags(narrow), [o, wide], c);
      SetsScopes(o) && ScopeText(o) == [65] && IsWide(wide) && end.Fits() && end.Scopes() == [narrow([0, 66])[0]]
  {
    var o, wide := Opt(TAG_SLP_SCOPE, [0, 65]), Opt(TAG_SLP_SCOPE, [3, 0xE8, 0, 66]);
    assert RawText(o) == [65] && [65][..1] == [65] && StrNCpy([65]) == [65];
    assert wide.payload[2..] == [0, 66];
    LastScopeDecides(c, [], o, [wide], narrow);
    assert [] + [o] + [wide] == [o, wide];
    WideMore([65], [wide], narrow);
    assert WideOver([65], [wide][..0], narrow) == [65];
    assert Over([65], narrow([0, 66])) == [narrow([0, 66])[0]];
  }

  lemma {:induction false} FoldLast<S>(cb: Callback<S>, opts: seq<Opt>, context: S)
    requires opts != []
    ensures var n := |opts| - 1;
      Fold(cb, opts, context) == cb(Fold(cb, opts[..n], context), opts[n].tag, opts[n].payload).1
  {
  }

  lemma {:induction false} ScopesSet(c: Found, o: Opt, narrow: Narrow)
    requires c.Fits() && SetsScopes(o)
    ensures AfterOption(c, o, narrow).Scopes() == ScopeText(o)
  {
    var s := ScopeText(o);
    hide ScopeText;
    assert Overlaid(c.scopes, s)[..|s|] == s;
    TextEnds(o);
  }

  lemma {:induction false} TextEnds(o: Opt)
    requires SetsScopes(o)
    ensures |ScopeText(o)| == SCOPELIST_SIZE ==> ScopeText(o)[SCOPELIST_SIZE - 1] == 0
    ensures |ScopeText(o)| <= SCOPELIST_SIZE
  {
  }

  /** The scopes are the text of the last of the options that sets them, or if there is none the text
      that was there, up to what options with wide characters behind it have overwritten. */
  ghost predicate LastScopes(was: Found, end: Found, opts: seq<Opt>, narrow: Narrow)
    requires was.Fits() && end.Fits()
  {
    && (SetsNone(opts) ==> end.Scopes() == WideOver(was.Scopes(), opts, narrow))
    && (forall before, o, after :: opts == before + [o] + after && SetsScopes(o) && SetsNone(after) ==>
          end.Scopes() == WideOver(ScopeText(o), after, narrow))
  }

  lemma {:induction false} CollectsScopes(c: Found, opts: seq<Opt>, narrow: Narrow)
    requires c.Fits()
    ensures var end := Fold(ParseTags(narrow), opts, c); end.Fits() && LastScopes(c, end, opts, narrow)
  {
    CollectsAddresses(c, opts, narrow);
    if SetsNone(opts) {
      NoneSetsScopes(c, opts, narrow);
    }
    forall before, o, after | opts == before + [o] + after && SetsScopes(o) && SetsNone(after)
      ensures Fold(ParseTags(narrow), opts, c).Scopes() == WideOver(ScopeText(o), after, narrow)
    {
      hide *;
      LastScopeDecides(c, before, o, after, narrow);
    }
  }

  /** One of the two cases applies to every sequence of options. */
  lemma {:induction false} LastSetter(opts: seq<Opt>) returns (before: seq<Opt>, o: Opt, after: seq<Opt>)
    requires !SetsNone(opts)
    ensures opts == before + [o] + after && SetsScopes(o) && SetsNone(after)
    decreases opts
  {
    var n := |opts| - 1;
    hide SetsScopes;
    if SetsScopes(opts[n]) {
      before, o, after := opts[..n], opts[n], [];
    } else {
      before, o, after := LastSetter(opts[..n]);
      after := after + [opts[n]];
      assert opts == before + [o] + after;
    }
  }

  lemma {:induction false} ParseTagsAccepts(narrow: Narrow)
    ensures Accepts(ParseTags(narrow))
  {
  }

  /** Walking a field with that callback: the result is zero, and what is found are the addresses of all
      its options, in order, as far as they fit, and the scopes of the last option that sets them, up to
      what wide characters have overwritten. */
  lemma {:induction false} FieldCollected(data: seq<byte>, ps: seq<Piece>, c: Found, narrow: Narrow)
    requires HasCookie(data) && |data| < 0x8000_0000 && PiecesAt(data, 4, ps) && c.Fits() && c.addrs == []
    ensures var w := WalkFrom(data, 4);
      var (err, end) := Deliver(ParseTags(narrow), w.opts, c, EndOf(w));
      && err == 0 && end.Fits() && end.addrs == Truncated(AllAddresses(Options(ps)))
      && LastScopes(c, end, Options(ps), narrow)
  {
    hide *;
    ParseTagsAccepts(narrow);
    AcceptedFields(data, ParseTags(narrow), c);
    CollectsAddresses(c, Options(ps), narrow);
    CollectsScopes(c, Options(ps), narrow);
    assert [] + AllAddresses(Options(ps)) == AllAddresses(Options(ps));
  }

  class Context {
    var addrlistlen: nat
    var scopelistlen: nat
    const addrlist: array<byte>
    const scopelist: array<byte>

    ghost predicate Valid()
      reads this
    {
      && addrlist.Length == ADDRLIST_SIZE && addrlistlen <= ADDRLIST_SIZE
      && scopelist.Length == SCOPELIST_SIZE && scopelistlen <= SCOPELIST_SIZE && addrlist != scopelist
    }

    ghost function Value(): (c: Found)
      requires Valid()
      reads this, addrlist, scopelist
      ensures c.Fits()
    {
      Found(addrlist[..addrlistlen], scopelist[..], scopelistlen)
    }

    constructor ()
      ensures Valid() && Value().addrs == [] && fresh(addrlist) && fresh(scopelist)
    {
      addrlist := new byte[ADDRLIST_SIZE](_ => 0);
      scopelist := new byte[SCOPELIST_SIZE](_ => 0);
      addrlistlen, scopelistlen := 0, 0;
    }

    /** `memcpy` of as many bytes as there is room for to the end of the address list. */
    method Append(p: seq<byte>)
      requires Valid()
      modifies this`addrlistlen, addrlist
      ensures Valid() && Value() == old(Value()).(addrs := Truncated(old(Value()).addrs + p))
    {
      var bufsz := addrlist.Length - addrlistlen;
      var cpysz := if |p| < bufsz then |p| else bufsz;
      forall i | 0 <= i < cpysz {
        addrlist[addrlistlen + i] := p[i];
      }
      addrlistlen := addrlistlen + cpysz;
    }

    /** `strncpy` of a text to the scope list, and the zero at the end of the buffer. */
    method PutText(p: seq<byte>, ghost o: Opt)
      requires Valid() && SetsScopes(o) && p == RawText(o)
      modifies this`scopelistlen, scopelist
      ensures Valid()
      ensures Value() == old(Value()).(scopes := Overlaid(old(Value()).scopes, ScopeText(o))[SCOPELIST_SIZE - 1 := 0],
                                       scopelen := |ScopeText(o)|)
    {
      scopelistlen := if |p| < SCOPELIST_SIZE then |p| else SCOPELIST_SIZE;
      var s := StrNCpy(p[..scopelistlen]);
      forall i | 0 <= i < scopelistlen {
        scopelist[i] := s[i];
      }
      scopelist[SCOPELIST_SIZE - 1] := 0;
      hide StrNCpy;
    }

    /** `wcstombs` to the scope list. */
    method PutWide(text: seq<byte>)
      requires Valid()
      modifies scopelist
      ensures Valid() && Value() == old(Value()).(scopes := Overlaid(old(Value()).scopes, text))
    {
      var n := if |text| < SCOPELIST_SIZE then |text| else SCOPELIST_SIZE;
      forall i | 0 <= i < n {
        scopelist[i] := text[i];
      }
    }

    /** `DHCPParseSLPTags`. */
    method ParseSLPTags(tag: byte, optdata: seq<byte>, narrow: Narrow) returns (rc: int)
      requires Valid() && HasSize(Opt(tag, optdata))
      modifies this, addrlist, scopelist
      ensures Valid() && (rc, Value()) == ParseTags(narrow)(old(Value()), tag, optdata)
    {
      hide Truncated, Overlaid, ScopeText;
      rc := 0;
      ghost var o := Opt(tag, optdata);
      ghost var was := Value();
      NothingToAdd(was);
      if optdata == [] {
        return;
      }
      if tag == TAG_SLP_SCOPE {
        var encoding := if |optdata| > 1 then 0x100 * optdata[0] as int + optdata[1] as int else 0;
        if encoding != CT_ASCII && encoding != CT_UNICODE {
          if |optdata| == 1 {
            return;
          }
          PutText(optdata[1..], o);
        } else if encoding == CT_UNICODE {
          PutWide(narrow(optdata[2..]));
        } else {
          PutText(optdata[2..], o);
        }
      } else if tag == TAG_SLP_DA {
        var flags, p := optdata[0], optdata[1..];
        if flags < DA_NAME_PRESENT {
          Append(p);
        } else {
          var dasize := if p[0] as int > |p| - 1 then |p| - 1 else p[0];
          p := p[1..];
          if flags % DA_NAME_PRESENT < DA_NAME_IS_DNS {
            if dasize < 4 {
              return;
            }
            assert p[..4] == optdata[2..6];
            Append(p[..4]);
          }
        }
      }
    }

    /** The callback on one option after the other. */
    method ParseAll(opts: seq<Opt>, narrow: Narrow)
      requires Valid() && forall i :: 0 <= i < |opts| ==> HasSize(opts[i])
      modifies this, addrlist, scopelist
      ensures Valid() && Value() == Fold(ParseTags(narrow), opts, old(Value()))
    {
      hide ParseTags;
      ghost var was := Value();
      var k := 0;
      assert Fold(ParseTags(narrow), opts[..0], was) == was;
      while k < |opts|
        invariant 0 <= k <= |opts| && Valid()
        invariant Value() == Fold(ParseTags(narrow), opts[..k], was)
      {
        FoldLast(ParseTags(narrow), opts[..k + 1], was);
        assert opts[..k + 1][..k] == opts[..k];
        assert Opt(opts[k].tag, opts[k].payload) == opts[k];
        var rc := ParseSLPTags(opts[k].tag, opts[k].payload, narrow);
        k := k + 1;
      }
      assert opts[..k] == opts;
    }
  }

  lemma {:induction false} NothingToAdd(c: Found)
    requires c.Fits()
    ensures Truncated(c.addrs + []) == c.addrs && c.(addrs := c.addrs) == c
  {
    assert c.addrs + [] == c.addrs;
  }
}
