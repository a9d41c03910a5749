/** Receive-side scaling: the hash options, shadowed in a control register, and the indirection table,
    packed into registers. */
module Rss {
  import opened Basics

  // Bits of a hash option.
  const RXH_IP_SRC: bv64 := 0x10
  const RXH_IP_DST: bv64 := 0x20
  const RXH_L4_B_0_1: bv64 := 0x40
  const RXH_L4_B_2_3: bv64 := 0x80
  const RXH_IP: bv64 := 0x30
  const RXH_L4: bv64 := 0xC0

  const HASH_UDP_IPV4: bv32 := 1
  const HASH_UDP_IPV6: bv32 := 2

  // Bits of the control register.
  const RSS_CTRL_TCP_IP: bv32 := 0x3F        // the six kinds of packets that are always hashed
  const RSS_CTRL_UDP_IPV4_SUPP: bv32 := 0x800
  const RSS_CTRL_UDP_IPV6_SUPP: bv32 := 0x1000
  const RSS_CTRL_UDP_IPV6_EXT_SUPP: bv32 := 0x2000
  const RSS_CTRL_UDP: bv32 := 0x3800
  const RSS_MASK_BITS: bv32 := 0x700         // the fields for the size of the table and the number of rings
  const RSS_CPU_NUM: bv32 := 0x70000
  const RSS_MASK_BITS_OFFSET := 8
  const RSS_CPU_NUM_OFFSET := 16

  const EINVAL := 22
  const EOPNOTSUPP := 95

  const ETH_RSS_HASH_NO_CHANGE := 0
  const ETH_RSS_HASH_TOP := 1
  const RSS_KEY_SIZE := 40
  const MAX_INDIRECTION_TABLE_ENTRIES := 128

  // ----- Hash options -----

  /** Flow types: those that RSS supports, those that it knows but does not support, and the rest. */
  datatype Flow = TcpV4 | UdpV4 | IpV4 | TcpV6 | UdpV6 | IpV6 | Unsupported | Unknown

  /** The flag of a flow whose ports may or may not be hashed. */
  function FlagOf(flow: Flow): bv32 {
    if flow == UdpV4 then HASH_UDP_IPV4 else if flow == UdpV6 then HASH_UDP_IPV6 else 0
  }

  predicate Has(flags: bv32, flag: bv32) { flags & flag != 0 }

  predicate Udp4(flags: bv32) { Has(flags, HASH_UDP_IPV4) }

  predicate Udp6(flags: bv32) { Has(flags, HASH_UDP_IPV6) }

  predicate HasPorts(data: bv64) { data & RXH_L4 != 0 }

  /** What is reported for a flow: addresses always, ports for TCP and for UDP if the flag is set. */
  function Reported(flags: bv32, flow: Flow): bv64 {
    match flow
    case TcpV4 => RXH_IP | RXH_L4
    case TcpV6 => RXH_IP | RXH_L4
    case UdpV4 => if Udp4(flags) then RXH_IP | RXH_L4 else RXH_IP
    case UdpV6 => if Udp6(flags) then RXH_IP | RXH_L4 else RXH_IP
    case _ => RXH_IP
  }

  /** Which settings are accepted: all of addresses and ports for TCP, addresses with or without ports
      for UDP, and nothing for flows that are not supported. */
  predicate Acceptable(flow: Flow, data: bv64) {
    match flow
    case TcpV4 => data == RXH_IP | RXH_L4
    case TcpV6 => data == RXH_IP | RXH_L4
    case UdpV4 => data == RXH_IP || data == RXH_IP | RXH_L4
    case UdpV6 => data == RXH_IP || data == RXH_IP | RXH_L4
    case Unsupported => data == 0
    case _ => false
  }

  function Switched(f: bv32, flag: bv32, on: bool): bv32 {
    if on then f | flag else f & !flag
  }

  function NewFlags(flags: bv32, flow: Flow, data: bv64): bv32 {
    Switched(flags, FlagOf(flow), HasPorts(data))
  }

  function Log2(n: bv32): bv32 {
    if n <= 1 then 0 else 1 + Log2(n >> 1)
  }

  /** The logarithm is the place of the highest bit. */
  lemma {:induction false} Log2IsHighestBit(n: bv32)
    requires n != 0
    ensures Log2(n) < 32 && n >> Log2(n) == 1
  {
    if n <= 1 {
      LogOfOne(n);
    } else {
      HalfIsSmaller(n);
      Log2IsHighestBit(n >> 1);
      Log2Step(n);
      hide Log2;
      ShiftOnce(n, Log2(n >> 1));
    }
  }

  lemma {:induction false} LogOfOne(n: bv32)
    requires n == 1
    ensures Log2(n) < 32 && n >> Log2(n) == 1
  {
    assert Log2(1) == 0;
  }

  lemma {:induction false} Log2Step(n: bv32)
    requires n > 1
    ensures Log2(n) == 1 + Log2(n >> 1)
  {
  }

  lemma {:induction false} HalfIsSmaller(n: bv32)
    requires n > 1
    ensures 0 < n >> 1 < n
  {
  }

  lemma {:induction false} ShiftOnce(n: bv32, k: bv32)
    requires k < 32 && (n >> 1) >> k == 1
    ensures 1 + k < 32 && n >> (1 + k) == 1
  {
  }

  /** The three lowest bits of the logarithm, as both fields of the control register hold them. */
  function Field(n: bv32): bv32 {
    Log2(n) & 7
  }

  lemma {:induction false} FieldIsSmall(n: bv32)
    ensures Field(n) < 8
  {
    hide Log2;
  }

  function UdpBits(flags: bv32): bv32 {
    (if Udp4(flags) then RSS_CTRL_UDP_IPV4_SUPP else 0)
    | (if Udp6(flags) then RSS_CTRL_UDP_IPV6_SUPP | RSS_CTRL_UDP_IPV6_EXT_SUPP else 0)
  }

  /** The control register agrees with the flags, and holds the two fields. */
  predicate InStep(ctrl: bv32, flags: bv32, rings: bv32, mask: bv32) {
    && ctrl & RSS_CTRL_UDP == UdpBits(flags) && ctrl & RSS_CTRL_TCP_IP == RSS_CTRL_TCP_IP
    && ctrl & RSS_CPU_NUM == rings << RSS_CPU_NUM_OFFSET && ctrl & RSS_MASK_BITS == mask << RSS_MASK_BITS_OFFSET
  }

  /** What a configuration writes to the control register. */
  function Composed(rings: bv32, udp: bv32, mask: bv32): bv32 {
    (rings << RSS_CPU_NUM_OFFSET) | RSS_CTRL_TCP_IP | udp | (mask << RSS_MASK_BITS_OFFSET)
  }

  lemma {:induction false} ConfigInStep(flags: bv32, rings: bv32, mask: bv32)
    requires rings < 8 && mask < 8
    ensures InStep(Composed(rings, UdpBits(flags), mask), flags, rings, mask)
  {
  }

  /** The control register with its UDP bits replaced. */
  function Updated(ctrl: bv32, flags: bv32): bv32 {
    ((ctrl | RSS_CTRL_TCP_IP) & !RSS_CTRL_UDP) | UdpBits(flags)
  }

  /** An update of the UDP bits leaves the rest of the register in step. */
  lemma {:induction false} UpdateInStep(ctrl: bv32, flags: bv32, rings: bv32, mask: bv32, flags': bv32)
    requires InStep(ctrl, flags, rings, mask)
    ensures InStep(Updated(ctrl, flags'), flags', rings, mask)
  {
    UdpBitsOnly(flags');
    hide UdpBits;
    UdpReplaced(ctrl, UdpBits(flags'));
    FieldsKept(ctrl, UdpBits(flags'));
    KindsSet(ctrl, UdpBits(flags'));
  }

  lemma {:induction false} UdpBitsOnly(flags: bv32)
    ensures UdpBits(flags) & !RSS_CTRL_UDP == 0
  {
  }

  lemma {:induction false} UdpReplaced(c: bv32, u: bv32)
    requires u & !RSS_CTRL_UDP == 0
    ensures (((c | RSS_CTRL_TCP_IP) & !RSS_CTRL_UDP) | u) & RSS_CTRL_UDP == u
  {
  }

  lemma {:induction false} FieldsKept(c: bv32, u: bv32)
    requires u & !RSS_CTRL_UDP == 0
    ensures (((c | RSS_CTRL_TCP_IP) & !RSS_CTRL_UDP) | u) & RSS_CPU_NUM == c & RSS_CPU_NUM
    ensures (((c | RSS_CTRL_TCP_IP) & !RSS_CTRL_UDP) | u) & RSS_MASK_BITS == c & RSS_MASK_BITS
  {
  }

  predicate Apart(flag: bv32, other: bv32) {
    flag & other == 0 && flag != 0
  }

  lemma {:induction false} KindsSet(c: bv32, u: bv32)
    ensures (((c | RSS_CTRL_TCP_IP) & !RSS_CTRL_UDP) | u) & RSS_CTRL_TCP_IP == RSS_CTRL_TCP_IP
  {
  }

  lemma {:induction false} SetsOwn(f: bv32, flag: bv32)
    requires flag != 0
    ensures (f | flag) & flag != 0
  {
  }

  lemma {:induction false} ClearsOwn(f: bv32, flag: bv32)
    ensures (f & !flag) & flag == 0
  {
  }

  lemma {:induction false} KeepsOther(f: bv32, flag: bv32, other: bv32)
    requires flag & other == 0
    ensures (f | flag) & other == f & other && (f & !flag) & other == f & other
  {
  }

  lemma {:induction false} NoFlag(f: bv32)
    ensures Switched(f, 0, true) == f && Switched(f, 0, false) == f
  {
  }

  lemma {:induction false} PortBits()
    ensures HasPorts(RXH_IP | RXH_L4) && !HasPorts(RXH_IP)
  {
  }

  lemma {:induction false} SwitchedOn(f: bv32, flag: bv32, other: bv32)
    requires Apart(flag, other)
    ensures Has(Switched(f, flag, true), flag) && Has(Switched(f, flag, true), other) == Has(f, other)
  {
    SetsOwn(f, flag);
    KeepsOther(f, flag, other);
  }

  lemma {:induction false} SwitchedOff(f: bv32, flag: bv32, other: bv32)
    requires Apart(flag, other)
    ensures !Has(Switched(f, flag, false), flag) && Has(Switched(f, flag, false), other) == Has(f, other)
  {
    ClearsOwn(f, flag);
    KeepsOther(f, flag, other);
  }

  lemma {:induction false} Switching(f: bv32, flag: bv32, other: bv32, on: bool)
    requires Apart(flag, other)
    ensures Has(Switched(f, flag, on), flag) == on && Has(Switched(f, flag, on), other) == Has(f, other)
  {
    hide *;
    if on {
      SwitchedOn(f, flag, other);
    } else {
      SwitchedOff(f, flag, other);
    }
  }

  lemma {:induction false} FlagsApart()
    ensures Apart(HASH_UDP_IPV4, HASH_UDP_IPV6) && Apart(HASH_UDP_IPV6, HASH_UDP_IPV4)
  {
  }

  /** An accepted setting moves its own flag only. */
  lemma {:induction false} NewFlag(flags: bv32, flow: Flow, data: bv64)
    ensures Udp4(NewFlags(flags, flow, data)) == if flow == UdpV4 then HasPorts(data) else Udp4(flags)
    ensures Udp6(NewFlags(flags, flow, data)) == if flow == UdpV6 then HasPorts(data) else Udp6(flags)
    ensures flow != UdpV4 && flow != UdpV6 ==> NewFlags(flags, flow, data) == flags
  {
    FlagsApart();
    hide HasPorts, Switched, Has, Apart, HASH_UDP_IPV4, HASH_UDP_IPV6;
    if flow == UdpV4 {
      Switching(flags, HASH_UDP_IPV4, HASH_UDP_IPV6, HasPorts(data));
    } else if flow == UdpV6 {
      Switching(flags, HASH_UDP_IPV6, HASH_UDP_IPV4, HasPorts(data));
    } else {
      NoFlag(flags);
    }
  }

  /** What is reported for a flow after an accepted setting is that setting, and for any other flow
      what was reported before. */
  lemma {:induction false} ReportsSetting(flags: bv32, flow: Flow, data: bv64, other: Flow)
    requires Acceptable(flow, data)
    ensures flow != Unsupported ==> Reported(NewFlags(flags, flow, data), flow) == data
    ensures other != flow ==> Reported(NewFlags(flags, flow, data), other) == Reported(flags, other)
    ensures flow == Unsupported ==> NewFlags(flags, flow, data) == flags
  {
    hide Udp4, Udp6, HasPorts, NewFlags;
    PortBits();
    NewFlag(flags, flow, data);
  }

  // ----- Runs of requests -----

  datatype Request = Request(flow: Flow, data: bv64)

  function FlagsAfter(flags: bv32, qs: seq<Request>): bv32 {
    if qs == [] then flags
    else
      var q, before := qs[|qs| - 1], FlagsAfter(flags, qs[..|qs| - 1]);
      if Acceptable(q.flow, q.data) then NewFlags(before, q.flow, q.data) else before
  }

  /** The last accepted setting of a flow, or `initial` if there was none. */
  function LastAccepted(qs: seq<Request>, flow: Flow, initial: bv64): bv64 {
    if qs == [] then initial
    else
      var q := qs[|qs| - 1];
      if q.flow == flow && Acceptable(flow, q.data) then q.data else LastAccepted(qs[..|qs| - 1], flow, initial)
  }

  /** After any run of requests, the report for a flow is its last accepted setting. */
  lemma {:induction false} ReportsLastAccepted(flags: bv32, qs: seq<Request>, flow: Flow)
    requires flow != Unsupported && flow != Unknown
    ensures Reported(FlagsAfter(flags, qs), flow) == LastAccepted(qs, flow, Reported(flags, flow))
    decreases qs
  {
    if qs != [] {
      var n := |qs| - 1;
      ReportsLastAccepted(flags, qs[..n], flow);
      hide Reported, NewFlags;
      if Acceptable(qs[n].flow, qs[n].data) {
        ReportsSetting(FlagsAfter(flags, qs[..n]), qs[n].flow, qs[n].data, flow);
      }
    }
  }

  /** The control register after a run of requests: every change of the flags updates it. */
  function CtrlAfter(ctrl: bv32, flags: bv32, qs: seq<Request>): bv32 {
    if qs == [] then ctrl
    else
      var front := qs[..|qs| - 1];
      if FlagsAfter(flags, qs) == FlagsAfter(flags, front) then CtrlAfter(ctrl, flags, front)
      else Updated(CtrlAfter(ctrl, flags, front), FlagsAfter(flags, qs))
  }

  /** After any run of requests, the control register agrees with the flags, and both its fields are
      what they were. */
  lemma {:induction false} RunInStep(ctrl: bv32, flags: bv32, rings: bv32, mask: bv32, qs: seq<Request>)
    requires InStep(ctrl, flags, rings, mask)
    ensures InStep(CtrlAfter(ctrl, flags, qs), FlagsAfter(flags, qs), rings, mask)
    decreases qs
  {
    if qs != [] {
      var front := qs[..|qs| - 1];
      hide InStep, Updated, FlagsAfter;
      RunInStep(ctrl, flags, rings, mask, front);
      UpdateInStep(CtrlAfter(ctrl, flags, front), FlagsAfter(flags, front), rings, mask, FlagsAfter(flags, qs));
    }
  }

  // ----- What the bits and numbers are -----

  /** The bits of the control register for packets over UDP: one for IPv4 and two for IPv6, each set exactly if
      its flag is. */
  predicate UdpBitsAre(ctrl: bv32, udp4: bool, udp6: bool) {
    (ctrl & 0x800 != 0) == udp4 && (ctrl & 0x1000 != 0) == udp6 && (ctrl & 0x2000 != 0) == udp6
  }

  /** The bits are those of the flags, of which the first is for IPv4 and the second for IPv6. */
  predicate UdpBitsMatch(ctrl: bv32, flags: bv32) {
    UdpBitsAre(ctrl, flags & 1 != 0, flags & 2 != 0)
  }

  /** A register in step with the flags has these bits, the bits of the six kinds that are always hashed, and
      the two numbers in their fields of three bits. */
  lemma {:induction false} InStepBits(ctrl: bv32, flags: bv32, rings: bv32, mask: bv32)
    requires InStep(ctrl, flags, rings, mask) && rings < 8 && mask < 8
    ensures UdpBitsMatch(ctrl, flags)
    ensures ctrl & 0x3F == 0x3F && (ctrl >> 16) & 7 == rings && (ctrl >> 8) & 7 == mask
  {
    UdpBitsOf(flags);
    hide UdpBits;
    SpreadBits(ctrl, UdpBits(flags));
    FieldBits(ctrl, rings, mask);
  }

  lemma {:induction false} Configured(ctrl: bv32, flags: bv32, n: bv32, entries: bv32)
    requires ctrl == Composed(Field(n), UdpBits(flags), Field(entries))
    ensures InStep(ctrl, flags, Field(n), Field(entries)) && UdpBitsMatch(ctrl, flags)
  {
    FieldIsSmall(n);
    FieldIsSmall(entries);
    hide *;
    ConfigInStep(flags, Field(n), Field(entries));
    InStepBits(ctrl, flags, Field(n), Field(entries));
  }

  lemma {:induction false} UdpBitsOf(flags: bv32)
    ensures UdpBits(flags) & !0x3800 == 0 && UdpBitsMatch(UdpBits(flags), flags)
  {
  }

  lemma {:induction false} SpreadBits(ctrl: bv32, u: bv32)
    requires ctrl & 0x3800 == u
    ensures ctrl & 0x800 == u & 0x800 && ctrl & 0x1000 == u & 0x1000 && ctrl & 0x2000 == u & 0x2000
  {
  }

  lemma {:induction false} FieldBits(ctrl: bv32, rings: bv32, mask: bv32)
    requires rings < 8 && mask < 8
    ensures ctrl & 0x70000 == rings << 16 ==> (ctrl >> 16) & 7 == rings
    ensures ctrl & 0x700 == mask << 8 ==> (ctrl >> 8) & 7 == mask
  {
  }

  /** After any run of requests from a register in step, the bit for UDP over IPv4 is set exactly if the last
      accepted setting of that flow, or without one what the flag said, has the ports; and the two bits for IPv6
      likewise. */
  lemma {:induction false} RunBits(ctrl: bv32, flags: bv32, rings: bv32, mask: bv32, qs: seq<Request>)
    requires InStep(ctrl, flags, rings, mask) && rings < 8 && mask < 8
    ensures UdpBitsAre(CtrlAfter(ctrl, flags, qs),
                       LastAccepted(qs, UdpV4, if flags & 1 != 0 then 0xF0 else 0x30) == 0xF0,
                       LastAccepted(qs, UdpV6, if flags & 2 != 0 then 0xF0 else 0x30) == 0xF0)
  {
    hide InStep, CtrlAfter, FlagsAfter, LastAccepted;
    var flags' := FlagsAfter(flags, qs);
    RunInStep(ctrl, flags, rings, mask, qs);
    InStepBits(CtrlAfter(ctrl, flags, qs), flags', rings, mask);
    ReportsLastAccepted(flags, qs, UdpV4);
    ReportsLastAccepted(flags, qs, UdpV6);
    ReportedValues(flags);
    ReportedValues(flags');
    hide Reported;
  }

  /** What is reported, as numbers: for TCP addresses and ports, for UDP the ports if the flag of the version
      is set, and for other IP the addresses. */
  lemma {:induction false} ReportedValues(flags: bv32)
    ensures Reported(flags, TcpV4) == Reported(flags, TcpV6) == 0xF0
    ensures Reported(flags, IpV4) == Reported(flags, IpV6) == 0x30
    ensures Reported(flags, UdpV4) == (if flags & 1 != 0 then 0xF0 else 0x30)
    ensures Reported(flags, UdpV6) == (if flags & 2 != 0 then 0xF0 else 0x30)
  {
  }

  /** Which settings are accepted, as numbers. */
  lemma {:induction false} AcceptedValues(flow: Flow, data: bv64)
    ensures flow == TcpV4 || flow == TcpV6 ==> (Acceptable(flow, data) <==> data == 0xF0)
    ensures flow == UdpV4 || flow == UdpV6 ==> (Acceptable(flow, data) <==> data == 0x30 || data == 0xF0)
    ensures flow == Unsupported ==> (Acceptable(flow, data) <==> data == 0)
    ensures flow == IpV4 || flow == IpV6 || flow == Unknown ==> !Acceptable(flow, data)
  {
  }

  /** The field for a number under 256 is the place of its highest bit. */
  lemma {:induction false} FieldIsPlace(n: bv32)
    requires 0 < n < 256
    ensures Field(n) < 8 && n >> Field(n) == 1
  {
    Log2IsHighestBit(n);
    SmallPlace(n, Log2(n));
    hide Log2;
  }

  lemma {:induction false} SmallPlace(n: bv32, k: bv32)
    requires 0 < n < 256 && k < 32 && n >> k == 1
    ensures k & 7 == k && k < 8
  {
  }

  /** An update changes no bits but those for UDP and for the six kinds. */
  lemma {:induction false} UpdateKeeps(ctrl: bv32, flags: bv32)
    ensures Updated(ctrl, flags) & !0x383F == ctrl & !0x383F
  {
    UdpBitsOf(flags);
    hide UdpBits;
    OthersKept(ctrl, UdpBits(flags));
  }

  lemma {:induction false} UpdatedBits(ctrl: bv32, flags: bv32)
    ensures UdpBitsMatch(Updated(ctrl, flags), flags)
  {
    UdpBitsOf(flags);
    hide UdpBits;
    UdpReplaced(ctrl, UdpBits(flags));
    SpreadBits(Updated(ctrl, flags), UdpBits(flags));
    hide Updated;
  }

  lemma {:induction false} OthersKept(c: bv32, u: bv32)
    requires u & !0x3800 == 0
    ensures (((c | RSS_CTRL_TCP_IP) & !RSS_CTRL_UDP) | u) & !0x383F == c & !0x383F
  {
  }

  // ----- The checks of a request -----

  predicate BothAddresses(data: bv64) { data & RXH_IP_SRC != 0 && data & RXH_IP_DST != 0 }

  predicate BothPorts(data: bv64) { data & RXH_L4_B_0_1 != 0 && data & RXH_L4_B_2_3 != 0 }

  /** Nothing but addresses and ports. */
  predicate Only(data: bv64) { data & !(RXH_IP_SRC | RXH_IP_DST | RXH_L4_B_0_1 | RXH_L4_B_2_3) == 0 }

  predicate AllPorts(data: bv64) { data & RXH_L4 == RXH_L4 }

  lemma {:induction false} AllSet(data: bv64)
    ensures Only(data) && BothAddresses(data) && BothPorts(data) <==> data == RXH_IP | RXH_L4
  {
  }

  lemma {:induction false} PortsSet(data: bv64)
    ensures Only(data) && BothAddresses(data) && AllPorts(data) <==> data == RXH_IP | RXH_L4
  {
  }

  lemma {:induction false} PortsClear(data: bv64)
    ensures Only(data) && BothAddresses(data) && !HasPorts(data) <==> data == RXH_IP
  {
  }

  lemma {:induction false} NothingSet()
    ensures Only(0)
  {
  }

  // ----- Packed bytes -----

  /** A byte shifted to its place in a register. */
  function Lane(b: bv8, k: nat): bv32
    requires k < 4
  {
    var w := b as bv32;
    if k == 0 then w else if k == 1 then w << 8 else if k == 2 then w << 16 else w << 24
  }

  /** The byte at a place of a register. */
  function ByteAt(r: bv32, k: nat): bv8
    requires k < 4
  {
    ((if k == 0 then r else if k == 1 then r >> 8 else if k == 2 then r >> 16 else r >> 24) & 0xFF) as bv8
  }

  function Join(r: bv32, b: bv8, k: nat): bv32
    requires k < 4
  {
    r | Lane(b, k)
  }

  function Packed(bs: seq<bv8>): bv32
    requires |bs| <= 4
  {
    if bs == [] then 0 else Join(Packed(bs[..|bs| - 1]), bs[|bs| - 1], |bs| - 1)
  }

  lemma {:induction false} FourLanes(a: bv8, b: bv8, c: bv8, d: bv8)
    ensures var r := Join(Join(Join(Join(0, a, 0), b, 1), c, 2), d, 3);
            ByteAt(r, 0) == a && ByteAt(r, 1) == b && ByteAt(r, 2) == c && ByteAt(r, 3) == d
  {
  }

  lemma {:induction false} PackedFour(bs: seq<bv8>)
    requires |bs| == 4
    ensures Packed(bs) == Join(Join(Join(Join(0, bs[0], 0), bs[1], 1), bs[2], 2), bs[3], 3)
  {
    hide Join;
    assert bs[..3][..2] == bs[..2] && bs[..2][..1] == bs[..1] && bs[..1][..0] == [];
    assert Packed(bs[..1]) == Join(0, bs[0], 0);
    assert Packed(bs[..2]) == Join(Packed(bs[..1]), bs[1], 1);
    assert Packed(bs[..3]) == Join(Packed(bs[..2]), bs[2], 2);
  }

  /** A packed register unpacks to its four bytes. */
  lemma {:induction false} Unpack(bs: seq<bv8>, k: nat)
    requires |bs| == 4 && k < 4
    ensures ByteAt(Packed(bs), k) == bs[k]
  {
    hide *;
    PackedFour(bs);
    FourLanes(bs[0], bs[1], bs[2], bs[3]);
  }

  /** The first byte is the lowest of the register. */
  lemma {:induction false} PackedLowFirst(a: bv8, b: bv8, c: bv8, d: bv8)
    ensures Packed([a, b, c, d]) == a as bv32 | (b as bv32 << 8) | (c as bv32 << 16) | (d as bv32 << 24)
  {
    hide *;
    PackedFour([a, b, c, d]);
    JoinedFour(a, b, c, d);
  }

  lemma {:induction false} JoinedFour(a: bv8, b: bv8, c: bv8, d: bv8)
    ensures Join(Join(Join(Join(0, a, 0), b, 1), c, 2), d, 3) ==
            a as bv32 | (b as bv32 << 8) | (c as bv32 << 16) | (d as bv32 << 24)
  {
    LanesAre(a, b, c, d);
    NothingOr(a as bv32);
    hide Lane;
  }

  lemma {:induction false} LanesAre(a: bv8, b: bv8, c: bv8, d: bv8)
    ensures Lane(a, 0) == a as bv32 && Lane(b, 1) == b as bv32 << 8
    ensures Lane(c, 2) == c as bv32 << 16 && Lane(d, 3) == d as bv32 << 24
  {
  }

  lemma {:induction false} NothingOr(w: bv32)
    ensures 0 | w == w
  {
  }

  ghost predicate Holds(regs: seq<bv32>, bs: seq<bv8>, words: nat)
    requires words <= |regs| && 4 * words <= |bs|
  {
    forall w :: 0 <= w < words ==> regs[w] == Packed(bs[4 * w..4 * w + 4])
  }

  /** The registers unpack to the bytes. */
  ghost predicate Unpacks(regs: seq<bv32>, bs: seq<bv8>, words: nat)
    requires words <= |regs| && 4 * words <= |bs|
  {
    forall i :: 0 <= i < 4 * words ==> ByteAt(regs[i / 4], i % 4) == bs[i]
  }

  lemma {:induction false} HeldUnpacks(regs: seq<bv32>, bs: seq<bv8>, words: nat)
    requires words <= |regs| && 4 * words <= |bs| && Holds(regs, bs, words)
    ensures Unpacks(regs, bs, words)
  {
    hide ByteAt, Packed;
    forall i | 0 <= i < 4 * words ensures ByteAt(regs[i / 4], i % 4) == bs[i] {
      Unpack(bs[4 * (i / 4)..4 * (i / 4) + 4], i % 4);
    }
  }

  lemma {:induction false} PackNone()
    ensures Packed([]) == 0
  {
  }

  lemma {:induction false} PackOne(bs: seq<bv8>, b: bv8)
    requires |bs| < 4
    ensures Packed(bs + [b]) == Join(Packed(bs), b, |bs|)
  {
    hide Join;
    assert (bs + [b])[..|bs|] == bs;
  }

  lemma {:induction false} HoldOne(regs: seq<bv32>, bs: seq<bv8>, words: nat, r: bv32)
    requires words < |regs| && 4 * words + 4 <= |bs| && Holds(regs, bs, words)
    requires r == Packed(bs[4 * words..4 * words + 4])
    ensures Holds(regs[words := r], bs, words + 1)
  {
    hide Packed;
  }

  // ----- The device -----

  /** Every one of the entries names a receive ring. */
  predicate InRange(indir: seq<bv32>, rings: bv32) {
    forall i :: 0 <= i < |indir| ==> indir[i] < rings
  }

  /** What a byte array holds after the entries are assigned to its first elements. */
  function Stored(was: seq<bv8>, indir: seq<bv32>): (r: seq<bv8>)
    requires |indir| <= |was|
    ensures |r| == |was|
  {
    seq(|was|, i requires 0 <= i < |was| => if i < |indir| then LowByte(indir[i]) else was[i])
  }

  function LowByte(w: bv32): bv8 { (w & 0xFF) as bv8 }

  lemma {:induction false} LowByteBelow(w: bv32, rings: bv32)
    requires w < rings
    ensures LowByte(w) as bv32 < rings && (rings <= 256 ==> LowByte(w) as bv32 == w)
  {
  }

  lemma {:induction false} StoredAt(was: seq<bv8>, indir: seq<bv32>, i: nat)
    requires |indir| <= |was| && i < |was|
    ensures Stored(was, indir)[i] == if i < |indir| then LowByte(indir[i]) else was[i]
  {
  }

  lemma {:induction false} RingAt(indir: seq<bv32>, rings: bv32, i: nat)
    requires InRange(indir, rings) && i < |indir|
    ensures indir[i] < rings
  {
  }

  class Device {
    const entries: nat       // of the indirection table
    const numRxRings: bv32
    const totRxRings: bv32

    var rssFlags: bv32
    var ctrl: bv32           // the control register

    const indirTbl: array<bv8>
    const key: array<bv8>

    const tblRegs: array<bv32>
    const keyRegs: array<bv32>

    ghost predicate Valid() {
      && 0 < entries <= MAX_INDIRECTION_TABLE_ENTRIES && 0 < numRxRings <= totRxRings
      && indirTbl.Length == MAX_INDIRECTION_TABLE_ENTRIES && tblRegs.Length == MAX_INDIRECTION_TABLE_ENTRIES / 4
      && key.Length == RSS_KEY_SIZE && keyRegs.Length == RSS_KEY_SIZE / 4
      && indirTbl != key && tblRegs != keyRegs
    }

    /** The control register agrees with the flags, the number of rings and the size of the table. */
    ghost predicate Synchronized()
      requires Valid()
      reads `rssFlags, `ctrl
    {
      InStep(ctrl, rssFlags, Field(totRxRings), Field(entries as bv32))
    }

    /** The registers unpack to the table and to the key. */
    ghost predicate Written()
      requires Valid()
      reads indirTbl, key, tblRegs, keyRegs
    {
      Unpacks(tblRegs[..], indirTbl[..], entries / 4) && Unpacks(keyRegs[..], key[..], RSS_KEY_SIZE / 4)
    }

    method GetHashOpts(flow: Flow) returns (r: int, data: bv64)
      ensures (r == 0) == (flow != Unsupported && flow != Unknown)
      ensures r == 0 ==> data == Reported(rssFlags, flow)
      ensures r != 0 ==> r == -EINVAL && data == 0
    {
      r, data := 0, 0;
      if flow == TcpV4 || flow == UdpV4 || flow == IpV4 {
        if flow == TcpV4 || (flow == UdpV4 && Udp4(rssFlags)) {
          data := data | RXH_L4_B_0_1 | RXH_L4_B_2_3;
        }
        data := data | RXH_IP_SRC | RXH_IP_DST;
      } else if flow == TcpV6 || flow == UdpV6 || flow == IpV6 {
        if flow == TcpV6 || (flow == UdpV6 && Udp6(rssFlags)) {
          data := data | RXH_L4_B_0_1 | RXH_L4_B_2_3;
        }
        data := data | RXH_IP_SRC | RXH_IP_DST;
      } else {
        r := -EINVAL;
      }
    }

    method ConfigHashOpt()
      requires Valid()
      modifies `ctrl
      ensures Synchronized()
      ensures UdpBitsMatch(ctrl, rssFlags)
    {
      hide InStep, UdpBits, UdpBitsMatch, Field, Composed;
      ctrl := Composed(Field(totRxRings), UdpBits(rssFlags), Field(entries as bv32));
      Configured(ctrl, rssFlags, totRxRings, entries as bv32);
    }

    method UpdateUdp(flags: bv32)
      requires Valid()
      modifies `rssFlags, `ctrl
      ensures rssFlags == flags && ctrl == Updated(old(ctrl), flags)
      ensures UdpBitsMatch(ctrl, flags)
      ensures old(Synchronized()) ==> Synchronized()
    {
      UpdatedBits(ctrl, flags);
      hide InStep, Updated, Field, UdpBitsMatch;
      if Synchronized() {
        UpdateInStep(ctrl, rssFlags, Field(totRxRings), Field(entries as bv32), flags);
      }
      rssFlags := flags;
      ctrl := Updated(ctrl, flags);
    }

    /** Accepts exactly the settings that are acceptable, and keeps the control register in step. */
    method SetHashOpt(flow: Flow, data: bv64) returns (r: int)
      requires Valid()
      modifies `rssFlags, `ctrl
      ensures r == if Acceptable(flow, data) then 0 else -EINVAL
      ensures rssFlags == if Acceptable(flow, data) then NewFlags(old(rssFlags), flow, data) else old(rssFlags)
      ensures ctrl == if rssFlags == old(rssFlags) then old(ctrl) else Updated(old(ctrl), rssFlags)
      ensures old(Synchronized()) ==> Synchronized()
    {
      hide Synchronized, Updated, Switched, FlagOf, HasPorts, AllPorts, Only, BothAddresses, BothPorts;
      NothingSet();
      AllSet(data);
      PortsSet(data);
      PortsClear(data);
      PortBits();
      NewFlag(rssFlags, flow, data);
      if !Only(data) {
        return -EINVAL;
      }
      var flags := rssFlags;
      match flow {
        case TcpV4 | TcpV6 =>
          if !BothAddresses(data) || !BothPorts(data) {
            return -EINVAL;
          }
        case UdpV4 | UdpV6 =>
          if !BothAddresses(data) {
            return -EINVAL;
          }
          if !HasPorts(data) {
            flags := Switched(flags, FlagOf(flow), false);
          } else if AllPorts(data) {
            flags := Switched(flags, FlagOf(flow), true);
          } else {
            return -EINVAL;
          }
        case Unsupported =>
          return if data != 0 then -EINVAL else 0;
        case _ =>
          return -EINVAL;
      }
      if flags != rssFlags {
        UpdateUdp(flags);
      }
      r := 0;
    }

    /** Packs the table, four bytes to a register; a rest of fewer than four is not written. */
    method StoreReta()
      requires Valid()
      modifies tblRegs
      ensures Unpacks(tblRegs[..], indirTbl[..], entries / 4)
      ensures tblRegs[entries / 4..] == old(tblRegs[entries / 4..])
    {
      hide Packed, Join, Unpacks, ByteAt;
      var reta, reg, i := 0, 0, 0;
      ghost var was := tblRegs[..];
      assert indirTbl[0..0] == [];
      PackNone();
      while i < entries
        invariant i <= entries && reg == i / 4
        invariant reta == Packed(indirTbl[4 * reg..i])
        invariant Holds(tblRegs[..], indirTbl[..], reg)
        invariant tblRegs[reg..] == was[reg..]
      {
        PackOne(indirTbl[4 * reg..i], indirTbl[i]);
        assert indirTbl[4 * reg..i + 1] == indirTbl[4 * reg..i] + [indirTbl[i]];
        reta := Join(reta, indirTbl[i], i % 4);
        if i % 4 == 3 {
          HoldOne(tblRegs[..], indirTbl[..], reg, reta);
          tblRegs[reg] := reta;
          reg := reg + 1;
          reta := 0;
          assert indirTbl[4 * reg..i + 1] == [];
        }
        i := i + 1;
      }
      HeldUnpacks(tblRegs[..], indirTbl[..], entries / 4);
    }

    method StoreKey()
      requires Valid()
      modifies keyRegs
      ensures Unpacks(keyRegs[..], key[..], RSS_KEY_SIZE / 4)
    {
      hide Packed, Unpacks, ByteAt;
      var i := 0;
      while i < RSS_KEY_SIZE
        invariant i <= RSS_KEY_SIZE && i % 4 == 0
        invariant Holds(keyRegs[..], key[..], i / 4)
      {
        HoldOne(keyRegs[..], key[..], i / 4, Packed(key[i..i + 4]));
        keyRegs[i / 4] := Packed(key[i..i + 4]);
        i := i + 4;
      }
      HeldUnpacks(keyRegs[..], key[..], RSS_KEY_SIZE / 4);
    }

    /** Configures the device: the control register agrees with the flags, and the registers with the
        table and the key. */
    method ConfigRss()
      requires Valid()
      modifies `ctrl, tblRegs, keyRegs
      ensures Synchronized() && Written()
    {
      hide InStep, Unpacks;
      ConfigHashOpt();
      StoreReta();
      StoreKey();
    }

    /** Rejects an unsupported hash function, and a table that names a ring that does not exist, without
        any change. Otherwise stores what is given, and writes both. */
    method SetRxfh(indir: Option<seq<bv32>>, newKey: Option<seq<bv8>>, hfunc: nat) returns (r: int)
      requires Valid()
      requires indir.Some? ==> |indir.value| == entries
      requires newKey.Some? ==> |newKey.value| == RSS_KEY_SIZE
      modifies indirTbl, key, tblRegs, keyRegs
      ensures r == if hfunc != ETH_RSS_HASH_NO_CHANGE && hfunc != ETH_RSS_HASH_TOP then -EOPNOTSUPP
                   else if indir.Some? && !InRange(indir.value, numRxRings) then -EINVAL
                   else 0
      ensures r != 0 ==> indirTbl[..] == old(indirTbl[..]) && key[..] == old(key[..])
                         && tblRegs[..] == old(tblRegs[..]) && keyRegs[..] == old(keyRegs[..])
      ensures r == 0 ==> Written()
      ensures r == 0 ==>
        indirTbl[..] == if indir.Some? then Stored(old(indirTbl[..]), indir.value) else old(indirTbl[..])
      ensures r == 0 ==> key[..] == if newKey.Some? then newKey.value else old(key[..])
    {
      hide Unpacks, LowByte;
      r := 0;
      if hfunc != ETH_RSS_HASH_NO_CHANGE && hfunc != ETH_RSS_HASH_TOP {
        return -EOPNOTSUPP;
      }
      if indir.Some? {
        var i := 0;
        while i < entries
          invariant i <= entries && forall j :: 0 <= j < i ==> indir.value[j] < numRxRings
        {
          if indir.value[i] >= numRxRings {
            return -EINVAL;
          }
          i := i + 1;
        }
        FillTable(indir.value);
      }
      if newKey.Some? {
        FillKey(newKey.value);
      }
      StoreReta();
      StoreKey();
    }

    method FillTable(indir: seq<bv32>)
      requires Valid() && |indir| == entries
      modifies indirTbl
      ensures indirTbl[..] == Stored(old(indirTbl[..]), indir)
    {
      hide LowByte;
      var i := 0;
      while i < entries
        invariant i <= entries
        invariant forall j :: 0 <= j < i ==> indirTbl[j] == LowByte(indir[j])
        invariant forall j :: i <= j < indirTbl.Length ==> indirTbl[j] == old(indirTbl[j])
      {
        indirTbl[i] := LowByte(indir[i]);
        i := i + 1;
      }
    }

    method FillKey(newKey: seq<bv8>)
      requires Valid() && |newKey| == RSS_KEY_SIZE
      modifies key
      ensures key[..] == newKey
    {
      var i := 0;
      while i < RSS_KEY_SIZE
        invariant i <= RSS_KEY_SIZE && key[..i] == newKey[..i]
      {
        key[i] := newKey[i];
        i := i + 1;
      }
    }
  }

  /** After an accepted table, every entry names a ring, and is the entry that was given if there are at
      most 256 rings; the rest of the table is unchanged. */
  lemma {:induction false} EveryEntryNamesARing(was: seq<bv8>, indir: seq<bv32>, rings: bv32, i: nat)
    requires |indir| <= |was| && InRange(indir, rings) && i < |was|
    ensures i < |indir| ==> Stored(was, indir)[i] as bv32 < rings
    ensures i < |indir| && rings <= 256 ==> Stored(was, indir)[i] as bv32 == indir[i]
    ensures i >= |indir| ==> Stored(was, indir)[i] == was[i]
  {
    hide *;
    StoredAt(was, indir, i);
    if i < |indir| {
      RingAt(indir, rings, i);
      LowByteBelow(indir[i], rings);
    }
  }
}
