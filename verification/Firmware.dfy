/** PHY firmware: the static check of a firmware blob and the small machine that runs it. */
module Firmware {

  import opened Basics

  const SIZE_T := 0x1_0000_0000_0000_0000
  const U32 := 0x1_0000_0000
  const FW_OPCODE_SIZE := 4
  const VERSION := 4     // offsets in the header
  const FW_START := 36
  const FW_LEN := 40
  const CHKSUM := 44
  const FW_INFO_SIZE := 45

  // Opcodes.
  const PHY_READ := 0x0
  const PHY_DATA_OR := 0x1
  const PHY_DATA_AND := 0x2
  const PHY_BJMPN := 0x3
  const PHY_MDIO_CHG := 0x4
  const PHY_CLEAR_READCOUNT := 0x7
  const PHY_WRITE := 0x8
  const PHY_READCOUNT_EQ_SKIP := 0x9
  const PHY_COMP_EQ_SKIPN := 0xa
  const PHY_COMP_NEQ_SKIPN := 0xb
  const PHY_WRITE_PREVIOUS := 0xc
  const PHY_SKIPN := 0xd
  const PHY_DELAY_MS := 0xe

  // The fields of an instruction.

  function Opcode(action: int): int {
    action / 0x1000_0000
  }

  function Regno(action: int): (r: int)
    ensures 0 <= r < 0x1000
  {
    action / 0x1_0000 % 0x1000
  }

  function Operand(action: int): (r: int)
    ensures 0 <= r < 0x1_0000
  {
    action % 0x1_0000
  }

  predicate IsWord(action: int) { 0 <= action < U32 }

  /** What is left of a value in a `u32`, and in a `size_t`. */
  function Word(i: int): (w: int)
    ensures IsWord(w) && (IsWord(i) ==> w == i) && (w - i) % U32 == 0
  {
    i % U32
  }

  function Size(i: int): (n: nat)
    ensures n < SIZE_T && (0 <= i < SIZE_T ==> n == i) && (n - i) % SIZE_T == 0
  {
    i % SIZE_T
  }

  predicate IsCode(code: seq<int>) {
    |code| < SIZE_T / FW_OPCODE_SIZE && forall i :: 0 <= i < |code| ==> IsWord(code[i])
  }

  // ----- The machine -----

  /** The interpreter's variables; `mcu` tells which pair of access functions is selected. */
  datatype Machine = Machine(index: nat, predata: int, count: int, mcu: bool)

  datatype Io = Read(mcu: bool, reg: int, value: int) | Write(mcu: bool, reg: int, value: int) | Delay(ms: int)

  const START := Machine(0, 0, 0, false)

  /** Whether the instruction moves the program counter, other than to the next instruction. */
  predicate Taken(action: int, s: Machine) {
    var op := Opcode(action);
    || op == PHY_BJMPN || op == PHY_SKIPN
    || (op == PHY_READCOUNT_EQ_SKIP && s.count == Operand(action))
    || (op == PHY_COMP_EQ_SKIPN && s.predata == Operand(action))
    || (op == PHY_COMP_NEQ_SKIPN && s.predata != Operand(action))
  }

  /** The instruction that a taken jump or skip is meant to lead to. */
  function Target(action: int, index: int): int {
    if Opcode(action) == PHY_BJMPN then index - Regno(action)
    else if Opcode(action) == PHY_READCOUNT_EQ_SKIP then index + 2
    else index + 1 + Regno(action)
  }

  /** The program counter when the loop goes round, in the arithmetic of `size_t`. */
  function NextIndex(action: int, s: Machine): nat {
    var op := Opcode(action);
    var index :=
      if op == PHY_BJMPN then Size(s.index - (Regno(action) + 1))
      else if !Taken(action, s) then s.index
      else if op == PHY_READCOUNT_EQ_SKIP then Size(s.index + 1)
      else Size(s.index + Regno(action));
    Size(index + 1)
  }

  function Or(a: int, b: int): (r: int)
    requires IsWord(a) && IsWord(b)
    ensures IsWord(r)
  {
    ((a as bv32) | (b as bv32)) as int
  }

  function And(a: int, b: int): (r: int)
    requires IsWord(a) && IsWord(b)
    ensures IsWord(r)
  {
    ((a as bv32) & (b as bv32)) as int
  }

  /** The machine after one instruction; `v` is what the device answers if it is read. */
  function Next(action: int, s: Machine, v: int): Machine
    requires IsWord(action)
  {
    var op := Opcode(action);
    Machine(NextIndex(action, s),
            if op == PHY_READ then Word(v)
            else if op == PHY_DATA_OR then Or(Word(s.predata), Operand(action))
            else if op == PHY_DATA_AND then And(Word(s.predata), Operand(action))
            else s.predata,
            if op == PHY_READ then Word(s.count + 1) else if op == PHY_CLEAR_READCOUNT then 0 else s.count,
            if op == PHY_MDIO_CHG then Operand(action) != 0 else s.mcu)
  }

  function Effect(action: int, s: Machine, v: int): seq<Io> {
    var op := Opcode(action);
    if op == PHY_READ then [Read(s.mcu, Regno(action), Word(v))]
    else if op == PHY_WRITE then [Write(s.mcu, Regno(action), Operand(action))]
    else if op == PHY_WRITE_PREVIOUS then [Write(s.mcu, Regno(action), s.predata % 0x1_0000)]
    else if op == PHY_DELAY_MS then [Delay(Operand(action))]
    else []
  }

  predicate Halted(code: seq<int>, s: Machine) {
    s.index >= |code| || code[s.index] == 0
  }

  /** The machine and its effects after at most `|vs|` instructions, while the device would answer
      `vs[k]` during instruction `k`. */
  function Run(code: seq<int>, s: Machine, vs: seq<int>): (Machine, seq<Io>)
    requires IsCode(code)
    decreases |vs|
  {
    if vs == [] || Halted(code, s) then (s, [])
    else
      var rest := Run(code, Next(code[s.index], s, vs[0]), vs[1..]);
      (rest.0, Effect(code[s.index], s, vs[0]) + rest.1)
  }

  // ----- What a run does, opcode by opcode -----

  /** The word of an instruction: four bits for the opcode, twelve for the register, and the operand. */
  function Instruction(op: int, reg: int, x: int): int {
    0x1000_0000 * op + 0x1_0000 * reg + x
  }

  /** The instruction about to run has these fields, and is not the word that ends a program. */
  predicate Runs(code: seq<int>, s: Machine, op: int, reg: int, x: int) {
    && IsCode(code) && s.index < |code| && code[s.index] == Instruction(op, reg, x) != 0
    && 0 <= reg < 0x1000 && 0 <= x < 0x1_0000
  }

  lemma {:induction false} OneStep(code: seq<int>, s: Machine, v: int)
    requires IsCode(code) && !Halted(code, s)
    ensures Run(code, s, [v]) == (Next(code[s.index], s, v), Effect(code[s.index], s, v))
  {
    var t := Next(code[s.index], s, v);
    assert [v][1..] == [] && Run(code, t, []) == (t, []);
    hide Next, Effect, Halted;
    assert Effect(code[s.index], s, v) + [] == Effect(code[s.index], s, v);
  }

  lemma {:induction false} Fields(op: int, reg: int, x: int)
    requires 0 <= reg < 0x1000 && 0 <= x < 0x1_0000
    ensures var w := Instruction(op, reg, x); Opcode(w) == op && Regno(w) == reg && Operand(w) == x
  {
    var w := Instruction(op, reg, x);
    assert w / 0x1_0000 == 0x1000 * op + reg && (0x1000 * op + reg) % 0x1000 == reg;
  }

  lemma {:induction false} StepOf(code: seq<int>, s: Machine, v: int, op: int, reg: int, x: int)
    requires Runs(code, s, op, reg, x)
    ensures var w := Instruction(op, reg, x);
      && IsWord(w) && Opcode(w) == op && Regno(w) == reg && Operand(w) == x
      && Run(code, s, [v]) == (Next(w, s, v), Effect(w, s, v))
      && s.index + 1 + reg < SIZE_T && s.index + 2 < SIZE_T
  {
    OneStep(code, s, v);
    Fields(op, reg, x);
    hide Next, Effect, Run;
  }

  lemma {:induction false} GoesOn(code: seq<int>, s: Machine, op: int, reg: int, x: int)
    requires Runs(code, s, op, reg, x) && op != 0x3 && op != 0x9 && op != 0xa && op != 0xb && op != 0xd
    ensures NextIndex(Instruction(op, reg, x), s) == s.index + 1
  {
    Fields(op, reg, x);
    hide Instruction, Opcode, Regno, Operand;
  }

  /** The instructions that talk to the device, or wait: a read stores the answer and counts, a write carries
      its operand, or the low half of the stored value, each to the register named and through the access
      functions selected; a delay waits for as many milliseconds as the operand says. */
  lemma {:induction false} RunsDevice(code: seq<int>, s: Machine, v: int, op: int, reg: int, x: int)
    requires Runs(code, s, op, reg, x) && IsWord(v)
    ensures var next := s.(index := s.index + 1);
      && (op == 0x0 ==>
            Run(code, s, [v]) == (next.(predata := v, count := Word(s.count + 1)), [Read(s.mcu, reg, v)]))
      && (op == 0x8 ==> Run(code, s, [v]) == (next, [Write(s.mcu, reg, x)]))
      && (op == 0xc ==> Run(code, s, [v]) == (next, [Write(s.mcu, reg, s.predata % 0x1_0000)]))
      && (op == 0xe ==> Run(code, s, [v]) == (next, [Delay(x)]))
  {
    StepOf(code, s, v, op, reg, x);
    if op == 0x0 || op == 0x8 || op == 0xc || op == 0xe {
      GoesOn(code, s, op, reg, x);
    }
    hide Run, Opcode, Regno, Operand, Instruction, Or, And, NextIndex;
  }

  lemma {:induction false} BitsOf(a: int, b: int)
    requires IsWord(a) && IsWord(b)
    ensures Or(a, b) == ((a as bv32) | (b as bv32)) as int && And(a, b) == ((a as bv32) & (b as bv32)) as int
  {
  }

  lemma {:induction false} RunsBits(code: seq<int>, s: Machine, v: int, op: int, reg: int, x: int)
    requires Runs(code, s, op, reg, x) && IsWord(s.predata)
    ensures var next := s.(index := s.index + 1);
      && (op == 0x1 ==> Run(code, s, [v]) == (next.(predata := Or(s.predata, x)), []))
      && (op == 0x2 ==> Run(code, s, [v]) == (next.(predata := And(s.predata, x)), []))
      && (op == 0x4 ==> Run(code, s, [v]) == (next.(mcu := x != 0), []))
      && (op == 0x7 ==> Run(code, s, [v]) == (next.(count := 0), []))
  {
    StepOf(code, s, v, op, reg, x);
    if op == 0x1 || op == 0x2 || op == 0x4 || op == 0x7 {
      GoesOn(code, s, op, reg, x);
    }
    hide Run, Opcode, Regno, Operand, Instruction, Or, And, NextIndex, IsCode;
  }

  /** The instructions that change the machine only. */
  lemma {:induction false} RunsData(code: seq<int>, s: Machine, v: int, op: int, reg: int, x: int)
    requires Runs(code, s, op, reg, x) && IsWord(s.predata)
    ensures var next, p := s.(index := s.index + 1), s.predata;
      && (op == 0x1 ==> Run(code, s, [v]) == (next.(predata := ((p as bv32) | (x as bv32)) as int), []))
      && (op == 0x2 ==> Run(code, s, [v]) == (next.(predata := ((p as bv32) & (x as bv32)) as int), []))
      && (op == 0x4 ==> Run(code, s, [v]) == (next.(mcu := x != 0), []))
      && (op == 0x7 ==> Run(code, s, [v]) == (next.(count := 0), []))
  {
    assert IsWord(x) && IsWord(s.predata);
    hide Run, Runs, Or, And, IsCode;
    RunsBits(code, s, v, op, reg, x);
    BitsOf(s.predata, x);
  }

  /** The jumps and skips: back by the register's number, on behind the next instruction if the reads counted
      are as many as the operand, and on behind so many instructions if the stored value is, or is not, the
      operand, or in any case. */
  lemma {:induction false} RunsSkips(code: seq<int>, s: Machine, v: int, op: int, reg: int, x: int)
    requires Runs(code, s, op, reg, x)
    ensures var i := s.index;
      && (op == 0x3 && reg <= i ==> Run(code, s, [v]) == (s.(index := i - reg), []))
      && (op == 0x9 ==> Run(code, s, [v]) == (s.(index := if s.count == x then i + 2 else i + 1), []))
      && (op == 0xa ==> Run(code, s, [v]) == (s.(index := if s.predata == x then i + 1 + reg else i + 1), []))
      && (op == 0xb ==> Run(code, s, [v]) == (s.(index := if s.predata != x then i + 1 + reg else i + 1), []))
      && (op == 0xd ==> Run(code, s, [v]) == (s.(index := i + 1 + reg), []))
  {
    StepOf(code, s, v, op, reg, x);
    if reg <= s.index {
      JumpBack(s.index, reg);
    }
    hide Run, Opcode, Regno, Operand, Instruction, Or, And;
  }

  lemma {:induction false} JumpBack(i: nat, reg: nat)
    requires i < SIZE_T && reg <= i
    ensures Size(Size(i - (reg + 1)) + 1) == i - reg
  {
  }

  /** A run is a run of its first part, and then one of the rest. */
  lemma {:induction false} RunConcat(code: seq<int>, s: Machine, a: seq<int>, b: seq<int>)
    requires IsCode(code)
    ensures var (t, io) := Run(code, s, a);
      Run(code, s, a + b) == (Run(code, t, b).0, io + Run(code, t, b).1)
    decreases a
  {
    hide Next, Effect;
    var nothing: seq<Io> := [];
    if a == [] {
      assert a + b == b && nothing + Run(code, s, b).1 == Run(code, s, b).1;
    } else if Halted(code, s) {
      assert Run(code, s, b) == (s, []) && a + b != [] && nothing + [] == nothing;
    } else {
      assert (a + b)[1..] == a[1..] + b && (a + b)[0] == a[0];
      var e := Effect(code[s.index], s, a[0]);
      var (t, io) := Run(code, Next(code[s.index], s, a[0]), a[1..]);
      RunConcat(code, Next(code[s.index], s, a[0]), a[1..], b);
      assert e + (io + Run(code, t, b).1) == (e + io) + Run(code, t, b).1;
    }
  }

  /** One instruction whose outcome is known, and then the others. */
  lemma {:induction false} Then(code: seq<int>, s: Machine, v: int, s1: Machine, io: seq<Io>, rest: seq<int>)
    requires IsCode(code) && Run(code, s, [v]) == (s1, io)
    ensures Run(code, s, [v] + rest) == (Run(code, s1, rest).0, io + Run(code, s1, rest).1)
  {
    hide Run;
    RunConcat(code, s, [v], rest);
  }

  /** The four instructions of a read-modify-write. */
  predicate ModifiesAt(code: seq<int>, i: nat, reg: int, m: int, o: int, r1: int, r2: int, x0: int, x3: int) {
    && i + 4 <= |code| && code[i] == Instruction(0x0, reg, x0) != 0 && code[i + 1] == Instruction(0x2, r1, m)
    && code[i + 2] == Instruction(0x1, r2, o) && code[i + 3] == Instruction(0xc, reg, x3)
    && 0 <= reg < 0x1000 && 0 <= r1 < 0x1000 && 0 <= r2 < 0x1000
    && 0 <= m < 0x1_0000 && 0 <= o < 0x1_0000 && 0 <= x0 < 0x1_0000 && 0 <= x3 < 0x1_0000
  }

  lemma {:induction false} ModifiesRuns(code: seq<int>, i: nat, reg: int, m: int, o: int, r1: int, r2: int, x0: int,
                                        x3: int)
    requires IsCode(code) && ModifiesAt(code, i, reg, m, o, r1, r2, x0, x3)
    ensures IsWord(m) && IsWord(o)
    ensures forall t: Machine :: t.index == i ==> Runs(code, t, 0x0, reg, x0)
    ensures forall t: Machine :: t.index == i + 1 ==> Runs(code, t, 0x2, r1, m)
    ensures forall t: Machine :: t.index == i + 2 ==> Runs(code, t, 0x1, r2, o)
    ensures forall t: Machine :: t.index == i + 3 ==> Runs(code, t, 0xc, reg, x3)
  {
  }

  /** The last three of them, from a machine that has the answer. */
  lemma {:induction false} ThreeSteps(code: seq<int>, s1: Machine, s2: Machine, s3: Machine, reg: int, m: int, o: int,
                                      r1: int, r2: int, x3: int, vs: seq<int>)
    requires IsCode(code) && IsWord(s1.predata) && IsWord(m) && IsWord(o) && |vs| == 3
    requires Runs(code, s1, 0x2, r1, m) && Runs(code, s2, 0x1, r2, o) && Runs(code, s3, 0xc, reg, x3)
    requires s2 == s1.(index := s1.index + 1, predata := And(s1.predata, m))
    requires s3 == s2.(index := s2.index + 1, predata := Or(s2.predata, o))
    ensures Run(code, s1, vs).1 == [Write(s1.mcu, reg, s3.predata % 0x1_0000)]
  {
    hide *;
    var t3 := [vs[2]];
    var t2 := [vs[1]] + t3;
    assert vs == [vs[0]] + t2;
    assert IsWord(s2.predata) && IsWord(s3.predata);
    RunsBits(code, s1, vs[0], 0x2, r1, m);
    RunsBits(code, s2, vs[1], 0x1, r2, o);
    WritesBack(code, s3, vs[2], reg, x3);
    Then(code, s2, vs[1], s3, [], t3);
    Then(code, s1, vs[0], s2, [], t2);
  }

  lemma {:induction false} WritesBack(code: seq<int>, s: Machine, v: int, reg: int, x: int)
    requires Runs(code, s, 0xc, reg, x)
    ensures Run(code, s, [v]).1 == [Write(s.mcu, reg, s.predata % 0x1_0000)]
  {
    StepOf(code, s, v, 0xc, reg, x);
    hide Run, Opcode, Regno, Operand, Instruction;
  }

  lemma {:induction false} ReadsInto(code: seq<int>, s: Machine, v: int, reg: int, x: int)
    requires Runs(code, s, 0x0, reg, x) && IsWord(v)
    ensures Run(code, s, [v]) ==
            (s.(index := s.index + 1, predata := v, count := Word(s.count + 1)), [Read(s.mcu, reg, v)])
  {
    hide Run, Runs, Word;
    RunsDevice(code, s, v, 0x0, reg, x);
  }

  lemma {:induction false} FourSteps(code: seq<int>, s: Machine, reg: int, m: int, o: int, r1: int, r2: int, x0: int,
                                     x3: int, vs: seq<int>)
    requires IsCode(code) && |vs| == 4 && IsWord(vs[0]) && ModifiesAt(code, s.index, reg, m, o, r1, r2, x0, x3)
    ensures IsWord(m) && IsWord(o)
    ensures Run(code, s, vs).1 == [Read(s.mcu, reg, vs[0]), Write(s.mcu, reg, Or(And(vs[0], m), o) % 0x1_0000)]
  {
    hide *;
    var i, x, rest := s.index, vs[0], vs[1..];
    ModifiesRuns(code, i, reg, m, o, r1, r2, x0, x3);
    var s1 := s.(index := i + 1, predata := x, count := Word(s.count + 1));
    var s2 := s1.(index := i + 2, predata := And(x, m));
    var s3 := s2.(index := i + 3, predata := Or(s2.predata, o));
    ThreeSteps(code, s1, s2, s3, reg, m, o, r1, r2, x3, rest);
    ReadsInto(code, s, x, reg, x0);
    Then(code, s, x, s1, [Read(s.mcu, reg, x)], rest);
    assert vs == [x] + rest;
  }

  /** Reading a register, masking and setting bits, and writing the value back does exactly that: a read, and
      a write of the low half of the answer with the bits cleared and set. */
  lemma {:induction false} ReadModifyWrite(code: seq<int>, s: Machine, reg: int, m: int, o: int, r1: int, r2: int,
                                           x0: int, x3: int, vs: seq<int>)
    requires IsCode(code) && |vs| == 4 && IsWord(vs[0]) && ModifiesAt(code, s.index, reg, m, o, r1, r2, x0, x3)
    ensures Run(code, s, vs).1 == [Read(s.mcu, reg, vs[0]),
                                   Write(s.mcu, reg, (((vs[0] as bv32) & (m as bv32)) | (o as bv32)) as int % 0x1_0000)]
  {
    FourSteps(code, s, reg, m, o, r1, r2, x0, x3, vs);
    BitsTwice(vs[0], m, o);
    hide *;
  }

  lemma {:induction false} BitsTwice(a: int, m: int, o: int)
    requires IsWord(a) && IsWord(m) && IsWord(o)
    ensures Or(And(a, m), o) == (((a as bv32) & (m as bv32)) | (o as bv32)) as int
  {
    var p := (a as bv32) & (m as bv32);
    BitsOf(a, m);
    BitsOf(p as int, o);
    hide Or, And;
    Back(p);
  }

  lemma {:induction false} Back(p: bv32)
    ensures IsWord(p as int) && (p as int) as bv32 == p
  {
  }

  /** The words are reads, of any registers. */
  predicate AreReads(code: seq<int>, i: nat, n: nat) {
    i + n <= |code| && forall k :: i <= k < i + n ==> 0 < code[k] < 0x1000_0000
  }

  predicate AreWords(vs: seq<int>) {
    forall k :: 0 <= k < |vs| ==> IsWord(vs[k])
  }

  /** The effects are reads of the registers that the words from `i` on name, with these answers. */
  predicate ReadsBack(code: seq<int>, i: nat, mcu: bool, vs: seq<int>, io: seq<Io>) {
    |io| == |vs| && i + |vs| <= |code| &&
    forall k :: 0 <= k < |vs| ==> io[k] == Read(mcu, code[i + k] / 0x1_0000, vs[k])
  }

  lemma {:induction false} AddCount(c: nat, n: nat)
    ensures Word(Word(c + 1) + n) == Word(c + (n + 1))
  {
  }

  lemma {:induction false} NoReads(code: seq<int>, s: Machine)
    requires IsCode(code) && AreReads(code, s.index, 0) && IsWord(s.count)
    ensures Run(code, s, []) == (s, []) && Word(s.count) == s.count && ReadsBack(code, s.index, s.mcu, [], [])
  {
  }

  /** The first of several reads in a row. */
  lemma {:induction false} ReadOne(code: seq<int>, s: Machine, vs: seq<int>) returns (s1: Machine, e: Io)
    requires IsCode(code) && AreReads(code, s.index, |vs|) && AreWords(vs) && vs != [] && IsWord(s.count)
    ensures Run(code, s, [vs[0]]) == (s1, [e])
    ensures IsWord(s1.count) && Word(s1.count + (|vs| - 1)) == Word(s.count + |vs|)
    ensures s1.index == s.index + 1 && s1.predata == vs[0] && s1.mcu == s.mcu
    ensures AreReads(code, s1.index, |vs| - 1) && AreWords(vs[1..])
    ensures forall io :: ReadsBack(code, s1.index, s.mcu, vs[1..], io) ==> ReadsBack(code, s.index, s.mcu, vs, [e] + io)
  {
    var w := code[s.index];
    var reg := w / 0x1_0000;
    assert Runs(code, s, 0x0, reg, w - 0x1_0000 * reg);
    AddCount(s.count, |vs| - 1);
    s1 := s.(index := s.index + 1, predata := vs[0], count := Word(s.count + 1));
    e := Read(s.mcu, reg, vs[0]);
    hide Run, Runs, IsCode, Instruction;
    RunsDevice(code, s, vs[0], 0x0, reg, w - 0x1_0000 * reg);
  }

  /** As many reads in a row count as many, from where the count was; their answers come back in order. */
  lemma {:induction false} ReadsCount(code: seq<int>, s: Machine, vs: seq<int>)
    requires IsCode(code) && AreReads(code, s.index, |vs|) && IsWord(s.count) && AreWords(vs)
    ensures var (t, io) := Run(code, s, vs);
      && t.index == s.index + |vs| && t.count == Word(s.count + |vs|) && t.mcu == s.mcu
      && t.predata == (if vs == [] then s.predata else vs[|vs| - 1]) && ReadsBack(code, s.index, s.mcu, vs, io)
    decreases vs
  {
    hide *;
    if vs == [] {
      NoReads(code, s);
    } else {
      var s1, e := ReadOne(code, s, vs);
      var rest := vs[1..];
      assert vs == [vs[0]] + rest;
      Then(code, s, vs[0], s1, [e], rest);
      ReadsCount(code, s1, rest);
    }
  }

  /** After the count is cleared, so many reads in a row make the test for exactly that many skip. */
  lemma {:induction false} CountedReadsSkip(code: seq<int>, s: Machine, r0: int, x0: int, vs: seq<int>, reg: int,
                                            x: int, v0: int, v1: int)
    requires Runs(code, s, 0x7, r0, x0) && IsWord(s.predata) && AreReads(code, s.index + 1, |vs|) && AreWords(vs)
    requires |vs| < U32 && Runs(code, s.(index := s.index + 1 + |vs|), 0x9, reg, x)
    ensures Run(code, s, [v0] + vs + [v1]).0.index == s.index + 1 + |vs| + (if |vs| == x then 2 else 1)
  {
    var s1 := s.(index := s.index + 1, count := 0);
    assert IsCode(code) && IsWord(s1.count) && Word(|vs|) == |vs|;
    var t := Run(code, s1, vs).0;
    ReadsCount(code, s1, vs);
    assert Runs(code, t, 0x9, reg, x);
    hide *;
    RunsBits(code, s, v0, 0x7, r0, x0);
    RunsCount(code, t, v1, reg, x);
    RunConcat(code, s, [v0], vs);
    RunConcat(code, s, [v0] + vs, [v1]);
  }

  lemma {:induction false} RunsCount(code: seq<int>, s: Machine, v: int, reg: int, x: int)
    requires Runs(code, s, 0x9, reg, x)
    ensures Run(code, s, [v]).0.index == s.index + (if s.count == x then 2 else 1)
  {
    hide Run;
    RunsSkips(code, s, v, 0x9, reg, x);
  }

  /** The pair of access functions that is selected is the one that the following write goes through. */
  lemma {:induction false} SelectsPair(code: seq<int>, s: Machine, r0: int, x0: int, reg: int, x: int, vs: seq<int>)
    requires Runs(code, s, 0x4, r0, x0) && IsWord(s.predata) && |vs| == 2 && IsWord(vs[1])
    requires Runs(code, s.(index := s.index + 1), 0x8, reg, x)
    ensures Run(code, s, vs).1 == [Write(x0 != 0, reg, x)]
  {
    var s1 := s.(index := s.index + 1, mcu := x0 != 0);
    assert vs == [vs[0]] + [vs[1]] && IsCode(code) && Runs(code, s1, 0x8, reg, x);
    hide *;
    RunsBits(code, s, vs[0], 0x4, r0, x0);
    RunsDevice(code, s1, vs[1], 0x8, reg, x);
    RunConcat(code, s, [vs[0]], [vs[1]]);
  }

  // ----- The static check -----

  predicate Defined(op: int) {
    0 <= op <= PHY_MDIO_CHG || PHY_CLEAR_READCOUNT <= op <= PHY_DELAY_MS
  }

  predicate InstructionOk(code: seq<int>, i: int)
    requires 0 <= i < |code|
  {
    var op := Opcode(code[i]);
    && Defined(op)
    && (op == PHY_MDIO_CHG ==> Operand(code[i]) <= 1)
    && (op == PHY_BJMPN ==> Regno(code[i]) <= i)
    && (op == PHY_READCOUNT_EQ_SKIP ==> i + 2 < |code|)
    && (op in {PHY_COMP_EQ_SKIPN, PHY_COMP_NEQ_SKIPN, PHY_SKIPN} ==> i + 1 + Regno(code[i]) < |code|)
  }

  predicate CodeOk(code: seq<int>) {
    forall i :: 0 <= i < |code| ==> InstructionOk(code, i)
  }

  /** The instruction about to run is defined, selects one of the two access pairs, and moves the
      program counter to a real instruction if it jumps or skips, else to what follows it. */
  predicate StepSafe(code: seq<int>, s: Machine)
    requires s.index < |code|
  {
    var a := code[s.index];
    && Defined(Opcode(a))
    && (Opcode(a) == PHY_MDIO_CHG ==> Operand(a) <= 1)
    && (if Taken(a, s) then 0 <= Target(a, s.index) < |code| && NextIndex(a, s) == Target(a, s.index)
        else NextIndex(a, s) == s.index + 1)
  }

  lemma {:induction false} OkIsSafe(code: seq<int>, s: Machine)
    requires IsCode(code) && s.index < |code| && InstructionOk(code, s.index)
    ensures StepSafe(code, s)
  {
    hide Opcode, Regno, Operand, Word;
    assert IsWord(code[s.index]);
  }

  /** The check refuses no instruction that is safe in every state of the machine. */
  lemma {:induction false} CodeOkIsExact(code: seq<int>)
    requires IsCode(code)
    ensures CodeOk(code) <==> forall s: Machine :: s.index < |code| ==> StepSafe(code, s)
  {
    if CodeOk(code) {
      forall s: Machine | s.index < |code| ensures StepSafe(code, s) {
        OkIsSafe(code, s);
      }
    }
    if forall s: Machine :: s.index < |code| ==> StepSafe(code, s) {
      forall i | 0 <= i < |code| ensures InstructionOk(code, i) {
        var a := code[i];
        var n := if Opcode(a) == PHY_COMP_NEQ_SKIPN then Operand(a) + 1 else Operand(a);
        var s := Machine(i, n, n, false);
        assert StepSafe(code, s);
      }
    }
  }

  /** For every sequence of device answers, at every point of the run, the program counter is at an
      instruction that is safe to run, or just past the last one: no jump or skip misses the code. */
  lemma {:induction false} RunIsSafe(code: seq<int>, s: Machine, vs: seq<int>)
    requires IsCode(code) && CodeOk(code) && s.index <= |code|
    ensures var t := Run(code, s, vs).0;
      t.index <= |code| && (t.index < |code| ==> StepSafe(code, t))
    decreases |vs|
  {
    if s.index < |code| {
      OkIsSafe(code, s);
      if vs != [] && !Halted(code, s) {
        RunIsSafe(code, Next(code[s.index], s, vs[0]), vs[1..]);
      }
    }
  }

  // ----- The blob -----

  function Le32(data: seq<byte>, at: nat): (word: int)
    requires at + 4 <= |data|
    ensures IsWord(word)
  {
    data[at] as int + 0x100 * data[at + 1] as int + 0x1_0000 * data[at + 2] as int + 0x100_0000 * data[at + 3] as int
  }

  function ByteSum(data: seq<byte>): nat {
    if data == [] then 0 else ByteSum(data[..|data| - 1]) + data[|data| - 1] as int
  }

  datatype Format = BadFormat | Good(start: nat, size: nat)

  /** Where the code of a blob is, and of how many words it consists. */
  function FormatOf(data: seq<byte>): (f: Format)
    ensures f.Good? ==> f.start + FW_OPCODE_SIZE * f.size <= |data|
  {
    if |data| < FW_OPCODE_SIZE then BadFormat
    else if Le32(data, 0) == 0 then
      if |data| < FW_INFO_SIZE || ByteSum(data) % 0x100 != 0 || Le32(data, FW_START) > |data|
         || Le32(data, FW_LEN) > (|data| - Le32(data, FW_START)) / FW_OPCODE_SIZE then BadFormat
      else Good(Le32(data, FW_START), Le32(data, FW_LEN))
    else if |data| % FW_OPCODE_SIZE != 0 then BadFormat
    else Good(0, |data| / FW_OPCODE_SIZE)
  }

  function Words(data: seq<byte>, start: nat, size: nat): (code: seq<int>)
    requires start + FW_OPCODE_SIZE * size <= |data| < SIZE_T
    ensures |code| == size && IsCode(code)
  {
    seq(size, i requires 0 <= i < size => Le32(data, start + FW_OPCODE_SIZE * i))
  }

  ghost predicate Accepted(data: seq<byte>)
    requires |data| < SIZE_T
  {
    var f := FormatOf(data);
    f.Good? && CodeOk(Words(data, f.start, f.size))
  }

  /** Exactly these blobs have a right format: with a first word of zero, those that have room for a header,
      whose bytes sum up to a multiple of 256, and whose code, so many words from the place that the header
      says, lies inside them; with another first word, those that consist of words, all of them code. */
  lemma {:induction false} FormatIsExact(data: seq<byte>)
    ensures |data| < 4 ==> FormatOf(data) == BadFormat
    ensures |data| >= 4 && data[..4] != [0, 0, 0, 0] ==>
            FormatOf(data) == if |data| % 4 == 0 then Good(0, |data| / 4) else BadFormat
    ensures |data| >= 4 && data[..4] == [0, 0, 0, 0] ==>
      if |data| < 45 then FormatOf(data) == BadFormat
      else
        var start := data[36] as int + 0x100 * data[37] as int + 0x1_0000 * data[38] as int
                     + 0x100_0000 * data[39] as int;
        var size := data[40] as int + 0x100 * data[41] as int + 0x1_0000 * data[42] as int
                    + 0x100_0000 * data[43] as int;
        FormatOf(data) ==
          if ByteSum(data) % 0x100 == 0 && start + 4 * size <= |data| then Good(start, size) else BadFormat
  {
    hide ByteSum;
    if |data| >= 4 {
      var w := data[..4];
      assert w[0] == data[0] && w[1] == data[1] && w[2] == data[2] && w[3] == data[3];
      assert Le32(data, 0) == 0 <==> data[0] == data[1] == data[2] == data[3] == 0;
      assert w == [0, 0, 0, 0] <==> w[0] == w[1] == w[2] == w[3] == 0;
    }
  }

  /** A word of the code is four bytes of the blob, the lowest first. */
  lemma {:induction false} WordIsBytes(data: seq<byte>, start: nat, size: nat, i: nat)
    requires start + 4 * size <= |data| < SIZE_T && i < size
    ensures var j := start + 4 * i;
      Words(data, start, size)[i] ==
      data[j] as int + 0x100 * data[j + 1] as int + 0x1_0000 * data[j + 2] as int + 0x100_0000 * data[j + 3] as int
  {
  }

  /** A program starts at its first word, with the first pair of access functions, nothing read and nothing
      stored; it stops at a word of zero, or behind the last one. */
  lemma {:induction false} StartsAndStops(code: seq<int>, s: Machine, reg: int, x: int, vs: seq<int>)
    requires IsCode(code)
    ensures s.index >= |code| || code[s.index] == 0 ==> Run(code, s, vs) == (s, [])
    ensures Runs(code, START, 0x8, reg, x) && vs != [] && IsWord(vs[0]) ==>
            Run(code, START, [vs[0]]) == (Machine(1, 0, 0, false), [Write(false, reg, x)])
  {
    if Runs(code, START, 0x8, reg, x) && vs != [] && IsWord(vs[0]) {
      RunsDevice(code, START, vs[0], 0x8, reg, x);
    }
    hide Runs, Instruction;
  }

  /** The check takes exactly the thirteen opcodes of the machine, in programs where no jump, skip or selection
      can go wrong. */
  lemma {:induction false} OpcodesAccepted(code: seq<int>, i: nat, op: int, reg: int, x: int)
    requires i < |code| && code[i] == Instruction(op, reg, x) && 0 <= reg < 0x1000 && 0 <= x < 0x1_0000
    ensures InstructionOk(code, i) <==>
      && op in {0, 1, 2, 3, 4, 7, 8, 9, 10, 11, 12, 13, 14} && (op == 4 ==> x <= 1) && (op == 3 ==> reg <= i)
      && (op == 9 ==> i + 2 < |code|) && (op == 10 || op == 11 || op == 13 ==> i + 1 + reg < |code|)
  {
    Fields(op, reg, x);
    hide Instruction, Opcode, Regno, Operand;
  }

  // ----- When a program ends -----

  /** Without backward jumps, an accepted program ends within one pass over its instructions. */
  lemma {:induction false} ForwardCodeHalts(code: seq<int>, s: Machine, vs: seq<int>)
    requires IsCode(code) && CodeOk(code) && s.index <= |code| && |vs| >= |code| - s.index
    requires forall i :: 0 <= i < |code| ==> Opcode(code[i]) != PHY_BJMPN
    ensures Halted(code, Run(code, s, vs).0)
    decreases |vs|
  {
    if !Halted(code, s) {
      OkIsSafe(code, s);
      hide Opcode, Regno, Operand;
      assert s.index < NextIndex(code[s.index], s);
      ForwardCodeHalts(code, Next(code[s.index], s, vs[0]), vs[1..]);
    }
  }

  /** The check does not promise more: it accepts a jump to itself, which never ends. */
  lemma {:induction false} SelfJumpNeverHalts(vs: seq<int>)
    ensures var code := [PHY_BJMPN * 0x1000_0000];
      IsCode(code) && CodeOk(code) && Run(code, START, vs).0 == START && !Halted(code, START)
    decreases |vs|
  {
    if vs != [] {
      SelfJumpNeverHalts(vs[1..]);
    }
  }

  // ----- Blobs built to the format -----

  function Bytes(word: int): (b: seq<byte>)
    requires IsWord(word)
    ensures |b| == 4 && Le32(b, 0) == word
  {
    var q1 := word / 0x100;
    var q2 := q1 / 0x100;
    [word % 0x100, q1 % 0x100, q2 % 0x100, q2 / 0x100]
  }

  function CodeBytes(code: seq<int>): (b: seq<byte>)
    requires forall i :: 0 <= i < |code| ==> IsWord(code[i])
    ensures |b| == FW_OPCODE_SIZE * |code|
  {
    if code == [] then [] else CodeBytes(code[..|code| - 1]) + Bytes(code[|code| - 1])
  }

  lemma {:induction false} CodeBytesAt(code: seq<int>, i: nat)
    requires (forall k :: 0 <= k < |code| ==> IsWord(code[k])) && i < |code|
    ensures Le32(CodeBytes(code), FW_OPCODE_SIZE * i) == code[i]
    decreases code
  {
    if i < |code| - 1 {
      CodeBytesAt(code[..|code| - 1], i);
    }
  }

  lemma {:induction false} SumConcat(a: seq<byte>, b: seq<byte>)
    ensures ByteSum(a + b) == ByteSum(a) + ByteSum(b)
    decreases b
  {
    if b == [] {
      assert a + b == a;
    } else {
      SumConcat(a, b[..|b| - 1]);
      assert (a + b)[..|a + b| - 1] == a + b[..|b| - 1];
    }
  }

  /** A blob with a header: a zero magic number, a version, where the code is, and the checksum byte
      that makes the sum of all bytes a multiple of 256. */
  function Header(version: seq<byte>, size: int): (b: seq<byte>)
    requires |version| == FW_START - VERSION && IsWord(size)
    ensures |b| == CHKSUM
  {
    Bytes(0) + version + Bytes(FW_INFO_SIZE) + Bytes(size)
  }

  function Blob(version: seq<byte>, code: seq<int>): seq<byte>
    requires |version| == FW_START - VERSION && IsWord(|code|)
    requires forall i :: 0 <= i < |code| ==> IsWord(code[i])
  {
    var header := Header(version, |code|);
    header + [(0x100 - ByteSum(header + CodeBytes(code)) % 0x100) % 0x100] + CodeBytes(code)
  }

  /** Such a blob has the right format, and what is read from it is the code that was put in. */
  lemma {:induction false} BlobReadsBack(version: seq<byte>, code: seq<int>)
    requires |version| == FW_START - VERSION && IsWord(|code|)
    requires forall i :: 0 <= i < |code| ==> IsWord(code[i])
    ensures var blob := Blob(version, code);
      |blob| < SIZE_T && FormatOf(blob) == Good(FW_INFO_SIZE, |code|) && Words(blob, FW_INFO_SIZE, |code|) == code
  {
    var blob, header, body := Blob(version, code), Header(version, |code|), CodeBytes(code);
    var check := blob[CHKSUM];
    assert blob == header + [check] + body;
    Balanced(header, check, body);
    HeaderFields(version, |code|, [check] + body);
    assert header + ([check] + body) == blob;
    hide ByteSum, CodeBytes, Header, Blob, Le32;
    forall i | 0 <= i < |code| ensures Le32(blob, FW_INFO_SIZE + FW_OPCODE_SIZE * i) == code[i] {
      CodeBytesAt(code, i);
      SameWord(blob, FW_INFO_SIZE + FW_OPCODE_SIZE * i, body, FW_OPCODE_SIZE * i);
    }
  }

  lemma {:induction false} SameWord(a: seq<byte>, i: nat, b: seq<byte>, j: nat)
    requires i + 4 <= |a| && j + 4 <= |b| && a[i..i + 4] == b[j..j + 4]
    ensures Le32(a, i) == Le32(b, j)
  {
    var w := a[i..i + 4];
    assert w == [a[i], a[i + 1], a[i + 2], a[i + 3]] && w == [b[j], b[j + 1], b[j + 2], b[j + 3]];
  }

  lemma {:induction false} Balanced(header: seq<byte>, check: byte, body: seq<byte>)
    requires check as int == (0x100 - ByteSum(header + body) % 0x100) % 0x100
    ensures ByteSum(header + [check] + body) % 0x100 == 0
  {
    SumConcat(header + [check], body);
    SumConcat(header, [check]);
    SumConcat(header, body);
    assert ByteSum([check]) == check as int by { assert [check][..0] == []; }
  }

  lemma {:induction false} HeaderFields(version: seq<byte>, size: int, rest: seq<byte>)
    requires |version| == FW_START - VERSION && IsWord(size)
    ensures var blob := Header(version, size) + rest;
      Le32(blob, 0) == 0 && Le32(blob, FW_START) == FW_INFO_SIZE && Le32(blob, FW_LEN) == size
  {
    var blob := Header(version, size) + rest;
    hide Le32;
    SameWord(blob, 0, Bytes(0), 0);
    SameWord(blob, FW_START, Bytes(FW_INFO_SIZE), 0);
    SameWord(blob, FW_LEN, Bytes(size), 0);
  }

  class RtlFw {
    const data: seq<byte>
    var start: nat   // the field `code`, as an offset into the data
    var size: nat

    constructor (data: seq<byte>)
      ensures this.data == data
    {
      this.data, start, size := data, 0, 0;
    }

    /** The sum of all bytes, in a `u8`. */
    method Checksum() returns (checksum: int)
      ensures checksum == ByteSum(data) % 0x100
    {
      checksum := 0;
      var i := 0;
      while i < |data|
        invariant 0 <= i <= |data| && checksum == ByteSum(data[..i]) % 0x100
      {
        assert data[..i + 1][..i] == data[..i];
        checksum := (checksum + data[i] as int) % 0x100;
        i := i + 1;
      }
      assert data[..i] == data;
    }

    /** `rtl8125_fw_format_ok`. */
    method FormatOk() returns (ok: bool)
      requires |data| < SIZE_T
      modifies this
      ensures ok <==> FormatOf(data).Good?
      ensures ok ==> FormatOf(data) == Good(start, size)
    {
      hide Le32, ByteSum;
      if |data| < FW_OPCODE_SIZE {
        return false;
      }
      if Le32(data, 0) == 0 {
        if |data| < FW_INFO_SIZE {
          return false;
        }
        var checksum := Checksum();
        if checksum != 0 {
          return false;
        }
        var fwStart := Le32(data, FW_START);
        if fwStart > |data| {
          return false;
        }
        var fwLen := Le32(data, FW_LEN);
        if fwLen > (|data| - fwStart) / FW_OPCODE_SIZE {
          return false;
        }
        start, size := fwStart, fwLen;
      } else {
        if |data| % FW_OPCODE_SIZE != 0 {
          return false;
        }
        start, size := 0, |data| / FW_OPCODE_SIZE;
      }
      return true;
    }

    /** `rtl8125_fw_data_ok`. */
    method DataOk() returns (ok: bool)
      requires start + FW_OPCODE_SIZE * size <= |data| < SIZE_T
      ensures ok <==> CodeOk(Words(data, start, size))
    {
      ghost var code := Words(data, start, size);
      var index := 0;
      while index < size
        invariant 0 <= index <= size
        invariant forall i :: 0 <= i < index ==> InstructionOk(code, i)
      {
        var action := Le32(data, start + FW_OPCODE_SIZE * index);
        assert action == code[index];
        var val, regno, op := Operand(action), Regno(action), Opcode(action);
        assert CodeOk(code) ==> InstructionOk(code, index);
        if op == PHY_MDIO_CHG {
          if val > 1 {
            return false;
          }
        } else if op == PHY_BJMPN {
          if regno > index {
            return false;
          }
        } else if op == PHY_READCOUNT_EQ_SKIP {
          if index + 2 >= size {
            return false;
          }
        } else if op == PHY_COMP_EQ_SKIPN || op == PHY_COMP_NEQ_SKIPN || op == PHY_SKIPN {
          if index + 1 + regno >= size {
            return false;
          }
        } else if !(op == PHY_READ || op == PHY_DATA_OR || op == PHY_DATA_AND || op == PHY_CLEAR_READCOUNT ||
                    op == PHY_WRITE || op == PHY_WRITE_PREVIOUS || op == PHY_DELAY_MS) {
          return false;
        }
        index := index + 1;
      }
      return true;
    }

    /** `rtl8125_fw_request_firmware`, once the blob has been read. */
    method RequestFirmware() returns (ok: bool)
      requires |data| < SIZE_T
      modifies this
      ensures ok <==> Accepted(data)
      ensures ok ==> FormatOf(data) == Good(start, size)
    {
      ok := FormatOk();
      if ok {
        ok := DataOk();
      }
    }

    /** One pass through the interpreter's `switch`, and the loop's increment of the program counter. */
    method Execute(action: int, s: Machine, v: int) returns (s': Machine, io: seq<Io>)
      requires IsWord(action) && IsWord(s.predata) && IsWord(s.count)
      ensures s' == Next(action, s, v) && io == Effect(action, s, v)
      ensures IsWord(s'.predata) && IsWord(s'.count)
    {
      hide Opcode, Regno, Operand, Or, And, Word, Size;
      var Machine(index, predata, count, mcu) := s;
      var val, regno, op := Operand(action), Regno(action), Opcode(action);
      io := [];
      if op == PHY_READ {
        predata := Word(v);
        count := Word(count + 1);
        io := [Read(mcu, regno, predata)];
      } else if op == PHY_DATA_OR {
        predata := Or(predata, val);
      } else if op == PHY_DATA_AND {
        predata := And(predata, val);
      } else if op == PHY_BJMPN {
        index := Size(index - (regno + 1));
      } else if op == PHY_MDIO_CHG {
        mcu := val != 0;
      } else if op == PHY_CLEAR_READCOUNT {
        count := 0;
      } else if op == PHY_WRITE {
        io := [Write(mcu, regno, val)];
      } else if op == PHY_READCOUNT_EQ_SKIP {
        if count == val {
          index := Size(index + 1);
        }
      } else if op == PHY_COMP_EQ_SKIPN {
        if predata == val {
          index := Size(index + regno);
        }
      } else if op == PHY_COMP_NEQ_SKIPN {
        if predata != val {
          index := Size(index + regno);
        }
      } else if op == PHY_WRITE_PREVIOUS {
        io := [Write(mcu, regno, predata % 0x1_0000)];
      } else if op == PHY_SKIPN {
        index := Size(index + regno);
      } else if op == PHY_DELAY_MS {
        io := [Delay(val)];
      }
      index := Size(index + 1);
      s' := Machine(index, predata, count, mcu);
    }

    /** `rtl8125_fw_write_firmware`, run for at most `|vs|` instructions. */
    method WriteFirmware(vs: seq<int>) returns (io: seq<Io>, finished: bool)
      requires |data| < SIZE_T && Accepted(data) && FormatOf(data) == Good(start, size)
      ensures var (s, effects) := Run(Words(data, start, size), START, vs);
        io == effects && (finished <==> Halted(Words(data, start, size), s))
    {
      ghost var code := Words(data, start, size);
      var s, k := START, 0;
      io := [];
      assert vs[0..] == vs;
      hide Run, Next, NextIndex, Effect, Words, FormatOf, InstructionOk;
      while k < |vs|
        invariant 0 <= k <= |vs| && s.index <= size && IsWord(s.predata) && IsWord(s.count)
        invariant Run(code, START, vs).0 == Run(code, s, vs[k..]).0
        invariant Run(code, START, vs).1 == io + Run(code, s, vs[k..]).1
      {
        assert vs[k..][0] == vs[k] && vs[k..][1..] == vs[k + 1..];
        RunStep(code, s, vs[k..]);
        if s.index >= size {
          return io, true;
        }
        var action := Fetch(s.index);
        if action == 0 {
          return io, true;
        }
        OkIsSafe(code, s);
        var effect;
        s, effect := Execute(action, s, vs[k]);
        io := io + effect;
        k := k + 1;
      }
      assert vs[k..] == [];
      RunStep(code, s, []);
      finished := true;
      if s.index < size {
        var action := Fetch(s.index);
        finished := action == 0;
      }
    }

    /** Reads an instruction, which lies inside the blob. */
    method Fetch(index: nat) returns (action: int)
      requires start + FW_OPCODE_SIZE * size <= |data| < SIZE_T && index < size
      ensures action == Words(data, start, size)[index]
    {
      action := Le32(data, start + FW_OPCODE_SIZE * index);
    }
  }

  lemma {:induction false} RunStep(code: seq<int>, s: Machine, vs: seq<int>)
    requires IsCode(code)
    ensures vs == [] || Halted(code, s) ==> Run(code, s, vs) == (s, [])
    ensures vs != [] && !Halted(code, s) ==>
      var rest := Run(code, Next(code[s.index], s, vs[0]), vs[1..]);
      Run(code, s, vs) == (rest.0, Effect(code[s.index], s, vs[0]) + rest.1)
  {
  }
}
