/**
  The instruction buffer of src/pecunia/code_builder.py: a byte buffer that only grows,
  two interning tables for local names and constants, EXTENDED_ARG splitting of jump
  arguments, and the stack-size and line-table computation done when the buffer is
  turned into a code object.  Opcodes are abstract symbols; their numeric values and
  CPython's own stack_effect are not part of this model (stack_effect is a parameter).
*/
module Bytecode {
  import opened Outcomes

  // ---------------------------------------------------------------------------
  // Opcodes, bytes and the symbolic calls a program is written in
  // ---------------------------------------------------------------------------

  /** The CPython opcode mnemonics the builder emits. */
  datatype Opcode =
    | BINARY_ADD | BUILD_TUPLE | CALL_FUNCTION | CALL_FUNCTION_EX | COMPARE_OP
    | EXTENDED_ARG | JUMP_ABSOLUTE | LOAD_CONST | LOAD_FAST | POP_JUMP_IF_FALSE
    | RETURN_VALUE | STORE_FAST | SWAP | UNPACK_SEQUENCE | YIELD_VALUE

  /** Opcodes numbered at or above HAVE_ARGUMENT: stack_effect is asked with their argument. */
  predicate HasArgument(op: Opcode) {
    !(op == BINARY_ADD || op == RETURN_VALUE || op == SWAP || op == YIELD_VALUE)
  }

  /** One byte of the buffer: an opcode byte or an argument byte (always below 256). */
  datatype Byte = Op(op: Opcode) | Arg(value: nat)

  type Name = string

  /** Keys of the constants table: None, numpy.maximum, and floats. */
  datatype Constant = NoneConst | MaximumFn | Num(value: real)

  /** Comparison operators, in the order of CPython's cmp_op tuple. */
  datatype Comparison = Lt | Le | Eq | Ne | Gt | Ge

  function CmpIndex(c: Comparison): (r: nat)
    ensures r < 6
  {
    match c
    case Lt => 0
    case Le => 1
    case Eq => 2
    case Ne => 3
    case Gt => 4
    case Ge => 5
  }

  /** One call of a CodeBuilder emitter, with its argument. */
  datatype Instr =
    | BinaryAdd
    | BuildTuple(count: int)
    | CallFunction(argc: int)
    | CallFunctionEx(argc: int)
    | CompareOp(cmp: Comparison)
    | JumpAbsolute(target: nat)
    | LoadFast(name: Name)
    | LoadConst(constant: Constant)
    | PopJumpIfFalse(target: nat)
    | ReturnValue
    | StoreFast(name: Name)
    | Swap
    | UnpackSequence(count: int)
    | YieldValue

  // ---------------------------------------------------------------------------
  // Bit length, big-endian bytes and EXTENDED_ARG prefixes
  // ---------------------------------------------------------------------------

  function Pow2(k: nat): (r: nat)
    ensures r >= 1
  {
    if k == 0 then 1 else 2 * Pow2(k - 1)
  }

  lemma {:induction false} Pow2Monotone(a: nat, b: nat)
    requires a <= b
    ensures Pow2(a) <= Pow2(b)
  {
    if a < b {
      Pow2Monotone(a, b - 1);
    }
  }

  lemma {:induction false} Pow2Add(a: nat, b: nat)
    ensures Pow2(a + b) == Pow2(a) * Pow2(b)
  {
    if a > 0 {
      Pow2Add(a - 1, b);
      assert Pow2(a + b) == 2 * Pow2(a - 1 + b);
    }
  }

  /** Python's int.bit_length for a non-negative integer. */
  function BitLength(n: nat): nat
  {
    if n == 0 then 0 else 1 + BitLength(n / 2)
  }

  /** `n` needs exactly BitLength(n) binary digits. */
  lemma {:induction false} BitLengthBounds(n: nat)
    ensures n < Pow2(BitLength(n))
    ensures n > 0 ==> Pow2(BitLength(n) - 1) <= n
  {
    if n > 0 {
      BitLengthBounds(n / 2);
    }
  }

  lemma {:induction false} BitLengthMonotone(a: nat, b: nat)
    requires a <= b
    ensures BitLength(a) <= BitLength(b)
  {
    if a > 0 {
      BitLengthMonotone(a / 2, b / 2);
    }
  }

  /** Adding at most `n` to `n` adds at most one binary digit. */
  lemma BitLengthOfSum(n: nat, m: nat)
    requires m <= n
    ensures BitLength(n + m) <= BitLength(n) + 1
  {
    BitLengthBounds(n);
    BitLengthBounds(n + m);
    if BitLength(n + m) > BitLength(n) + 1 {
      Pow2Monotone(BitLength(n) + 1, BitLength(n + m) - 1);
      assert false;
    }
  }

  lemma {:induction false} BitLengthAtMost(n: nat)
    ensures BitLength(n) <= n
  {
    if n > 0 {
      BitLengthAtMost(n / 2);
    }
  }

  /** The number of EXTENDED_ARG pairs extend_arg emits: `arg.bit_length() // 8`. */
  function Prefixes(arg: nat): nat
  {
    BitLength(arg) / 8
  }

  /** An argument gets no EXTENDED_ARG prefix exactly when it is below 128. */
  lemma NoPrefixBelow128(arg: nat)
    ensures Prefixes(arg) == 0 <==> arg < 128
  {
    BitLengthBounds(arg);
    assert Pow2(7) == 128;
    if BitLength(arg) <= 7 {
      Pow2Monotone(BitLength(arg), 7);
    } else {
      Pow2Monotone(7, BitLength(arg) - 1);
    }
  }

  lemma PrefixesMonotone(a: nat, b: nat)
    requires a <= b
    ensures Prefixes(a) <= Prefixes(b)
  {
    BitLengthMonotone(a, b);
  }

  /** Adding a small amount to an argument adds at most one prefix. */
  lemma PrefixesOfSum(n: nat, m: nat)
    requires m <= n
    ensures Prefixes(n + m) <= Prefixes(n) + 1
  {
    BitLengthOfSum(n, m);
  }

  lemma PrefixesAtMost(n: nat)
    ensures 8 * Prefixes(n) <= n
  {
    BitLengthAtMost(n);
  }

  /** `n.to_bytes(len, "big")`, keeping the low `len` bytes (to_bytes raises when they do not suffice). */
  function ToBytes(n: nat, len: nat): (r: seq<nat>)
    ensures |r| == len
    ensures forall k :: 0 <= k < len ==> r[k] < 256
  {
    if len == 0 then [] else ToBytes(n / 256, len - 1) + [n % 256]
  }

  /** Big-endian reading of a byte string. */
  function FromBytes(bs: seq<nat>): nat
  {
    if bs == [] then 0 else FromBytes(bs[..|bs| - 1]) * 256 + bs[|bs| - 1]
  }

  lemma {:induction false} ToBytesRoundTrip(n: nat, len: nat)
    requires n < Pow2(8 * len)
    ensures FromBytes(ToBytes(n, len)) == n
  {
    if len > 0 {
      Pow2Add(8, 8 * (len - 1));
      assert Pow2(8) == 256;
      assert n / 256 < Pow2(8 * (len - 1));
      ToBytesRoundTrip(n / 256, len - 1);
      var r := ToBytes(n, len);
      assert r[..|r| - 1] == ToBytes(n / 256, len - 1);
    }
  }

  /** `bit_length() // 8 + 1` bytes always hold the argument, so to_bytes never overflows. */
  lemma ExtendArgFits(arg: nat)
    ensures arg < Pow2(8 * (Prefixes(arg) + 1))
  {
    BitLengthBounds(arg);
    Pow2Monotone(BitLength(arg), 8 * (Prefixes(arg) + 1));
  }

  /** The prefix bytes extend_arg emits, most significant first. */
  function ExtBytes(arg: nat): seq<nat>
  {
    var all := ToBytes(arg, Prefixes(arg) + 1);
    all[..|all| - 1]
  }

  /** The byte extend_arg returns, which the real opcode then takes as its argument. */
  function LowByte(arg: nat): nat
  {
    var all := ToBytes(arg, Prefixes(arg) + 1);
    all[|all| - 1]
  }

  /** The prefix bytes followed by the returned byte, read big-endian, give back the argument. */
  lemma SplitRoundTrip(arg: nat)
    ensures |ExtBytes(arg)| == Prefixes(arg)
    ensures LowByte(arg) < 256
    ensures forall k :: 0 <= k < |ExtBytes(arg)| ==> ExtBytes(arg)[k] < 256
    ensures FromBytes(ExtBytes(arg) + [LowByte(arg)]) == arg
  {
    var all := ToBytes(arg, Prefixes(arg) + 1);
    assert ExtBytes(arg) + [LowByte(arg)] == all;
    ExtendArgFits(arg);
    ToBytesRoundTrip(arg, Prefixes(arg) + 1);
  }

  /** An argument in 128..255 has bit length 8 and so gets a leading `EXTENDED_ARG 0`. */
  lemma PrefixOfHighByte(arg: nat)
    requires 128 <= arg < 256
    ensures Prefixes(arg) == 1
    ensures ExtBytes(arg) == [0] && LowByte(arg) == arg
  {
    BitLengthBounds(arg);
    assert Pow2(7) == 128 && Pow2(8) == 256;
    if BitLength(arg) <= 7 {
      Pow2Monotone(BitLength(arg), 7);
      assert false;
    }
    if BitLength(arg) >= 9 {
      Pow2Monotone(8, BitLength(arg) - 1);
      assert false;
    }
    assert BitLength(arg) == 8;
    assert arg / 256 == 0 && arg % 256 == arg;
    assert ToBytes(arg, 2) == ToBytes(0, 1) + [arg];
  }

  /** The leading byte of a big-endian string that holds `n` is zero iff `n` fits in one byte less. */
  lemma {:induction false} LeadingByteZero(n: nat, len: nat)
    requires len >= 1 && n < Pow2(8 * len)
    ensures ToBytes(n, len)[0] == 0 <==> n < Pow2(8 * (len - 1))
  {
    assert Pow2(8) == 256 by {
      assert Pow2(0) == 1;
    }
    if len == 1 {
      assert ToBytes(n, 1) == [n % 256];
    } else {
      Pow2Add(8, 8 * (len - 1));
      Pow2Add(8, 8 * (len - 2));
      assert n / 256 < Pow2(8 * (len - 1));
      LeadingByteZero(n / 256, len - 1);
      assert ToBytes(n, len)[0] == ToBytes(n / 256, len - 1)[0];
    }
  }

  /**
    `to_bytes(bit_length // 8 + 1)` starts with a zero byte exactly when the bit length is a
    positive multiple of 8 (128..255, 32768..65535, ...), so those arguments get a leading
    `EXTENDED_ARG 0`; every other argument's first prefix, if any, is non-zero.
  */
  lemma LeadingZeroPrefix(arg: nat)
    ensures Prefixes(arg) >= 1 && ExtBytes(arg)[0] == 0 <==> arg > 0 && BitLength(arg) % 8 == 0
  {
    var p := Prefixes(arg);
    var bl := BitLength(arg);
    ExtendArgFits(arg);
    BitLengthBounds(arg);
    if p >= 1 {
      LeadingByteZero(arg, p + 1);
      assert ExtBytes(arg)[0] == ToBytes(arg, p + 1)[0];
      if bl % 8 == 0 {
        assert bl == 8 * p;
      } else {
        assert 8 * p <= bl - 1;
        Pow2Monotone(8 * p, bl - 1);
      }
    } else if arg > 0 {
      assert bl < 8;
    }
  }

  /** The EXTENDED_ARG pairs for the given prefix bytes. */
  function PrefixPairs(ext: seq<nat>): (r: seq<Byte>)
    ensures |r| == 2 * |ext|
  {
    if ext == [] then [] else PrefixPairs(ext[..|ext| - 1]) + [Op(EXTENDED_ARG), Arg(ext[|ext| - 1])]
  }

  // ---------------------------------------------------------------------------
  // Interning: names.setdefault(key, len(names))
  // ---------------------------------------------------------------------------

  /** The indices of an interning table are exactly 0 .. |m|-1, each used once. */
  ghost predicate Dense<K>(m: map<K, nat>)
  {
    && (forall k :: k in m ==> m[k] < |m|)
    && (forall k, k' :: k in m && k' in m && m[k] == m[k'] ==> k == k')
  }

  /** `table.setdefault(key, len(table))`: the table afterwards and the index returned. */
  function Intern<K>(m: map<K, nat>, key: K): (map<K, nat>, nat)
  {
    if key in m then (m, m[key]) else (m[key := |m|], |m|)
  }

  /**
    An existing key keeps its index, a new key gets the next free index, the table only
    grows by at most that one entry, and it stays dense.
  */
  lemma InternProperties<K>(m: map<K, nat>, key: K)
    requires Dense(m)
    ensures var (m', idx) := Intern(m, key);
      && key in m' && m'[key] == idx && idx < |m'|
      && (key in m ==> m' == m)
      && (key !in m ==> idx == |m| && |m'| == |m| + 1)
      && (forall k :: k in m ==> k in m' && m'[k] == m[k])
      && Dense(m')
  {
    if key !in m {
      var m' := m[key := |m|];
      assert m'.Keys == m.Keys + {key};
      assert |m'| == |m| + 1;
    }
  }

  // ---------------------------------------------------------------------------
  // What one emitter call appends
  // ---------------------------------------------------------------------------

  datatype Tables = Tables(names: map<Name, nat>, consts: map<Constant, nat>)

  ghost predicate ValidTables(tb: Tables)
  {
    Dense(tb.names) && Dense(tb.consts)
  }

  /**
    The bytes one emitter call appends and the tables after it.  `ok` is false when
    bytearray.append rejects the argument byte; the opcode byte is then already in the
    buffer and the call raises ValueError.
  */
  datatype Emitted = Emitted(bytes: seq<Byte>, tables: Tables, ok: bool)

  function Pair(op: Opcode, arg: int, tb: Tables): Emitted
  {
    if 0 <= arg < 256 then Emitted([Op(op), Arg(arg)], tb, true) else Emitted([Op(op)], tb, false)
  }

  function Jump(op: Opcode, target: nat, tb: Tables): Emitted
  {
    Emitted(PrefixPairs(ExtBytes(target)) + [Op(op), Arg(LowByte(target))], tb, true)
  }

  /** The effect of one CodeBuilder emitter call on the buffer and the tables. */
  function Encode(i: Instr, tb: Tables): Emitted
  {
    match i
    case BinaryAdd => Pair(BINARY_ADD, 0, tb)
    case BuildTuple(count) => Pair(BUILD_TUPLE, count, tb)
    case CallFunction(argc) => Pair(CALL_FUNCTION, argc, tb)
    case CallFunctionEx(argc) => Pair(CALL_FUNCTION_EX, argc, tb)
    case CompareOp(cmp) => Pair(COMPARE_OP, CmpIndex(cmp), tb)
    case JumpAbsolute(target) => Jump(JUMP_ABSOLUTE, target, tb)
    case LoadFast(name) =>
      var (names, idx) := Intern(tb.names, name);
      Pair(LOAD_FAST, idx, tb.(names := names))
    case LoadConst(c) =>
      var (consts, idx) := Intern(tb.consts, c);
      Pair(LOAD_CONST, idx, tb.(consts := consts))
    case PopJumpIfFalse(target) => Jump(POP_JUMP_IF_FALSE, target, tb)
    case ReturnValue => Pair(RETURN_VALUE, 0, tb)
    case StoreFast(name) =>
      var (names, idx) := Intern(tb.names, name);
      Pair(STORE_FAST, idx, tb.(names := names))
    case Swap => Pair(SWAP, 0, tb)
    case UnpackSequence(count) => Pair(UNPACK_SEQUENCE, count, tb)
    case YieldValue => Pair(YIELD_VALUE, 0, tb)
  }

  /** The number of bytes an instruction occupies once emitted. */
  function Size(i: Instr): nat
  {
    match i
    case JumpAbsolute(target) => 2 * (Prefixes(target) + 1)
    case PopJumpIfFalse(target) => 2 * (Prefixes(target) + 1)
    case _ => 2
  }

  /** The buffer alternates opcode and argument bytes, starting with an opcode: it is made of whole pairs. */
  ghost predicate Paired(bs: seq<Byte>)
  {
    && |bs| % 2 == 0
    && forall k :: 0 <= k < |bs| ==> (bs[k].Op? <==> k % 2 == 0)
  }

  lemma PairedConcat(a: seq<Byte>, b: seq<Byte>)
    requires Paired(a) && Paired(b)
    ensures Paired(a + b)
  {
  }

  lemma {:induction false} PrefixPairsPaired(ext: seq<nat>)
    ensures Paired(PrefixPairs(ext))
  {
    if ext != [] {
      PrefixPairsPaired(ext[..|ext| - 1]);
      PairedConcat(PrefixPairs(ext[..|ext| - 1]), [Op(EXTENDED_ARG), Arg(ext[|ext| - 1])]);
    }
  }

  /** An opcode and an argument byte, or, when bytearray.append rejects the argument, the opcode alone. */
  lemma PairShape(op: Opcode, arg: int, tb: Tables)
    ensures var e := Pair(op, arg, tb);
      && e.tables == tb && e.bytes[0] == Op(op)
      && (e.ok <==> 0 <= arg < 256)
      && (e.ok ==> Paired(e.bytes) && e.bytes == [Op(op), Arg(arg)])
      && (!e.ok ==> e.bytes == [Op(op)])
  {
  }

  /**
    A call that succeeds appends Size(i) bytes in whole (opcode, argument) pairs.  Only a
    name or constant index, or a count, outside 0..255 makes a call fail, and then exactly
    the opcode byte went in.  The interning tables stay dense and keep every old entry.
  */
  lemma EncodeProperties(i: Instr, tb: Tables)
    requires ValidTables(tb)
    ensures var e := Encode(i, tb);
      && ValidTables(e.tables)
      && (forall n :: n in tb.names ==> n in e.tables.names && e.tables.names[n] == tb.names[n])
      && (forall c :: c in tb.consts ==> c in e.tables.consts && e.tables.consts[c] == tb.consts[c])
      && (e.ok ==> Paired(e.bytes) && |e.bytes| == Size(i))
      && (!e.ok ==> |e.bytes| == 1 && e.bytes[0].Op?)
  {
    match i
    case LoadFast(name) =>
      InternProperties(tb.names, name);
      var (names, idx) := Intern(tb.names, name);
      PairShape(LOAD_FAST, idx, tb.(names := names));
    case StoreFast(name) =>
      InternProperties(tb.names, name);
      var (names, idx) := Intern(tb.names, name);
      PairShape(STORE_FAST, idx, tb.(names := names));
    case LoadConst(c) =>
      InternProperties(tb.consts, c);
      var (consts, idx) := Intern(tb.consts, c);
      PairShape(LOAD_CONST, idx, tb.(consts := consts));
    case JumpAbsolute(target) => JumpShape(JUMP_ABSOLUTE, target, tb);
    case PopJumpIfFalse(target) => JumpShape(POP_JUMP_IF_FALSE, target, tb);
    case BinaryAdd => PairShape(BINARY_ADD, 0, tb);
    case BuildTuple(count) => PairShape(BUILD_TUPLE, count, tb);
    case CallFunction(argc) => PairShape(CALL_FUNCTION, argc, tb);
    case CallFunctionEx(argc) => PairShape(CALL_FUNCTION_EX, argc, tb);
    case CompareOp(cmp) => PairShape(COMPARE_OP, CmpIndex(cmp), tb);
    case ReturnValue => PairShape(RETURN_VALUE, 0, tb);
    case Swap => PairShape(SWAP, 0, tb);
    case UnpackSequence(count) => PairShape(UNPACK_SEQUENCE, count, tb);
    case YieldValue => PairShape(YIELD_VALUE, 0, tb);
  }

  /**
    A jump emits its EXTENDED_ARG pairs first and the real opcode last: Prefixes(target) + 1
    pairs in all, and it never fails.
  */
  lemma JumpShape(op: Opcode, target: nat, tb: Tables)
    ensures var e := Jump(op, target, tb);
      && e.ok && e.tables == tb
      && Paired(e.bytes) && |e.bytes| == 2 * (Prefixes(target) + 1)
      && e.bytes[..|e.bytes| - 2] == PrefixPairs(ExtBytes(target))
      && e.bytes[|e.bytes| - 2] == Op(op)
      && FromBytes(ExtBytes(target) + [e.bytes[|e.bytes| - 1].value]) == target
  {
    SplitRoundTrip(target);
    PrefixPairsPaired(ExtBytes(target));
    PairedConcat(PrefixPairs(ExtBytes(target)), [Op(op), Arg(LowByte(target))]);
  }

  // ---------------------------------------------------------------------------
  // A sequence of calls
  // ---------------------------------------------------------------------------

  /** Performs the calls in order with the given per-call effect, stopping at the first that raises. */
  function Run(code: seq<Instr>, tb: Tables, enc: (Instr, Tables) -> Emitted): Emitted
  {
    if code == [] then Emitted([], tb, true)
    else
      var pre := Run(code[..|code| - 1], tb, enc);
      if !pre.ok then pre
      else
        var e := enc(code[|code| - 1], pre.tables);
        Emitted(pre.bytes + e.bytes, e.tables, e.ok)
  }

  /**
    One more call on top of a run of `k` calls that all succeeded: if the call succeeds the
    run is one longer, and if it raises the whole run stops there.
  */
  lemma RunStep(code: seq<Instr>, k: nat, tb: Tables, enc: (Instr, Tables) -> Emitted,
                bytes0: seq<Byte>, mid: seq<Byte>, tbMid: Tables, after: seq<Byte>, tbAfter: Tables, ok: bool)
    requires k < |code|
    requires var pre := Run(code[..k], tb, enc); pre.ok && mid == bytes0 + pre.bytes && tbMid == pre.tables
    requires var e := enc(code[k], tbMid); after == mid + e.bytes && tbAfter == e.tables && ok == e.ok
    ensures var e := Run(code[..k + 1], tb, enc); e.ok == ok && after == bytes0 + e.bytes && tbAfter == e.tables
    ensures !ok ==> Run(code, tb, enc) == Run(code[..k + 1], tb, enc)
  {
    assert code[..k + 1][..k] == code[..k];
    if !ok {
      RunConcat(code[..k + 1], code[k + 1..], tb, enc);
      assert code[..k + 1] + code[k + 1..] == code;
    }
  }

  /** The bytes and tables after performing the calls in order, stopping at the first that raises. */
  function EncodeAll(code: seq<Instr>, tb: Tables): Emitted
  {
    Run(code, tb, Encode)
  }

  /** Total size of a sequence of calls. */
  function SizeAll(code: seq<Instr>): nat
  {
    if code == [] then 0 else SizeAll(code[..|code| - 1]) + Size(code[|code| - 1])
  }

  lemma {:induction false} SizeAllConcat(a: seq<Instr>, b: seq<Instr>)
    ensures SizeAll(a + b) == SizeAll(a) + SizeAll(b)
  {
    if b == [] {
      assert a + b == a;
    } else {
      assert (a + b)[..|a + b| - 1] == a + b[..|b| - 1];
      SizeAllConcat(a, b[..|b| - 1]);
    }
  }

  /** Calls other than the two jumps are one pair each. */
  lemma {:induction false} SizeAllPlain(code: seq<Instr>)
    requires forall k :: 0 <= k < |code| ==> !code[k].JumpAbsolute? && !code[k].PopJumpIfFalse?
    ensures SizeAll(code) == 2 * |code|
  {
    if code != [] {
      SizeAllPlain(code[..|code| - 1]);
    }
  }

  lemma SizeAllOne(i: Instr)
    ensures SizeAll([i]) == Size(i)
  {
    assert [i][..0] == [];
  }

  lemma {:induction false} RunConcat(a: seq<Instr>, b: seq<Instr>, tb: Tables, enc: (Instr, Tables) -> Emitted)
    ensures var ea := Run(a, tb, enc);
      Run(a + b, tb, enc) ==
        if !ea.ok then ea
        else var eb := Run(b, ea.tables, enc); Emitted(ea.bytes + eb.bytes, eb.tables, eb.ok)
  {
    if b == [] {
      assert a + b == a;
    } else {
      assert (a + b)[..|a + b| - 1] == a + b[..|b| - 1];
      assert (a + b)[|a + b| - 1] == b[|b| - 1];
      RunConcat(a, b[..|b| - 1], tb, enc);
    }
  }

  /** Performing `a + b` is performing `a` and then, if nothing raised, `b`. */
  lemma EncodeAllConcat(a: seq<Instr>, b: seq<Instr>, tb: Tables)
    ensures var ea := EncodeAll(a, tb);
      EncodeAll(a + b, tb) ==
        if !ea.ok then ea
        else var eb := EncodeAll(b, ea.tables); Emitted(ea.bytes + eb.bytes, eb.tables, eb.ok)
  {
    RunConcat(a, b, tb, Encode);
  }

  /**
    Running `code` with the per-call effect `enc` from tables `tb` turned the buffer
    `before` into `after` and left the tables `tbAfter`; `ok` says that no call raised.
  */
  ghost predicate Runs(enc: (Instr, Tables) -> Emitted, code: seq<Instr>, tb: Tables,
                       before: seq<Byte>, after: seq<Byte>, tbAfter: Tables, ok: bool)
  {
    var e := Run(code, tb, enc);
    after == before + e.bytes && tbAfter == e.tables && ok == e.ok
  }

  /** Two runs back to back, the first without raising, are one run of the concatenation. */
  lemma RunsThen(enc: (Instr, Tables) -> Emitted, a: seq<Instr>, b: seq<Instr>, tb: Tables, before: seq<Byte>,
                 mid: seq<Byte>, tbMid: Tables, after: seq<Byte>, tbAfter: Tables, ok: bool)
    requires Runs(enc, a, tb, before, mid, tbMid, true)
    requires Runs(enc, b, tbMid, mid, after, tbAfter, ok)
    ensures Runs(enc, a + b, tb, before, after, tbAfter, ok)
  {
    RunConcat(a, b, tb, enc);
  }

  /** A run that raised is also a raising run of any longer code: nothing after the exception happens. */
  lemma RunsStop(enc: (Instr, Tables) -> Emitted, a: seq<Instr>, b: seq<Instr>, tb: Tables,
                 before: seq<Byte>, after: seq<Byte>, tbAfter: Tables)
    requires Runs(enc, a, tb, before, after, tbAfter, false)
    ensures Runs(enc, a + b, tb, before, after, tbAfter, false)
  {
    RunConcat(a, b, tb, enc);
  }

  lemma RunsStopPrefix(enc: (Instr, Tables) -> Emitted, a: seq<Instr>, c: seq<Instr>, tb: Tables,
                       before: seq<Byte>, after: seq<Byte>, tbAfter: Tables)
    requires a <= c
    requires Runs(enc, a, tb, before, after, tbAfter, false)
    ensures Runs(enc, c, tb, before, after, tbAfter, false)
  {
    assert c == a + c[|a|..];
    RunsStop(enc, a, c[|a|..], tb, before, after, tbAfter);
  }

  /** The calls `code` performed on a CodeBuilder. */
  ghost predicate Performs(code: seq<Instr>, tb: Tables, before: seq<Byte>, after: seq<Byte>, tbAfter: Tables, ok: bool)
  {
    Runs(Encode, code, tb, before, after, tbAfter, ok)
  }

  lemma PerformsNothing(tb: Tables, bytes: seq<Byte>)
    ensures Performs([], tb, bytes, bytes, tb, true)
  {
    assert bytes + [] == bytes;
  }

  lemma PerformsOne(i: Instr, tb: Tables, before: seq<Byte>, after: seq<Byte>, tbAfter: Tables, ok: bool)
    requires var e := Encode(i, tb); after == before + e.bytes && tbAfter == e.tables && ok == e.ok
    ensures Performs([i], tb, before, after, tbAfter, ok)
  {
    RunSingle(i, tb, Encode);
  }

  lemma RunSingle(i: Instr, tb: Tables, enc: (Instr, Tables) -> Emitted)
    ensures var e := enc(i, tb); Run([i], tb, enc) == Emitted(e.bytes, e.tables, e.ok)
  {
    assert [i][..0] == [];
    assert [] + enc(i, tb).bytes == enc(i, tb).bytes;
  }

  /** Two runs back to back, the first without raising, are one run of the concatenation. */
  lemma PerformsThen(a: seq<Instr>, b: seq<Instr>, tb: Tables, before: seq<Byte>, mid: seq<Byte>, tbMid: Tables,
                     after: seq<Byte>, tbAfter: Tables, ok: bool)
    requires Performs(a, tb, before, mid, tbMid, true)
    requires Performs(b, tbMid, mid, after, tbAfter, ok)
    ensures Performs(a + b, tb, before, after, tbAfter, ok)
  {
    RunsThen(Encode, a, b, tb, before, mid, tbMid, after, tbAfter, ok);
  }

  /** A run that raised is also a raising run of any longer code: nothing after the exception happens. */
  lemma PerformsStop(a: seq<Instr>, b: seq<Instr>, tb: Tables, before: seq<Byte>, after: seq<Byte>, tbAfter: Tables)
    requires Performs(a, tb, before, after, tbAfter, false)
    ensures Performs(a + b, tb, before, after, tbAfter, false)
  {
    RunsStop(Encode, a, b, tb, before, after, tbAfter);
  }

  /** A call naming a local already in `names`, or naming none. */
  predicate NamesKnown(i: Instr, names: map<Name, nat>)
  {
    (i.LoadFast? || i.StoreFast?) ==> i.name in names
  }

  /**
    Calls that only load and store names already in the table leave the names table as it
    was: `setdefault` on an existing key adds nothing.
  */
  lemma {:induction false} EncodeAllKeepsNames(code: seq<Instr>, tb: Tables)
    requires ValidTables(tb)
    requires forall i :: i in code ==> NamesKnown(i, tb.names)
    ensures ValidTables(EncodeAll(code, tb).tables)
    ensures EncodeAll(code, tb).tables.names == tb.names
  {
    EncodeAllSize(code, tb);
    if code != [] {
      var init := code[..|code| - 1];
      assert forall i :: i in init ==> i in code;
      EncodeAllKeepsNames(init, tb);
      EncodeAllSize(init, tb);
      var pre := EncodeAll(init, tb);
      if pre.ok {
        EncodeKeepsNames(code[|code| - 1], pre.tables);
      }
    }
  }

  lemma EncodeKeepsNames(i: Instr, tb: Tables)
    requires ValidTables(tb) && NamesKnown(i, tb.names)
    ensures Encode(i, tb).tables.names == tb.names
  {
  }

  /**
    `load_fast` and `store_fast` intern into the one `names` table: loading a name and then
    storing it writes the same slot index, and the store adds no entry.
  */
  lemma LoadStoreSameSlot(name: Name, tb: Tables)
    requires ValidTables(tb)
    ensures var load := Encode(LoadFast(name), tb);
      var store := Encode(StoreFast(name), load.tables);
      && name in load.tables.names
      && store.tables == load.tables
      && store.ok == load.ok
      && (load.ok ==> load.bytes[1] == store.bytes[1] == Arg(load.tables.names[name]))
  {
    InternProperties(tb.names, name);
    var (names, idx) := Intern(tb.names, name);
    InternProperties(names, name);
  }

  lemma {:induction false} EncodeAllSize(code: seq<Instr>, tb: Tables)
    requires ValidTables(tb)
    ensures var e := EncodeAll(code, tb);
      ValidTables(e.tables) && (e.ok ==> Paired(e.bytes) && |e.bytes| == SizeAll(code))
  {
    if code != [] {
      var pre := EncodeAll(code[..|code| - 1], tb);
      EncodeAllSize(code[..|code| - 1], tb);
      if pre.ok {
        EncodeProperties(code[|code| - 1], pre.tables);
        var e := Encode(code[|code| - 1], pre.tables);
        if e.ok {
          PairedConcat(pre.bytes, e.bytes);
        }
      }
    }
  }

  // ---------------------------------------------------------------------------
  // The builder object
  // ---------------------------------------------------------------------------

  /** CodeBuilder: a bytearray that only grows, with the `names` and `consts` tables it was given. */
  class CodeBuilder {
    var bytes: seq<Byte>
    var names: map<Name, nat>
    var consts: map<Constant, nat>

    ghost predicate Valid()
      reads this
    {
      ValidTables(Snapshot())
    }

    function Snapshot(): Tables
      reads this
    {
      Tables(names, consts)
    }

    /** The call `i` was performed: the buffer grew by what it emits and the tables are updated. */
    twostate predicate Performed(i: Instr, ok: bool)
      reads this
    {
      var e := Encode(i, old(Snapshot()));
      bytes == old(bytes) + e.bytes && Snapshot() == e.tables && ok == e.ok
    }

    constructor (names: map<Name, nat>, consts: map<Constant, nat>)
      requires Dense(names) && Dense(consts)
      ensures Valid()
      ensures bytes == [] && this.names == names && this.consts == consts
    {
      bytes := [];
      this.names := names;
      this.consts := consts;
    }

    /** Appends an opcode and then `bytearray.append(arg)`, which raises unless 0 <= arg < 256. */
    method AppendPair(op: Opcode, arg: int) returns (ok: bool)
      modifies this`bytes
      ensures bytes == old(bytes) + Pair(op, arg, Snapshot()).bytes
      ensures ok == (0 <= arg < 256)
    {
      bytes := bytes + [Op(op)];
      ok := 0 <= arg < 256;
      if ok {
        bytes := bytes + [Arg(arg)];
      }
    }

    method BinaryAdd() returns (ok: bool)
      requires Valid()
      modifies this
      ensures Valid() && Performed(Instr.BinaryAdd, ok)
    {
      ok := AppendPair(BINARY_ADD, 0);
    }

    method BuildTuple(count: int) returns (ok: bool)
      requires Valid()
      modifies this
      ensures Valid() && Performed(Instr.BuildTuple(count), ok)
    {
      ok := AppendPair(BUILD_TUPLE, count);
    }

    method CallFunction(argc: int) returns (ok: bool)
      requires Valid()
      modifies this
      ensures Valid() && Performed(Instr.CallFunction(argc), ok)
    {
      ok := AppendPair(CALL_FUNCTION, argc);
    }

    method CallFunctionEx(argc: int) returns (ok: bool)
      requires Valid()
      modifies this
      ensures Valid() && Performed(Instr.CallFunctionEx(argc), ok)
    {
      ok := AppendPair(CALL_FUNCTION_EX, argc);
    }

    method CompareOp(cmp: Comparison) returns (ok: bool)
      requires Valid()
      modifies this
      ensures Valid() && Performed(Instr.CompareOp(cmp), ok)
    {
      ok := AppendPair(COMPARE_OP, CmpIndex(cmp));
    }

    /** Emits the EXTENDED_ARG prefixes of `arg` and returns its low byte. */
    method ExtendArg(arg: nat) returns (low: nat)
      modifies this`bytes
      ensures bytes == old(bytes) + PrefixPairs(ExtBytes(arg))
      ensures low == LowByte(arg)
    {
      var all := ToBytes(arg, Prefixes(arg) + 1);
      var ext := all[..|all| - 1];
      low := all[|all| - 1];
      for k := 0 to |ext|
        invariant bytes == old(bytes) + PrefixPairs(ext[..k])
      {
        assert ext[..k + 1][..k] == ext[..k];
        bytes := bytes + [Op(EXTENDED_ARG), Arg(ext[k])];
      }
      assert ext[..|ext|] == ext;
    }

    method JumpAbsolute(target: nat) returns (ok: bool)
      requires Valid()
      modifies this
      ensures Valid() && Performed(Instr.JumpAbsolute(target), ok)
    {
      var low := ExtendArg(target);
      SplitRoundTrip(target);
      ok := AppendPair(JUMP_ABSOLUTE, low);
    }

    method LoadFast(name: Name) returns (ok: bool)
      requires Valid()
      modifies this
      ensures Valid() && Performed(Instr.LoadFast(name), ok)
    {
      InternProperties(names, name);
      var idx;
      names, idx := Intern(names, name).0, Intern(names, name).1;
      ok := AppendPair(LOAD_FAST, idx);
    }

    method LoadConst(c: Constant) returns (ok: bool)
      requires Valid()
      modifies this
      ensures Valid() && Performed(Instr.LoadConst(c), ok)
    {
      InternProperties(consts, c);
      var idx;
      consts, idx := Intern(consts, c).0, Intern(consts, c).1;
      ok := AppendPair(LOAD_CONST, idx);
    }

    method PopJumpIfFalse(target: nat) returns (ok: bool)
      requires Valid()
      modifies this
      ensures Valid() && Performed(Instr.PopJumpIfFalse(target), ok)
    {
      var low := ExtendArg(target);
      SplitRoundTrip(target);
      ok := AppendPair(POP_JUMP_IF_FALSE, low);
    }

    method ReturnValue() returns (ok: bool)
      requires Valid()
      modifies this
      ensures Valid() && Performed(Instr.ReturnValue, ok)
    {
      ok := AppendPair(RETURN_VALUE, 0);
    }

    method StoreFast(name: Name) returns (ok: bool)
      requires Valid()
      modifies this
      ensures Valid() && Performed(Instr.StoreFast(name), ok)
    {
      InternProperties(names, name);
      var idx;
      names, idx := Intern(names, name).0, Intern(names, name).1;
      ok := AppendPair(STORE_FAST, idx);
    }

    method Swap() returns (ok: bool)
      requires Valid()
      modifies this
      ensures Valid() && Performed(Instr.Swap, ok)
    {
      ok := AppendPair(SWAP, 0);
    }

    method UnpackSequence(count: int) returns (ok: bool)
      requires Valid()
      modifies this
      ensures Valid() && Performed(Instr.UnpackSequence(count), ok)
    {
      ok := AppendPair(UNPACK_SEQUENCE, count);
    }

    method YieldValue() returns (ok: bool)
      requires Valid()
      modifies this
      ensures Valid() && Performed(Instr.YieldValue, ok)
    {
      ok := AppendPair(YIELD_VALUE, 0);
    }

    /** Performs one call by dispatching to the emitter of the same name. */
    method Emit(i: Instr) returns (ok: bool)
      requires Valid()
      modifies this
      ensures Valid() && Performed(i, ok)
    {
      match i
      case BinaryAdd => ok := BinaryAdd();
      case BuildTuple(count) => ok := BuildTuple(count);
      case CallFunction(argc) => ok := CallFunction(argc);
      case CallFunctionEx(argc) => ok := CallFunctionEx(argc);
      case CompareOp(cmp) => ok := CompareOp(cmp);
      case JumpAbsolute(target) => ok := JumpAbsolute(target);
      case LoadFast(name) => ok := LoadFast(name);
      case LoadConst(c) => ok := LoadConst(c);
      case PopJumpIfFalse(target) => ok := PopJumpIfFalse(target);
      case ReturnValue => ok := ReturnValue();
      case StoreFast(name) => ok := StoreFast(name);
      case Swap => ok := Swap();
      case UnpackSequence(count) => ok := UnpackSequence(count);
      case YieldValue => ok := YieldValue();
    }

    /** Performs the calls in order and stops at the first that raises, as Python would. */
    method EmitAll(code: seq<Instr>) returns (ok: bool)
      requires Valid()
      modifies this
      ensures Valid()
      ensures Performs(code, old(Snapshot()), old(bytes), bytes, Snapshot(), ok)
    {
      ok := true;
      var k := 0;
      while k < |code|
        invariant 0 <= k <= |code| && Valid()
        invariant var e := EncodeAll(code[..k], old(Snapshot()));
          e.ok && bytes == old(bytes) + e.bytes && Snapshot() == e.tables
      {
        ghost var mid, tbMid := bytes, Snapshot();
        ok := Emit(code[k]);
        RunStep(code, k, old(Snapshot()), Encode, old(bytes), mid, tbMid, bytes, Snapshot(), ok);
        if !ok {
          return;
        }
        k := k + 1;
      }
      assert code[..k] == code;
    }
  }

  // ---------------------------------------------------------------------------
  // co_stacksize and co_lnotab (CodeBuilder.replace)
  // ---------------------------------------------------------------------------

  /** zip(self[::2], self[1::2]) over a buffer of whole pairs. */
  function Pairs(bs: seq<Byte>): (r: seq<(Opcode, nat)>)
    requires Paired(bs)
    ensures |r| == |bs| / 2
    ensures forall k :: 0 <= k < |r| ==> Op(r[k].0) == bs[2 * k] && Arg(r[k].1) == bs[2 * k + 1]
  {
    if bs == [] then [] else [(bs[0].op, bs[1].value)] + Pairs(bs[2..])
  }

  function Sum(s: seq<int>): int
  {
    if s == [] then 0 else Sum(s[..|s| - 1]) + s[|s| - 1]
  }

  /** itertools.accumulate: the running sums of the stack effects. */
  function Accumulate(s: seq<int>): (r: seq<int>)
    ensures |r| == |s|
    ensures forall k :: 0 <= k < |s| ==> r[k] == Sum(s[..k + 1])
  {
    if s == [] then []
    else
      assert forall n :: 1 <= n < |s| ==> s[..|s| - 1][..n] == s[..n];
      assert s[..|s|] == s;
      Accumulate(s[..|s| - 1]) + [Sum(s)]
  }

  /** The built-in max of a non-empty sequence. */
  function Max(s: seq<int>): (r: int)
    requires |s| > 0
    ensures forall k :: 0 <= k < |s| ==> s[k] <= r
    ensures exists k :: 0 <= k < |s| && s[k] == r
  {
    if |s| == 1 then s[0]
    else
      var m := Max(s[1..]);
      assert forall k :: 1 <= k < |s| ==> s[k] == s[1..][k - 1];
      if s[0] >= m then s[0] else m
  }

  /** The stack effect stack_effect reports for one pair; the argument is passed only from HAVE_ARGUMENT on. */
  function PairEffect(effect: (Opcode, Option<nat>) -> int, p: (Opcode, nat)): int
  {
    if HasArgument(p.0) then effect(p.0, Some(p.1)) else effect(p.0, None)
  }

  function Effects(bs: seq<Byte>, effect: (Opcode, Option<nat>) -> int): (r: seq<int>)
    requires Paired(bs)
    ensures |r| == |bs| / 2
  {
    var ps := Pairs(bs);
    seq(|ps|, j requires 0 <= j < |ps| => PairEffect(effect, ps[j]))
  }

  /**
    co_stacksize: the maximum running sum of the per-pair stack effects, in buffer order
    and without following jumps; `max` over an empty buffer raises, reported as None.
  */
  function StackSize(bs: seq<Byte>, effect: (Opcode, Option<nat>) -> int): (r: Option<int>)
    requires Paired(bs)
    ensures r.None? <==> bs == []
    ensures r.Some? ==>
      var es := Effects(bs, effect);
      && (forall n :: 1 <= n <= |es| ==> Sum(es[..n]) <= r.value)
      && (exists n :: 1 <= n <= |es| && Sum(es[..n]) == r.value)
  {
    var es := Effects(bs, effect);
    if es == [] then None
    else
      var sums := Accumulate(es);
      var m := Max(sums);
      assert forall n :: 1 <= n <= |es| ==> Sum(es[..n]) == sums[n - 1];
      Some(m)
  }

  /** co_lnotab: the two bytes (2, 1) repeated once per pair. */
  function LineTable(len: nat): (r: seq<nat>)
    ensures |r| == 2 * (len / 2)
    ensures forall k :: 0 <= k < |r| ==> r[k] == if k % 2 == 0 then 2 else 1
  {
    if len < 2 then [] else [2, 1] + LineTable(len - 2)
  }

  /**
    The fields `replace` gives the code object: the buffer, co_stacksize, co_lnotab, and
    the two tables, whose keys ordered by index are co_names and co_consts.
  */
  datatype CodeObject = CodeObject(
    code: seq<Byte>, stackSize: int, lineTable: seq<nat>, names: map<Name, nat>, consts: map<Constant, nat>)

  /**
    CodeBuilder.replace: the code object for the buffer.  `max` over the running stack
    sizes raises ValueError for an empty buffer.
  */
  function Replace(bs: seq<Byte>, tb: Tables, effect: (Opcode, Option<nat>) -> int): (r: Result<CodeObject>)
    requires Paired(bs)
    ensures r.Err? <==> bs == []
    ensures r.Err? ==> r.failure == EmptyBuffer
    ensures r.Ok? ==>
      && r.value.code == bs && r.value.names == tb.names && r.value.consts == tb.consts
      && |r.value.lineTable| == |bs|
      && r.value.stackSize == StackSize(bs, effect).value
  {
    match StackSize(bs, effect)
    case None => Err(EmptyBuffer)
    case Some(n) => Ok(CodeObject(bs, n, LineTable(|bs|), tb.names, tb.consts))
  }
}
