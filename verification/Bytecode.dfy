/**
 Bytecode as the compiler emits and patches it, and as it is decoded again.
 */
module Bytecode {
  import opened Options

  type Byte = n: nat | n < 256

  const TWO_32: nat := 0x1_0000_0000

  type Word = n: nat | n < TWO_32

  /** The width of each opcode: one byte, or one byte and a 32-bit operand. */
  type Table = t: seq<nat> | |t| <= 256 && forall i :: 0 <= i < |t| ==> t[i] == 1 || t[i] == 5 witness []

  datatype Instruction = Instruction(offset: nat, opcode: nat, operand: Option<Word>)

  datatype Emitted = Emitted(opcode: nat, operand: Word)

  function LittleEndian(n: Word): (b: seq<Byte>)
    ensures |b| == 4
  {
    [n % 256, n / 256 % 256, n / 256 / 256 % 256, n / 256 / 256 / 256]
  }

  function FromLittleEndian(b: seq<Byte>): Word
    requires |b| == 4
  {
    var b0: int, b1: int, b2: int, b3: int := b[0], b[1], b[2], b[3];
    b0 + 256 * (b1 + 256 * (b2 + 256 * b3))
  }

  lemma {:induction false} LittleEndianRoundTrip(n: Word)
    ensures FromLittleEndian(LittleEndian(n)) == n
  {
  }

  // ---------------------------------------------------------------------
  // What was emitted, and the bytes and instructions that stand for it

  function OneEncoded(t: Table, e: Emitted): (b: seq<Byte>)
    requires e.opcode < |t|
    ensures |b| == t[e.opcode]
  {
    if t[e.opcode] == 5 then [e.opcode] + LittleEndian(e.operand) else [e.opcode]
  }

  predicate InTable(t: Table, log: seq<Emitted>) {
    forall i :: 0 <= i < |log| ==> log[i].opcode < |t|
  }

  function Encoded(t: Table, log: seq<Emitted>): seq<Byte>
    requires InTable(t, log)
  {
    if log == [] then [] else Encoded(t, log[..|log| - 1]) + OneEncoded(t, log[|log| - 1])
  }

  /** Where an instruction of the log starts. */
  function OffsetOf(t: Table, log: seq<Emitted>, i: nat): nat
    requires InTable(t, log) && i <= |log|
  {
    if i == 0 then 0 else OffsetOf(t, log, i - 1) + t[log[i - 1].opcode]
  }

  function Listed(t: Table, log: seq<Emitted>, i: nat): Instruction
    requires InTable(t, log) && i < |log|
  {
    Instruction(OffsetOf(t, log, i), log[i].opcode, if t[log[i].opcode] == 5 then Some(log[i].operand) else None)
  }

  function Listing(t: Table, log: seq<Emitted>): seq<Instruction>
    requires InTable(t, log)
  {
    seq(|log|, i requires 0 <= i < |log| => Listed(t, log, i))
  }

  // ---------------------------------------------------------------------
  // Decoding

  function InstructionAt(t: Table, code: seq<Byte>, offset: nat): Option<Instruction> {
    if offset >= |code| || code[offset] >= |t| then None
    else
      var opcode := code[offset];
      if t[opcode] == 5 then
        if offset + 5 > |code| then None
        else Some(Instruction(offset, opcode, Some(FromLittleEndian(code[offset + 1..offset + 5]))))
      else Some(Instruction(offset, opcode, None))
  }

  function InstructionsFrom(t: Table, code: seq<Byte>, offset: nat): seq<Instruction>
    decreases |code| - offset
  {
    var instruction := InstructionAt(t, code, offset);
    if instruction.None? then []
    else [instruction.value] + InstructionsFrom(t, code, offset + t[instruction.value.opcode])
  }

  method Instructions(t: Table, code: seq<Byte>) returns (r: seq<Instruction>)
    ensures r == InstructionsFrom(t, code, 0)
  {
    r := [];
    var offset := 0;
    var instruction := InstructionAt(t, code, offset);
    while instruction.Some?
      invariant instruction == InstructionAt(t, code, offset)
      invariant r + InstructionsFrom(t, code, offset) == InstructionsFrom(t, code, 0)
      decreases |code| - offset
    {
      r := r + [instruction.value];
      offset := offset + t[instruction.value.opcode];
      instruction := InstructionAt(t, code, offset);
    }
  }

  // ---------------------------------------------------------------------
  // Decoding reads back the log

  lemma {:induction false} EncodedLength(t: Table, log: seq<Emitted>, i: nat)
    requires InTable(t, log) && i <= |log|
    ensures |Encoded(t, log[..i])| == OffsetOf(t, log, i)
  {
    if i > 0 {
      EncodedLength(t, log, i - 1);
      assert log[..i][..i - 1] == log[..i - 1] && log[..i][i - 1] == log[i - 1];
    }
  }

  lemma {:induction false} EncodedConcat(t: Table, a: seq<Emitted>, b: seq<Emitted>)
    requires InTable(t, a) && InTable(t, b)
    ensures InTable(t, a + b) && Encoded(t, a + b) == Encoded(t, a) + Encoded(t, b)
    decreases |b|
  {
    hide Encoded, OneEncoded;
    if b == [] {
      assert a + b == a;
      EncodedEmpty(t);
      assert Encoded(t, a) + [] == Encoded(t, a);
    } else {
      var n := |b| - 1;
      EncodedConcat(t, a, b[..n]);
      EncodedSnoc(t, b[..n], b[n]);
      EncodedSnoc(t, a + b[..n], b[n]);
      assert b[..n] + [b[n]] == b;
      assert a + b[..n] + [b[n]] == a + b;
    }
  }

  lemma {:induction false} EncodedEmpty(t: Table)
    ensures Encoded(t, []) == []
  {
  }

  /** The bytes of the log split at every instruction. */
  lemma {:induction false} EncodedSplit(t: Table, log: seq<Emitted>, i: nat)
    requires InTable(t, log) && i < |log|
    ensures Encoded(t, log) == Encoded(t, log[..i]) + OneEncoded(t, log[i]) + Encoded(t, log[i + 1..])
    ensures |Encoded(t, log[..i])| == OffsetOf(t, log, i)
  {
    hide Encoded, OneEncoded;
    EncodedConcat(t, log[..i + 1], log[i + 1..]);
    assert log[..i + 1] + log[i + 1..] == log;
    EncodedSnoc(t, log[..i], log[i]);
    assert log[..i] + [log[i]] == log[..i + 1];
    EncodedLength(t, log, i);
  }

  lemma {:induction false} EncodedSnoc(t: Table, log: seq<Emitted>, e: Emitted)
    requires InTable(t, log) && e.opcode < |t|
    ensures InTable(t, log + [e]) && Encoded(t, log + [e]) == Encoded(t, log) + OneEncoded(t, e)
  {
    assert (log + [e])[..|log|] == log;
  }

  lemma {:induction false} InstructionReads(t: Table, log: seq<Emitted>, i: nat)
    requires InTable(t, log) && i < |log|
    ensures InstructionAt(t, Encoded(t, log), OffsetOf(t, log, i)) == Some(Listed(t, log, i))
  {
    hide Encoded, LittleEndian, FromLittleEndian;
    EncodedSplit(t, log, i);
    var code, start, e := Encoded(t, log), OffsetOf(t, log, i), log[i];
    var piece := OneEncoded(t, e);
    assert code[start..start + |piece|] == piece;
    assert code[start] == piece[0];
    if t[e.opcode] == 5 {
      LittleEndianRoundTrip(e.operand);
      assert code[start + 1..start + 5] == piece[1..5] == LittleEndian(e.operand);
    }
  }

  lemma {:induction false} DecodesFrom(t: Table, log: seq<Emitted>, i: nat)
    requires InTable(t, log) && i <= |log|
    ensures InstructionsFrom(t, Encoded(t, log), OffsetOf(t, log, i)) == Listing(t, log)[i..]
    decreases |log| - i
  {
    hide Encoded, InstructionAt, Listed;
    var code := Encoded(t, log);
    if i == |log| {
      EncodedLength(t, log, i);
      assert log[..i] == log;
      assert InstructionAt(t, code, |code|).None? by { PastEnd(t, code); }
    } else {
      InstructionReads(t, log, i);
      DecodesFrom(t, log, i + 1);
      ListedOpcode(t, log, i);
      assert Listing(t, log)[i..] == [Listed(t, log, i)] + Listing(t, log)[i + 1..];
    }
  }

  lemma {:induction false} PastEnd(t: Table, code: seq<Byte>)
    ensures InstructionAt(t, code, |code|).None?
  {
  }

  lemma {:induction false} ListedOpcode(t: Table, log: seq<Emitted>, i: nat)
    requires InTable(t, log) && i < |log|
    ensures Listed(t, log, i).opcode == log[i].opcode
  {
  }

  /** Decoding yields exactly what was emitted, at the offsets it was emitted at, and consumes every byte. */
  lemma {:induction false} DecodesLog(t: Table, log: seq<Emitted>)
    requires InTable(t, log)
    ensures InstructionsFrom(t, Encoded(t, log), 0) == Listing(t, log)
    ensures |Encoded(t, log)| == OffsetOf(t, log, |log|)
  {
    DecodesFrom(t, log, 0);
    EncodedLength(t, log, |log|);
    assert log[..|log|] == log;
    assert Listing(t, log)[0..] == Listing(t, log);
  }

  /** The bytes of an instruction: its opcode, then its operand with the lowest byte first. */
  lemma {:induction false} EmittedBytes(t: Table, log: seq<Emitted>, i: nat)
    requires InTable(t, log) && i < |log|
    ensures var code, at, e := Encoded(t, log), OffsetOf(t, log, i), log[i];
            && at < |code| && code[at] == e.opcode
            && OffsetOf(t, log, i + 1) == at + t[e.opcode]
            && (t[e.opcode] == 5 ==>
                  && at + 5 <= |code|
                  && e.operand == code[at + 1] as int + 0x100 * (code[at + 2] as int) + 0x1_0000 * (code[at + 3] as int)
                                  + 0x100_0000 * (code[at + 4] as int))
  {
    hide Encoded;
    EncodedSplit(t, log, i);
    var code, at, e := Encoded(t, log), OffsetOf(t, log, i), log[i];
    var piece := OneEncoded(t, e);
    assert code[at..at + |piece|] == piece;
    assert forall k :: 0 <= k < |piece| ==> code[at + k] == piece[k];
    assert code[at] == piece[0];
    if t[e.opcode] == 5 {
      assert code[at + 1] == piece[1] && code[at + 2] == piece[2] && code[at + 3] == piece[3] && code[at + 4] == piece[4];
      LittleEndianBytes(e.operand);
    }
  }

  lemma {:induction false} LittleEndianBytes(n: Word)
    ensures var b := LittleEndian(n);
            n == b[0] as int + 0x100 * (b[1] as int) + 0x1_0000 * (b[2] as int) + 0x100_0000 * (b[3] as int)
  {
  }

  // ---------------------------------------------------------------------
  // Patching

  function Patched(code: seq<Byte>, jump: nat, target: Word): seq<Byte>
    requires jump + 5 <= |code|
  {
    code[..jump + 1] + LittleEndian(target) + code[jump + 5..]
  }

  /** Patching an operand-carrying instruction rewrites that operand in the log, and nothing else. */
  lemma {:induction false} PatchesLog(t: Table, log: seq<Emitted>, i: nat, target: Word)
    requires InTable(t, log) && i < |log| && t[log[i].opcode] == 5
    ensures var jump := OffsetOf(t, log, i);
            var log' := log[i := Emitted(log[i].opcode, target)];
            && jump + 5 <= |Encoded(t, log)|
            && Patched(Encoded(t, log), jump, target) == Encoded(t, log')
            && (forall j :: 0 <= j <= |log| ==> OffsetOf(t, log', j) == OffsetOf(t, log, j))
  {
    hide Encoded, LittleEndian;
    var e := Emitted(log[i].opcode, target);
    var log' := log[i := e];
    forall j | 0 <= j <= |log| ensures OffsetOf(t, log', j) == OffsetOf(t, log, j) {
      SameOffsets(t, log, log', j);
    }
    EncodedSplit(t, log, i);
    EncodedSplit(t, log', i);
    assert log'[..i] == log[..i] && log'[i + 1..] == log[i + 1..];
    var front, back := Encoded(t, log[..i]), Encoded(t, log[i + 1..]);
    PatchMiddle(front, e.opcode, LittleEndian(log[i].operand), back, target);
  }

  lemma {:induction false} PatchMiddle(front: seq<Byte>, opcode: Byte, operand: seq<Byte>, back: seq<Byte>, target: Word)
    requires |operand| == 4
    ensures Patched(front + ([opcode] + operand) + back, |front|, target) == front + ([opcode] + LittleEndian(target)) + back
  {
    hide LittleEndian;
    var code := front + ([opcode] + operand) + back;
    assert code[..|front| + 1] == front + [opcode];
    assert code[|front| + 5..] == back;
  }

  lemma {:induction false} SameOffsets(t: Table, log: seq<Emitted>, other: seq<Emitted>, j: nat)
    requires InTable(t, log) && InTable(t, other) && |log| == |other| && j <= |log|
    requires forall i :: 0 <= i < |log| ==> log[i].opcode == other[i].opcode
    ensures OffsetOf(t, other, j) == OffsetOf(t, log, j)
  {
    if j > 0 {
      SameOffsets(t, log, other, j - 1);
    }
  }

  // ---------------------------------------------------------------------
  // The emitter

  class Emitter {
    const table: Table
    const maxBytes: Word
    var code: seq<Byte>
    ghost var log: seq<Emitted>

    ghost predicate Valid()
      reads this
    {
      && |code| <= maxBytes
      && InTable(table, log)
      && code == Encoded(table, log)
    }

    constructor (table: Table, maxBytes: Word)
      ensures Valid() && this.table == table && this.maxBytes == maxBytes && log == []
    {
      this.table := table;
      this.maxBytes := maxBytes;
      code := [];
      log := [];
    }

    /** Appends an instruction and returns where it starts, or refuses when the code would pass its limit. */
    method Emit(opcode: nat, operand: Word) returns (r: Option<nat>)
      requires Valid() && opcode < |table|
      modifies this
      ensures Valid()
      ensures r.Some? <==> old(|code|) + table[opcode] <= maxBytes
      ensures r.None? ==> code == old(code) && log == old(log)
      ensures r.Some? ==> log == old(log) + [Emitted(opcode, operand)] && r.value == OffsetOf(table, log, |old(log)|)
    {
      var offset := |code|;
      if offset + table[opcode] > maxBytes {
        return None;
      }
      code := code + [opcode];
      if table[opcode] == 5 {
        code := code + LittleEndian(operand);
      }
      ghost var before := log;
      log := log + [Emitted(opcode, operand)];
      assert log[..|log| - 1] == before;
      assert old(code) + ([opcode] + LittleEndian(operand)) == old(code) + [opcode] + LittleEndian(operand);
      EncodedLength(table, log, |before|);
      r := Some(offset);
    }

    /** Gives the instruction emitted at an offset another operand; it alone changes. */
    method Patch(jump: nat, target: Word, ghost i: nat)
      requires Valid() && i < |log| && jump == OffsetOf(table, log, i) && table[log[i].opcode] == 5
      modifies this
      ensures Valid()
      ensures log == old(log)[i := Emitted(old(log)[i].opcode, target)]
      ensures |code| == |old(code)|
      ensures forall j :: 0 <= j <= |log| ==> OffsetOf(table, log, j) == old(OffsetOf(table, log, j))
    {
      PatchesLog(table, log, i, target);
      code := Patched(code, jump, target);
      log := log[i := Emitted(log[i].opcode, target)];
    }

    /** Whatever was emitted and patched, decoding gives it back whole. */
    method Decode() returns (r: seq<Instruction>)
      requires Valid()
      ensures r == Listing(table, log)
      ensures |code| == OffsetOf(table, log, |log|)
    {
      r := Instructions(table, code);
      DecodesLog(table, log);
    }
  }
}
