/** `disassemble`: the linear sweep over EVM byte code. */
module Disassembler {
  import opened Options

  type Byte = x: int | 0 <= x < 256

  /** Opcode names are in one-to-one correspondence with their bytes. */
  datatype Instruction = Instruction(address: nat, opcode: Byte, argument: Option<seq<Byte>>)

  const JUMPDEST: Byte := 0x5B
  const INVALID: Byte := 0xFE

  /** The bytes with an entry in the opcode table. */
  predicate Assigned(b: Byte) {
    || b <= 0x0B
    || 0x10 <= b <= 0x1D
    || b == 0x20
    || 0x30 <= b <= 0x48
    || 0x50 <= b <= 0x5D
    || 0x5F <= b <= 0xA4
    || 0xF0 <= b <= 0xF5
    || b == 0xFA || b >= 0xFD
  }

  /** The bytes without one. */
  lemma UnassignedExactly(b: Byte)
    ensures !Assigned(b) <==>
      || 0x0C <= b <= 0x0F || 0x1E <= b <= 0x1F || 0x21 <= b <= 0x2F || 0x49 <= b <= 0x4F || b == 0x5E
      || 0xA5 <= b <= 0xEF || 0xF6 <= b <= 0xF9 || 0xFB <= b <= 0xFC
  {
  }

  predicate IsPush(b: Byte) { 0x5F <= b <= 0x7F }

  /** The argument bytes of `PUSH0` to `PUSH32`. */
  function Width(b: Byte): nat {
    if IsPush(b) then b - 0x5F else 0
  }

  function Min(a: nat, b: nat): nat { if a < b then a else b }

  // ---------------------------------------------------------------------------------------
  // The end of the code

  function Suffix(code: seq<Byte>): seq<Byte> {
    if |code| < 43 then code else code[|code| - 43..]
  }

  /** The printed form of a byte ends in the letter b: the letter itself, or a hexadecimal escape. */
  predicate PrintsB(b: Byte) {
    b == 0x62 || (b % 16 == 0xB && (b < 0x20 || b >= 0x7F))
  }

  /** "bzzr" occurs in the printed form of the bytes. */
  predicate ShowsSwarmHash(part: seq<Byte>) {
    exists i: nat :: i < |part| && ShowsAt(part, i)
  }

  predicate ShowsAt(part: seq<Byte>, i: nat) {
    i + 3 < |part| && PrintsB(part[i]) && part[i + 1] == 0x7A && part[i + 2] == 0x7A && part[i + 3] == 0x72
  }

  function Limit(code: seq<Byte>): int {
    if ShowsSwarmHash(Suffix(code)) then |code| - 43 else |code|
  }

  // ---------------------------------------------------------------------------------------
  // The sweep

  function InstructionAt(code: seq<Byte>, a: nat): Instruction
    requires a < |code|
  {
    var b := code[a];
    if !Assigned(b) then Instruction(a, INVALID, None)
    else Instruction(a, b, if IsPush(b) then Some(Slice(code, a + 1, a + 1 + Width(b))) else None)
  }

  function Sweep(code: seq<Byte>, limit: int, a: nat): seq<Instruction>
    requires limit <= |code|
    decreases limit - a
  {
    if a >= limit then [] else [InstructionAt(code, a)] + Sweep(code, limit, a + 1 + Width(code[a]))
  }

  method Disassemble(code: seq<Byte>) returns (instructions: seq<Instruction>)
    ensures instructions == Sweep(code, Limit(code), 0)
  {
    instructions := [];
    var address: nat := 0;
    var length: int := |code|;
    if ShowsSwarmHash(Suffix(code)) {
      length := length - 43;
    }
    while address < length
      invariant Swept(code, length, instructions, address)
      decreases length - address
    {
      var opcode := code[address];
      ghost var before, a := instructions, address;
      SweepStep(code, length, a, before);
      if !Assigned(opcode) {
        instructions := instructions + [Instruction(address, INVALID, None)];
        address := address + 1;
        assert instructions == before + [InstructionAt(code, a)] && address == a + 1 + Width(code[a]);
        continue;
      }
      var argument := None;
      var at := address;
      if IsPush(opcode) {
        argument := Some(Slice(code, address + 1, address + 1 + Width(opcode)));
        address := address + Width(opcode);
      }
      instructions := instructions + [Instruction(at, opcode, argument)];
      address := address + 1;
      assert instructions == before + [InstructionAt(code, a)] && address == a + 1 + Width(code[a]);
    }
  }

  /** A slice stops at the end of the bytes. */
  function Slice(code: seq<Byte>, lo: nat, hi: nat): seq<Byte>
    requires lo <= |code| && lo <= hi
  {
    code[lo..Min(hi, |code|)]
  }

  lemma SweepStep(code: seq<Byte>, limit: int, a: nat, before: seq<Instruction>)
    requires limit <= |code| && a < limit
    requires Swept(code, limit, before, a)
    ensures Swept(code, limit, before + [InstructionAt(code, a)], a + 1 + Width(code[a]))
  {
  }

  /** The instructions `before` end at `a`. */
  predicate Swept(code: seq<Byte>, limit: int, before: seq<Instruction>, a: nat)
    requires limit <= |code|
  {
    before + Sweep(code, limit, a) == Sweep(code, limit, 0)
  }

  /** A letter b, or a byte that prints as an escape ending in one, and then "zzr". */
  predicate LooksLikeHash(code: seq<Byte>, k: nat) {
    && k + 4 <= |code| && code[k + 1] == 0x7A && code[k + 2] == 0x7A && code[k + 3] == 0x72
    && (code[k] == 0x62 || (code[k] % 16 == 0xB && !(0x20 <= code[k] < 0x7F)))
  }

  lemma HashInSuffix(code: seq<Byte>, from: nat, i: nat)
    requires from <= |code|
    ensures LooksLikeHash(code, from + i) <==> ShowsAt(code[from..], i)
  {
    var part, at := code[from..], from + i;
    if at + 4 <= |code| {
      assert part[i] == code[at] && part[i + 1] == code[at + 1] && part[i + 2] == code[at + 2] && part[i + 3] == code[at + 3];
      PrintsBExactly(code[at]);
    }
  }

  lemma PrintsBExactly(b: Byte)
    ensures PrintsB(b) <==> b == 0x62 || (b % 16 == 0xB && !(0x20 <= b < 0x7F))
  {
  }

  /** Everything is disassembled if and only if nothing in the last 43 bytes looks like a hash; else all but those. */
  lemma CutExactly(code: seq<Byte>)
    ensures Limit(code) == |code| || Limit(code) == |code| - 43
    ensures Limit(code) == |code| <==> forall k: nat :: |code| - 43 <= k ==> !LooksLikeHash(code, k)
  {
    var from: nat := if |code| < 43 then 0 else |code| - 43;
    assert Suffix(code) == code[from..];
    var part := code[from..];
    forall i: nat ensures LooksLikeHash(code, from + i) <==> ShowsAt(part, i) { HashInSuffix(code, from, i); }
    if ShowsSwarmHash(part) {
      var i: nat :| i < |part| && ShowsAt(part, i);
      assert LooksLikeHash(code, from + i);
    } else {
      forall k: nat | |code| - 43 <= k ensures !LooksLikeHash(code, k) {
        if k < |code| { assert !ShowsAt(part, k - from); }
      }
    }
  }

  /** The bytes that an instruction stands for. */
  function Size(i: Instruction): nat {
    if i.argument.Some? && i.opcode >= 0x5F then 1 + (i.opcode - 0x5F) else 1
  }

  lemma InstructionIs(code: seq<Byte>, a: nat)
    requires a < |code|
    ensures var ins, to := InstructionAt(code, a), a + Size(InstructionAt(code, a));
      && ins.address == a && ins.opcode == (if Assigned(code[a]) then code[a] else INVALID)
      && (ins.argument.Some? <==> 0x5F <= ins.opcode <= 0x7F)
      && (ins.argument.Some? ==> ins.argument.value == code[a + 1..if to < |code| then to else |code|])
      && to == a + 1 + Width(code[a])
  {
  }

  /** Each instruction stands for the bytes from its address on: an opcode, or INVALID for one that is not
      assigned, and for a push as many bytes as it says, or as there are; the next one comes right after it. */
  lemma {:induction false} InstructionsExactly(code: seq<Byte>, limit: int, a: nat, i: nat)
    requires limit <= |code| && i < |Sweep(code, limit, a)|
    ensures var r := Sweep(code, limit, a);
      var ins, to := r[i], r[i].address + Size(r[i]);
      && (i == 0 ==> ins.address == a) && a <= ins.address < limit
      && ins.opcode == (if Assigned(code[ins.address]) then code[ins.address] else INVALID)
      && (ins.argument.Some? <==> 0x5F <= ins.opcode <= 0x7F)
      && (ins.argument.Some? ==> ins.argument.value == code[ins.address + 1..if to < |code| then to else |code|])
      && (if i + 1 < |r| then r[i + 1].address == to else to >= limit)
    decreases limit - a
  {
    var next := a + 1 + Width(code[a]);
    InstructionIs(code, a);
    if i == 0 {
      if next < limit { InstructionIs(code, next); }
    } else {
      InstructionsExactly(code, limit, next, i - 1);
    }
  }

  // ---------------------------------------------------------------------------------------
  // Jump destinations

  /** The next instruction after one at `i` with opcode `w`; Ethereum Yellow Paper, section 9.4.3. */
  function NextPosition(i: nat, w: Byte): nat {
    if 0x60 <= w <= 0x7F then i + w - 0x60 + 2 else i + 1
  }

  /** The valid jump destinations from position `i` on; same section. */
  function ValidJumps(code: seq<Byte>, i: nat): set<nat>
    decreases |code| - i
  {
    if i >= |code| then {}
    else if code[i] == JUMPDEST then ValidJumps(code, NextPosition(i, code[i])) + {i}
    else ValidJumps(code, NextPosition(i, code[i]))
  }

  function Labels(instructions: seq<Instruction>): set<nat> {
    set i | 0 <= i < |instructions| && instructions[i].opcode == JUMPDEST :: instructions[i].address
  }

  lemma {:induction false} LabelsCons(first: Instruction, rest: seq<Instruction>)
    ensures Labels([first] + rest) == Labels(rest) + (if first.opcode == JUMPDEST then {first.address} else {})
  {
    var l := [first] + rest;
    forall a | a in Labels(rest) ensures a in Labels(l) {
      var i :| 0 <= i < |rest| && rest[i].opcode == JUMPDEST && rest[i].address == a;
      assert l[i + 1] == rest[i];
    }
    if first.opcode == JUMPDEST { assert l[0] == first; }
    forall a | a in Labels(l) ensures a in Labels(rest) || (first.opcode == JUMPDEST && a == first.address) {
      var i :| 0 <= i < |l| && l[i].opcode == JUMPDEST && l[i].address == a;
      if i > 0 { assert rest[i - 1] == l[i]; }
    }
  }

  lemma {:induction false} ValidJumpsFrom(code: seq<Byte>, i: nat)
    ensures forall a :: a in ValidJumps(code, i) ==> i <= a < |code|
    decreases |code| - i
  {
    if |code| <= i {
    } else {
      ValidJumpsFrom(code, NextPosition(i, code[i]));
    }
  }

  /** The labelled addresses are the valid jump destinations before the limit. */
  lemma {:induction false} LabelsAreValidJumps(code: seq<Byte>, limit: int, a: nat)
    requires limit <= |code|
    ensures Labels(Sweep(code, limit, a)) == set j | j in ValidJumps(code, a) && j < limit
    decreases limit - a
  {
    if a >= limit {
      ValidJumpsFrom(code, a);
    } else {
      var next := a + 1 + Width(code[a]);
      assert next == NextPosition(a, code[a]);
      LabelsAreValidJumps(code, limit, next);
      LabelsCons(InstructionAt(code, a), Sweep(code, limit, next));
    }
  }

  // ---------------------------------------------------------------------------------------
  // Emitting the instructions again

  function EmitOne(i: Instruction): seq<Byte> {
    [i.opcode] + if i.argument.Some? then i.argument.value else []
  }

  function Emit(instructions: seq<Instruction>): seq<Byte> {
    if instructions == [] then [] else EmitOne(instructions[0]) + Emit(instructions[1..])
  }

  /** The positions that hold an opcode, from `i` on. */
  function Starts(code: seq<Byte>, i: nat): set<nat>
    decreases |code| - i
  {
    if i >= |code| then {} else {i} + Starts(code, NextPosition(i, code[i]))
  }

  lemma {:induction false} StartsFrom(code: seq<Byte>, i: nat)
    ensures forall a :: a in Starts(code, i) ==> i <= a < |code|
    decreases |code| - i
  {
    if |code| <= i {
    } else {
      StartsFrom(code, NextPosition(i, code[i]));
    }
  }

  /** The code as it comes back: unassigned opcodes become INVALID, arguments stay as they are. */
  predicate Reproduces(out: seq<Byte>, code: seq<Byte>, i: nat, limit: int) {
    && Min(if limit < 0 then 0 else limit, |code|) <= i + |out| <= |code|
    && i + |out| <= (if i < limit then limit + 32 else i)
    && forall k :: 0 <= k < |out| ==>
         out[k] == if i + k in Starts(code, i) && !Assigned(code[i + k]) then INVALID else code[i + k]
  }

  lemma {:induction false} EmitReproduces(code: seq<Byte>, limit: int, i: nat)
    requires limit <= |code| && i <= |code|
    ensures Reproduces(Emit(Sweep(code, limit, i)), code, i, limit)
    decreases limit - i
  {
    if i < limit {
      var next := i + 1 + Width(code[i]);
      var one, rest := EmitOne(InstructionAt(code, i)), Sweep(code, limit, next);
      assert next == NextPosition(i, code[i]);
      StartsFrom(code, next);
      assert Emit(Sweep(code, limit, i)) == one + Emit(rest) by {
        assert ([InstructionAt(code, i)] + rest)[1..] == rest;
      }
      if next <= |code| {
        assert |one| == next - i;
        EmitReproduces(code, limit, next);
      } else {
        assert rest == [] && |one| == |code| - i;
      }
    }
  }

  lemma SameInstruction(code: seq<Byte>, out: seq<Byte>, i: nat)
    requires i < |code| == |out| && out[i] == (if Assigned(code[i]) then code[i] else INVALID)
    requires forall k :: i + 1 <= k < Min(i + 1 + Width(code[i]), |code|) ==> out[k] == code[k]
    ensures InstructionAt(out, i) == InstructionAt(code, i)
  {
    var to := i + 1 + Width(code[i]);
    assert IsPush(code[i]) ==> Slice(out, i + 1, to) == Slice(code, i + 1, to);
  }

  /** Without a cut, disassembling what was emitted gives the same instructions. */
  lemma {:induction false} SweepOfEmitted(code: seq<Byte>, out: seq<Byte>, i: nat)
    requires |out| == |code| && i <= |code|
    requires forall k :: i <= k < |code| ==>
      out[k] == if k in Starts(code, i) && !Assigned(code[k]) then INVALID else code[k]
    ensures Sweep(out, |out|, i) == Sweep(code, |code|, i)
    decreases |code| - i
  {
    if |code| <= i {
    } else {
      var next := NextPosition(i, code[i]);
      StartsFrom(code, next);
      assert i in Starts(code, i);
      assert Width(out[i]) == Width(code[i]) && next == i + 1 + Width(code[i]);
      forall k | i + 1 <= k < Min(next, |code|) ensures out[k] == code[k] { assert k !in Starts(code, next); }
      SameInstruction(code, out, i);
      if next <= |code| {
        forall k | next <= k < |code| ensures k in Starts(code, i) <==> k in Starts(code, next) {}
        SweepOfEmitted(code, out, next);
      }
    }
  }

  /** The whole sweep: the labels are the valid jump destinations, and the code comes back. */
  lemma SweepIsFaithful(code: seq<Byte>)
    ensures var r := Sweep(code, |code|, 0);
      && Labels(r) == ValidJumps(code, 0)
      && |Emit(r)| == |code|
      && (forall k :: 0 <= k < |code| ==>
            Emit(r)[k] == if k in Starts(code, 0) && !Assigned(code[k]) then INVALID else code[k])
      && Sweep(Emit(r), |Emit(r)|, 0) == r
  {
    var r := Sweep(code, |code|, 0);
    LabelsAreValidJumps(code, |code|, 0);
    ValidJumpsFrom(code, 0);
    assert (set j | j in ValidJumps(code, 0) && j < |code|) == ValidJumps(code, 0);
    EmitReproduces(code, |code|, 0);
    SweepOfEmitted(code, Emit(r), 0);
  }

  /** The cut can be a mistake: this code of jump destinations holds no "bzzr", but the printed form
      of the byte 0x0B ends in a b. Nothing of it is disassembled. */
  lemma CutWithoutSwarmHash(code: seq<Byte>)
    requires |code| == 43 && forall k :: 0 <= k < 39 ==> code[k] == JUMPDEST
    requires code[39] == 0x0B && code[40] == 0x7A && code[41] == 0x7A && code[42] == 0x72
    ensures forall i :: 0 <= i < 43 ==> code[i] != 0x62
    ensures Sweep(code, Limit(code), 0) == [] && 0 in ValidJumps(code, 0)
  {
    assert Suffix(code) == code;
    assert ShowsAt(code, 39);
  }
}
