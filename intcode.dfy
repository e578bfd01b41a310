/** The values of the IntCode machine of src/day_2.rs: machine words, the opcode table,
    decoded operations, and what one run of the machine does to a memory image, written as
    functions of the memory and the instruction pointer. The class in parser.dfy is proved
    against these functions. */
module IntCode {

  /** Every cell of the ROM and of memory is a Rust `u32`. */
  const WORD_LIMIT: int := 0x1_0000_0000
  type u32 = x: int | 0 <= x < WORD_LIMIT

  /** `next` advances the instruction pointer by this many cells BEFORE it reads an opcode. */
  const STRIDE: nat := 4

  const ADD_CODE: u32 := 1
  const MUL_CODE: u32 := 2
  const TERM_CODE: u32 := 99

  datatype Option<T> = None | Some(value: T)

  /** What `write_pos` returns; the error carries the message of the `io::Error`. */
  datatype WriteResult = Ok | Err(message: string)

  const OUT_OF_RANGE: string := "attempt to write to address out of range"

  /** The opcode an instruction's first cell selects. */
  datatype OpCode = Add | Mul | Term | Invalid

  /** A decoded instruction; the operands of Add and Mul are addresses, not values. */
  datatype Operation =
    | Add(op1: u32, op2: u32, dst: u32)
    | Mul(op1: u32, op2: u32, dst: u32)
    | Terminate
    | Invalid

  /** The fixed decode table: 1, 2 and 99 are recognised, every other word is Invalid. */
  function OpCodeFrom(val: u32): (code: OpCode)
    ensures code == OpCode.Add <==> val == ADD_CODE
    ensures code == OpCode.Mul <==> val == MUL_CODE
    ensures code == OpCode.Term <==> val == TERM_CODE
  {
    match val
    case 1 => OpCode.Add
    case 2 => OpCode.Mul
    case 99 => OpCode.Term
    case _ => OpCode.Invalid
  }

  /** The word a recognised opcode is written as: the inverse of the table. */
  function Code(code: OpCode): u32
    requires code != OpCode.Invalid
  {
    match code
    case Add => ADD_CODE
    case Mul => MUL_CODE
    case Term => TERM_CODE
  }

  lemma DecodeCode(code: OpCode)
    requires code != OpCode.Invalid
    ensures OpCodeFrom(Code(code)) == code
  {
  }

  lemma CodeDecode(val: u32)
    requires OpCodeFrom(val) != OpCode.Invalid
    ensures Code(OpCodeFrom(val)) == val
  {
  }

  /** `write_pos` on a memory image: the cell at pos takes val; a position at or past the end
      changes nothing. */
  function Write(mem: seq<u32>, pos: nat, val: u32): (r: seq<u32>)
    ensures |r| == |mem|
    ensures pos < |mem| ==> r[pos] == val
    ensures forall k :: 0 <= k < |mem| && k != pos ==> r[k] == mem[k]
  {
    if pos < |mem| then mem[pos := val] else mem
  }

  /** `set_program_code` on a memory image: `write_pos` of each value in turn, the errors of
      writes past the end dropped. */
  function Patch(mem: seq<u32>, pos: nat, vals: seq<u32>): (r: seq<u32>)
    ensures |r| == |mem|
    ensures forall k :: 0 <= k < |mem| ==>
              r[k] == if pos <= k < pos + |vals| then vals[k - pos] else mem[k]
    decreases |vals|
  {
    if vals == [] then mem else Patch(Write(mem, pos, vals[0]), pos + 1, vals[1..])
  }

  /** The indexing in `next` stays in bounds: the opcode cell at ip + STRIDE, and for Add and
      Mul the three operand cells after it. */
  predicate CanDecode(mem: seq<u32>, ip: nat): (r: bool)
    ensures r <==> && ip + STRIDE < |mem|
                   && (mem[ip + STRIDE] == ADD_CODE || mem[ip + STRIDE] == MUL_CODE ==> ip + STRIDE + 3 < |mem|)
  {
    && ip + STRIDE < |mem|
    && (OpCodeFrom(mem[ip + STRIDE]) == OpCode.Add || OpCodeFrom(mem[ip + STRIDE]) == OpCode.Mul
        ==> ip + STRIDE + 3 < |mem|)
  }

  /** What `next` returns when called with instruction pointer ip; memory is not changed.
      Terminate and Invalid both come back as None. */
  function Decode(mem: seq<u32>, ip: nat): (r: Option<Operation>)
    requires CanDecode(mem, ip)
    ensures r.None? <==> mem[ip + STRIDE] != ADD_CODE && mem[ip + STRIDE] != MUL_CODE
    ensures r.Some? ==>
              && (r.value.Add? <==> mem[ip + STRIDE] == ADD_CODE)
              && (r.value.Mul? <==> mem[ip + STRIDE] == MUL_CODE)
              && r.value.op1 == mem[ip + STRIDE + 1]
              && r.value.op2 == mem[ip + STRIDE + 2]
              && r.value.dst == mem[ip + STRIDE + 3]
  {
    var pc := ip + STRIDE;
    match OpCodeFrom(mem[pc])
    case Add => Some(Operation.Add(mem[pc + 1], mem[pc + 2], mem[pc + 3]))
    case Mul => Some(Operation.Mul(mem[pc + 1], mem[pc + 2], mem[pc + 3]))
    case Term => None
    case Invalid => None
  }

  /** The arithmetic of Add and Mul on the two dereferenced operands, before any overflow. */
  function Apply(op: Operation, a: u32, b: u32): nat
    requires op.Add? || op.Mul?
  {
    if op.Add? then a + b else a * b
  }

  /** An Add or Mul does not panic: both `unwrap`s find an in-range operand address and the
      u32 `+` or `*` does not overflow. */
  predicate CanExecute(mem: seq<u32>, op: Operation): (r: bool)
    requires op.Add? || op.Mul?
    ensures r <==> && op.op1 < |mem| && op.op2 < |mem|
                   && (op.Add? ==> mem[op.op1] + mem[op.op2] < WORD_LIMIT)
                   && (op.Mul? ==> mem[op.op1] * mem[op.op2] < WORD_LIMIT)
  {
    op.op1 < |mem| && op.op2 < |mem| && Apply(op, mem[op.op1], mem[op.op2]) < WORD_LIMIT
  }

  /** One Add or Mul step of `run`: only the destination cell changes, and an out-of-range
      destination changes nothing. */
  function Execute(mem: seq<u32>, op: Operation): (r: seq<u32>)
    requires op.Add? || op.Mul?
    requires CanExecute(mem, op)
    ensures |r| == |mem|
    ensures forall k :: 0 <= k < |mem| && k != op.dst ==> r[k] == mem[k]
    ensures op.Add? && op.dst < |mem| ==> r[op.dst] == mem[op.op1] + mem[op.op2]
    ensures op.Mul? && op.dst < |mem| ==> r[op.dst] == mem[op.op1] * mem[op.op2]
    ensures op.dst >= |mem| ==> r == mem
  {
    Write(mem, op.dst, Apply(op, mem[op.op1], mem[op.op2]))
  }

  /** How a run ends: with the final memory and the opcode it stopped on, or in a Rust panic. */
  datatype Outcome = Halted(memory: seq<u32>, stop: OpCode) | Panic

  /** The `while let` loop of `run`, started with instruction pointer ip. The loop stops when
      `next` returns None; every step moves ip forward by STRIDE, so |mem| - ip decreases. */
  function Execution(mem: seq<u32>, ip: nat): (r: Outcome)
    ensures r.Halted? ==> |r.memory| == |mem| && ip + STRIDE < |mem|
    ensures r.Halted? ==> r.stop == OpCode.Term || r.stop == OpCode.Invalid
    decreases |mem| - ip
  {
    if !CanDecode(mem, ip) then Panic
    else match Decode(mem, ip)
      case None => Halted(mem, OpCodeFrom(mem[ip + STRIDE]))
      case Some(op) =>
        if CanExecute(mem, op) then Execution(Execute(mem, op), ip + STRIDE) else Panic
  }

  /** Decoding 99 or an unrecognised opcode ends the run with memory exactly as it was; the only
      trace of which one it was is the stop code, which `run` does not keep. */
  lemma HaltLeavesMemory(mem: seq<u32>, ip: nat)
    requires ip + STRIDE < |mem|
    requires mem[ip + STRIDE] != ADD_CODE && mem[ip + STRIDE] != MUL_CODE
    ensures Execution(mem, ip).Halted? && Execution(mem, ip).memory == mem
    ensures mem[ip + STRIDE] == TERM_CODE ==> Execution(mem, ip).stop == OpCode.Term
    ensures mem[ip + STRIDE] != TERM_CODE ==> Execution(mem, ip).stop == OpCode.Invalid
  {
  }

  /** An Add or Mul that executes cleanly is one step of the run: the rest of the run picks up
      from the updated memory at ip + STRIDE. */
  lemma ExecutionStep(mem: seq<u32>, ip: nat, next: seq<u32>)
    requires CanDecode(mem, ip) && Decode(mem, ip).Some?
    requires CanExecute(mem, Decode(mem, ip).value)
    requires next == Execute(mem, Decode(mem, ip).value)
    ensures Execution(next, ip + STRIDE) == Execution(mem, ip)
  {
  }

  /** The program 1,9,10,3,2,3,11,0,99,30,40,50 started at ip 0: the Add at cells 0-3 is
      skipped, the Mul at cells 4-7 writes 3 * 50 into cell 0, and 99 at cell 8 halts.
      Cell 0 ends as 150, not the 3500 of a machine that starts decoding at cell 0. */
  lemma SampleProgram()
    ensures Execution([1, 9, 10, 3, 2, 3, 11, 0, 99, 30, 40, 50], 0)
         == Halted([150, 9, 10, 3, 2, 3, 11, 0, 99, 30, 40, 50], OpCode.Term)
  {
    var mem: seq<u32> := [1, 9, 10, 3, 2, 3, 11, 0, 99, 30, 40, 50];
    var op := Operation.Mul(3, 11, 0);
    assert Decode(mem, 0) == Some(op);
    var after := Execute(mem, op);
    assert after == [150, 9, 10, 3, 2, 3, 11, 0, 99, 30, 40, 50];
    HaltLeavesMemory(after, STRIDE);
  }

  /** A program whose only instruction sits at cell 0 is never executed: the first opcode read
      is at cell 4. */
  lemma FirstInstructionSkipped()
    ensures Execution([1, 0, 0, 0, 99], 0) == Halted([1, 0, 0, 0, 99], OpCode.Term)
    ensures Execution([2, 3, 0, 3, 99], 0) == Halted([2, 3, 0, 3, 99], OpCode.Term)
  {
    HaltLeavesMemory([1, 0, 0, 0, 99], 0);
    HaltLeavesMemory([2, 3, 0, 3, 99], 0);
  }
}
