/** The `IntCodeParser` struct of src/day_2.rs: a loaded ROM, a working copy of it, and the
    instruction pointer, with the operations that update them in place. */
module Parser {
  import opened IntCode

  class IntCodeParser {
    var rom: seq<u32>
    var memory: seq<u32>
    var ip: nat

    /** Memory is always a copy of the ROM with some cells overwritten, never longer or shorter. */
    ghost predicate Valid()
      reads this
    {
      |memory| == |rom|
    }

    /** `new`: an empty ROM, empty memory, ip 0. */
    constructor ()
      ensures rom == [] && memory == [] && ip == 0
      ensures Valid()
    {
      rom, memory, ip := [], [], 0;
    }

    /** `load_program` once its input has been split and parsed: the values are APPENDED to the
        ROM and memory becomes a copy of the whole ROM; ip is not touched. */
    method LoadProgram(program: seq<u32>)
      modifies this`rom, this`memory
      ensures rom == old(rom) + program
      ensures memory == rom
      ensures Valid()
    {
      rom := rom + program;
      memory := rom;
    }

    /** `write_pos`: an in-range position takes the value and Ok comes back; any other position
        leaves memory as it is and the error comes back. */
    method WritePos(pos: nat, val: u32) returns (r: WriteResult)
      requires Valid()
      modifies this`memory
      ensures Valid()
      ensures r.Ok? <==> pos < |old(memory)|
      ensures r.Err? ==> r.message == OUT_OF_RANGE
      ensures memory == Write(old(memory), pos, val)
    {
      if |memory| <= pos {
        r := Err(OUT_OF_RANGE);
      } else {
        memory := memory[pos := val];
        r := Ok;
      }
    }

    /** `set_program_code`: cell pos + i takes program[i] whenever it exists; writes past the
        end are dropped without an error, so a patch may apply only in part. */
    method SetProgramCode(pos: nat, program: seq<u32>)
      requires Valid()
      modifies this`memory
      ensures Valid()
      ensures memory == Patch(old(memory), pos, program)
    {
      for i := 0 to |program|
        invariant Valid() && |memory| == |old(memory)|
        invariant forall k :: 0 <= k < |memory| ==>
                    memory[k] == if pos <= k < pos + i then program[k - pos] else old(memory)[k]
      {
        var _ := WritePos(pos + i, program[i]);
      }
    }

    /** `clear_memory`: memory becomes a copy of the ROM again; ip is NOT reset. */
    method ClearMemory()
      modifies this`memory
      ensures memory == rom
      ensures Valid()
    {
      memory := rom;
    }

    /** `read_pos`: the cell at pos when there is one. */
    function ReadPos(pos: nat): (r: Option<u32>)
      reads this
      ensures r.Some? <==> pos < |memory|
      ensures r.Some? ==> r.value == memory[pos]
    {
      if |memory| <= pos then None else Some(memory[pos])
    }

    /** `Iterator::next`: ip moves forward by STRIDE first, then the opcode at the new ip is
        decoded; Add and Mul carry the three cells after it, Terminate and Invalid give None. */
    method Next() returns (op: Option<Operation>)
      requires Valid() && CanDecode(memory, ip)
      modifies this`ip
      ensures Valid()
      ensures ip == old(ip) + STRIDE
      ensures op == Decode(memory, old(ip))
    {
      ip := ip + STRIDE;
      match OpCodeFrom(memory[ip]) {
        case Add =>
          op := Some(Operation.Add(memory[ip + 1], memory[ip + 2], memory[ip + 3]));
        case Mul =>
          op := Some(Operation.Mul(memory[ip + 1], memory[ip + 2], memory[ip + 3]));
        case Term =>
          op := None;
        case Invalid =>
          op := None;
      }
    }

    /** `run`: steps until `next` returns None, then resets ip to 0. The results of the writes
        are dropped. The Terminate and Invalid arms of the Rust match cannot be reached, since
        `next` never returns them, and are left out of the match below. */
    method Run()
      requires Valid() && Execution(memory, ip).Halted?
      modifies this`memory, this`ip
      ensures memory == Execution(old(memory), old(ip)).memory
      ensures Valid() && |memory| == |rom| == |old(memory)|
      ensures ip == 0
    {
      ghost var outcome := Execution(memory, ip);
      while true
        invariant Valid() && Execution(memory, ip) == outcome
        decreases |memory| - ip
      {
        ghost var start, pc := memory, ip;
        var op := Next();
        match op {
          case None =>
            HaltLeavesMemory(start, pc);
            break;
          case Some(Add(op1, op2, dst)) =>
            var operand1 := ReadPos(op1);
            var operand2 := ReadPos(op2);
            var _ := WritePos(dst, operand1.value + operand2.value);
            ExecutionStep(start, pc, memory);
          case Some(Mul(op1, op2, dst)) =>
            var operand1 := ReadPos(op1);
            var operand2 := ReadPos(op2);
            var _ := WritePos(dst, operand1.value * operand2.value);
            ExecutionStep(start, pc, memory);
        }
      }
      ip := 0;
    }
  }
}
