/** The parameter search of `main` in src/day_2.rs: one warm-up run with noun 12 and verb 2,
    then every (noun, verb) pair in 0..100 x 0..100 in row-major order, each on a fresh copy
    of the ROM, until cell 0 ends as the target. */
module Driver {
  import opened IntCode
  import opened Parser

  /** The value cell 0 must end as. */
  const TARGET: u32 := 19690720

  /** Nouns and verbs both range over 0..RANGE. */
  const RANGE: nat := 100

  /** Where `main` pokes the noun and the verb. */
  const PARAMETER_POS: nat := 1

  /** One trial: the ROM with noun and verb at cells 1 and 2, run from ip 0. */
  function Trial(rom: seq<u32>, noun: u32, verb: u32): (r: Outcome)
    ensures r.Halted? ==> |r.memory| == |rom| && STRIDE < |rom|
  {
    Execution(Patch(rom, PARAMETER_POS, [noun, verb]), 0)
  }

  /** The trial halts and leaves the target in cell 0. */
  predicate Hits(rom: seq<u32>, noun: u32, verb: u32)
  {
    Trial(rom, noun, verb).Halted? && Trial(rom, noun, verb).memory[0] == TARGET
  }

  /** The trial halts and leaves something else in cell 0. */
  predicate Misses(rom: seq<u32>, noun: u32, verb: u32)
  {
    Trial(rom, noun, verb).Halted? && Trial(rom, noun, verb).memory[0] != TARGET
  }

  /** (p, q) comes before (i, j) in the row-major order of the two nested loops. */
  predicate Before(p: nat, q: nat, i: nat, j: nat)
  {
    p < i || (p == i && q < j)
  }

  /** Every pair the loops visit from (i, j) on up to, but not including, (p, q) runs cleanly
      and misses. */
  predicate MissesBetween(rom: seq<u32>, i: nat, j: nat, p: nat, q: nat)
  {
    forall p': u32, q': u32 ::
      q' < RANGE && !Before(p', q', i, j) && Before(p', q', p, q) ==> Misses(rom, p', q')
  }

  /** The pairs visited from (i, RANGE) on are those visited from (i + 1, 0) on. */
  lemma MissesFromNextRow(rom: seq<u32>, i: nat, p: nat, q: nat)
    requires MissesBetween(rom, i + 1, 0, p, q)
    ensures MissesBetween(rom, i, RANGE, p, q)
  {
    forall p': u32, q': u32 | q' < RANGE && !Before(p', q', i, RANGE) && Before(p', q', p, q)
      ensures Misses(rom, p', q')
    {
      assert !Before(p', q', i + 1, 0);
    }
  }

  /** A miss at (i, j) extends a run of misses from (i, j + 1) back to (i, j). */
  lemma MissesFromNextVerb(rom: seq<u32>, i: u32, j: u32, p: nat, q: nat)
    requires Misses(rom, i, j) && MissesBetween(rom, i, j + 1, p, q)
    ensures MissesBetween(rom, i, j, p, q)
  {
    forall p': u32, q': u32 | q' < RANGE && !Before(p', q', i, j) && Before(p', q', p, q)
      ensures Misses(rom, p', q')
    {
      if p' == i && q' == j {
      } else {
        assert !Before(p', q', i, j + 1);
      }
    }
  }

  datatype SearchOutcome = Found(noun: u32, verb: u32) | Exhausted | Fails

  /** The rest of the search, from the pair (i, j) on: the first pair that hits, or the end of
      the range, or a trial that panics before either. */
  function SearchFrom(rom: seq<u32>, i: nat, j: nat): (r: SearchOutcome)
    ensures r.Found? ==> && r.noun < RANGE && r.verb < RANGE
                         && !Before(r.noun, r.verb, i, j) && Hits(rom, r.noun, r.verb)
    decreases RANGE - i, RANGE - j
  {
    if i >= RANGE then Exhausted
    else if j >= RANGE then SearchFrom(rom, i + 1, 0)
    else match Trial(rom, i, j)
      case Panic => Fails
      case Halted(mem, _) =>
        if mem[0] == TARGET then Found(i, j) else SearchFrom(rom, i, j + 1)
  }

  /** A pair the search finds hits, and every pair it passed over on the way misses. */
  lemma {:induction false} FoundIsFirst(rom: seq<u32>, i: nat, j: nat)
    requires i <= RANGE && j <= RANGE
    requires SearchFrom(rom, i, j).Found?
    ensures var r := SearchFrom(rom, i, j);
      && r.noun < RANGE && r.verb < RANGE
      && !Before(r.noun, r.verb, i, j)
      && Hits(rom, r.noun, r.verb)
      && MissesBetween(rom, i, j, r.noun, r.verb)
    decreases RANGE - i, RANGE - j
  {
    var r := SearchFrom(rom, i, j);
    if j >= RANGE {
      FoundIsFirst(rom, i + 1, 0);
      MissesFromNextRow(rom, i, r.noun, r.verb);
    } else if !Hits(rom, i, j) {
      FoundIsFirst(rom, i, j + 1);
      assert Misses(rom, i, j);
      MissesFromNextVerb(rom, i, j, r.noun, r.verb);
    } else {
      assert MissesBetween(rom, i, j, i, j);
    }
  }


  /** A search that runs to the end has seen every pair miss. */
  lemma {:induction false} ExhaustedMissesAll(rom: seq<u32>, i: nat, j: nat)
    requires i <= RANGE && j <= RANGE
    requires SearchFrom(rom, i, j).Exhausted?
    ensures forall p: u32, q: u32 :: p < RANGE && q < RANGE && !Before(p, q, i, j) ==> Misses(rom, p, q)
    decreases RANGE - i, RANGE - j
  {
    if i < RANGE {
      if j >= RANGE {
        ExhaustedMissesAll(rom, i + 1, 0);
      } else {
        ExhaustedMissesAll(rom, i, j + 1);
      }
    }
  }

  /** A search that fails met a trial that panics, at or after the pair (i, j), and every
      pair it visited before that one ran cleanly and missed: the search stops at the first
      panic. */
  lemma {:induction false} FailsOnPanic(rom: seq<u32>, i: nat, j: nat)
    requires i <= RANGE && j <= RANGE
    requires SearchFrom(rom, i, j).Fails?
    ensures exists p: u32, q: u32 ::
              && p < RANGE && q < RANGE && !Before(p, q, i, j)
              && Trial(rom, p, q).Panic? && MissesBetween(rom, i, j, p, q)
    decreases RANGE - i, RANGE - j
  {
    if j >= RANGE {
      FailsOnPanic(rom, i + 1, 0);
      var p: u32, q: u32 :| p < RANGE && q < RANGE && !Before(p, q, i + 1, 0) && Trial(rom, p, q).Panic?
                            && MissesBetween(rom, i + 1, 0, p, q);
      MissesFromNextRow(rom, i, p, q);
    } else if Trial(rom, i, j).Panic? {
      assert Trial(rom, i as u32, j as u32).Panic? && MissesBetween(rom, i, j, i as u32, j as u32);
    } else {
      FailsOnPanic(rom, i, j + 1);
      var p: u32, q: u32 :| p < RANGE && q < RANGE && !Before(p, q, i, j + 1) && Trial(rom, p, q).Panic?
                            && MissesBetween(rom, i, j + 1, p, q);
      MissesFromNextVerb(rom, i, j, p, q);
    }
  }

  /** One trial of the loop in `main`: `clear_memory`, `set_program_code(1, [noun, verb])`,
      `run`, then `read_pos(0).unwrap()`. */
  method RunTrial(cpu: IntCodeParser, noun: u32, verb: u32) returns (cell0: u32)
    requires cpu.ip == 0 && Trial(cpu.rom, noun, verb).Halted?
    modifies cpu
    ensures cell0 == Trial(old(cpu.rom), noun, verb).memory[0]
    ensures cpu.memory == Trial(old(cpu.rom), noun, verb).memory
    ensures cpu.rom == old(cpu.rom) && cpu.ip == 0
  {
    cpu.ClearMemory();
    cpu.SetProgramCode(PARAMETER_POS, [noun, verb]);
    cpu.Run();
    cell0 := cpu.ReadPos(0).value;
  }

  /** One turn of the inner loop: a trial that hits ends the search there, a trial that
      misses hands it on to the next verb. */
  lemma SearchAdvance(rom: seq<u32>, i: u32, j: u32, cell0: u32)
    requires i < RANGE && j < RANGE && Trial(rom, i, j).Halted? && cell0 == Trial(rom, i, j).memory[0]
    ensures cell0 == TARGET ==> SearchFrom(rom, i, j) == Found(i, j)
    ensures cell0 != TARGET ==> SearchFrom(rom, i, j) == SearchFrom(rom, i, j + 1)
  {
  }

  /** The inner loop running out of verbs hands the search on to the next noun. */
  lemma SearchNextRow(rom: seq<u32>, i: nat)
    requires i < RANGE
    ensures SearchFrom(rom, i, RANGE) == SearchFrom(rom, i + 1, 0)
  {
  }

  /** The nested loops of `main` on a parser whose ROM is loaded and whose ip is 0. */
  method SearchLoop(cpu: IntCodeParser, ghost rom: seq<u32>) returns (answer: Option<nat>)
    requires cpu.rom == rom && cpu.ip == 0 && !SearchFrom(rom, 0, 0).Fails?
    modifies cpu
    ensures cpu.rom == rom && cpu.ip == 0
    ensures answer.Some? <==> SearchFrom(rom, 0, 0).Found?
    ensures answer.Some? ==>
              answer.value == 100 * SearchFrom(rom, 0, 0).noun + SearchFrom(rom, 0, 0).verb
  {
    ghost var overall := SearchFrom(rom, 0, 0);
    for i: u32 := 0 to RANGE
      invariant cpu.rom == rom && cpu.ip == 0
      invariant SearchFrom(rom, i, 0) == overall
    {
      for j: u32 := 0 to RANGE
        invariant cpu.rom == rom && cpu.ip == 0
        invariant SearchFrom(rom, i, j) == overall
      {
        var cell0 := RunTrial(cpu, i, j);
        SearchAdvance(rom, i, j, cell0);
        if cell0 == TARGET {
          answer := Some(100 * i + j);
          return;
        }
      }
      SearchNextRow(rom, i);
    }
    answer := None;
  }

  /** The warm-up of `main`: `set_program_code(1, [12, 2])` then `run`, its result unused. */
  method WarmUp(cpu: IntCodeParser)
    requires cpu.Valid() && Execution(Patch(cpu.memory, PARAMETER_POS, [12, 2]), cpu.ip).Halted?
    modifies cpu
    ensures cpu.Valid()
    ensures cpu.rom == old(cpu.rom) && cpu.ip == 0
    ensures cpu.memory == Execution(Patch(old(cpu.memory), PARAMETER_POS, [12, 2]), old(cpu.ip)).memory
  {
    cpu.SetProgramCode(PARAMETER_POS, [12, 2]);
    cpu.Run();
  }

  /** `main` from the loaded program on: a warm-up run with noun 12 and verb 2 whose result is
      not used, then the search. The answer it prints is 100 * noun + verb of the first pair
      that hits, if any. A panic of the warm-up run, or of any trial up to the first hit, is
      excluded by the two requires. */
  method Search(program: seq<u32>) returns (answer: Option<nat>)
    requires Execution(Patch(program, PARAMETER_POS, [12, 2]), 0).Halted?
    requires !SearchFrom(program, 0, 0).Fails?
    ensures answer.Some? <==> SearchFrom(program, 0, 0).Found?
    ensures answer.Some? ==>
              answer.value == 100 * SearchFrom(program, 0, 0).noun + SearchFrom(program, 0, 0).verb
  {
    var cpu := new IntCodeParser();
    cpu.LoadProgram(program);
    assert cpu.memory == program;
    WarmUp(cpu);
    answer := SearchLoop(cpu, program);
  }
}
