/** The fetch-execute loop: a processor whose state every instruction overwrites. */
module Processors {
  import opened Machine

  class Processor {
    const code: seq<Instr>
    const mark: nat

    var cpu: Cpu
    var meter: Meter

    constructor (code: seq<Instr>, mark: nat, cpu: Cpu, meter: Meter)
      ensures this.code == code && this.mark == mark && this.cpu == cpu && this.meter == meter
    {
      this.code, this.mark, this.cpu, this.meter := code, mark, cpu, meter;
    }

    /** One instruction; ok is false, and nothing changes, if it faults. */
    method StepOnce() returns (ok: bool)
      modifies this
      ensures ok == Step(code, old(cpu)).Next?
      ensures ok ==> cpu == Step(code, old(cpu)).cpu && meter == Tally(code, mark, old(cpu), old(meter))
      ensures !ok ==> cpu == old(cpu) && meter == old(meter)
    {
      match Step(code, cpu)
      case Fault => ok := false;
      case Next(next) =>
        meter := Tally(code, mark, cpu, meter);
        cpu := next;
        ok := true;
    }

    /** Runs to the end of the program; k is the number of instructions that takes. */
    method Run(ghost k: nat)
      requires RunFor(code, mark, cpu, meter, k).Ran?
      requires RunFor(code, mark, cpu, meter, k).cpu.pc == |code|
      modifies this
      ensures Ran(cpu, meter) == RunFor(code, mark, old(cpu), old(meter), k)
    {
      hide Tally, Step, Exec;
      ghost var left := k;
      while cpu.pc < |code|
        invariant RunFor(code, mark, cpu, meter, left) == RunFor(code, mark, old(cpu), old(meter), k)
        decreases left
      {
        var ok := StepOnce();
        left := left - 1;
      }
      AtEnd(code, mark, cpu, meter, left);
    }
  }

  /** Past the last instruction a run makes no more steps. */
  lemma AtEnd(code: seq<Instr>, mark: nat, c: Cpu, m: Meter, n: nat)
    requires c.pc >= |code| && RunFor(code, mark, c, m, n).Ran?
    ensures n == 0
  {
  }
}
