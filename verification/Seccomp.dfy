/**
 The syscall filter of `internal/container/seccomp_linux.go`: a compiler from a
 block list to classic BPF, and an interpreter for the three opcodes it emits.
 */
module Seccomp {
  import opened Wrappers

  newtype uint8 = x: int | 0 <= x < 0x100
  newtype uint16 = x: int | 0 <= x < 0x1_0000
  newtype uint32 = x: int | 0 <= x < 0x1_0000_0000

  // What the program writes. The kernel's reading of these numbers is in `Load`, `Run` and `WellFormed`.

  const RET_ALLOW: uint32 := 0x7fff_0000
  const RET_KILL: uint32 := 0x8000_0000

  const LD_W_ABS: uint16 := 0x20
  const JMP_JEQ_K: uint16 := 0x15
  const RET_K: uint16 := 0x06

  const DATA_NR: uint32 := 0
  const DATA_ARCH: uint32 := 4

  datatype Insn = Insn(code: uint16, jt: uint8, jf: uint8, k: uint32)

  /** The words of the record a filter inspects: number, architecture, the rest. */
  datatype SeccompData = SeccompData(nr: uint32, arch: uint32, rest: seq<uint32>)

  const DATA_WORDS: nat := 16

  function Load(d: SeccompData, offset: uint32): Option<uint32> {
    if offset == 0 then Some(d.nr)
    else if offset == 4 then Some(d.arch)
    else
      var i := offset as int / 4 - 2;
      if offset as int % 4 == 0 && 0 <= i < |d.rest| then Some(d.rest[i]) else None
  }

  /**
   Runs a program; None when it leaves the program, loads out of bounds or meets
   an unknown opcode. Jumps only go forward, so every run halts.
   */
  function Run(prog: seq<Insn>, d: SeccompData, pc: nat, acc: uint32): Option<uint32>
    decreases |prog| - pc
  {
    if pc >= |prog| then None
    else
      var insn := prog[pc];
      if insn.code == 0x06 then Some(insn.k)
      else if insn.code == 0x20 then
        match Load(d, insn.k)
        case None => None
        case Some(word) => Run(prog, d, pc + 1, word)
      else if insn.code == 0x15 then
        Run(prog, d, pc + 1 + (if acc == insn.k then insn.jt else insn.jf) as nat, acc)
      else None
  }

  /** The verdicts as the kernel knows them. */
  datatype Verdict = KillProcess | Allow | OtherAction

  function VerdictOf(ret: uint32): Verdict {
    if ret == 0x8000_0000 then KillProcess else if ret == 0x7fff_0000 then Allow else OtherAction
  }

  function Decision(prog: seq<Insn>, d: SeccompData): Option<Verdict> {
    match Run(prog, d, 0, 0) case None => None case Some(ret) => Some(VerdictOf(ret))
  }

  /** What the kernel requires of a program before it is installed. */
  predicate WellFormed(prog: seq<Insn>) {
    && prog != [] && prog[|prog| - 1].code == 0x06
    && forall pc | 0 <= pc < |prog| ::
         var insn := prog[pc];
         || insn.code == 0x06
         || (insn.code == 0x20 && insn.k as int % 4 == 0 && insn.k as int < 4 * DATA_WORDS)
         || (insn.code == 0x15 && pc + 1 + insn.jt as int < |prog| && pc + 1 + insn.jf as int < |prog|)
  }

  predicate IsCheck(prog: seq<Insn>, at: nat, nr: uint32) {
    && at + 1 < |prog|
    && prog[at] == Insn(JMP_JEQ_K, 0, 1, nr)
    && prog[at + 1] == Insn(RET_K, 0, 0, RET_KILL)
  }

  predicate IsFilter(prog: seq<Insn>, blocked: seq<uint32>, auditArch: uint32) {
    && |prog| == 2 * |blocked| + 5
    && prog[..4] == [
         Insn(LD_W_ABS, 0, 0, DATA_ARCH),
         Insn(JMP_JEQ_K, 1, 0, auditArch),
         Insn(RET_K, 0, 0, RET_KILL),
         Insn(LD_W_ABS, 0, 0, DATA_NR)
       ]
    && (forall i | 0 <= i < |blocked| :: IsCheck(prog, 4 + 2 * i, blocked[i]))
    && prog[|prog| - 1] == Insn(RET_K, 0, 0, RET_ALLOW)
  }

  /** Before check `i` the program decides whether the rest of the list has `nr`. */
  lemma {:induction false} RunChecks(prog: seq<Insn>, blocked: seq<uint32>, arch: uint32, d: SeccompData, i: nat)
    requires IsFilter(prog, blocked, arch) && i <= |blocked|
    ensures Run(prog, d, 4 + 2 * i, d.nr) == Some(if d.nr in blocked[i..] then RET_KILL else RET_ALLOW)
    decreases |blocked| - i
  {
    var pc := 4 + 2 * i;
    if i < |blocked| {
      assert IsCheck(prog, pc, blocked[i]);
      assert blocked[i..] == [blocked[i]] + blocked[i + 1..];
      RunChecks(prog, blocked, arch, d, i + 1);
    } else {
      assert pc == |prog| - 1;
    }
  }

  /** The filter kills exactly foreign-architecture calls and blocked numbers. */
  lemma FilterDecides(prog: seq<Insn>, blocked: seq<uint32>, auditArch: uint32, d: SeccompData)
    requires IsFilter(prog, blocked, auditArch)
    ensures Decision(prog, d) == Some(if d.arch != auditArch || d.nr in blocked then KillProcess else Allow)
  {
    assert prog[0] == prog[..4][0] && prog[1] == prog[..4][1] && prog[2] == prog[..4][2] && prog[3] == prog[..4][3];
    RunChecks(prog, blocked, auditArch, d, 0);
    assert blocked[0..] == blocked;
    if d.arch == auditArch {
      assert Run(prog, d, 3, d.arch) == Run(prog, d, 4, d.nr);
      assert Run(prog, d, 1, d.arch) == Run(prog, d, 3, d.arch);
    } else {
      assert Run(prog, d, 1, d.arch) == Run(prog, d, 2, d.arch);
    }
    assert Run(prog, d, 0, 0) == Run(prog, d, 1, d.arch);
  }

  lemma FilterWellFormed(prog: seq<Insn>, blocked: seq<uint32>, auditArch: uint32)
    requires IsFilter(prog, blocked, auditArch)
    ensures WellFormed(prog)
  {
    forall pc | 0 <= pc < |prog|
      ensures prog[pc].code == 0x06
           || (prog[pc].code == 0x20 && prog[pc].k as int % 4 == 0 && prog[pc].k as int < 4 * DATA_WORDS)
           || (prog[pc].code == 0x15 && pc + 1 + prog[pc].jt as int < |prog|
               && pc + 1 + prog[pc].jf as int < |prog|)
    {
      if pc < 4 {
        assert prog[pc] == prog[..4][pc];
      } else if pc < |prog| - 1 {
        assert IsCheck(prog, 4 + 2 * ((pc - 4) / 2), blocked[(pc - 4) / 2]);
      }
    }
  }

  /**
   For every block list the generated program is acceptable to the kernel, halts
   within its bounds, and kills exactly the calls it is meant to kill.
   */
  method BuildFilter(blocked: seq<uint32>, auditArch: uint32) returns (prog: seq<Insn>)
    ensures |prog| == 2 * |blocked| + 5
    ensures WellFormed(prog)
    ensures forall d: SeccompData ::
              Decision(prog, d) == Some(if d.arch != auditArch || d.nr in blocked then KillProcess else Allow)
  {
    prog := [
      Insn(LD_W_ABS, 0, 0, DATA_ARCH),
      Insn(JMP_JEQ_K, 1, 0, auditArch),
      Insn(RET_K, 0, 0, RET_KILL),
      Insn(LD_W_ABS, 0, 0, DATA_NR)
    ];
    ghost var prologue := prog;
    for i := 0 to |blocked|
      invariant |prog| == 2 * i + 4
      invariant prog[..4] == prologue
      invariant forall j | 0 <= j < i :: IsCheck(prog, 4 + 2 * j, blocked[j])
    {
      prog := prog + [
        Insn(JMP_JEQ_K, 0, 1, blocked[i]),
        Insn(RET_K, 0, 0, RET_KILL)
      ];
    }
    prog := prog + [Insn(RET_K, 0, 0, RET_ALLOW)];
    assert IsFilter(prog, blocked, auditArch);
    FilterWellFormed(prog, blocked, auditArch);
    forall d: SeccompData
      ensures Decision(prog, d) == Some(if d.arch != auditArch || d.nr in blocked then KillProcess else Allow)
    {
      FilterDecides(prog, blocked, auditArch, d);
    }
  }
}
