/** The two languages of the back end (lj_asm.c, lj_target_x86.h): SSA instructions of a
    trace, with their meaning, and the machine instructions emitted for them. */
module RegMachine {
  type Reg = nat
  type Ref = nat

  // ---- registers of the x64 target -----------------------------------------------

  predicate IsFpr(r: Reg) { 16 <= r < 32 }

  /** All general-purpose registers but ESP and the dispatch register R14D. */
  predicate IsGpr(r: Reg) { r < 16 && r != 4 && r != 14 }

  predicate IsReg(r: Reg) { IsGpr(r) || IsFpr(r) }

  const RSET_GPR: set<Reg> := set r: Reg | 0 <= r < 16 && IsGpr(r)
  const RSET_FPR: set<Reg> := set r: Reg | 0 <= r < 32 && IsFpr(r)
  const RSET_ALL: set<Reg> := RSET_GPR + RSET_FPR

  /** EAX, ECX, EDX, ESI to R11D, and all floating-point registers. */
  predicate IsScratch(r: Reg) { r < 3 || 6 <= r <= 11 || IsFpr(r) }

  const RSET_SCRATCH: set<Reg> := set r: Reg | 0 <= r < 32 && IsScratch(r)
  const RID_RET: Reg := 0
  const RID_BASE: Reg := 2
  const RID_FPRET: Reg := 16

  // ---- the trace -------------------------------------------------------------------

  const REF_TRUE: Ref := 0x7FFD
  const REF_BASE: Ref := 0x8000

  /** What the allocator looks at in an IR type: floating point, 64 bit, used by a PHI. */
  datatype Type = Type(fp: bool, wide: bool, phi: bool)

  datatype Ins =
    | Const(k: int, t: Type)
    | Base
    | Arith(op: nat, op1: Ref, op2: Ref, t: Type)
    | Sload(slot: int, t: Type)
    | Parent(t: Type)
    | Store(op: nat, op1: Ref, op2: Ref)
    | Call(fn: nat, args: seq<Ref>, t: Type)

  datatype Event = Stored(op: nat, a: int, b: int) | Called(fn: nat, args: seq<int>)

  /** What the trace computes with but does not decide: arithmetic, the Lua stack, the
      results of calls and what they leave in scratch registers, the parent's values. */
  datatype World = World(arith: (nat, int, int) -> int, stack: (int, int) -> int, result: (nat, seq<int>, nat) -> int,
                         junk: (Reg, nat) -> int, parent: Ref -> int, base: int)

  /** irm_iscomm: the operations whose operands may be swapped. */
  predicate IsComm(op: nat) { op % 2 == 0 }

  ghost predicate WorldOk(w: World) {
    forall op: nat, a, b {:trigger w.arith(op, a, b)} :: IsComm(op) ==> w.arith(op, a, b) == w.arith(op, b, a)
  }

  type Prog = map<Ref, Ins>

  predicate HasValue(i: Ins) { !i.Store? }

  function TypeOf(p: Prog, n: Ref): Type {
    if n in p && !p[n].Base? && !p[n].Store? then p[n].t else Type(false, true, false)
  }

  predicate SideEffect(i: Ins) { i.Store? || i.Call? }

  /** Operand n of instruction at: an earlier value of the given register class. */
  predicate Operand(p: Prog, at: Ref, n: Ref, fp: bool) {
    n in p && n < at && HasValue(p[n]) && TypeOf(p, n).fp == fp
  }

  /** How many of the first i arguments are floating-point numbers. */
  function FpArgs(p: Prog, args: seq<Ref>, i: nat): (k: nat)
    requires i <= |args|
    ensures k <= i
  {
    if i == 0 then 0 else FpArgs(p, args, i - 1) + if TypeOf(p, args[i - 1]).fp then 1 else 0
  }

  /** All arguments go to registers. */
  predicate ArgsFit(p: Prog, args: seq<Ref>) {
    FpArgs(p, args, |args|) <= 8 && |args| - FpArgs(p, args, |args|) <= 6
  }

  ghost predicate ProgOk(p: Prog) {
    && REF_BASE in p && p[REF_BASE] == Base
    && forall n {:trigger p[n]} :: n in p ==>
         && n < 0xFFFF && (n < REF_TRUE <==> p[n].Const?) && (n == REF_BASE <==> p[n].Base?) && (n < REF_TRUE || n >= REF_BASE)
         && (p[n].Arith? ==> Operand(p, n, p[n].op1, p[n].t.fp) && Operand(p, n, p[n].op2, p[n].t.fp))
         && (p[n].Store? ==> Operand(p, n, p[n].op1, false) && p[n].op2 in p && p[n].op2 < n && HasValue(p[p[n].op2]))
         && (p[n].Call? ==> ArgsFit(p, p[n].args) && forall i {:trigger p[n].args[i]} :: 0 <= i < |p[n].args| ==>
               p[n].args[i] in p && p[n].args[i] < n && HasValue(p[p[n].args[i]]))
  }

  /** The value of instruction n. */
  ghost function Val(p: Prog, w: World, n: Ref): int
    decreases n, 1
  {
    if n !in p then 0 else
      match p[n]
      case Const(k, _) => k
      case Base => w.base
      case Arith(op, a, b, _) => if a < n && b < n then w.arith(op, Val(p, w, a), Val(p, w, b)) else 0
      case Sload(slot, _) => w.stack(w.base, slot)
      case Parent(_) => w.parent(n)
      case Store(_, _, _) => 0
      case Call(fn, args, _) => w.result(fn, Vals(p, w, n, args), |Out(p, w, n)|)
  }

  ghost function Vals(p: Prog, w: World, n: Ref, args: seq<Ref>): seq<int>
    decreases n, 0
  {
    seq(|args|, i requires 0 <= i < |args| => if args[i] < n then Val(p, w, args[i]) else 0)
  }

  ghost function Effect(p: Prog, w: World, n: Ref): seq<Event>
    decreases n, 1
  {
    if n !in p then [] else
      match p[n]
      case Store(op, a, b) => if a < n && b < n then [Stored(op, Val(p, w, a), Val(p, w, b))] else []
      case Call(fn, args, _) => [Called(fn, Vals(p, w, n, args))]
      case _ => []
  }

  /** The effects of the instructions below n, in order. */
  ghost function Out(p: Prog, w: World, n: Ref): seq<Event>
    decreases n, 0
  {
    if n == 0 then [] else Out(p, w, n - 1) + Effect(p, w, n - 1)
  }

  // ---- the machine -------------------------------------------------------------------

  /** A 32 bit spill slot: a short value, or half of a long one. */
  datatype Half = Word(v: int) | Low(v: int) | High(v: int)

  datatype Machine = Machine(reg: map<Reg, int>, mem: map<int, Half>, sp: int, out: seq<Event>)

  datatype Source = R(r: Reg) | K(k: int) | S(slot: nat, wide: bool) | G

  datatype MIns =
    | Mov(d: Reg, s: Reg)
    | LoadK(d: Reg, k: int)
    | LoadBase(d: Reg)
    | Reload(d: Reg, slot: nat, wide: bool)
    | Spill(s: Reg, slot: nat, wide: bool)
    | Arith2(op: nat, d: Reg, src: Source)
    | LoadStack(d: Reg, b: Reg, ofs: int)
    | StoreTo(op: nat, a: Reg, b: Reg)
    | CallFn(fn: nat, fps: seq<bool>, fp: bool)
    | SpSub(n: int)

  function Get(m: Machine, r: Reg): int {
    if r in m.reg then m.reg[r] else 0
  }

  function Set(m: Machine, r: Reg, v: int): Machine {
    m.(reg := m.reg[r := v])
  }

  /** Slot number slot holds v. */
  predicate Holds(m: Machine, slot: nat, wide: bool, v: int) {
    var a := m.sp + slot;
    if wide then a in m.mem && m.mem[a] == Low(v) && a + 1 in m.mem && m.mem[a + 1] == High(v)
    else a in m.mem && m.mem[a] == Word(v)
  }

  function Peek(m: Machine, slot: nat, wide: bool): int {
    var a := m.sp + slot;
    if a !in m.mem then 0
    else if wide then (if a + 1 in m.mem && m.mem[a].Low? && m.mem[a + 1] == High(m.mem[a].v) then m.mem[a].v else 0)
    else if m.mem[a].Word? then m.mem[a].v else 0
  }

  function Poke(m: Machine, slot: nat, wide: bool, v: int): Machine {
    var a := m.sp + slot;
    m.(mem := if wide then m.mem[a := Low(v)][a + 1 := High(v)] else m.mem[a := Word(v)])
  }

  function Fetch(w: World, m: Machine, src: Source): int {
    match src
    case R(r) => Get(m, r)
    case K(k) => k
    case S(slot, wide) => Peek(m, slot, wide)
    case G => w.base
  }

  // ---- calls: section 3.2.3 of the AMD64 System V ABI --------------------------------------

  /** How many of the first i arguments are floating point. */
  function Floats(fps: seq<bool>, i: nat): (k: nat)
    requires i <= |fps|
    ensures k <= i
  {
    if i == 0 then 0 else Floats(fps, i - 1) + if fps[i - 1] then 1 else 0
  }

  /** Where a C function looks for argument i, when fps says which arguments are floating point: in
      order of appearance, the floating-point ones are in XMM0 to XMM7, and the others in EDI, ESI,
      EDX, ECX, R8D and R9D. 32, which is no register, stands for the stack. */
  function ArgPlace(fps: seq<bool>, i: nat): Reg
    requires i < |fps|
  {
    var k := Floats(fps, i);
    if fps[i] then (if k < 8 then 16 + k else 32)
    else match i - k
      case 0 => 7
      case 1 => 6
      case 2 => 2
      case 3 => 1
      case 4 => 8
      case 5 => 9
      case _ => 32
  }

  function ArgPlaces(fps: seq<bool>): seq<Reg> {
    seq(|fps|, i requires 0 <= i < |fps| => ArgPlace(fps, i))
  }

  /** Where it leaves its result: XMM0 or EAX. */
  function RetPlace(fp: bool): Reg { if fp then 16 else 0 }

  /** EBX, ESP, EBP and R12D to R15D belong to the caller. */
  predicate CalleeSaved(r: Reg) { 3 <= r <= 5 || 12 <= r <= 15 }

  function GetAll(m: Machine, rs: seq<Reg>): seq<int> {
    seq(|rs|, i requires 0 <= i < |rs| => Get(m, rs[i]))
  }

  /** What the function leaves behind. */
  function AfterCall(w: World, m: Machine, fn: nat, fps: seq<bool>, fp: bool): Machine {
    var vs := GetAll(m, ArgPlaces(fps));
    Machine(map r | r in m.reg.Keys + RSET_ALL ::
              if r == RetPlace(fp) then w.result(fn, vs, |m.out|) else if CalleeSaved(r) then Get(m, r) else w.junk(r, |m.out|),
            m.mem, m.sp, m.out + [Called(fn, vs)])
  }

  function Step(w: World, m: Machine, i: MIns): Machine {
    match i
    case Mov(d, s) => Set(m, d, Get(m, s))
    case LoadK(d, k) => Set(m, d, k)
    case LoadBase(d) => Set(m, d, w.base)
    case Reload(d, slot, wide) => Set(m, d, Peek(m, slot, wide))
    case Spill(s, slot, wide) => Poke(m, slot, wide, Get(m, s))
    case Arith2(op, d, src) => Set(m, d, w.arith(op, Get(m, d), Fetch(w, m, src)))
    case LoadStack(d, b, ofs) => Set(m, d, w.stack(Get(m, b), ofs))
    case StoreTo(op, a, b) => m.(out := m.out + [Stored(op, Get(m, a), Get(m, b))])
    case CallFn(fn, fps, fp) => AfterCall(w, m, fn, fps, fp)
    case SpSub(n) => m.(sp := m.sp - n)
  }

  function Run(w: World, m: Machine, code: seq<MIns>): Machine
    decreases |code|
  {
    if code == [] then m else Run(w, Step(w, m, code[0]), code[1..])
  }
}
