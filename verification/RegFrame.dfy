/** The stack frame of a trace (lj_asm.c, lj_target_x86.h): which slots its code names, what memory
    it leaves alone, and that it does not matter where the frame is. */
module RegFrame {
  import opened RegMachine

  /** Slots of the interpreter's frame that a trace may use, with 64 bit references. */
  const SPS_FIXED: nat := 2

  /** asm_stack_adjust, in slots: room for slots below even is made in steps of 16 bytes. */
  function StackAdjust(even: nat): nat {
    if even <= SPS_FIXED then 0 else (even - SPS_FIXED + 3) / 4 * 4
  }

  lemma FrameFits(even: nat)
    ensures even <= SPS_FIXED + StackAdjust(even) && StackAdjust(even) % 4 == 0
    ensures even > SPS_FIXED ==> SPS_FIXED + StackAdjust(even) < even + 4
  {
  }

  /** The end of the slots an instruction names. */
  function Reach(i: MIns): nat {
    match i
    case Reload(_, slot, wide) => slot + if wide then 2 else 1
    case Spill(_, slot, wide) => slot + if wide then 2 else 1
    case Arith2(_, _, S(slot, wide)) => slot + if wide then 2 else 1
    case _ => 0
  }

  /** Every slot the code names is below even, and it does not move the stack pointer. */
  ghost predicate InFrame(code: seq<MIns>, even: nat) {
    forall k {:trigger code[k]} :: 0 <= k < |code| ==> Reach(code[k]) <= even && !code[k].SpSub?
  }

  lemma FrameMore(code: seq<MIns>, i: MIns, even: nat)
    requires InFrame(code, even) && Reach(i) <= even && !i.SpSub?
    ensures InFrame([i] + code, even)
  {
  }

  lemma FrameGrows(code: seq<MIns>, even: nat, even': nat)
    requires InFrame(code, even) && even <= even'
    ensures InFrame(code, even')
  {
  }

  // ---- memory ------------------------------------------------------------------------------

  /** Memory outside of the addresses from lo to hi is the same. */
  ghost predicate SameOutside(m: map<int, Half>, m': map<int, Half>, lo: int, hi: int) {
    forall a {:trigger a in m} {:trigger a in m'} :: !(lo <= a < hi) ==> (a in m <==> a in m') && (a in m ==> m'[a] == m[a])
  }

  lemma MoreOutside(m: map<int, Half>, m': map<int, Half>, lo: int, hi: int, hi': int)
    requires SameOutside(m, m', lo, hi) && hi <= hi'
    ensures SameOutside(m, m', lo, hi')
  {
  }

  /** Code stores inside its frame only. */
  lemma {:induction false} StaysInside(w: World, m: Machine, code: seq<MIns>, even: nat)
    requires InFrame(code, even)
    ensures Run(w, m, code).sp == m.sp && SameOutside(m.mem, Run(w, m, code).mem, m.sp, m.sp + even)
    decreases |code|
  {
    if code != [] {
      var m' := Step(w, m, code[0]);
      StepInside(w, m, code[0], even);
      assert InFrame(code[1..], even);
      StaysInside(w, m', code[1..], even);
    }
  }

  lemma StepInside(w: World, m: Machine, i: MIns, even: nat)
    requires Reach(i) <= even && !i.SpSub?
    ensures Step(w, m, i).sp == m.sp && SameOutside(m.mem, Step(w, m, i).mem, m.sp, m.sp + even)
  {
  }

  // ---- heads ---------------------------------------------------------------------------------

  /** An instruction of the head of a side trace, before the frame is adjusted: a move, or a load
      from the slots below end of the parent. */
  predicate HeadIns(i: MIns, end: nat) { i.Mov? || (i.Reload? && Reach(i) <= end) }

  /** The code is the body with such instructions in front. */
  ghost predicate HeadCode(code: seq<MIns>, body: seq<MIns>, end: nat) {
    && |body| <= |code| && code[|code| - |body|..] == body
    && forall k {:trigger code[k]} :: 0 <= k < |code| - |body| ==> HeadIns(code[k], end)
  }

  lemma HeadNone(body: seq<MIns>, end: nat)
    ensures HeadCode(body, body, end)
  {
    assert body[0..] == body;
  }

  lemma HeadMore(code: seq<MIns>, i: MIns, body: seq<MIns>, end: nat)
    requires HeadCode(code, body, end) && HeadIns(i, end)
    ensures HeadCode([i] + code, body, end)
  {
    var code' := [i] + code;
    assert code'[|code'| - |body|..] == code[|code| - |body|..];
  }

  /** A trace adjusts the stack pointer once. Before that it loads at most from slots below end;
      after it, all slots it names are below even. */
  ghost predicate Framed(code: seq<MIns>, adj: nat, even: nat, end: nat) {
    exists body :: HeadCode(code, [SpSub(adj)] + body, end) && InFrame(body, even)
  }

  /** Such a trace stores inside its frame only. */
  lemma FramedInside(w: World, m: Machine, code: seq<MIns>, adj: nat, even: nat, end: nat)
    requires Framed(code, adj, even, end)
    ensures Run(w, m, code).sp == m.sp - adj && SameOutside(m.mem, Run(w, m, code).mem, m.sp - adj, m.sp - adj + even)
  {
    var body :| HeadCode(code, [SpSub(adj)] + body, end) && InFrame(body, even);
    HeadInside(w, m, code, adj, body, even, end);
  }

  lemma {:induction false} HeadInside(w: World, m: Machine, code: seq<MIns>, adj: nat, body: seq<MIns>, even: nat, end: nat)
    requires HeadCode(code, [SpSub(adj)] + body, end) && InFrame(body, even)
    ensures Run(w, m, code).sp == m.sp - adj && SameOutside(m.mem, Run(w, m, code).mem, m.sp - adj, m.sp - adj + even)
    decreases |code|
  {
    var all := [SpSub(adj)] + body;
    if |code| == |all| {
      assert code == code[0..] == all && code[1..] == body;
      StaysInside(w, Step(w, m, code[0]), body, even);
    } else {
      assert HeadIns(code[0], end) && code[1..][|code[1..]| - |all|..] == all;
      HeadInside(w, Step(w, m, code[0]), code[1..], adj, body, even, end);
    }
  }

  // ---- the place of the frame ----------------------------------------------------------------

  ghost predicate MovedAt(m: map<int, Half>, m': map<int, Half>, n: int, a: int) {
    (a in m <==> a + n in m') && (a in m ==> m'[a + n] == m[a])
  }

  /** The same machine with its stack n slots higher. */
  ghost predicate Shifted(m: Machine, m': Machine, n: int) {
    && m'.sp == m.sp + n && m'.reg == m.reg && m'.out == m.out
    && forall a {:trigger MovedAt(m.mem, m'.mem, n, a)} :: MovedAt(m.mem, m'.mem, n, a)
  }

  ghost function MovedMem(mem: map<int, Half>, n: int): map<int, Half> {
    map a | a in mem :: a + n := mem[a]
  }

  lemma ShiftedBy(m: Machine, n: int)
    ensures Shifted(m, m.(sp := m.sp + n, mem := MovedMem(m.mem, n)), n)
  {
    hide MovedMem;
    forall a ensures MovedAt(m.mem, MovedMem(m.mem, n), n, a) {
      MovedIs(m.mem, n, a);
    }
  }

  lemma MovedIs(mem: map<int, Half>, n: int, a: int)
    ensures MovedAt(mem, MovedMem(mem, n), n, a)
  {
    var r := MovedMem(mem, n);
    if a in mem {
      assert a + n in r;
    }
  }

  lemma ShiftPeek(m: Machine, m': Machine, n: int, slot: nat, wide: bool, v: int)
    requires Shifted(m, m', n)
    ensures Peek(m', slot, wide) == Peek(m, slot, wide)
    ensures Holds(m', slot, wide, v) <==> Holds(m, slot, wide, v)
  {
    assert MovedAt(m.mem, m'.mem, n, m.sp + slot) && MovedAt(m.mem, m'.mem, n, m.sp + slot + 1);
  }

  lemma ShiftPoke(m: Machine, m': Machine, n: int, slot: nat, wide: bool, v: int)
    requires Shifted(m, m', n)
    ensures Shifted(Poke(m, slot, wide, v), Poke(m', slot, wide, v), n)
  {
    var x, x' := Poke(m, slot, wide, v), Poke(m', slot, wide, v);
    forall a ensures MovedAt(x.mem, x'.mem, n, a) {
      assert MovedAt(m.mem, m'.mem, n, a);
    }
  }

  lemma ShiftStep(w: World, m: Machine, m': Machine, n: int, i: MIns)
    requires Shifted(m, m', n)
    ensures Shifted(Step(w, m, i), Step(w, m', i), n)
  {
    hide Peek, Poke, MovedAt;
    match i
    case Reload(_, slot, wide) => ShiftPeek(m, m', n, slot, wide, 0);
    case Spill(s, slot, wide) => ShiftPoke(m, m', n, slot, wide, Get(m, s));
    case Arith2(_, _, S(slot, wide)) => ShiftPeek(m, m', n, slot, wide, 0);
    case CallFn(_, fps, _) => assert GetAll(m, ArgPlaces(fps)) == GetAll(m', ArgPlaces(fps));
    case _ =>
  }

  /** Code does the same wherever the stack is. */
  lemma {:induction false} ShiftRun(w: World, m: Machine, m': Machine, n: int, code: seq<MIns>)
    requires Shifted(m, m', n)
    ensures Shifted(Run(w, m, code), Run(w, m', code), n)
    decreases |code|
  {
    hide Shifted, Step;
    if code != [] {
      ShiftStep(w, m, m', n, code[0]);
      ShiftRun(w, Step(w, m, code[0]), Step(w, m', code[0]), n, code[1..]);
    }
  }
}
