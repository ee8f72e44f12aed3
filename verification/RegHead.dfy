/** The head of a side trace (lj_asm.c, asm_head_side): the values of the parent trace are
    moved from where the parent left them to where this trace expects them. */
module RegHead {
  import opened RegFrame
  import opened RegMachine
  import opened RegState
  import opened RegAlloc

  /** Where the parent trace left a value. */
  datatype ParentPlace = PReg(reg: Reg) | PSlot(slot: nat)

  type ParentMap = map<Ref, ParentPlace>

  ghost predicate IsParent(stop: Ref, n: Ref) { REF_BASE < n <= stop }

  /** Distinct values come in distinct registers, none of them in that of the base. */
  ghost predicate ParentsOk(p: Prog, pm: ParentMap, base: Place, stop: Ref) {
    && (forall n {:trigger n in pm} :: IsParent(stop, n) ==>
          && n in p && p[n].Parent? && n in pm
          && match pm[n]
             case PReg(x) => IsReg(x) && IsFpr(x) == TypeOf(p, n).fp && base != InReg(x)
             case PSlot(s) => s != 0)
    && (forall n, k {:trigger pm[n], pm[k]} :: IsParent(stop, n) && IsParent(stop, k) && n in pm && k in pm && n != k && pm[n].PReg? ==> pm[n] != pm[k])
    && (base.InReg? ==> IsGpr(base.reg))
  }

  /** Register q of the parent holds v: the base, or the value of an instruction above i. */
  ghost predicate ParentHas(p: Prog, w: World, pm: ParentMap, base: Place, stop: Ref, i: Ref, q: Reg, v: int) {
    || (base == InReg(q) && v == w.base)
    || exists n :: IsParent(stop, n) && i < n && n in pm && pm[n] == PReg(q) && v == Val(p, w, n)
  }

  ghost predicate FromParent(p: Prog, w: World, pm: ParentMap, base: Place, stop: Ref, i: Ref, temp: map<Reg, int>) {
    forall q {:trigger q in temp} :: q in temp ==> ParentHas(p, w, pm, base, stop, i, q, temp[q])
  }

  /** The machine as the parent leaves it. */
  ghost predicate ParentState(p: Prog, w: World, pm: ParentMap, base: Place, stop: Ref, sp: int, m: Machine) {
    && m.out == [] && m.sp == sp
    && (base.InReg? ==> base.reg in m.reg && m.reg[base.reg] == w.base)
    && forall n {:trigger n in pm} :: IsParent(stop, n) && n in pm ==>
         match pm[n]
         case PReg(x) => x in m.reg && m.reg[x] == w.parent(n)
         case PSlot(s) => Holds(m, s, TypeOf(p, n).wide, w.parent(n))
  }

  // ---- the shuffle ---------------------------------------------------------------------

  /** live: parent registers whose value still has to get to its target; sload tells whose. */
  ghost predicate Shuffling(p: Prog, w: World, a: Alloc, t: Point, pm: ParentMap, base: Place, stop: Ref,
                            allow: set<Reg>, live: set<Reg>, sload: map<Reg, Ref>)
  {
    && (forall q {:trigger q in allow} :: q in allow ==> IsReg(q) && q !in t.temp)
    && (forall q {:trigger q in a.free} :: IsReg(q) && q !in a.free ==> q in a.cost && Waiting(pm, stop, live, sload, RefOf(a.cost[q])))
    && (forall x {:trigger x in live} :: x in live ==>
          && x in sload && x !in t.temp && Awaited(pm, stop, x, sload[x])
          && sload[x] in a.r && a.r[sload[x]].InReg?)
    && FromParent(p, w, pm, base, stop, REF_BASE, t.temp)
  }

  ghost predicate Waiting(pm: ParentMap, stop: Ref, live: set<Reg>, sload: map<Reg, Ref>, n: Ref) {
    IsParent(stop, n) && n in pm && pm[n].PReg? && pm[n].reg in live && pm[n].reg in sload && sload[pm[n].reg] == n
  }

  ghost predicate Awaited(pm: ParentMap, stop: Ref, x: Reg, n: Ref) {
    IsReg(x) && IsParent(stop, n) && n in pm && pm[n] == PReg(x)
  }

  /** A live register that is free is moved to its target. */
  method Move(st: ASMState, x: Reg, ghost pm: ParentMap, ghost base: Place, stop: Ref, ghost ps: map<Ref, nat>,
              allow: set<Reg>, live: set<Reg>, sload: map<Reg, Ref>)
    requires st.HeadValid(ps) && Shuffling(st.prog, st.world, st.In(ps), st.at, pm, base, stop, allow, live, sload)
    requires x in live && x in st.freeset && st.at.cur == stop + 1 && ParentsOk(st.prog, pm, base, stop)
    modifies st`freeset, st`r, st`mcode, st`at
    ensures st.HeadValid(ps) && st.freeset > old(st.freeset)
    ensures Shuffling(st.prog, st.world, st.In(ps), st.at, pm, base, stop, allow - {x}, live - {x}, sload)
    ensures st.at == old(st.at).(temp := st.at.temp)
  {
    hide SpillCount, InFrame, HeadCode, RegsOk, Good, ProgOk, Cost, Meets, Val;
    var n := sload[x];
    InPlace(st.prog, st.In(ps), st.at.cur, n);
    var target := st.r[n].reg;
    ghost var t, a, code := st.at, st.In(ps), st.mcode;
    MoveGood(st.prog, st.world, st.goal, code, a, t, x, n, target);
    GivenOk(st.prog, a, t.cur, target, n, Hint(target));
    ghost var u := t.(temp := t.temp[x := Val(st.prog, st.world, n)]);
    Moved(st.prog, st.world, a, t, pm, base, stop, allow, live, sload, x, n, target);
    st.freeset := st.freeset + {target};
    st.r := st.r[n := Hint(target)];
    HeadMore(st.mcode, Mov(target, x), st.body, st.slotEnd);
    st.mcode := [Mov(target, x)] + st.mcode;
    st.at := u;
  }

  lemma MoveGood(p: Prog, w: World, goal: seq<Event>, code: seq<MIns>, a: Alloc, t: Point, x: Reg, n: Ref, target: Reg)
    requires Good(p, w, goal, code, a, t) && RegsOk(p, a, t.cur) && TempOk(a, t) && x in a.free && x !in t.temp
    requires IsReg(target) && target !in a.free && target in a.cost && n == RefOf(a.cost[target])
    ensures Good(p, w, goal, [Mov(target, x)] + code, Given(a, target, n, Hint(target)), t.(temp := t.temp[x := Val(p, w, n)]))
  {
    hide Good, RegsOk, Meets, Val, Cost;
    var b := Given(a, target, n, Hint(target));
    var t1, u := t.(temp := t.temp[target := Val(p, w, n)]), t.(temp := t.temp[x := Val(p, w, n)]);
    Coalesce(p, w, goal, code, a, t, target, n, Hint(target));
    forall m | Meets(p, w, b, u, m) ensures Step(w, m, Mov(target, x)) == Set(m, target, t1.temp[target]) {
      TempValue(p, w, b, u, m, x);
    }
    Compute(p, w, goal, code, b, t1, Mov(target, x), target, u);
  }

  lemma Moved(p: Prog, w: World, a: Alloc, t: Point, pm: ParentMap, base: Place, stop: Ref,
              allow: set<Reg>, live: set<Reg>, sload: map<Reg, Ref>, x: Reg, n: Ref, target: Reg)
    requires Shuffling(p, w, a, t, pm, base, stop, allow, live, sload) && x in live && n == sload[x] && ParentsOk(p, pm, base, stop)
    requires target !in a.free && target in a.cost && RefOf(a.cost[target]) == n && a.r[n] == InReg(target)
    requires RegsOk(p, a, stop + 1)
    ensures Shuffling(p, w, Given(a, target, n, Hint(target)), t.(temp := t.temp[x := Val(p, w, n)]), pm, base, stop, allow - {x}, live - {x}, sload)
  {
    hide Val, Cost;
    var b, u, live' := Given(a, target, n, Hint(target)), t.(temp := t.temp[x := Val(p, w, n)]), live - {x};
    forall q | IsReg(q) && q !in b.free ensures q in b.cost && Waiting(pm, stop, live', sload, RefOf(b.cost[q])) {
      assert q !in a.free && Waiting(pm, stop, live, sload, RefOf(a.cost[q]));
      assert OwnerOk(p, a, stop + 1, q);
    }
    forall y | y in live' ensures y in sload && y !in u.temp && Awaited(pm, stop, y, sload[y]) && sload[y] in b.r && b.r[sload[y]].InReg? {
      assert Awaited(pm, stop, y, sload[y]) && Awaited(pm, stop, x, n);
    }
    forall q | q in u.temp ensures ParentHas(p, w, pm, base, stop, REF_BASE, q, u.temp[q]) {
    }
  }

  /** The inner loop: free live registers are moved to their targets as long as there are any. */
  method MoveAll(st: ASMState, ghost pm: ParentMap, ghost base: Place, stop: Ref, ghost ps: map<Ref, nat>,
                 allow0: set<Reg>, live0: set<Reg>, sload: map<Reg, Ref>) returns (allow: set<Reg>, live: set<Reg>)
    requires st.HeadValid(ps) && Shuffling(st.prog, st.world, st.In(ps), st.at, pm, base, stop, allow0, live0, sload)
    requires st.at.cur == stop + 1 && ParentsOk(st.prog, pm, base, stop)
    modifies st`freeset, st`r, st`mcode, st`at
    ensures st.HeadValid(ps) && Shuffling(st.prog, st.world, st.In(ps), st.at, pm, base, stop, allow, live, sload)
    ensures st.at == old(st.at).(temp := st.at.temp) && st.freeset * live == {}
    ensures live <= live0 && (live == live0 ==> st.freeset == old(st.freeset)) && live + (RSET_ALL - allow) <= live0 + (RSET_ALL - allow0)
  {
    hide SpillCount, InFrame, HeadCode, RegsOk, Good, ProgOk, Cost, Shuffling, ParentsOk;
    allow, live := allow0, live0;
    while st.freeset * live != {}
      invariant st.HeadValid(ps) && Shuffling(st.prog, st.world, st.In(ps), st.at, pm, base, stop, allow, live, sload)
      invariant live <= live0 && (live == live0 ==> st.freeset == old(st.freeset)) && live + (RSET_ALL - allow) <= live0 + (RSET_ALL - allow0)
      invariant st.at == old(st.at).(temp := st.at.temp)
      decreases |live|
    {
      LiveRegs(st.prog, st.world, st.In(ps), st.at, pm, base, stop, allow, live, sload);
      var x := ASMState.PickBot(st.freeset * live);
      Move(st, x, pm, base, stop, ps, allow, live, sload);
      live := live - {x};
      allow := allow - {x};
    }
  }

  /** Breaks cycles by renaming one target of each class to a temporary register. */
  method BreakCycles(st: ASMState, ghost pm: ParentMap, ghost base: Place, stop: Ref, ghost ps: map<Ref, nat>,
                     allow: set<Reg>, live: set<Reg>, ghost sload: map<Reg, Ref>) returns (res: Outcome<()>)
    requires st.HeadValid(ps) && Shuffling(st.prog, st.world, st.In(ps), st.at, pm, base, stop, allow, live, sload)
    requires st.at.cur == stop + 1 && st.freeset * live == {} && live != {}
    modifies st`freeset, st`modset, st`cost, st`r, st`mcode
    ensures res.Ok? ==> st.HeadValid(ps) && Shuffling(st.prog, st.world, st.In(ps), st.at, pm, base, stop, allow, live, sload)
    ensures res.Ok? ==> st.freeset * live != {}
    ensures res.Err? ==> res.error == NyiCoal && 14 <= stop - REF_BASE + |live + (RSET_ALL - allow)|
  {
    hide SpillCount, InFrame, HeadCode, RegsOk, Good, ProgOk, Cost, Shuffling;
    LiveRegs(st.prog, st.world, st.In(ps), st.at, pm, base, stop, allow, live, sload);
    assert forall x :: x in live ==> x !in st.freeset * live;
    if live * RSET_GPR != {} {
      var tmpset := (st.freeset - live) * allow * RSET_GPR;
      if tmpset == {} {
        OwnedFew(st.prog, st.world, st.In(ps), st.at, pm, base, stop, allow, live, sload);
        ClassExhausted(st.freeset, live, allow, RSET_GPR, stop - REF_BASE);
        return Err(NyiCoal);
      }
      BreakCycle(st, live * RSET_GPR, tmpset, pm, base, stop, ps, allow, live, sload);
    }
    if live * RSET_FPR != {} {
      var tmpset := (st.freeset - live) * allow * RSET_FPR;
      if tmpset == {} {
        OwnedFew(st.prog, st.world, st.In(ps), st.at, pm, base, stop, allow, live, sload);
        ClassExhausted(st.freeset, live, allow, RSET_FPR, stop - REF_BASE);
        return Err(NyiCoal);
      }
      BreakCycle(st, live * RSET_FPR, tmpset, pm, base, stop, ps, allow, live, sload);
    } else {
      assert forall x :: x in live ==> x in live * RSET_GPR || x in live * RSET_FPR;
    }
    return Ok(());
  }

  /** Shuffles registers to match up target registers with parent registers. */
  method Shuffle(st: ASMState, ghost pm: ParentMap, ghost base: Place, stop: Ref, ghost ps: map<Ref, nat>,
                 allow0: set<Reg>, live0: set<Reg>, sload: map<Reg, Ref>) returns (res: Outcome<()>)
    requires st.HeadValid(ps) && Shuffling(st.prog, st.world, st.In(ps), st.at, pm, base, stop, allow0, live0, sload)
    requires st.at.cur == stop + 1 && ParentsOk(st.prog, pm, base, stop)
    modifies st`freeset, st`modset, st`cost, st`r, st`mcode, st`at
    ensures res.Ok? ==> st.HeadValid(ps) && st.freeset == RSET_ALL && FromParent(st.prog, st.world, pm, base, stop, REF_BASE, st.at.temp)
    ensures st.at == old(st.at).(temp := st.at.temp)
    ensures res.Err? ==> res.error == NyiCoal && 14 <= stop - REF_BASE + |live0| + |RSET_ALL - allow0|
  {
    hide SpillCount, InFrame, HeadCode, RegsOk, Good, ProgOk, Cost, Shuffling, ParentsOk;
    var allow, live := allow0, live0;
    while true
      invariant st.HeadValid(ps) && Shuffling(st.prog, st.world, st.In(ps), st.at, pm, base, stop, allow, live, sload)
      invariant st.at == old(st.at).(temp := st.at.temp) && live + (RSET_ALL - allow) <= live0 + (RSET_ALL - allow0)
      decreases |live|, st.freeset * live == {}
    {
      ghost var before := live;
      allow, live := MoveAll(st, pm, base, stop, ps, allow, live, sload);
      SubsetSize(live, before);
      if live == {} {
        break;
      }
      SubsetSize(live + (RSET_ALL - allow), live0 + (RSET_ALL - allow0));
      var unused :- BreakCycles(st, pm, base, stop, ps, allow, live, sload);
    }
    LiveRegs(st.prog, st.world, st.In(ps), st.at, pm, base, stop, allow, live, sload);
    AllFree(st.prog, st.In(ps), st.at.cur);
    return Ok(());
  }

  /** The target in the lowest register of the given live ones moves to a temporary register. */
  method BreakCycle(st: ASMState, some: set<Reg>, tmpset: set<Reg>, ghost pm: ParentMap, ghost base: Place, stop: Ref, ghost ps: map<Ref, nat>,
                    ghost allow: set<Reg>, ghost live: set<Reg>, ghost sload: map<Reg, Ref>)
    requires st.HeadValid(ps) && Shuffling(st.prog, st.world, st.In(ps), st.at, pm, base, stop, allow, live, sload)
    requires some != {} && some <= live && tmpset != {} && tmpset <= st.freeset && tmpset <= allow && tmpset !! live
    requires st.freeset !! some && st.at.cur == stop + 1
    requires (some <= RSET_GPR && tmpset <= RSET_GPR) || (some <= RSET_FPR && tmpset <= RSET_FPR)
    modifies st`freeset, st`modset, st`cost, st`r, st`mcode
    ensures st.HeadValid(ps) && Shuffling(st.prog, st.world, st.In(ps), st.at, pm, base, stop, allow, live, sload)
    ensures st.freeset * live != {}
    ensures forall q {:trigger q in st.freeset} :: q in live && q !in some ==> (q in st.freeset <==> q in old(st.freeset))
  {
    hide SpillCount, InFrame, HeadCode, RegsOk, Good, ProgOk, Cost, Shuffling;
    LiveRegs(st.prog, st.world, st.In(ps), st.at, pm, base, stop, allow, live, sload);
    var down := ASMState.PickBot(some);
    assert forall x :: x in tmpset ==> x in allow;
    var up := ASMState.PickBot(tmpset);
    assert IsFpr(down) == IsFpr(up);
    OwnReg(st.prog, st.In(ps), st.at.cur, down);
    RenamedShuffle(st.prog, st.world, st.In(ps), st.at, pm, base, stop, allow, live, sload, down, up, RefOf(st.cost[down]));
    st.RaRename(down, up, ps);
    assert down in st.freeset * live;
  }

  lemma RenamedShuffle(p: Prog, w: World, a: Alloc, t: Point, pm: ParentMap, base: Place, stop: Ref,
                       allow: set<Reg>, live: set<Reg>, sload: map<Reg, Ref>, down: Reg, up: Reg, n: Ref)
    requires Shuffling(p, w, a, t, pm, base, stop, allow, live, sload) && IsReg(down) && down !in a.free && up in a.free && up != down
    requires down in a.cost && n == RefOf(a.cost[down])
    ensures Shuffling(p, w, Renamed(a, down, up, n), t, pm, base, stop, allow, live, sload)
  {
    hide Cost;
    var b := Renamed(a, down, up, n);
    forall q | IsReg(q) && q !in b.free ensures q in b.cost && Waiting(pm, stop, live, sload, RefOf(b.cost[q])) {
      assert q != up ==> q !in a.free;
    }
    forall x | x in live ensures x in sload && x !in t.temp && Awaited(pm, stop, x, sload[x]) && sload[x] in b.r && b.r[sload[x]].InReg? {
      assert sload[x] in a.r;
    }
  }

  lemma SubsetSize(a: set<Reg>, b: set<Reg>)
    requires a <= b
    ensures |a| <= |b| && (a != b ==> |a| < |b|)
  {
    assert |b| == |a| + |b - a| by {
      assert b == a + (b - a);
    }
    if a != b {
      assert b - a != {};
    }
  }

  lemma AllFree(p: Prog, a: Alloc, cur: Ref)
    requires RegsOk(p, a, cur) && forall q :: IsReg(q) ==> q in a.free
    ensures a.free == RSET_ALL
  {
    forall q ensures q in a.free <==> q in RSET_ALL {
    }
  }

  lemma LiveRegs(p: Prog, w: World, a: Alloc, t: Point, pm: ParentMap, base: Place, stop: Ref,
                 allow: set<Reg>, live: set<Reg>, sload: map<Reg, Ref>)
    requires Shuffling(p, w, a, t, pm, base, stop, allow, live, sload)
    ensures forall x {:trigger x in live} :: x in live ==> IsReg(x) && x < 32
    ensures forall q {:trigger q in allow} :: q in allow ==> IsReg(q) && q !in t.temp
    ensures live == {} ==> forall q :: IsReg(q) ==> q in a.free
    ensures FromParent(p, w, pm, base, stop, REF_BASE, t.temp)
  {
    forall x | x in live ensures IsReg(x) && x < 32 {
      assert Awaited(pm, stop, x, sload[x]);
    }
  }

  // ---- collecting dependencies -----------------------------------------------------------

  /** The value of n is in the slot of the parent's frame where this trace expects it. */
  ghost predicate Same(a: Alloc, pm: ParentMap, d: nat, n: Ref) {
    n in pm && n in a.s && pm[n].PSlot? && pm[n].slot + d == a.s[n]
  }

  /** Registers in use belong to values of the parent; those dealt with are served, and not
      available for anything else. */
  ghost predicate ScanRegs(a: Alloc, pm: ParentMap, stop: Ref, i: Ref, allow: set<Reg>, live: set<Reg>, sload: map<Reg, Ref>, pass3: bool) {
    forall q {:trigger q in a.free} :: IsReg(q) && q !in a.free ==>
      && q in a.cost && IsParent(stop, RefOf(a.cost[q]))
      && (RefOf(a.cost[q]) > i ==> q !in allow && Served(pm, stop, live, sload, RefOf(a.cost[q]), pass3))
  }

  /** A value in a register comes from a slot of the parent, or from a live register. */
  ghost predicate Served(pm: ParentMap, stop: Ref, live: set<Reg>, sload: map<Reg, Ref>, n: Ref, pass3: bool) {
    n in pm && (if pm[n].PSlot? then pass3 else Waiting(pm, stop, live, sload, n))
  }

  ghost predicate ScanLive(a: Alloc, temp: map<Reg, int>, pm: ParentMap, stop: Ref, i: Ref, live: set<Reg>, sload: map<Reg, Ref>, marks: set<Ref>) {
    forall x {:trigger x in live} :: x in live ==>
      && x in sload && x !in temp && Awaited(pm, stop, x, sload[x]) && sload[x] > i
      && sload[x] in a.r && (a.r[sload[x]].InReg? || sload[x] in marks)
  }

  /** Slots are filled already, will be filled, or are those of the parent. */
  ghost predicate ScanSlots(a: Alloc, saved: set<Ref>, pm: ParentMap, stop: Ref, d: nat, i: Ref, marks: set<Ref>) {
    && (forall n: Ref {:trigger n in a.s} :: IsParent(stop, n) && n > i && n in a.s && a.s[n] != 0 ==>
          n in saved || n in marks || Same(a, pm, d, n))
    && (forall n {:trigger n in marks} :: n in marks ==>
          IsParent(stop, n) && n > i && n in a.r && !a.r[n].InReg? && n in a.s && a.s[n] != 0 && n !in saved)
    && (forall n {:trigger n in saved} :: n in saved ==> IsParent(stop, n) && n > i)
  }

  /** A marked value that comes in a register comes in a live one. */
  ghost predicate ScanMarks(pm: ParentMap, stop: Ref, live: set<Reg>, sload: map<Reg, Ref>, marks: set<Ref>) {
    forall n {:trigger n in marks} :: n in marks ==> n in pm && (pm[n].PReg? ==> Waiting(pm, stop, live, sload, n))
  }

  ghost predicate Unneeded(temp: map<Reg, int>, allow: set<Reg>) {
    forall q {:trigger q in allow} :: q in allow ==> IsReg(q) && q !in temp
  }

  /** The scan has dealt with the instructions above i: allow holds registers nobody needs,
      marks those instructions that have a slot only. */
  ghost predicate Scanning(p: Prog, w: World, a: Alloc, t: Point, pm: ParentMap, base: Place, stop: Ref, d: nat, i: Ref,
                           allow: set<Reg>, live: set<Reg>, sload: map<Reg, Ref>, marks: set<Ref>, pass3: bool)
  {
    && Unneeded(t.temp, allow)
    && ScanRegs(a, pm, stop, i, allow, live, sload, pass3)
    && ScanLive(a, t.temp, pm, stop, i, live, sload, marks)
    && ScanSlots(a, t.saved, pm, stop, d, i, marks)
    && ScanMarks(pm, stop, live, sload, marks)
    && FromParent(p, w, pm, base, stop, i, t.temp)
  }

  ghost predicate Scanned(p: Prog, w: World, a: Alloc, t: Point, pm: ParentMap, base: Place, stop: Ref, d: nat, c: Scan) {
    Scanning(p, w, a, t, pm, base, stop, d, REF_BASE, c.allow, c.live, c.sload, c.marks, c.pass3)
  }

  /** What one step of the scan, for instruction i, makes of the sets. */
  datatype Scan = Scan(allow: set<Reg>, live: set<Reg>, sload: map<Reg, Ref>, marks: set<Ref>, pass3: bool)

  function ScanStep(a: Alloc, pm: ParentMap, i: Ref, c: Scan): Scan
    requires i in a.r && i in a.s && i in pm
  {
    var used := a.r[i].InReg? || a.s[i] != 0;
    var same := a.r[i].InReg? && pm[i] == PReg(a.r[i].reg);
    Scan(if a.r[i].InReg? then c.allow - {a.r[i].reg} else c.allow,
         if pm[i].PReg? && used && !same then c.live + {pm[i].reg} else c.live,
         if pm[i].PReg? && used && !same then c.sload[pm[i].reg := i] else c.sload,
         if !a.r[i].InReg? && a.s[i] != 0 then c.marks + {i} else c.marks,
         c.pass3 || (pm[i].PSlot? && a.r[i].InReg?))
  }

  function SavedAfter(a: Alloc, saved: set<Ref>, i: Ref): set<Ref>
    requires i in a.r && i in a.s
  {
    if a.r[i].InReg? && a.s[i] != 0 then saved + {i} else saved
  }

  lemma StepRegs(p: Prog, a: Alloc, pm: ParentMap, stop: Ref, i: Ref, c: Scan)
    requires ScanRegs(a, pm, stop, i, c.allow, c.live, c.sload, c.pass3) && IsParent(stop, i) && i in a.r && i in a.s && i in pm
    requires RegsOk(p, a, stop + 1) && (a.r[i].InReg? ==> pm[i] != PReg(a.r[i].reg))
    requires forall x {:trigger x in c.live} :: x in c.live && pm[i].PReg? ==> x != pm[i].reg
    ensures var e := ScanStep(a, pm, i, c); ScanRegs(a, pm, stop, i - 1, e.allow, e.live, e.sload, e.pass3)
  {
    hide Cost;
    var e := ScanStep(a, pm, i, c);
    forall q | IsReg(q) && q !in a.free
      ensures q in a.cost && IsParent(stop, RefOf(a.cost[q]))
      ensures RefOf(a.cost[q]) > i - 1 ==> q !in e.allow && Served(pm, stop, e.live, e.sload, RefOf(a.cost[q]), e.pass3)
    {
      assert OwnerOk(p, a, stop + 1, q);
    }
  }

  lemma StepLive(p: Prog, w: World, a: Alloc, t: Point, pm: ParentMap, base: Place, stop: Ref, i: Ref, c: Scan)
    requires ScanLive(a, t.temp, pm, stop, i, c.live, c.sload, c.marks) && FromParent(p, w, pm, base, stop, i, t.temp)
    requires ParentsOk(p, pm, base, stop) && IsParent(stop, i) && i in a.r && i in a.s && i in pm
    ensures var e := ScanStep(a, pm, i, c); ScanLive(a, t.temp, pm, stop, i - 1, e.live, e.sload, e.marks)
  {
    hide Val;
    var e := ScanStep(a, pm, i, c);
    forall x | x in e.live
      ensures x in e.sload && x !in t.temp && Awaited(pm, stop, x, e.sload[x]) && e.sload[x] > i - 1
      ensures e.sload[x] in a.r && (a.r[e.sload[x]].InReg? || e.sload[x] in e.marks)
    {
      assert x in t.temp ==> ParentHas(p, w, pm, base, stop, i, x, t.temp[x]);
    }
  }

  lemma StepSlots(a: Alloc, saved: set<Ref>, pm: ParentMap, stop: Ref, d: nat, i: Ref, c: Scan)
    requires ScanSlots(a, saved, pm, stop, d, i, c.marks) && IsParent(stop, i) && i in a.r && i in a.s && i in pm
    ensures ScanSlots(a, SavedAfter(a, saved, i), pm, stop, d, i - 1, ScanStep(a, pm, i, c).marks)
  {
  }

  lemma StepMarks(a: Alloc, saved: set<Ref>, pm: ParentMap, stop: Ref, d: nat, i: Ref, c: Scan)
    requires ScanMarks(pm, stop, c.live, c.sload, c.marks) && IsParent(stop, i) && i in a.r && i in a.s && i in pm
    requires forall x {:trigger x in c.live} :: x in c.live && pm[i].PReg? ==> x != pm[i].reg
    ensures var e := ScanStep(a, pm, i, c); ScanMarks(pm, stop, e.live, e.sload, e.marks)
  {
  }

  lemma StepFrom(p: Prog, w: World, pm: ParentMap, base: Place, stop: Ref, i: Ref, temp: map<Reg, int>)
    requires FromParent(p, w, pm, base, stop, i, temp) && i > 0
    ensures FromParent(p, w, pm, base, stop, i - 1, temp)
  {
    hide Val;
    forall q | q in temp ensures ParentHas(p, w, pm, base, stop, i - 1, q, temp[q]) {
      assert ParentHas(p, w, pm, base, stop, i, q, temp[q]);
    }
  }

  /** A step of the scan that does not coalesce. */
  lemma ScanKeep(p: Prog, w: World, a: Alloc, t: Point, pm: ParentMap, base: Place, stop: Ref, d: nat, i: Ref, c: Scan)
    requires Scanning(p, w, a, t, pm, base, stop, d, i, c.allow, c.live, c.sload, c.marks, c.pass3) && ParentsOk(p, pm, base, stop)
    requires RegsOk(p, a, stop + 1) && IsParent(stop, i) && i in a.r && i in a.s && i in pm
    requires a.r[i].InReg? ==> pm[i] != PReg(a.r[i].reg)
    ensures var e := ScanStep(a, pm, i, c);
            Scanning(p, w, a, t.(saved := SavedAfter(a, t.saved, i)), pm, base, stop, d, i - 1, e.allow, e.live, e.sload, e.marks, e.pass3)
  {
    hide ScanRegs, FromParent, ScanSlots, ScanMarks, RegsOk;
    forall x {:trigger x in c.live} | x in c.live && pm[i].PReg? ensures x != pm[i].reg {
      assert Awaited(pm, stop, x, c.sload[x]);
    }
    hide ScanLive, ParentsOk, Awaited;
    StepRegs(p, a, pm, stop, i, c);
    StepLive(p, w, a, t, pm, base, stop, i, c);
    StepSlots(a, t.saved, pm, stop, d, i, c);
    StepMarks(a, t.saved, pm, stop, d, i, c);
    StepFrom(p, w, pm, base, stop, i, t.temp);
  }

  /** A step of the scan that coalesces: the value already is in the right register. */
  lemma ScanCoalesce(p: Prog, w: World, a: Alloc, t: Point, pm: ParentMap, base: Place, stop: Ref, d: nat, i: Ref, c: Scan, x: Reg)
    requires Scanning(p, w, a, t, pm, base, stop, d, i, c.allow, c.live, c.sload, c.marks, c.pass3) && ParentsOk(p, pm, base, stop)
    requires RegsOk(p, a, stop + 1) && IsParent(stop, i) && i in a.r && i in a.s && i in pm
    requires a.r[i] == InReg(x) && pm[i] == PReg(x)
    ensures var e := ScanStep(a, pm, i, c);
            Scanning(p, w, Given(a, x, i, Hint(x)), t.(saved := SavedAfter(a, t.saved, i), temp := t.temp[x := Val(p, w, i)]), pm, base,
                     stop, d, i - 1, e.allow, e.live, e.sload, e.marks, e.pass3)
  {
    hide FromParent, RegsOk;
    forall y {:trigger y in c.live} | y in c.live ensures y != x {
      assert Awaited(pm, stop, y, c.sload[y]);
    }
    hide ScanLive, ScanRegs, ScanSlots, ScanMarks, ParentsOk, Awaited;
    var b, u := Given(a, x, i, Hint(x)), t.temp[x := Val(p, w, i)];
    CoalesceRegs(p, a, pm, stop, i, c, x);
    CoalesceLive(a, t.temp, pm, stop, i, c, x, Val(p, w, i));
    CoalesceSlots(a, t.saved, pm, stop, d, i, c, x);
    StepFrom(p, w, pm, base, stop, i, t.temp);
    MoreFrom(p, w, pm, base, stop, i, t.temp, x);
  }

  lemma CoalesceRegs(p: Prog, a: Alloc, pm: ParentMap, stop: Ref, i: Ref, c: Scan, x: Reg)
    requires ScanRegs(a, pm, stop, i, c.allow, c.live, c.sload, c.pass3) && IsParent(stop, i) && RegsOk(p, a, stop + 1)
    requires i in a.r && a.r[i] == InReg(x)
    ensures ScanRegs(Given(a, x, i, Hint(x)), pm, stop, i - 1, c.allow - {x}, c.live, c.sload, c.pass3)
  {
    hide Cost;
    var b := Given(a, x, i, Hint(x));
    forall q | IsReg(q) && q !in b.free
      ensures q in b.cost && IsParent(stop, RefOf(b.cost[q]))
      ensures RefOf(b.cost[q]) > i - 1 ==> q !in c.allow - {x} && Served(pm, stop, c.live, c.sload, RefOf(b.cost[q]), c.pass3)
    {
      assert q !in a.free;
      assert OwnerOk(p, a, stop + 1, q);
    }
  }

  lemma CoalesceLive(a: Alloc, temp: map<Reg, int>, pm: ParentMap, stop: Ref, i: Ref, c: Scan, x: Reg, v: int)
    requires ScanLive(a, temp, pm, stop, i, c.live, c.sload, c.marks) && i > 0 && x !in c.live
    ensures ScanLive(Given(a, x, i, Hint(x)), temp[x := v], pm, stop, i - 1, c.live, c.sload, c.marks)
  {
  }

  lemma CoalesceSlots(a: Alloc, saved: set<Ref>, pm: ParentMap, stop: Ref, d: nat, i: Ref, c: Scan, x: Reg)
    requires ScanSlots(a, saved, pm, stop, d, i, c.marks) && IsParent(stop, i) && i in a.r && i in a.s && a.r[i] == InReg(x)
    ensures ScanSlots(Given(a, x, i, Hint(x)), SavedAfter(a, saved, i), pm, stop, d, i - 1, c.marks)
  {
    var b := Given(a, x, i, Hint(x));
    forall n: Ref | IsParent(stop, n) && n > i - 1 && n in b.s && b.s[n] != 0
      ensures n in SavedAfter(a, saved, i) || n in c.marks || Same(b, pm, d, n)
    {
      assert n in a.s;
      assert n != i ==> n in saved || n in c.marks || Same(a, pm, d, n);
    }
  }

  lemma MoreFrom(p: Prog, w: World, pm: ParentMap, base: Place, stop: Ref, i: Ref, temp: map<Reg, int>, x: Reg)
    requires IsParent(stop, i) && i in pm && pm[i] == PReg(x) && FromParent(p, w, pm, base, stop, i - 1, temp)
    ensures FromParent(p, w, pm, base, stop, i - 1, temp[x := Val(p, w, i)])
  {
    hide Val;
    var u := temp[x := Val(p, w, i)];
    forall q | q in u ensures ParentHas(p, w, pm, base, stop, i - 1, q, u[q]) {
      assert q != x ==> ParentHas(p, w, pm, base, stop, i - 1, q, temp[q]);
    }
  }

  /** A marked value whose slot is the one the parent has left it in. */
  lemma MarkSame(p: Prog, w: World, a: Alloc, t: Point, pm: ParentMap, base: Place, stop: Ref, d: nat, c: Scan, n: Ref)
    requires Scanning(p, w, a, t, pm, base, stop, d, REF_BASE, c.allow, c.live, c.sload, c.marks, c.pass3) && n in c.marks && Same(a, pm, d, n)
    ensures Scanning(p, w, a, t, pm, base, stop, d, REF_BASE, c.allow, c.live, c.sload, c.marks - {n}, c.pass3)
  {
    hide Val, FromParent, ScanRegs;
    forall x | x in c.live ensures c.sload[x] != n {
      assert Awaited(pm, stop, x, c.sload[x]);
    }
  }

  lemma MarkHint(p: Prog, w: World, a: Alloc, t: Point, pm: ParentMap, base: Place, stop: Ref, d: nat, c: Scan, n: Ref, h: Reg)
    requires Scanning(p, w, a, t, pm, base, stop, d, REF_BASE, c.allow, c.live, c.sload, c.marks, c.pass3) && n in c.marks
    ensures n in a.r && !a.r[n].InReg? && IsParent(stop, n) && n in a.s && a.s[n] != 0
    ensures Scanning(p, w, a.(r := a.r[n := Hint(h)]), t, pm, base, stop, d, REF_BASE, c.allow, c.live, c.sload, c.marks, c.pass3)
  {
    hide Val, FromParent;
    var b := a.(r := a.r[n := Hint(h)]);
    forall k: Ref | IsParent(stop, k) && k > REF_BASE && k in b.s && b.s[k] != 0 ensures k in t.saved || k in c.marks || Same(b, pm, d, k) {
      assert k in a.s;
      assert k in t.saved || k in c.marks || Same(a, pm, d, k);
    }
  }

  /** A marked value gets register q, which nobody needs, and its slot is filled from there. */
  lemma MarkTaken(p: Prog, w: World, a: Alloc, t: Point, pm: ParentMap, base: Place, stop: Ref, d: nat, c: Scan, n: Ref, q: Reg)
    requires Scanning(p, w, a, t, pm, base, stop, d, REF_BASE, c.allow, c.live, c.sload, c.marks, c.pass3) && n in c.marks
    requires q in c.allow && n < 0xFFFF && n in pm && RegsOk(p, a, stop + 1) && q in a.free
    ensures Scanning(p, w, TakenBy(p, a, q, n), t.(saved := t.saved + {n}), pm, base, stop, d, REF_BASE,
                     c.allow - {q}, c.live, c.sload, c.marks - {n}, c.pass3 || pm[n].PSlot?)
  {
    hide Val, FromParent, Cost;
    CostRef(n, TypeOf(p, n).phi);
    TakenRegs(p, a, pm, stop, c, n, q);
    TakenSlots(p, a, t.saved, pm, stop, d, c, n, q);
    hide ScanRegs, ScanSlots;
    var b := TakenBy(p, a, q, n);
    forall x | x in c.live
      ensures x in c.sload && x !in t.temp && Awaited(pm, stop, x, c.sload[x]) && c.sload[x] > REF_BASE
      ensures c.sload[x] in b.r && (b.r[c.sload[x]].InReg? || c.sload[x] in c.marks - {n})
    {
    }
  }

  lemma TakenRegs(p: Prog, a: Alloc, pm: ParentMap, stop: Ref, c: Scan, n: Ref, q: Reg)
    requires ScanRegs(a, pm, stop, REF_BASE, c.allow, c.live, c.sload, c.pass3) && n in c.marks && ScanMarks(pm, stop, c.live, c.sload, c.marks)
    requires q in c.allow && RefOf(Cost(n, TypeOf(p, n).phi)) == n && IsParent(stop, n)
    ensures n in pm && ScanRegs(TakenBy(p, a, q, n), pm, stop, REF_BASE, c.allow - {q}, c.live, c.sload, c.pass3 || pm[n].PSlot?)
  {
    hide Cost;
    var b := TakenBy(p, a, q, n);
    forall x | IsReg(x) && x !in b.free
      ensures x in b.cost && IsParent(stop, RefOf(b.cost[x]))
      ensures x !in c.allow - {q} && Served(pm, stop, c.live, c.sload, RefOf(b.cost[x]), c.pass3 || pm[n].PSlot?)
    {
      assert x != q ==> x !in a.free;
    }
  }

  lemma TakenSlots(p: Prog, a: Alloc, saved: set<Ref>, pm: ParentMap, stop: Ref, d: nat, c: Scan, n: Ref, q: Reg)
    requires ScanSlots(a, saved, pm, stop, d, REF_BASE, c.marks) && n in c.marks
    ensures ScanSlots(TakenBy(p, a, q, n), saved + {n}, pm, stop, d, REF_BASE, c.marks - {n}) && IsParent(stop, n)
  {
    hide Cost;
    var b := TakenBy(p, a, q, n);
    forall k: Ref | IsParent(stop, k) && k > REF_BASE && k in b.s && b.s[k] != 0
      ensures k in saved + {n} || k in c.marks - {n} || Same(b, pm, d, k)
    {
      assert k in a.s;
      assert k in saved || k in c.marks || Same(a, pm, d, k);
    }
  }

  /** The register is that of the parent: no move is needed after all. */
  lemma TakenCoalesced(p: Prog, w: World, a: Alloc, t: Point, pm: ParentMap, base: Place, stop: Ref, d: nat, c: Scan, n: Ref, q: Reg)
    requires Scanning(p, w, a, t, pm, base, stop, d, REF_BASE, c.allow, c.live, c.sload, c.marks, c.pass3) && RegsOk(p, a, stop + 1)
    requires IsParent(stop, n) && n in pm && pm[n] == PReg(q) && n in a.r && a.r[n] == InReg(q) && q !in c.allow && ParentsOk(p, pm, base, stop)
    ensures Scanning(p, w, Given(a, q, n, Hint(q)), t.(temp := t.temp[q := Val(p, w, n)]), pm, base, stop, d, REF_BASE,
                     c.allow, c.live - {q}, c.sload, c.marks, c.pass3)
  {
    hide FromParent, RegsOk, Val;
    var b, u := Given(a, q, n, Hint(q)), t.temp[q := Val(p, w, n)];
    DropRegs(p, a, pm, stop, c, n, q);
    forall k {:trigger k in c.marks} | k in c.marks ensures k != n && (pm[k].PReg? ==> pm[k] != PReg(q)) {
      assert k in pm;
    }
    forall x | x in c.live - {q}
      ensures x in c.sload && x !in u && Awaited(pm, stop, x, c.sload[x]) && c.sload[x] in b.r && (b.r[c.sload[x]].InReg? || c.sload[x] in c.marks)
    {
      assert Awaited(pm, stop, x, c.sload[x]);
    }
    hide ScanRegs, ParentsOk;
    MoreFrom0(p, w, pm, base, stop, t.temp, n, q);
    forall k: Ref | IsParent(stop, k) && k > REF_BASE && k in b.s && b.s[k] != 0 ensures k in t.saved || k in c.marks || Same(b, pm, d, k) {
      assert k in a.s;
      assert k in t.saved || k in c.marks || Same(a, pm, d, k);
    }
  }

  lemma DropRegs(p: Prog, a: Alloc, pm: ParentMap, stop: Ref, c: Scan, n: Ref, q: Reg)
    requires ScanRegs(a, pm, stop, REF_BASE, c.allow, c.live, c.sload, c.pass3) && RegsOk(p, a, stop + 1)
    requires n in a.r && a.r[n] == InReg(q) && n in pm && pm[n] == PReg(q)
    requires forall k {:trigger pm[k]} :: IsParent(stop, k) && k in pm && k != n ==> pm[k] != PReg(q)
    ensures ScanRegs(Given(a, q, n, Hint(q)), pm, stop, REF_BASE, c.allow, c.live - {q}, c.sload, c.pass3)
  {
    hide Cost;
    var b := Given(a, q, n, Hint(q));
    forall x | IsReg(x) && x !in b.free
      ensures x in b.cost && IsParent(stop, RefOf(b.cost[x]))
      ensures x !in c.allow && Served(pm, stop, c.live - {q}, c.sload, RefOf(b.cost[x]), c.pass3)
    {
      assert x !in a.free && OwnerOk(p, a, stop + 1, x);
      assert Served(pm, stop, c.live, c.sload, RefOf(a.cost[x]), c.pass3);
    }
  }

  lemma MoreFrom0(p: Prog, w: World, pm: ParentMap, base: Place, stop: Ref, temp: map<Reg, int>, n: Ref, q: Reg)
    requires FromParent(p, w, pm, base, stop, REF_BASE, temp) && IsParent(stop, n) && n in pm && pm[n] == PReg(q)
    ensures FromParent(p, w, pm, base, stop, REF_BASE, temp[q := Val(p, w, n)])
  {
    hide Val;
    var u := temp[q := Val(p, w, n)];
    forall x | x in u ensures ParentHas(p, w, pm, base, stop, REF_BASE, x, u[x]) {
      assert x != q ==> ParentHas(p, w, pm, base, stop, REF_BASE, x, temp[x]);
    }
  }

  // ---- the phases of asm_head_side ---------------------------------------------------------

  lemma BaseFromReg(p: Prog, w: World, goal: seq<Event>, code: seq<MIns>, a: Alloc, t: Point, q: Reg, x: Reg, place: Place)
    requires Good(p, w, goal, code, a, t) && RegsOk(p, a, t.cur) && IsReg(q) && q !in a.free && q in a.cost && RefOf(a.cost[q]) == REF_BASE
    requires t.temp == map[] && Val(p, w, REF_BASE) == w.base && TempOk(a, t)
    ensures Good(p, w, goal, [Mov(q, x)] + code, Given(a, q, REF_BASE, place), t.(temp := map[x := w.base]))
  {
    hide Good, RegsOk, Meets, Val;
    Coalesce(p, w, goal, code, a, t, q, REF_BASE, place);
    var b, t1, u := Given(a, q, REF_BASE, place), t.(temp := t.temp[q := w.base]), t.(temp := map[x := w.base]);
    forall m | Meets(p, w, b, u, m) ensures Step(w, m, Mov(q, x)) == Set(m, q, t1.temp[q]) {
      TempValue(p, w, b, u, m, x);
    }
    Compute(p, w, goal, code, b, t1, Mov(q, x), q, u);
  }

  /** asm_head_side_base: the base register comes from that of the parent, or is loaded. */
  method HeadBase(st: ASMState, base: Place, ghost pm: ParentMap, stop: Ref) returns (pbase: set<Reg>)
    requires st.Valid() && st.at.cur == stop + 1 && stop >= REF_BASE && st.at.temp == map[] && st.at.saved == {} && ParentsOk(st.prog, pm, base, stop)
    requires forall q {:trigger q in st.freeset} :: IsReg(q) && q !in st.freeset ==> q in st.cost && RefOf(st.cost[q]) >= REF_BASE
    modifies st`freeset, st`modset, st`r, st`mcode, st`at
    ensures st.Valid() && st.at == old(st.at).(temp := st.at.temp) && Unneeded(st.at.temp, RSET_ALL - pbase) && |pbase| <= 1
    ensures FromParent(st.prog, st.world, pm, base, stop, stop, st.at.temp)
    ensures forall q {:trigger q in st.freeset} :: IsReg(q) && q !in st.freeset ==> q in st.cost && RefOf(st.cost[q]) > REF_BASE
  {
    hide SpillCount, InFrame, HeadCode, RegsOk, SlotsOk, Good, ProgOk, Cost, Meets, Val, ParentsOk, BaseNeeded;
    BaseIns(st.prog);
    InPlace(st.prog, st.Now(), st.at.cur, REF_BASE);
    pbase := {};
    forall q | IsReg(q) && q !in st.freeset ensures RefOf(st.cost[q]) == REF_BASE ==> st.r[REF_BASE] == InReg(q) {
      OwnReg(st.prog, st.Now(), st.at.cur, q);
    }
    if st.r[REF_BASE].InReg? {
      pbase := TakeBase(st, base, st.r[REF_BASE].reg);
      BaseFromParent(st.prog, st.world, pm, base, stop, pbase, st.at.temp);
    }
  }

  /** What the head needs from the parent after BASE has got its register: at most BASE itself. */
  ghost predicate BaseNeeded(w: World, base: Place, pbase: set<Reg>, temp: map<Reg, int>) {
    (pbase == {} && temp == map[]) || (base.InReg? && pbase == {base.reg} && temp == map[base.reg := w.base])
  }

  lemma BaseFromParent(p: Prog, w: World, pm: ParentMap, base: Place, stop: Ref, pbase: set<Reg>, temp: map<Reg, int>)
    requires stop >= REF_BASE && ParentsOk(p, pm, base, stop) && BaseNeeded(w, base, pbase, temp)
    ensures Unneeded(temp, RSET_ALL - pbase) && |pbase| <= 1 && FromParent(p, w, pm, base, stop, stop, temp)
  {
    hide ProgOk, Val;
  }

  /** BASE is in register q: the parent's own if it has it there, else a move or a load. */
  method TakeBase(st: ASMState, base: Place, q: Reg) returns (pbase: set<Reg>)
    requires st.Valid() && st.at.cur > REF_BASE && st.at.temp == map[]
    requires REF_BASE in st.r && st.r[REF_BASE] == InReg(q)
    modifies st`freeset, st`modset, st`r, st`mcode, st`at
    ensures st.Valid() && st.at == old(st.at).(temp := st.at.temp) && st.freeset == old(st.freeset) + {q}
    ensures BaseNeeded(st.world, base, pbase, st.at.temp)
  {
    hide SpillCount, InFrame, HeadCode, RegsOk, SlotsOk, Good, ProgOk, Cost, Meets, Val;
    BaseIns(st.prog);
    BaseValue(st.prog, st.world);
    InPlace(st.prog, st.Now(), st.at.cur, REF_BASE);
    pbase := {};
    var place := if q in st.modset then Init else Hint(q);
    ghost var a, t, b := st.Now(), st.at, Given(st.Now(), q, REF_BASE, place);
    GivenOk(st.prog, a, t.cur, q, REF_BASE, place);
    SlotsSame(st.prog, a, b);
    if base == InReg(q) {
      Coalesce(st.prog, st.world, st.goal, st.mcode, a, t, q, REF_BASE, place);
      st.at := t.(temp := t.temp[q := st.world.base]);
      pbase := {q};
    } else if base.InReg? && base.reg in st.freeset {
      var x := base.reg;
      BaseFromReg(st.prog, st.world, st.goal, st.mcode, a, t, q, x, place);
      FrameMore(st.mcode, Mov(q, x), st.evenspill);
      st.mcode := [Mov(q, x)] + st.mcode;
      st.at := t.(temp := map[x := st.world.base]);
      pbase := {x};
    } else {
      Remat(st.prog, st.world, st.goal, st.mcode, a, t, q, REF_BASE, place, LoadBase(q));
      FrameMore(st.mcode, LoadBase(q), st.evenspill);
      st.mcode := [LoadBase(q)] + st.mcode;
    }
    st.freeset := st.freeset + {q};
    st.r := st.r[REF_BASE := place];
  }

  /** The parent has the value in the same register: nothing to do but to free it. */
  method CoalesceNow(st: ASMState, x: Reg, n: Ref)
    requires st.Valid() && n in st.prog && n < st.at.cur && n in st.r && st.r[n] == InReg(x)
    modifies st`freeset, st`r, st`at
    ensures st.Valid() && st.freeset == old(st.freeset) + {x} && st.r == old(st.r)[n := Hint(x)]
    ensures st.at == old(st.at).(temp := old(st.at).temp[x := Val(st.prog, st.world, n)])
  {
    hide SpillCount, InFrame, HeadCode, RegsOk, SlotsOk, Good, ProgOk, Cost, Val;
    ghost var a, t := st.Now(), st.at;
    InPlace(st.prog, a, t.cur, n);
    GivenOk(st.prog, a, t.cur, x, n, Hint(x));
    SlotsSame(st.prog, a, Given(a, x, n, Hint(x)));
    Coalesce(st.prog, st.world, st.goal, st.mcode, a, t, x, n, Hint(x));
    st.freeset := st.freeset + {x};
    st.r := st.r[n := Hint(x)];
    st.at := t.(temp := t.temp[x := Val(st.prog, st.world, n)]);
  }

  /** The scan over the parent's values: stores for spilled ones, and what to do later. */
  method ScanParents(st: ASMState, pm: ParentMap, ghost base: Place, stop: Ref, ghost d: nat, allow0: set<Reg>) returns (c: Scan)
    requires st.Valid() && st.at.cur == stop + 1 && stop >= REF_BASE && ParentsOk(st.prog, pm, base, stop)
    requires Scanning(st.prog, st.world, st.Now(), st.at, pm, base, stop, d, stop, allow0, {}, map[], {}, false)
    modifies st`freeset, st`r, st`mcode, st`at
    ensures st.Valid() && st.at == old(st.at).(temp := st.at.temp, saved := st.at.saved)
    ensures Scanning(st.prog, st.world, st.Now(), st.at, pm, base, stop, d, REF_BASE, c.allow, c.live, c.sload, c.marks, c.pass3)
    ensures ScanCount(c, |RSET_ALL - allow0| + stop - REF_BASE, stop - REF_BASE)
  {
    hide SpillCount, InFrame, HeadCode, RegsOk, SlotsOk, Good, ProgOk, Cost, Val, Scanning, ParentsOk;
    c := Scan(allow0, {}, map[], {}, false);
    var i := stop;
    while i > REF_BASE
      invariant REF_BASE <= i <= stop && st.Valid() && st.at == old(st.at).(temp := st.at.temp, saved := st.at.saved)
      invariant Scanning(st.prog, st.world, st.Now(), st.at, pm, base, stop, d, i, c.allow, c.live, c.sload, c.marks, c.pass3)
      invariant ScanCount(c, |RSET_ALL - allow0| + stop - i, stop - i)
    {
      ghost var a, c1 := st.Now(), c;
      c := ScanOne(st, pm, base, stop, d, i, c);
      CountMore(c1, |RSET_ALL - allow0| + stop - i, stop - i, a, pm, i);
      i := i - 1;
    }
  }

  method ScanOne(st: ASMState, pm: ParentMap, ghost base: Place, stop: Ref, ghost d: nat, i: Ref, c: Scan) returns (e: Scan)
    requires st.Valid() && st.at.cur == stop + 1 && IsParent(stop, i) && ParentsOk(st.prog, pm, base, stop)
    requires Scanning(st.prog, st.world, st.Now(), st.at, pm, base, stop, d, i, c.allow, c.live, c.sload, c.marks, c.pass3)
    modifies st`freeset, st`r, st`mcode, st`at
    ensures st.Valid() && st.at == old(st.at).(temp := st.at.temp, saved := st.at.saved)
    ensures Scanning(st.prog, st.world, st.Now(), st.at, pm, base, stop, d, i - 1, e.allow, e.live, e.sload, e.marks, e.pass3)
    ensures i in old(st.r) && i in old(st.s) && i in pm && e == ScanStep(old(st.Now()), pm, i, c)
  {
    hide SpillCount, InFrame, HeadCode, RegsOk, SlotsOk, Good, ProgOk, Cost, Val, Scanning;
    assert i in pm && i in st.prog;
    hide ParentsOk;
    InPlace(st.prog, st.Now(), st.at.cur, i);
    SlotOf(st.prog, st.Now(), i);
    var rs := pm[i];
    e := c;
    ghost var a, t := st.Now(), st.at;
    if st.r[i].InReg? {
      e := e.(allow := e.allow - {st.r[i].reg});
      if st.s[i] != 0 {
        SaveOwn(st.prog, st.world, st.goal, st.mcode, a, t, st.r[i].reg, i);
        SlotEnd(st.prog, st.Now(), i);
        FrameMore(st.mcode, Spill(st.r[i].reg, st.s[i], TypeOf(st.prog, i).wide), st.evenspill);
        st.RaSave(i, st.r[i].reg);
        st.at := st.at.(saved := st.at.saved + {i});
      }
    } else if st.s[i] != 0 {
      e := e.(marks := e.marks + {i});
    }
    if st.r[i].InReg? && rs == PReg(st.r[i].reg) {
      var x := st.r[i].reg;
      ScanCoalesce(st.prog, st.world, a, t, pm, base, stop, d, i, c, x);
      CoalesceNow(st, x, i);
    } else {
      ScanKeep(st.prog, st.world, a, t, pm, base, stop, d, i, c);
      if rs.PSlot? {
        if st.r[i].InReg? {
          e := e.(pass3 := true);
        }
      } else if st.Used(i) {
        e := e.(sload := e.sload[rs.reg := i], live := e.live + {rs.reg});
      }
    }
  }

  /** How many registers are not allowed any more, or will not be for the marked values, and how
      many parent registers wait for their targets. */
  ghost predicate ScanCount(c: Scan, lost: int, held: int) {
    |RSET_ALL - c.allow| + |c.marks| <= lost && |c.live| <= held
  }

  /** One more parent value: it takes a register or is marked, and its parent register may wait. */
  lemma CountMore(c: Scan, lost: int, held: int, a: Alloc, pm: ParentMap, i: Ref)
    requires ScanCount(c, lost, held) && i in a.r && i in a.s && i in pm
    ensures ScanCount(ScanStep(a, pm, i, c), lost + 1, held + 1)
  {
    var e := ScanStep(a, pm, i, c);
    var qs := if a.r[i].InReg? then {a.r[i].reg} else {};
    assert RSET_ALL - e.allow <= (RSET_ALL - c.allow) + qs;
    SubsetSize(RSET_ALL - e.allow, (RSET_ALL - c.allow) + qs);
  }

  /** A marked value has got its register. */
  lemma CountLess(c: Scan, lost: int, held: int, e: Scan, n: Ref, qs: set<Reg>, xs: set<Reg>)
    requires ScanCount(c, lost, held) && n in c.marks && e.marks == c.marks - {n} && e.allow == c.allow - qs && |qs| <= 1 && e.live == c.live - xs
    ensures ScanCount(e, lost, held)
  {
    assert RSET_ALL - e.allow <= (RSET_ALL - c.allow) + qs;
    SubsetSize(RSET_ALL - e.allow, (RSET_ALL - c.allow) + qs);
    SubsetSize(e.live, c.live);
  }

  function Below(n: nat): (s: set<Reg>)
    ensures forall q: Reg {:trigger q in s} :: q in s <==> q < n
  {
    if n == 0 then {} else Below(n - 1) + {n - 1}
  }

  lemma {:induction false} BelowSize(n: nat)
    ensures |Below(n)| == n
  {
    if n > 0 {
      BelowSize(n - 1);
    }
  }

  /** All registers from lo to hi but those in skip are in k. */
  lemma ClassSize(k: set<Reg>, skip: set<Reg>, lo: nat, hi: nat)
    requires forall q: Reg {:trigger q in k} :: lo <= q < hi ==> q in k || q in skip
    ensures hi - lo <= |k| + |skip|
  {
    BelowSize(lo);
    BelowSize(hi);
    assert Below(hi) <= k + skip + Below(lo);
    SubsetSize(Below(hi), k + skip + Below(lo));
  }

  lemma GprSize()
    ensures 14 <= |RSET_GPR|
  {
    ClassSize(RSET_GPR, {4, 14}, 0, 16);
  }

  lemma FprSize()
    ensures 14 <= |RSET_FPR|
  {
    ClassSize(RSET_FPR, {}, 16, 32);
  }

  lemma ClassIs(fp: bool)
    ensures ClassSet(fp) == if fp then RSET_FPR else RSET_GPR
  {
  }

  /** No register of a class is allowed: at least as many are lost. */
  lemma ClassLost(fp: bool, c: Scan, lost: int, held: int)
    requires ClassSet(fp) * c.allow == {} && ScanCount(c, lost, held)
    ensures 14 <= lost
  {
    var allow := c.allow;
    GprSize();
    FprSize();
    hide ClassSet;
    ClassIs(fp);
    var k := if fp then RSET_FPR else RSET_GPR;
    forall q | q in k ensures q in RSET_ALL - allow {
      assert q !in ClassSet(fp) * allow;
    }
    SubsetSize(k, RSET_ALL - allow);
  }

  /** No register of a class is left to break a cycle. */
  lemma ClassExhausted(free: set<Reg>, live: set<Reg>, allow: set<Reg>, k: set<Reg>, owned: int)
    requires (free - live) * allow * k == {} && (k == RSET_GPR || k == RSET_FPR) && |RSET_ALL - free| <= owned
    ensures 14 <= owned + |live + (RSET_ALL - allow)|
  {
    GprSize();
    FprSize();
    var rest := live + (RSET_ALL - allow);
    forall q | q in k ensures q in (RSET_ALL - free) + rest {
      assert q !in (free - live) * allow * k;
    }
    SubsetSize(k, (RSET_ALL - free) + rest);
  }

  /** The registers instructions above lo up to hi have. */
  ghost function RegsOf(r: map<Ref, Place>, lo: Ref, hi: Ref): set<Reg>
    requires lo <= hi
  {
    if hi == lo then {} else RegsOf(r, lo, hi - 1) + (if hi in r && r[hi].InReg? then {r[hi].reg} else {})
  }

  lemma {:induction false} RegsOfSize(r: map<Ref, Place>, lo: Ref, hi: Ref)
    requires lo <= hi
    ensures |RegsOf(r, lo, hi)| <= hi - lo
  {
    if lo < hi {
      RegsOfSize(r, lo, hi - 1);
    }
  }

  lemma {:induction false} RegsOfHas(r: map<Ref, Place>, lo: Ref, hi: Ref, n: Ref)
    requires lo < n <= hi && n in r && r[n].InReg?
    ensures r[n].reg in RegsOf(r, lo, hi)
  {
    if n < hi {
      RegsOfHas(r, lo, hi - 1, n);
    }
  }

  /** While registers are shuffled only the parent's values have any. */
  lemma OwnedFew(p: Prog, w: World, a: Alloc, t: Point, pm: ParentMap, base: Place, stop: Ref,
                 allow: set<Reg>, live: set<Reg>, sload: map<Reg, Ref>)
    requires Shuffling(p, w, a, t, pm, base, stop, allow, live, sload) && RegsOk(p, a, stop + 1) && live != {}
    ensures |RSET_ALL - a.free| <= stop - REF_BASE
  {
    hide FromParent;
    var x :| x in live;
    assert Awaited(pm, stop, x, sload[x]);
    RegsOfSize(a.r, REF_BASE, stop);
    forall q | q in RSET_ALL - a.free ensures q in RegsOf(a.r, REF_BASE, stop) {
      assert IsReg(q) && q in a.cost && Waiting(pm, stop, live, sload, RefOf(a.cost[q]));
      OwnReg(p, a, stop + 1, q);
      RegsOfHas(a.r, REF_BASE, stop, RefOf(a.cost[q]));
    }
    SubsetSize(RSET_ALL - a.free, RegsOf(a.r, REF_BASE, stop));
  }

  /** Reloads spilled target registers: values that only have a slot get a register as well,
      from which the slot is filled. */
  method ReloadSpilled(st: ASMState, pm: ParentMap, ghost base: Place, stop: Ref, d: nat, c0: Scan, ghost lost: int, ghost held: int) returns (res: Outcome<Scan>)
    requires ScanCount(c0, lost, held)
    requires st.Valid() && st.at.cur == stop + 1 && stop >= REF_BASE && ParentsOk(st.prog, pm, base, stop)
    requires Scanning(st.prog, st.world, st.Now(), st.at, pm, base, stop, d, REF_BASE, c0.allow, c0.live, c0.sload, c0.marks, c0.pass3)
    modifies st`freeset, st`modset, st`cost, st`r, st`s, st`evenspill, st`oddspill, st`mcode, st`at
    ensures res.Ok? ==> st.evenspill == old(st.evenspill)
    ensures res.Ok? ==> st.Valid() && st.at == old(st.at).(temp := st.at.temp, saved := st.at.saved)
    ensures res.Ok? ==> res.value.marks == {}
    ensures res.Ok? ==> Scanned(st.prog, st.world, st.Now(), st.at, pm, base, stop, d, res.value)
    ensures res.Ok? ==> ScanCount(res.value, lost, held)
    ensures res.Err? ==> res.error == NyiCoal && 14 <= lost
  {
    hide ScanCount, SpillCount, RegsOk, SlotsOk, Good, ProgOk, Cost, Val, Scanning, ParentsOk;
    var c := c0;
    var i := stop;
    MarksAreParents(st.prog, st.world, st.Now(), st.at, pm, base, stop, d, c);
    while i > REF_BASE
      invariant REF_BASE <= i <= stop && st.Valid() && st.at == old(st.at).(temp := st.at.temp, saved := st.at.saved)
      invariant Scanning(st.prog, st.world, st.Now(), st.at, pm, base, stop, d, REF_BASE, c.allow, c.live, c.sload, c.marks, c.pass3)
      invariant forall n {:trigger n in c.marks} :: n in c.marks ==> n <= i
      invariant st.evenspill == old(st.evenspill)
      invariant ScanCount(c, lost, held)
    {
      if i in c.marks {
        c :- ReloadOne(st, pm, base, stop, d, i, c, lost, held);
      }
      i := i - 1;
    }
    MarksAreParents(st.prog, st.world, st.Now(), st.at, pm, base, stop, d, c);
    assert c.marks == {};
    return Ok(c);
  }

  lemma MarksAreParents(p: Prog, w: World, a: Alloc, t: Point, pm: ParentMap, base: Place, stop: Ref, d: nat, c: Scan)
    requires Scanning(p, w, a, t, pm, base, stop, d, REF_BASE, c.allow, c.live, c.sload, c.marks, c.pass3)
    ensures forall n {:trigger n in c.marks} :: n in c.marks ==> REF_BASE < n <= stop
  {
  }

  method ReloadOne(st: ASMState, pm: ParentMap, ghost base: Place, stop: Ref, d: nat, n: Ref, c: Scan, ghost lost: int, ghost held: int) returns (res: Outcome<Scan>)
    requires ScanCount(c, lost, held)
    requires st.Valid() && st.at.cur == stop + 1 && ParentsOk(st.prog, pm, base, stop) && n in c.marks
    requires Scanning(st.prog, st.world, st.Now(), st.at, pm, base, stop, d, REF_BASE, c.allow, c.live, c.sload, c.marks, c.pass3)
    modifies st`freeset, st`modset, st`cost, st`r, st`s, st`evenspill, st`oddspill, st`mcode, st`at
    ensures res.Ok? ==> st.evenspill == old(st.evenspill)
    ensures res.Ok? ==> st.Valid() && st.at == old(st.at).(temp := st.at.temp, saved := st.at.saved)
    ensures res.Ok? ==> res.value.marks == c.marks - {n}
    ensures res.Ok? ==> Scanned(st.prog, st.world, st.Now(), st.at, pm, base, stop, d, res.value)
    ensures res.Ok? ==> ScanCount(res.value, lost, held)
    ensures res.Err? ==> res.error == NyiCoal && 14 <= lost
  {
    hide ScanCount, SpillCount, RegsOk, SlotsOk, Good, ProgOk, Cost, Val, Scanning, Same, ClassSet;
    MarkHint(st.prog, st.world, st.Now(), st.at, pm, base, stop, d, c, n, 0);
    assert n in pm && n in st.prog && HasValue(st.prog[n]);
    SlotOf(st.prog, st.Now(), n);
    KindOf(st.prog, n);
    hide ParentsOk;
    if pm[n].PReg? {
      MarkHint(st.prog, st.world, st.Now(), st.at, pm, base, stop, d, c, n, pm[n].reg);
      HintOk(st.prog, st.world, st.goal, st.mcode, st.Now(), st.at, n, pm[n].reg);
      st.r := st.r[n := Hint(pm[n].reg)];
    } else if pm[n].slot + d == st.s[n] {
      IsSame(st.Now(), pm, d, n);
      MarkSame(st.prog, st.world, st.Now(), st.at, pm, base, stop, d, c, n);
      CountLess(c, lost, held, c.(marks := c.marks - {n}), n, {}, {});
      return Ok(c.(marks := c.marks - {n}));
    }
    res := ReloadInto(st, pm, base, stop, d, n, c, lost, held);
  }

  /** The allowed registers of a class are free. */
  lemma MaskFree(p: Prog, w: World, a: Alloc, t: Point, pm: ParentMap, base: Place, stop: Ref, d: nat, c: Scan, fp: bool)
    requires Scanning(p, w, a, t, pm, base, stop, d, REF_BASE, c.allow, c.live, c.sload, c.marks, c.pass3)
    ensures OneClass(ClassSet(fp) * c.allow, fp) && ClassSet(fp) * c.allow <= a.free
  {
    hide Scanning;
    AllowedAreFree(p, w, a, t, pm, base, stop, d, c);
  }

  /** A marked value that is not in its slot already gets a free register. */
  method ReloadInto(st: ASMState, pm: ParentMap, ghost base: Place, stop: Ref, ghost d: nat, n: Ref, c: Scan, ghost lost: int, ghost held: int) returns (res: Outcome<Scan>)
    requires ScanCount(c, lost, held)
    requires st.Valid() && st.at.cur == stop + 1 && n in c.marks && n in st.prog && HasValue(st.prog[n]) && n in st.r && !st.r[n].InReg?
    requires Scanning(st.prog, st.world, st.Now(), st.at, pm, base, stop, d, REF_BASE, c.allow, c.live, c.sload, c.marks, c.pass3)
    requires ParentsOk(st.prog, pm, base, stop) && IsParent(stop, n) && n < 0xFFFF && n in pm && n in st.s && st.s[n] != 0
    modifies st`freeset, st`modset, st`cost, st`r, st`s, st`evenspill, st`oddspill, st`mcode, st`at
    ensures res.Ok? ==> st.evenspill == old(st.evenspill)
    ensures res.Ok? ==> st.Valid() && st.at == old(st.at).(temp := st.at.temp, saved := st.at.saved)
    ensures res.Ok? ==> res.value.marks == c.marks - {n}
    ensures res.Ok? ==> Scanned(st.prog, st.world, st.Now(), st.at, pm, base, stop, d, res.value)
    ensures res.Ok? ==> ScanCount(res.value, lost, held)
    ensures res.Err? ==> res.error == NyiCoal && 14 <= lost
  {
    hide ScanCount, SpillCount, RegsOk, SlotsOk, Good, ProgOk, Cost, Val, Scanning, Same, ClassSet, OneClass, ParentsOk;
    var mask := ClassSet(TypeOf(st.prog, n).fp) * c.allow;
    if mask == {} {
      ClassLost(TypeOf(st.prog, n).fp, c, lost, held);
      return Err(NyiCoal);
    }
    MaskFree(st.prog, st.world, st.Now(), st.at, pm, base, stop, d, c, TypeOf(st.prog, n).fp);
    var q := TakeFree(st, pm, base, stop, d, n, c, mask);
    var e := c.(allow := c.allow - {q}, marks := c.marks - {n});
    if pm[n] == PReg(q) {
      ghost var a, t := st.Now(), st.at;
      TakenCoalesced(st.prog, st.world, a, t, pm, base, stop, d, e, n, q);
      CoalesceNow(st, q, n);
      e := e.(live := e.live - {q});
      CountLess(c, lost, held, e, n, {q}, {q});
    } else {
      e := e.(pass3 := e.pass3 || pm[n].PSlot?);
      CountLess(c, lost, held, e, n, {q}, {});
    }
    return Ok(e);
  }

  /** Register q of the mask is allocated for n, and saved to its slot. */
  method TakeFree(st: ASMState, pm: ParentMap, ghost base: Place, stop: Ref, ghost d: nat, n: Ref, ghost c: Scan, mask: set<Reg>) returns (q: Reg)
    requires st.Valid() && st.at.cur == stop + 1 && n in c.marks && n in st.prog && HasValue(st.prog[n]) && n in st.r && !st.r[n].InReg?
    requires Scanning(st.prog, st.world, st.Now(), st.at, pm, base, stop, d, REF_BASE, c.allow, c.live, c.sload, c.marks, c.pass3)
    requires n <= stop && n < 0xFFFF && n in pm && n in st.s && st.s[n] != 0
    requires mask != {} && OneClass(mask, TypeOf(st.prog, n).fp) && mask <= c.allow && mask <= st.freeset
    modifies st`freeset, st`modset, st`cost, st`r, st`s, st`evenspill, st`oddspill, st`mcode, st`at
    ensures st.evenspill == old(st.evenspill)
    ensures st.Valid() && st.at == old(st.at).(saved := st.at.saved) && q in mask && n in st.r && st.r[n] == InReg(q)
    ensures Scanning(st.prog, st.world, st.Now(), st.at, pm, base, stop, d, REF_BASE, c.allow - {q}, c.live, c.sload,
                                 c.marks - {n}, c.pass3 || pm[n].PSlot?)
  {
    hide SpillCount, InFrame, HeadCode, RegsOk, SlotsOk, Good, ProgOk, Cost, Val, Scanning;
    NoTemps(st.prog, st.world, st.Now(), st.at, pm, base, stop, d, c);
    ghost var a, t := st.Now(), st.at;
    ghost var x: Reg :| x in mask;
    assert x in st.freeset * mask;
    var got := st.RaAllocRef(n, mask);
    q := got.value;
    assert t.temp - {q} == t.temp;
    MarkTaken(st.prog, st.world, a, t, pm, base, stop, d, c, n, q);
    InPlace(st.prog, st.Now(), st.at.cur, n);
    SaveOwn(st.prog, st.world, st.goal, st.mcode, st.Now(), st.at, q, n);
    SlotEnd(st.prog, st.Now(), n);
    FrameMore(st.mcode, Spill(q, st.s[n], TypeOf(st.prog, n).wide), st.evenspill);
    st.RaSave(n, q);
    st.at := st.at.(saved := st.at.saved + {n});
  }

  lemma NoTemps(p: Prog, w: World, a: Alloc, t: Point, pm: ParentMap, base: Place, stop: Ref, d: nat, c: Scan)
    requires Scanning(p, w, a, t, pm, base, stop, d, REF_BASE, c.allow, c.live, c.sload, c.marks, c.pass3)
    ensures forall q {:trigger q in t.temp} :: q in t.temp ==> q !in c.allow
  {
  }

  lemma AllowedAreFree(p: Prog, w: World, a: Alloc, t: Point, pm: ParentMap, base: Place, stop: Ref, d: nat, c: Scan)
    requires Scanning(p, w, a, t, pm, base, stop, d, REF_BASE, c.allow, c.live, c.sload, c.marks, c.pass3)
    ensures forall q {:trigger q in c.allow} :: q in c.allow ==> q in a.free
  {
    forall q | q in c.allow ensures q in a.free {
      assert IsReg(q);
    }
  }

  lemma IsSame(a: Alloc, pm: ParentMap, d: nat, n: Ref)
    requires n in pm && n in a.s && pm[n].PSlot? && pm[n].slot + d == a.s[n]
    ensures Same(a, pm, d, n)
  {
  }

  /** What the code now expects in slots of the parent is what the parent has there. */
  ghost predicate PsOk(pm: ParentMap, stop: Ref, ps: map<Ref, nat>) {
    forall n {:trigger n in ps} :: n in ps && n <= stop && ps[n] != 0 ==> IsParent(stop, n) && n in pm && pm[n] == PSlot(ps[n])
  }

  ghost function ParentSlots(a: Alloc, saved: set<Ref>, pm: ParentMap, stop: Ref): map<Ref, nat> {
    map n | n in a.s :: if IsParent(stop, n) && n !in saved && a.s[n] != 0 && n in pm && pm[n].PSlot? then pm[n].slot else 0
  }

  lemma ParentSlotsOk(p: Prog, w: World, a: Alloc, t: Point, pm: ParentMap, base: Place, stop: Ref, d: nat, c: Scan)
    requires Scanned(p, w, a, t, pm, base, stop, d, c) && c.marks == {} && SlotsOk(p, a) && ParentsOk(p, pm, base, stop) && t.cur == stop + 1
    ensures p.Keys <= ParentSlots(a, t.saved, pm, stop).Keys
    ensures SameSlots(p, a, t, d, ParentSlots(a, t.saved, pm, stop)) && PsOk(pm, stop, ParentSlots(a, t.saved, pm, stop))
  {
    hide FromParent, ScanRegs, ScanLive;
    var ps := ParentSlots(a, t.saved, pm, stop);
    forall n | n in p ensures n in a.s {
      assert SlotOk(p, a, n);
    }
    forall n | n in p && n in a.s && n < t.cur
      ensures n in ps && (n !in t.saved && a.s[n] != 0 ==> ps[n] != 0 && ps[n] + d == a.s[n])
    {
      assert SlotOk(p, a, n);
      if n !in t.saved && a.s[n] != 0 {
        assert IsParent(stop, n);
        assert Same(a, pm, d, n);
        assert n in pm;
      }
    }
  }

  /** emit_spsub, and restores of target registers from slots of the parent. */
  method RestoreFromParent(st: ASMState, pm: ParentMap, ghost base: Place, stop: Ref, ghost ps0: map<Ref, nat>, ghost d: nat, c: Scan)
    returns (ghost ps: map<Ref, nat>)
    requires st.HeadValid(ps0) && st.at.cur == stop + 1 && c.marks == {} && PsOk(pm, stop, ps0) && st.at.saved == {}
    requires ParentsOk(st.prog, pm, base, stop) && st.prog.Keys <= ps0.Keys
    requires HeadScan(st.prog, st.world, st.In(ps0), st.at, pm, base, stop, c)
    requires ParentFits(st.prog, pm, stop, st.slotEnd)
    modifies st`freeset, st`r, st`mcode
    ensures st.HeadValid(ps) && PsOk(pm, stop, ps) && st.prog.Keys <= ps.Keys
    ensures Shuffling(st.prog, st.world, st.In(ps), st.at, pm, base, stop, c.allow, c.live, c.sload)
  {
    hide SpillCount, InFrame, HeadCode, RegsOk, Good, ProgOk, Cost, Val, HeadScan, PsOk, Shuffling;
    ps := ps0;
    if c.pass3 {
      var work := RSET_ALL - st.freeset;
      while work != {}
        invariant st.HeadValid(ps) && PsOk(pm, stop, ps) && st.prog.Keys <= ps.Keys
        invariant HeadScan(st.prog, st.world, st.In(ps), st.at, pm, base, stop, c)
        invariant forall q {:trigger q in work} :: q in work ==> IsReg(q) && q !in st.freeset
        invariant forall q {:trigger q in st.freeset} :: IsReg(q) && q !in st.freeset && q !in work ==>
                    q in st.cost && RefOf(st.cost[q]) in pm && pm[RefOf(st.cost[q])].PReg?
        decreases |work|
      {
        var q := ASMState.PickBot(work);
        OwnReg(st.prog, st.In(ps), st.at.cur, q);
        ScanOwner(st.prog, st.world, st.In(ps), st.at, pm, base, stop, c, q);
        var n := RefOf(st.cost[q]);
        if pm[n].PSlot? {
          ps := RestoreOne(st, pm, base, stop, ps, c, q, n);
        }
        work := work - {q};
      }
      assert forall q {:trigger q in st.freeset} :: IsReg(q) && q !in st.freeset ==> q in st.cost && RefOf(st.cost[q]) in pm && pm[RefOf(st.cost[q])].PReg?;
    }
    ReadyToShuffle(st.prog, st.world, st.In(ps), st.at, pm, base, stop, c);
  }

  /** The part of the scan's result that still matters once slots are settled. */
  ghost predicate HeadScan(p: Prog, w: World, a: Alloc, t: Point, pm: ParentMap, base: Place, stop: Ref, c: Scan) {
    && Unneeded(t.temp, c.allow)
    && ScanRegs(a, pm, stop, REF_BASE, {}, c.live, c.sload, c.pass3)
    && ScanLive(a, t.temp, pm, stop, REF_BASE, c.live, c.sload, {})
    && FromParent(p, w, pm, base, stop, REF_BASE, t.temp)
  }

  lemma ScanOwner(p: Prog, w: World, a: Alloc, t: Point, pm: ParentMap, base: Place, stop: Ref, c: Scan, q: Reg)
    requires HeadScan(p, w, a, t, pm, base, stop, c) && IsReg(q) && q !in a.free
    ensures q in a.cost && IsParent(stop, RefOf(a.cost[q])) && RefOf(a.cost[q]) in pm
  {
    assert q in a.cost;
  }

  lemma ReadyToShuffle(p: Prog, w: World, a: Alloc, t: Point, pm: ParentMap, base: Place, stop: Ref, c: Scan)
    requires HeadScan(p, w, a, t, pm, base, stop, c)
    requires c.pass3 ==> forall q {:trigger q in a.free} :: IsReg(q) && q !in a.free ==> q in a.cost && RefOf(a.cost[q]) in pm && pm[RefOf(a.cost[q])].PReg?
    ensures Shuffling(p, w, a, t, pm, base, stop, c.allow, c.live, c.sload)
  {
    hide FromParent;
    forall q | IsReg(q) && q !in a.free ensures q in a.cost && Waiting(pm, stop, c.live, c.sload, RefOf(a.cost[q])) {
      assert q in a.cost && Served(pm, stop, c.live, c.sload, RefOf(a.cost[q]), c.pass3);
    }
  }

  lemma ParentSlot(p: Prog, pm: ParentMap, base: Place, stop: Ref, n: Ref)
    requires ParentsOk(p, pm, base, stop) && IsParent(stop, n) && n in pm && pm[n].PSlot?
    ensures pm[n].slot != 0 && n in p
  {
  }

  lemma GivenIs(a: Alloc, q: Reg, n: Ref, place: Place)
    ensures Given(a, q, n, place) == a.(free := a.free + {q}, r := a.r[n := place])
  {
  }

  lemma RestoredOne(p: Prog, w: World, goal: seq<Event>, code: seq<MIns>, a: Alloc, t: Point, pm: ParentMap, base: Place, stop: Ref,
                    c: Scan, q: Reg, n: Ref, slot: nat, ps: map<Ref, nat>)
    requires Good(p, w, goal, code, a, t) && RegsOk(p, a, t.cur) && TempOk(a, t) && a.s == ps && PsOk(pm, stop, ps) && t.saved == {}
    requires HeadScan(p, w, a, t, pm, base, stop, c) && p.Keys <= ps.Keys && t.cur == stop + 1
    requires IsReg(q) && q !in a.free && q in a.cost && RefOf(a.cost[q]) == n && n in pm && pm[n] == PSlot(slot) && slot != 0 && IsParent(stop, n)
    ensures var b := Given(a.(s := ps[n := slot]), q, n, Hint(q));
            && Good(p, w, goal, [Reload(q, slot, TypeOf(p, n).wide)] + code, b, t) && RegsOk(p, b, t.cur) && TempOk(b, t)
            && HeadScan(p, w, b, t, pm, base, stop, c) && PsOk(pm, stop, ps[n := slot])
  {
    hide Good, RegsOk, HeadScan, Cost;
    OwnReg(p, a, t.cur, q);
    var ps' := ps[n := slot];
    ExpectSlot(p, w, goal, code, a, t, n, slot);
    OtherSlots(p, a, t.cur, ps');
    Restore(p, w, goal, code, a.(s := ps'), t, q, n, Hint(q));
    GivenOk(p, a.(s := ps'), t.cur, q, n, Hint(q));
    RestoredScan(p, w, a, t, pm, base, stop, c, q, n, ps');
  }

  method RestoreOne(st: ASMState, pm: ParentMap, ghost base: Place, stop: Ref, ghost ps: map<Ref, nat>, ghost c: Scan, q: Reg, n: Ref)
    returns (ghost ps': map<Ref, nat>)
    requires st.HeadValid(ps) && st.at.cur == stop + 1 && PsOk(pm, stop, ps) && st.at.saved == {} && st.prog.Keys <= ps.Keys
    requires HeadScan(st.prog, st.world, st.In(ps), st.at, pm, base, stop, c) && ParentsOk(st.prog, pm, base, stop)
    requires IsReg(q) && q !in st.freeset && q in st.cost && RefOf(st.cost[q]) == n && n in pm && pm[n].PSlot? && IsParent(stop, n)
    requires pm[n].slot + (if TypeOf(st.prog, n).wide then 2 else 1) <= st.slotEnd
    modifies st`freeset, st`r, st`mcode
    ensures st.HeadValid(ps') && PsOk(pm, stop, ps') && ps'.Keys == ps.Keys && st.freeset == old(st.freeset) + {q}
    ensures HeadScan(st.prog, st.world, st.In(ps'), st.at, pm, base, stop, c)
  {
    hide SpillCount, InFrame, HeadCode, RegsOk, Good, ProgOk, Cost, Val, HeadScan, TempOk, PsOk, ParentsOk, Given;
    ParentSlot(st.prog, pm, base, stop, n);
    var slot := pm[n].slot;
    ps' := ps[n := slot];
    RestoredOne(st.prog, st.world, st.goal, st.mcode, st.In(ps), st.at, pm, base, stop, c, q, n, slot, ps);
    HeadMore(st.mcode, Reload(q, slot, TypeOf(st.prog, n).wide), st.body, st.slotEnd);
    GivenIs(st.In(ps'), q, n, Hint(q));
    st.freeset := st.freeset + {q};
    st.r := st.r[n := Hint(q)];
    st.mcode := [Reload(q, slot, TypeOf(st.prog, n).wide)] + st.mcode;
  }

  lemma RestoredScan(p: Prog, w: World, a: Alloc, t: Point, pm: ParentMap, base: Place, stop: Ref, c: Scan, q: Reg, n: Ref, ps: map<Ref, nat>)
    requires HeadScan(p, w, a, t, pm, base, stop, c) && n in pm && pm[n].PSlot?
    ensures HeadScan(p, w, Given(a.(s := ps), q, n, Hint(q)), t, pm, base, stop, c)
  {
    hide FromParent;
    var b := Given(a.(s := ps), q, n, Hint(q));
    forall x | x in c.live
      ensures x in c.sload && x !in t.temp && Awaited(pm, stop, x, c.sload[x]) && c.sload[x] in b.r && b.r[c.sload[x]].InReg?
    {
      assert Awaited(pm, stop, x, c.sload[x]);
    }
  }

  lemma NothingScanned(p: Prog, w: World, a: Alloc, t: Point, pm: ParentMap, base: Place, stop: Ref, d: nat, allow: set<Reg>)
    requires Unneeded(t.temp, allow) && FromParent(p, w, pm, base, stop, stop, t.temp) && t.saved == {} && t.cur == stop + 1
    requires RegsOk(p, a, t.cur) && forall q {:trigger q in a.free} :: IsReg(q) && q !in a.free ==> q in a.cost && RefOf(a.cost[q]) > REF_BASE
    ensures Scanning(p, w, a, t, pm, base, stop, d, stop, allow, {}, map[], {}, false)
  {
    hide FromParent;
    forall q | IsReg(q) && q !in a.free ensures q in a.cost && IsParent(stop, RefOf(a.cost[q])) && RefOf(a.cost[q]) <= stop {
      assert OwnerOk(p, a, t.cur, q);
    }
  }

  lemma SlotsSettled(p: Prog, w: World, a: Alloc, t: Point, pm: ParentMap, base: Place, stop: Ref, d: nat, c: Scan, ps: map<Ref, nat>)
    requires Scanned(p, w, a, t, pm, base, stop, d, c) && c.marks == {}
    ensures HeadScan(p, w, a.(s := ps), t.(sp := t.sp + d, saved := {}), pm, base, stop, c)
  {
    hide FromParent;
    var b := a.(s := ps);
    forall q | IsReg(q) && q !in b.free ensures q in b.cost && IsParent(stop, RefOf(b.cost[q])) && Served(pm, stop, c.live, c.sload, RefOf(b.cost[q]), c.pass3) {
      assert q !in a.free;
    }
  }

  /** The parent provides what is demanded at the very head. */
  lemma ParentMeets(p: Prog, w: World, a: Alloc, t: Point, pm: ParentMap, base: Place, stop: Ref, m: Machine)
    requires ParentState(p, w, pm, base, stop, t.sp, m) && ParentsOk(p, pm, base, stop) && a.free == RSET_ALL && t.cur == stop + 1
    requires FromParent(p, w, pm, base, stop, REF_BASE, t.temp) && PsOk(pm, stop, a.s) && p.Keys <= a.s.Keys && t.out == []
    ensures Meets(p, w, a, t, m)
  {
    forall n | n in p && n < t.cur && n !in t.saved ensures InSlot(p, w, a, m, n) {
      assert n in a.s;
      if a.s[n] != 0 {
        assert n in pm;
      }
    }
    forall q ensures InTemp(t, m, q) {
      if q in t.temp {
        assert ParentHas(p, w, pm, base, stop, REF_BASE, q, t.temp[q]);
        if base != InReg(q) || t.temp[q] != w.base {
          var n :| IsParent(stop, n) && REF_BASE < n && n in pm && pm[n] == PReg(q) && t.temp[q] == Val(p, w, n);
          assert n in pm;
        }
      }
    }
  }

  lemma {:induction false} ParentsHaveNoEffect(p: Prog, w: World, pm: ParentMap, base: Place, stop: Ref, n: Ref)
    requires ProgOk(p) && ParentsOk(p, pm, base, stop) && n <= stop + 1
    ensures Out(p, w, n) == []
  {
    if n > 0 {
      ParentsHaveNoEffect(p, w, pm, base, stop, n - 1);
      assert n - 1 in p ==> p[n - 1] == p[n - 1];
      assert IsParent(stop, n - 1) ==> n - 1 in pm || n - 1 !in pm;
    }
  }

  /** The first half of asm_head_side: constants are rematerialised, the parent's values are
      scanned, and spilled ones reloaded. */
  method CollectParents(st: ASMState, pm: ParentMap, base: Place, stop: Ref, padj: nat) returns (res: Outcome<Scan>, d: nat)
    requires st.Valid() && st.Before(stop + 1) && stop >= REF_BASE && ParentsOk(st.prog, pm, base, stop)
    modifies st`freeset, st`modset, st`cost, st`r, st`s, st`evenspill, st`oddspill, st`mcode, st`at
    ensures res.Ok? ==> st.evenspill == old(st.evenspill) && d == FrameDelta(st.evenspill, padj)
    ensures res.Ok? ==> st.Valid() && st.at == old(st.at).(temp := st.at.temp, saved := st.at.saved) && res.value.marks == {}
    ensures res.Ok? ==> Scanned(st.prog, st.world, st.Now(), st.at, pm, base, stop, d, res.value)
    ensures res.Ok? ==> |RSET_ALL - res.value.allow| <= 1 + stop - REF_BASE && |res.value.live| <= stop - REF_BASE
    ensures res.Err? ==> res.error == NyiCoal && 14 <= 1 + stop - REF_BASE
  {
    hide SpillCount, InFrame, HeadCode, RegsOk, SlotsOk, Good, ProgOk, Cost, Val, Out, Scanning, ParentsOk, FromParent;
    st.RaEvictK();
    var pbase := HeadBase(st, base, pm, stop);
    ghost var g := FrameDelta(st.evenspill, padj);
    NothingScanned(st.prog, st.world, st.Now(), st.at, pm, base, stop, g, RSET_ALL - pbase);
    var c := ScanParents(st, pm, base, stop, g, RSET_ALL - pbase);
    d := FrameDelta(st.evenspill, padj);
    AllowedAll(pbase);
    ghost var n := stop - REF_BASE;
    res := ReloadSpilled(st, pm, base, stop, d, c, 1 + n, n);
  }

  /** The slots that hold values of the parent end within its frame. */
  ghost predicate ParentFits(p: Prog, pm: ParentMap, stop: Ref, end: nat) {
    forall n {:trigger n in pm} :: IsParent(stop, n) && n in pm && pm[n].PSlot? ==> pm[n].slot + (if TypeOf(p, n).wide then 2 else 1) <= end
  }

  /** How much larger than the parent's the frame has to be; it never shrinks. */
  function FrameDelta(even: nat, padj: nat): nat {
    if StackAdjust(even) < padj then 0 else StackAdjust(even) - padj
  }

  /** The frame is adjusted relative to the parent's: what comes before it finds the values where the
      parent has them. */
  method AdjustFrame(st: ASMState, pm: ParentMap, ghost base: Place, stop: Ref, d: nat, ghost padj: nat, ghost c: Scan) returns (ghost ps: map<Ref, nat>)
    requires st.Valid() && st.at.cur == stop + 1 && stop >= REF_BASE && ParentsOk(st.prog, pm, base, stop) && c.marks == {}
    requires Scanned(st.prog, st.world, st.Now(), st.at, pm, base, stop, d, c)
    modifies st`mcode, st`at, st`body, st`slotEnd
    ensures st.HeadValid(ps) && PsOk(pm, stop, ps) && st.prog.Keys <= ps.Keys
    ensures HeadScan(st.prog, st.world, st.In(ps), st.at, pm, base, stop, c)
    ensures st.at == old(st.at).(sp := old(st.at).sp + d, saved := {})
    ensures st.body == [SpSub(d)] + old(st.mcode) && st.slotEnd == SPS_FIXED + padj
  {
    hide SpillCount, InFrame, HeadCode, RegsOk, SlotsOk, Good, ProgOk, Cost, Val, Scanning, ParentsOk, HeadScan, PsOk, ParentSlots;
    ps := ParentSlots(st.Now(), st.at.saved, pm, stop);
    ParentSlotsOk(st.prog, st.world, st.Now(), st.at, pm, base, stop, d, c);
    Grow(st.prog, st.world, st.goal, st.mcode, st.Now(), st.at, d, ps);
    OtherSlots(st.prog, st.Now(), st.at.cur, ps);
    SlotsSettled(st.prog, st.world, st.Now(), st.at, pm, base, stop, d, c, ps);
    st.mcode := [SpSub(d)] + st.mcode;
    st.at := st.at.(sp := st.at.sp + d, saved := {});
    st.body, st.slotEnd := st.mcode, SPS_FIXED + padj;
    HeadNone(st.mcode, st.slotEnd);
  }

  /** asm_head_side, for a parent whose frame adjustment is padj. */
  method AsmHeadSide(st: ASMState, pm: ParentMap, base: Place, stop: Ref, padj: nat) returns (res: Outcome<()>, d: nat)
    requires st.Valid() && st.Before(stop + 1) && stop >= REF_BASE && ParentsOk(st.prog, pm, base, stop)
    requires ParentFits(st.prog, pm, stop, SPS_FIXED + padj)
    modifies st`freeset, st`modset, st`cost, st`r, st`s, st`evenspill, st`oddspill, st`mcode, st`at, st`body, st`slotEnd
    ensures res.Err? ==> res.error == NyiCoal && 14 <= 3 * (stop - REF_BASE) + 1
    ensures res.Ok? ==> st.freeset == RSET_ALL && d == FrameDelta(st.evenspill, padj) && Framed(st.mcode, d, st.evenspill, SPS_FIXED + padj)
    ensures res.Ok? ==> forall m: Machine {:trigger Run(st.world, m, st.mcode)} ::
              ParentState(st.prog, st.world, pm, base, stop, old(st.at).sp + d, m) ==> Run(st.world, m, st.mcode).out == st.goal
  {
    hide SpillCount, InFrame, HeadCode, RegsOk, SlotsOk, Good, ProgOk, Cost, Val, Out, Scanning, ParentsOk, Shuffling, HeadScan, PsOk, FromParent, ParentSlots, ParentState,
         ParentFits, FrameDelta;
    ParentsHaveNoEffect(st.prog, st.world, pm, base, stop, stop + 1);
    var got;
    got, d := CollectParents(st, pm, base, stop, padj);
    if got.Err? {
      return Err(got.error), d;
    }
    var c := got.value;
    ghost var rest := st.mcode;
    ghost var ps := AdjustFrame(st, pm, base, stop, d, padj, c);
    ps := RestoreFromParent(st, pm, base, stop, ps, d, c);
    res := Shuffle(st, pm, base, stop, ps, c.allow, c.live, c.sload);
    if res.Ok? {
      assert Framed(st.mcode, d, st.evenspill, SPS_FIXED + padj) by {
        assert HeadCode(st.mcode, [SpSub(d)] + rest, SPS_FIXED + padj) && InFrame(rest, st.evenspill);
      }
      forall m | ParentState(st.prog, st.world, pm, base, stop, st.at.sp, m) ensures Run(st.world, m, st.mcode).out == st.goal {
        ParentMeets(st.prog, st.world, st.In(ps), st.at, pm, base, stop, m);
        GoodRun(st.prog, st.world, st.goal, st.mcode, st.In(ps), st.at, m);
      }
    }
  }

  /** What holds for one place of the stack holds for all. */
  lemma AnywhereSide(p: Prog, w: World, pm: ParentMap, base: Place, stop: Ref, m: Machine, sp: int, code: seq<MIns>, goal: seq<Event>)
    requires ParentState(p, w, pm, base, stop, m.sp, m)
    requires forall x: Machine {:trigger Run(w, x, code)} :: ParentState(p, w, pm, base, stop, sp, x) ==> Run(w, x, code).out == goal
    ensures Run(w, m, code).out == goal
  {
    hide MovedAt, Holds, Run;
    var n := sp - m.sp;
    var m' := m.(sp := m.sp + n, mem := MovedMem(m.mem, n));
    ShiftedBy(m, n);
    ShiftRun(w, m, m', n, code);
    forall k | IsParent(stop, k) && k in pm && pm[k].PSlot? ensures Holds(m', pm[k].slot, TypeOf(p, k).wide, w.parent(k)) {
      ShiftPeek(m, m', n, pm[k].slot, TypeOf(p, k).wide, w.parent(k));
    }
    assert ParentState(p, w, pm, base, stop, sp, m');
  }

  /** lj_asm_trace for a side trace, whose parent has left the values the map names: wherever the
      stack is, the code has the effects of the trace and stores only inside its frame. */
  method AssembleSide(p: Prog, ghost w: World, nins: Ref, hints: map<Ref, Reg>, slots: nat, loop: Ref, eliminate: bool,
                      pm: ParentMap, base: Place, stop: Ref, padj: nat) returns (res: Outcome<Trace>)
    requires ProgOk(p) && WorldOk(w) && 2 <= slots < 256 && forall n {:trigger n in p} :: n in p ==> n < nins
    requires REF_BASE <= stop < nins && forall n {:trigger n in p} :: stop < n < nins ==> n in p && !p[n].Parent?
    requires ParentsOk(p, pm, base, stop) && ParentFits(p, pm, stop, SPS_FIXED + padj)
    ensures res.Err? ==> (res.error == SpillOv && slots + 1 + 2 * (nins - REF_BASE - 1) > 256) || (res.error == NyiCoal && 3 * (stop - REF_BASE) + 1 >= 14)
    ensures res.Ok? ==> var t, d := res.value, FrameDelta(res.value.even, padj);
              t.spadjust == padj + d && t.even <= SPS_FIXED + t.spadjust && Framed(t.code, d, t.even, SPS_FIXED + padj)
    ensures res.Ok? ==> res.value.spadjust == padj || res.value.spadjust == StackAdjust(res.value.even)
    ensures res.Ok? ==> forall m: Machine {:trigger Run(w, m, res.value.code)} :: ParentState(p, w, pm, base, stop, m.sp, m) ==>
              && Run(w, m, res.value.code).out == Out(p, w, nins)
              && SameOutside(m.mem, Run(w, m, res.value.code).mem, m.sp + padj - res.value.spadjust, m.sp + padj + SPS_FIXED)
  {
    hide SpillCount, InFrame, HeadCode, ProgOk, WorldOk, RegsOk, SlotsOk, Good, Val, Out, ParentsOk, ParentState, ParentFits, Framed, SameOutside, StackAdjust;
    var st := new ASMState(p, w, nins, hints, slots, loop, eliminate, 0);
    var unused :- st.AsmLoop(nins, stop);
    var done, d := AsmHeadSide(st, pm, base, stop, padj);
    if done.Err? {
      return Err(done.error);
    }
    var even, code := st.evenspill, st.mcode;
    FrameFits(even);
    forall m: Machine | ParentState(p, w, pm, base, stop, m.sp, m)
      ensures Run(w, m, code).out == Out(p, w, nins) && SameOutside(m.mem, Run(w, m, code).mem, m.sp - d, m.sp + padj + SPS_FIXED)
    {
      AnywhereSide(p, w, pm, base, stop, m, d, code, Out(p, w, nins));
      FramedInside(w, m, code, d, even, SPS_FIXED + padj);
      MoreOutside(m.mem, Run(w, m, code).mem, m.sp - d, m.sp - d + even, m.sp + padj + SPS_FIXED);
    }
    return Ok(Trace(code, padj + d, even));
  }

  lemma AllowedAll(pbase: set<Reg>)
    requires |pbase| <= 1
    ensures |RSET_ALL - (RSET_ALL - pbase)| <= 1
  {
    SubsetSize(RSET_ALL - (RSET_ALL - pbase), pbase);
  }
}
