/** The backwards register allocator and assembler (lj_asm.c, lj_asm_x86.h): code is
    prepended, registers are evicted, restored, rematerialised and renamed on demand. */
module RegAlloc {
  import opened RegFrame
  import opened RegMachine
  import opened RegState

  /** Registers outside allow keep their contents. */
  ghost predicate KeptOutside(a: Alloc, b: Alloc, allow: set<Reg>) {
    forall q {:trigger q in b.free} {:trigger q in a.free} :: q !in allow ==>
      (q in a.free <==> q in b.free) && (q !in a.free && q in a.cost ==> q in b.cost && b.cost[q] == a.cost[q])
  }

  /** A set of registers of one class. */
  ghost predicate OneClass(allow: set<Reg>, fp: bool) {
    forall q {:trigger q in allow} :: q in allow ==> IsReg(q) && IsFpr(q) == fp
  }

  /** The owner of register q has lost it. */
  ghost predicate Evicted(r: map<Ref, Place>, r': map<Ref, Place>, cost: map<Reg, nat>, q: Reg) {
    q in cost && RefOf(cost[q]) in r && RefOf(cost[q]) in r' && r[RefOf(cost[q])] == InReg(q) && !r'[RefOf(cost[q])].InReg?
    && r' == r[RefOf(cost[q]) := r'[RefOf(cost[q])]]
  }

  /** An instruction may lose its register, but does not get another one. */
  ghost predicate KeptPlaces(r: map<Ref, Place>, r': map<Ref, Place>) {
    r.Keys == r'.Keys && forall n {:trigger n in r} {:trigger n in r'} :: n in r && r'[n].InReg? ==> r[n] == r'[n]
  }

  /** Two registers in use hold different instructions. */
  lemma OwnReg(p: Prog, a: Alloc, cur: Ref, q: Reg)
    requires RegsOk(p, a, cur) && IsReg(q) && q !in a.free
    ensures q in a.cost && RefOf(a.cost[q]) in p && RefOf(a.cost[q]) < cur && RefOf(a.cost[q]) in a.r && a.r[RefOf(a.cost[q])] == InReg(q)
    ensures TypeOf(p, RefOf(a.cost[q])).fp == IsFpr(q) && HasValue(p[RefOf(a.cost[q])])
  {
    assert OwnerOk(p, a, cur, q);
  }

  lemma OwnCost(p: Prog, a: Alloc, cur: Ref, q: Reg)
    requires RegsOk(p, a, cur) && ProgOk(p) && IsReg(q) && q !in a.free
    ensures q in a.cost && a.cost[q] < 0xFFFF_FFFF
  {
    hide Cost;
    assert OwnerOk(p, a, cur, q);
    var n := RefOf(a.cost[q]);
    assert p[n] == p[n];
    CostRef(n, TypeOf(p, n).phi);
  }

  lemma InPlace(p: Prog, a: Alloc, cur: Ref, n: Ref)
    requires RegsOk(p, a, cur) && n in p && n < cur
    ensures n in a.r
    ensures a.r[n].InReg? ==> IsReg(a.r[n].reg) && a.r[n].reg !in a.free && a.r[n].reg in a.cost && RefOf(a.cost[a.r[n].reg]) == n
                              && IsFpr(a.r[n].reg) == TypeOf(p, n).fp && HasValue(p[n])
  {
    assert PlaceOk(p, a, n);
    if a.r[n].InReg? {
      assert OwnerOk(p, a, cur, a.r[n].reg);
    }
  }

  lemma KindOf(p: Prog, n: Ref)
    requires ProgOk(p) && n in p
    ensures n < 0xFFFF && (n < REF_TRUE <==> p[n].Const?) && (n == REF_BASE <==> p[n].Base?) && (n < REF_TRUE || n >= REF_BASE)
  {
    assert p[n] == p[n];
  }

  /** A slot ends below the even spill counter. */
  lemma SlotEnd(p: Prog, a: Alloc, n: Ref)
    requires SlotsOk(p, a) && n in p
    ensures n in a.s && (a.s[n] != 0 ==> a.s[n] + (if TypeOf(p, n).wide then 2 else 1) <= a.even)
  {
    assert SlotOk(p, a, n);
  }

  lemma SlotOf(p: Prog, a: Alloc, n: Ref)
    requires SlotsOk(p, a) && n in p
    ensures n in a.s && (n <= REF_BASE || !HasValue(p[n]) ==> a.s[n] == 0)
  {
    assert SlotOk(p, a, n);
  }

  class ASMState {
    const prog: Prog
    const loopref: Ref
    /** JIT_F_OPT_DCE */
    const dce: bool
    /** The first spill slot for values, and the reference behind the trace. */
    const first: nat
    const top: Ref
    ghost const world: World
    ghost const goal: seq<Event>
    var freeset: set<Reg>
    var modset: set<Reg>
    var cost: map<Reg, nat>
    var r: map<Ref, Place>
    var s: map<Ref, nat>
    var evenspill: nat
    var oddspill: nat
    /** The code from as->mcp on. */
    var mcode: seq<MIns>
    ghost var at: Point
    /** For the head of a side trace: the code behind it, and the end of the parent's slots. */
    ghost var body: seq<MIns>
    ghost var slotEnd: nat

    /** asm_setup_regsp: all registers are free, no instruction has one; some have hints.
        slots is the first spill slot that calls do not need. */
    constructor (p: Prog, ghost w: World, nins: Ref, hints: map<Ref, Reg>, slots: nat, loop: Ref, eliminate: bool, ghost sp: int)
      requires ProgOk(p) && WorldOk(w) && REF_BASE < nins && 2 <= slots < 256 && forall n {:trigger n in p} :: n in p ==> n < nins
      ensures Valid() && Before(nins) && prog == p && world == w && goal == Out(p, w, nins) && at.sp == sp
      ensures first <= slots + 1 && top == nins
    {
      hide ProgOk, WorldOk, Val, Out;
      prog, world, goal := p, w, Out(p, w, nins);
      loopref, dce := loop, eliminate;
      first, top := if slots % 2 == 1 then slots + 1 else slots, nins;
      freeset, modset := RSET_ALL, {};
      cost := map q | q in RSET_ALL + {4, 14} :: 0xFFFF_0000;
      r := map n | n in p :: if n in hints then Hint(hints[n]) else Init;
      s := map n | n in p :: 0;
      oddspill := if slots % 2 == 1 then slots else 0;
      evenspill := if slots % 2 == 1 then slots + 1 else slots;
      mcode, body, slotEnd := [], [], 0;
      at := Point(nins, map[], Out(p, w, nins), sp, {});
      new;
      assert RegsOk(prog, Now(), nins);
      assert SlotsOk(prog, Now());
      NoneSpilled(prog, s, evenspill, top);
    }

    ghost function Now(): Alloc
      reads this
    {
      Alloc(freeset, cost, r, s, evenspill, oddspill)
    }

    /** The book-keeping is consistent, and the code emitted so far is right for any
        machine that provides what the book-keeping says it needs. */
    ghost predicate Valid()
      reads this
    {
      && ProgOk(prog) && WorldOk(world)
      && RegsOk(prog, Now(), at.cur) && SlotsOk(prog, Now()) && TempOk(Now(), at)
      && Good(prog, world, goal, mcode, Now(), at) && SpillCount(prog, s, evenspill, first, top) && InFrame(mcode, evenspill)
    }

    /** When spilling fails: the slots do not suffice for all values of the trace. */
    predicate Overflows(e: TraceError) {
      e == SpillOv && first + 2 * (top - REF_BASE - 1) > 256
    }

    /** ra_rematk */
    method RaRematk(n: Ref) returns (q: Reg)
      requires Valid() && n in prog && n <= REF_BASE && n < at.cur && n in r && r[n].InReg?
      modifies this`freeset, this`modset, this`r, this`mcode
      ensures Valid() && q == old(r)[n].reg && q !in old(freeset) && freeset == old(freeset) + {q} && IsReg(q)
      ensures n in r && !r[n].InReg? && r == old(r)[n := r[n]]
    {
      hide SpillCount, InFrame, RegsOk, SlotsOk, Good, ProgOk;
      InPlace(prog, Now(), at.cur, n);
      KindOf(prog, n);
      q := r[n].reg;
      var place := if n == REF_BASE then Hint(RID_BASE) else Init;
      var i := if n == REF_BASE then LoadBase(q) else LoadK(q, prog[n].k);
      GivenOk(prog, Now(), at.cur, q, n, place);
      SlotsSame(prog, Now(), Given(Now(), q, n, place));
      Remat(prog, world, goal, mcode, Now(), at, q, n, place, i);
      freeset := freeset + {q};
      modset := modset + {q};
      r := r[n := place];
      FrameMore(mcode, i, evenspill);
      mcode := [i] + mcode;
    }

    /** ra_spill */
    method RaSpill(n: Ref) returns (res: Outcome<nat>)
      requires Valid() && n in prog && HasValue(prog[n]) && n > REF_BASE && n < at.cur
      modifies this`s, this`evenspill, this`oddspill
      ensures res.Err? ==> Overflows(res.error)
      ensures res.Ok? ==> Valid() && n in s && s[n] == res.value && res.value != 0 && s == old(s)[n := res.value]
      ensures res.Ok? <==> (n in old(s) && old(s)[n] != 0) || evenspill <= 256
      ensures n in old(s) && old(s)[n] != 0 ==> res == Ok(old(s)[n]) && unchanged(this)
    {
      hide SpillCount, InFrame, RegsOk, Good, ProgOk, TempOk, SlotsOk;
      SlotOf(prog, Now(), n);
      var slot := s[n];
      if slot == 0 {
        ghost var a := Now();
        if TypeOf(prog, n).wide {
          slot := evenspill;
          evenspill := evenspill + 2;
        } else if oddspill != 0 {
          slot := oddspill;
          oddspill := 0;
        } else {
          slot := evenspill;
          oddspill := slot + 1;
          evenspill := evenspill + 2;
        }
        SpillMore(prog, s, old(evenspill), first, top, n, 1, evenspill);
        if evenspill > 256 {
          return Err(SpillOv);
        }
        NewSlotOk(prog, a, n, slot, evenspill, oddspill);
        SlotKeeps(prog, world, goal, mcode, a, at, n, slot, evenspill, oddspill);
        SpillMore(prog, s, old(evenspill), first, top, n, slot, evenspill);
        FrameGrows(mcode, old(evenspill), evenspill);
        s := s[n := slot];
      }
      return Ok(slot);
    }

    /** ra_restore */
    method RaRestore(n: Ref) returns (res: Outcome<Reg>)
      requires Valid() && n in prog && n < at.cur && n in r && r[n].InReg?
      requires n !in at.saved
      modifies this`freeset, this`modset, this`r, this`s, this`evenspill, this`oddspill, this`mcode
      ensures res.Err? ==> Overflows(res.error)
      ensures res.Ok? ==> Valid() && res.value == old(r)[n].reg && res.value !in old(freeset) && freeset == old(freeset) + {res.value}
      ensures res.Ok? ==> IsReg(res.value) && n in r && !r[n].InReg? && r == old(r)[n := r[n]]
      ensures n <= REF_BASE ==> res.Ok?
    {
      hide SpillCount, InFrame, RegsOk, SlotsOk, Good, ProgOk;
      KindOf(prog, n);
      if n <= REF_BASE {
        var c := RaRematk(n);
        return Ok(c);
      }
      InPlace(prog, Now(), at.cur, n);
      var ofs :- RaSpill(n);
      InPlace(prog, Now(), at.cur, n);
      var q := r[n].reg;
      var i := Reload(q, ofs, TypeOf(prog, n).wide);
      GivenOk(prog, Now(), at.cur, q, n, Hint(q));
      SlotsSame(prog, Now(), Given(Now(), q, n, Hint(q)));
      Restore(prog, world, goal, mcode, Now(), at, q, n, Hint(q));
      r := r[n := Hint(q)];
      freeset := freeset + {q};
      modset := modset + {q};
      SlotEnd(prog, Now(), n);
      FrameMore(mcode, i, evenspill);
      mcode := [i] + mcode;
      return Ok(q);
    }

    /** ra_save */
    method RaSave(n: Ref, d: Reg)
      requires n in s && n in prog
      modifies this`mcode
      ensures mcode == [Spill(d, s[n], TypeOf(prog, n).wide)] + old(mcode)
    {
      mcode := [Spill(d, s[n], TypeOf(prog, n).wide)] + mcode;
    }

    /** rset_picktop on x64: the low registers first, eight at a time, and of those the last. */
    static method PickTop(rs: set<Reg>) returns (q: Reg)
      requires rs != {} && forall x :: x in rs ==> x < 32
      ensures q in rs && forall x :: x in rs ==> q / 8 < x / 8 || (q / 8 == x / 8 && x <= q)
    {
      var group := 0;
      ghost var some :| some in rs;
      while true
        invariant 0 <= group <= some / 8 && forall x :: x in rs ==> group <= x / 8
        decreases 4 - group
      {
        q := 8 * group + 7;
        while q !in rs && q > 8 * group
          invariant 8 * group <= q <= 8 * group + 7
          invariant forall x :: x in rs && x / 8 == group ==> x <= q
        {
          q := q - 1;
        }
        if q in rs {
          return;
        }
        assert forall x :: x in rs ==> x / 8 != group;
        group := group + 1;
      }
    }

    /** rset_pickbot: the lowest register. */
    static method PickBot(rs: set<Reg>) returns (q: Reg)
      requires rs != {} && forall x :: x in rs ==> x < 32
      ensures q in rs && forall x :: x in rs ==> q <= x
    {
      q := 0;
      while q !in rs
        invariant forall x :: x in rs ==> q <= x
        invariant q <= 32
        decreases 32 - q
      {
        q := q + 1;
      }
    }

    /** ra_evict: of the allowed registers, all in use, the one with the lowest cost. */
    method RaEvict(allow: set<Reg>, ghost fp: bool) returns (res: Outcome<Reg>)
      requires Valid() && allow != {} && OneClass(allow, fp) && allow * freeset == {}
      requires at.saved == {}
      modifies this`freeset, this`modset, this`r, this`s, this`evenspill, this`oddspill, this`mcode
      ensures res.Err? ==> Overflows(res.error)
      ensures res.Ok? ==> Valid() && res.value in allow && freeset == old(freeset) + {res.value}
      ensures res.Ok? ==> forall x :: x in allow ==> x in cost && res.value in cost && cost[res.value] <= cost[x]
      ensures res.Ok? ==> Evicted(old(r), r, cost, res.value)
    {
      hide SpillCount, InFrame, RegsOk, SlotsOk, Good, ProgOk, TempOk;
      forall x | x in allow ensures x !in freeset && x in cost && cost[x] < 0xFFFF_FFFF {
        assert x !in allow * freeset;
        OwnCost(prog, Now(), at.cur, x);
      }
      var c: nat := 0xFFFF_FFFF;
      var gprs := forall x :: x in allow ==> x < 16;
      var i, hi := if gprs then 0 else 16, if gprs then 16 else 32;
      ghost var best: Reg :| best in allow;
      ghost var lo, some := i, best;
      assert best >= 16 ==> !gprs;
      while i < hi
        invariant lo <= i <= hi
        invariant best in allow && best in cost && (c == 0xFFFF_FFFF || (cost[best] == c && c < 0xFFFF_FFFF))
        invariant forall x {:trigger x in allow} :: x in allow && x < i ==> x in cost && c <= cost[x]
        invariant c == 0xFFFF_FFFF ==> forall x :: x in allow ==> x >= i
      {
        if i in RSET_ALL && i in allow && cost[i] < c {
          c := cost[i];
          best := i;
        }
        i := i + 1;
      }
      var n := RefOf(c);
      assert c <= cost[some];
      assert forall x :: x in allow ==> x < hi && c <= cost[x];
      OwnReg(prog, Now(), at.cur, best);
      res := RaRestore(n);
      assert res.Ok? ==> res.value == best && cost[best] == c;
    }

    /** ra_pick */
    method RaPick(allow: set<Reg>, ghost fp: bool) returns (res: Outcome<Reg>)
      requires Valid() && allow != {} && OneClass(allow, fp)
      requires at.saved == {}
      modifies this`freeset, this`modset, this`r, this`s, this`evenspill, this`oddspill, this`mcode
      ensures res.Err? ==> Overflows(res.error)
      ensures res.Ok? ==> Valid() && res.value in allow && res.value in freeset && freeset == old(freeset) + {res.value}
      ensures res.Ok? ==> r == old(r) || Evicted(old(r), r, cost, res.value)
      ensures res.Ok? && res.value in old(freeset) ==> unchanged(this)
      ensures old(freeset) * allow != {} ==> res.Ok? && res.value in old(freeset)
    {
      var pick := freeset * allow;
      if pick == {} {
        res := RaEvict(allow, fp);
        assert res.Ok? ==> res.value !in pick;
      } else {
        assert forall x :: x in pick ==> x in allow;
        var q := PickTop(pick);
        assert freeset == freeset + {q};
        res := Ok(q);
      }
    }

    /** ra_scratch */
    method RaScratch(allow: set<Reg>, ghost fp: bool) returns (res: Outcome<Reg>)
      requires Valid() && allow != {} && OneClass(allow, fp)
      requires at.saved == {}
      modifies this`freeset, this`modset, this`r, this`s, this`evenspill, this`oddspill, this`mcode
      ensures res.Err? ==> Overflows(res.error)
      ensures res.Ok? ==> Valid() && res.value in allow && res.value in freeset && freeset == old(freeset) + {res.value}
      ensures res.Ok? ==> r == old(r) || Evicted(old(r), r, cost, res.value)
      ensures old(freeset) * allow != {} ==> res.Ok? && res.value in old(freeset)
    {
      hide SpillCount, InFrame, RegsOk, SlotsOk, Good, ProgOk, TempOk;
      var q :- RaPick(allow, fp);
      modset := modset + {q};
      return Ok(q);
    }

    /** ra_evictset: every register of the set becomes free. */
    method RaEvictSet(drop: set<Reg>) returns (res: Outcome<()>)
      requires Valid() && forall q {:trigger q in drop} :: q in drop ==> q < 32
      requires at.saved == {}
      modifies this`freeset, this`modset, this`r, this`s, this`evenspill, this`oddspill, this`mcode
      ensures res.Err? ==> Overflows(res.error)
      ensures res.Ok? ==> Valid() && (forall q {:trigger q in freeset} :: IsReg(q) ==> (q in freeset <==> q in old(freeset) || q in drop))
      ensures res.Ok? ==> KeptPlaces(old(r), r)
    {
      hide SpillCount, InFrame, RegsOk, SlotsOk, Good, ProgOk, TempOk;
      modset := modset + drop;
      var work := set q | q in drop && q !in freeset && IsFpr(q);
      var unused :- EvictAll(work);
      work := set q | q in drop && q !in freeset && IsReg(q);
      unused :- EvictAll(work);
      return Ok(());
    }

    /** The loop of ra_evictset: the registers are restored from the bottom. */
    method EvictAll(set0: set<Reg>) returns (res: Outcome<()>)
      requires Valid() && forall q {:trigger q in set0} :: q in set0 ==> IsReg(q) && q !in freeset
      requires at.saved == {}
      modifies this`freeset, this`modset, this`r, this`s, this`evenspill, this`oddspill, this`mcode
      ensures res.Err? ==> Overflows(res.error)
      ensures res.Ok? ==> Valid() && freeset == old(freeset) + set0 && KeptPlaces(old(r), r)
    {
      hide SpillCount, InFrame, RegsOk, SlotsOk, Good, ProgOk, TempOk;
      var work := set0;
      while work != {}
        invariant Valid() && KeptPlaces(old(r), r)
        invariant forall q {:trigger q in work} :: q in work ==> q in set0 && q !in freeset
        invariant forall q {:trigger q in freeset} :: q in freeset <==> q in old(freeset) || (q in set0 && q !in work)
        decreases |work|
      {
        var q := PickBot(work);
        assert q in set0;
        OwnReg(prog, Now(), at.cur, q);
        var got :- RaRestore(RefOf(cost[q]));
        work := work - {q};
      }
      return Ok(());
    }

    /** ra_evictk: every register that holds a constant becomes free. */
    method RaEvictK()
      requires Valid()
      modifies this`freeset, this`modset, this`r, this`mcode
      ensures Valid() && old(freeset) <= freeset
      ensures forall q {:trigger q in freeset} :: IsReg(q) && q !in freeset ==> q in cost && RefOf(cost[q]) >= REF_BASE
    {
      hide SpillCount, InFrame, RegsOk, SlotsOk, Good, ProgOk, TempOk;
      var fprs := set q: Reg | 0 <= q < 32 && q !in freeset && IsFpr(q);
      RematAll(fprs);
      var gprs := set q: Reg | 0 <= q < 32 && q !in freeset && IsGpr(q);
      RematAll(gprs);
      forall q | IsReg(q) && q !in freeset ensures q in cost && RefOf(cost[q]) >= REF_BASE {
        assert q in fprs || q in gprs;
      }
    }

    method RematAll(set0: set<Reg>)
      requires Valid() && forall q {:trigger q in set0} :: q in set0 ==> IsReg(q) && q !in freeset
      modifies this`freeset, this`modset, this`r, this`mcode
      ensures Valid() && old(freeset) <= freeset
      ensures forall q {:trigger q in set0} :: q in set0 && q !in freeset ==> q in cost && RefOf(cost[q]) >= REF_BASE
    {
      hide SpillCount, InFrame, RegsOk, SlotsOk, Good, ProgOk, TempOk;
      var work := set0;
      while work != {}
        invariant Valid() && old(freeset) <= freeset
        invariant forall q {:trigger q in work} :: q in work ==> q in set0 && q !in freeset
        invariant forall q {:trigger q in set0} :: q in set0 && q !in work && q !in freeset ==> q in cost && RefOf(cost[q]) >= REF_BASE
        decreases |work|
      {
        var q := PickBot(work);
        assert q in set0;
        OwnReg(prog, Now(), at.cur, q);
        var n := RefOf(cost[q]);
        if n < REF_BASE {
          var got := RaRematk(n);
        }
        work := work - {q};
      }
    }

    /** ra_allocref: a register for n, which has none yet. */
    method RaAllocRef(n: Ref, allow: set<Reg>) returns (res: Outcome<Reg>)
      requires Valid() && n in prog && n < at.cur && HasValue(prog[n]) && n in r && !r[n].InReg?
      requires allow != {} && OneClass(allow, TypeOf(prog, n).fp)
      requires at.saved == {} || freeset * allow != {}
      requires forall q {:trigger q in at.temp} :: q in at.temp && q in allow ==> at.temp[q] == Val(prog, world, n)
      modifies this`freeset, this`modset, this`cost, this`r, this`s, this`evenspill, this`oddspill, this`mcode, this`at
      ensures res.Err? ==> Overflows(res.error)
      ensures res.Ok? ==> Valid() && res.value in allow && res.value !in freeset && n in r && r[n] == InReg(res.value)
      ensures res.Ok? ==> at == old(at).(temp := old(at).temp - {res.value})
      ensures res.Ok? ==> KeptOutside(old(Now()), Now(), {res.value}) && KeptPlaces(old(r)[n := InReg(res.value)], r)
      ensures allow <= old(freeset) && res.Ok? ==> Now() == TakenBy(prog, old(Now()), res.value, n) && mcode == old(mcode)
      ensures old(freeset) * allow != {} ==> res.Ok?
    {
      hide SpillCount, InFrame, RegsOk, SlotsOk, Good, ProgOk, TempOk;
      var q :- ChooseReg(n, allow);
      ghost var mid, before := Now(), r;
      TakeReg(n, q);
      KeptTwice(old(Now()), mid, Now(), q);
      assert KeptPlaces(old(r)[n := InReg(q)], before[n := InReg(q)]);
      return Ok(q);
    }

    /** The end of ra_allocref: register q now belongs to n. */
    method TakeReg(n: Ref, q: Reg)
      requires Valid() && n in prog && n < at.cur && HasValue(prog[n]) && n in r && !r[n].InReg?
      requires q in freeset && IsReg(q) && IsFpr(q) == TypeOf(prog, n).fp && (q in at.temp ==> at.temp[q] == Val(prog, world, n))
      modifies this`freeset, this`cost, this`r, this`at
      ensures Valid() && freeset == old(freeset) - {q} && r == old(r)[n := InReg(q)] && at == old(at).(temp := old(at).temp - {q})
      ensures Now() == TakenBy(prog, old(Now()), q, n)
      ensures KeptOutside(old(Now()), Now(), {q}) && q in cost && RefOf(cost[q]) == n
    {
      hide SpillCount, InFrame, RegsOk, SlotsOk, Good, ProgOk, TempOk;
      KindOf(prog, n);
      CostRef(n, TypeOf(prog, n).phi);
      Take(prog, world, goal, mcode, Now(), at, q, n);
      TakenOk(prog, Now(), at.cur, q, n);
      SlotsSame(prog, Now(), TakenBy(prog, Now(), q, n));
      TempLess(Now(), at, q, prog, n);
      r := r[n := InReg(q)];
      freeset := freeset - {q};
      cost := cost[q := Cost(n, TypeOf(prog, n).phi)];
      at := at.(temp := at.temp - {q});
    }

    /** The choice of ra_allocref: a hint, a cheap victim for a hint, a free register, or
        the cheapest victim. */
    method ChooseReg(n: Ref, allow: set<Reg>) returns (res: Outcome<Reg>)
      requires Valid() && n in prog && n < at.cur && HasValue(prog[n]) && n in r && !r[n].InReg?
      requires allow != {} && OneClass(allow, TypeOf(prog, n).fp)
      requires at.saved == {} || freeset * allow != {}
      modifies this`freeset, this`modset, this`r, this`s, this`evenspill, this`oddspill, this`mcode
      ensures res.Err? ==> Overflows(res.error)
      ensures res.Ok? ==> Valid() && res.value in allow && res.value in freeset && freeset == old(freeset) + {res.value}
      ensures res.Ok? ==> n in r && !r[n].InReg? && KeptPlaces(old(r), r)
      ensures allow <= old(freeset) ==> unchanged(this)
      ensures old(freeset) * allow != {} ==> res.Ok?
    {
      hide SpillCount, InFrame, RegsOk, SlotsOk, Good, ProgOk, TempOk, Evicted;
      var pick := freeset * allow;
      assert forall x :: x in pick ==> x in allow;
      if pick == {} {
        res := RaEvict(allow, TypeOf(prog, n).fp);
        if res.Ok? {
          EvictedKeeps(old(r), r, cost, res.value, n);
        }
        return;
      }
      if r[n].Hint? {
        var q := r[n].hint;
        if q in pick {
          assert freeset == freeset + {q};
          return Ok(q);
        }
        if q in allow {
          assert q !in freeset;
          OwnReg(prog, Now(), at.cur, q);
          var k := RefOf(cost[q]);
          if k <= REF_BASE {
            var got := RaRematk(k);
            return Ok(q);
          }
        }
      }
      var q;
      if n < loopref && !TypeOf(prog, n).phi {
        if pick - modset != {} {
          pick := pick - modset;
        }
        q := PickBot(pick);
      } else {
        if pick - RSET_SCRATCH != {} {
          pick := pick - RSET_SCRATCH;
        }
        q := PickTop(pick);
      }
      assert freeset == freeset + {q};
      return Ok(q);
    }

    /** ra_alloc1: allow only matters if n has no register yet. */
    method RaAlloc1(n: Ref, allow: set<Reg>) returns (res: Outcome<Reg>)
      requires Valid() && n in prog && n < at.cur && HasValue(prog[n])
      requires at.saved == {}
      requires allow != {} && OneClass(allow, TypeOf(prog, n).fp)
      requires forall q {:trigger q in at.temp} :: q in at.temp && q in allow ==> at.temp[q] == Val(prog, world, n)
      modifies this`freeset, this`modset, this`cost, this`r, this`s, this`evenspill, this`oddspill, this`mcode, this`at
      ensures res.Err? ==> Overflows(res.error)
      ensures res.Ok? ==> Valid() && res.value !in freeset && n in r && r[n] == InReg(res.value) && IsReg(res.value)
      ensures res.Ok? ==> IsFpr(res.value) == TypeOf(prog, n).fp
      ensures res.Ok? ==> at == old(at).(temp := old(at).temp - {res.value}) && n in old(r)
      ensures res.Ok? && !old(r)[n].InReg? ==> res.value in allow
      ensures res.Ok? && old(r)[n].InReg? ==> old(r)[n] == InReg(res.value) && res.value !in old(at).temp
      ensures res.Ok? ==> KeptOutside(old(Now()), Now(), {res.value}) && KeptPlaces(old(r)[n := InReg(res.value)], r)
    {
      hide SpillCount, InFrame, RegsOk, SlotsOk, Good, ProgOk;
      InPlace(prog, Now(), at.cur, n);
      if r[n].InReg? {
        assert r[n].reg !in at.temp;
        assert at.temp - {r[n].reg} == at.temp;
        assert r[n := r[n]] == r;
        return Ok(r[n].reg);
      }
      res := RaAllocRef(n, allow);
    }

    /** The book-keeping in the frame of the parent, where ps says which slots hold what. */
    ghost function In(ps: map<Ref, nat>): Alloc
      reads this
    {
      Alloc(freeset, cost, r, ps, evenspill, oddspill)
    }

    /** The same in the head of a side trace; ps says where the parent has its values. */
    ghost predicate HeadValid(ps: map<Ref, nat>)
      reads this
    {
      && ProgOk(prog) && WorldOk(world)
      && RegsOk(prog, In(ps), at.cur) && TempOk(In(ps), at)
      && Good(prog, world, goal, mcode, In(ps), at) && HeadCode(mcode, body, slotEnd)
    }

    /** ra_rename */
    method RaRename(down: Reg, up: Reg, ghost ps: map<Ref, nat>)
      requires HeadValid(ps) && IsReg(down) && IsReg(up) && IsFpr(down) == IsFpr(up) && down !in freeset && up in freeset && up !in at.temp
      modifies this`freeset, this`modset, this`cost, this`r, this`mcode
      ensures HeadValid(ps) && freeset == old(freeset) + {down} - {up} && down in old(cost)
      ensures r == old(r)[RefOf(old(cost)[down]) := InReg(up)] && cost == old(cost)[up := old(cost)[down]][down := 0]
    {
      hide SpillCount, InFrame, HeadCode, RegsOk, Good, ProgOk, Cost;
      OwnReg(prog, In(ps), at.cur, down);
      var n := RefOf(cost[down]);
      Rename(prog, world, goal, mcode, In(ps), at, down, up, n);
      RenamedOk(prog, In(ps), at.cur, down, up, n);
      cost := cost[up := cost[down]];
      r := r[n := InReg(up)];
      cost := cost[down := 0];
      freeset := freeset + {down};
      modset := modset + {down};
      freeset := freeset - {up};
      HeadMore(mcode, Mov(down, up), body, slotEnd);
      mcode := [Mov(down, up)] + mcode;
    }

    /** ra_dest: the register the instruction at the current point has to write. Its value
        is demanded from there on; a spill slot is served by a store. */
    method RaDest(n: Ref, allow: set<Reg>) returns (res: Outcome<Reg>)
      requires Valid() && at.cur == n + 1 && at.temp == map[] && n in prog && HasValue(prog[n]) && n in r
      requires at.saved == {}
      requires allow != {} && OneClass(allow, TypeOf(prog, n).fp)
      modifies this`freeset, this`modset, this`r, this`s, this`evenspill, this`oddspill, this`mcode, this`at
      ensures res.Err? ==> Overflows(res.error)
      ensures res.Ok? ==> Valid() && IsReg(res.value) && IsFpr(res.value) == TypeOf(prog, n).fp
      ensures res.Ok? ==> at == DefPoint(prog, world, old(at), n, res.value) && res.value in freeset
      ensures res.Ok? ==> if old(r)[n].InReg? then res.value == old(r)[n].reg else res.value in allow
      ensures res.Ok? ==> freeset == old(freeset) + {res.value} && KeptPlaces(old(r)[n := InReg(res.value)], r)
      ensures res.Ok? ==> res.value in old(freeset) || !(old(freeset) * allow != {}) || old(r)[n].InReg?
    {
      hide SpillCount, InFrame, RegsOk, SlotsOk, Good, ProgOk, DefPoint;
      InPlace(prog, Now(), at.cur, n);
      var dest :- ChooseDest(n, allow);
      DefineIn(n, dest);
      return Ok(dest);
    }

    method ChooseDest(n: Ref, allow: set<Reg>) returns (res: Outcome<Reg>)
      requires Valid() && at.cur == n + 1 && at.temp == map[] && n in prog && HasValue(prog[n]) && n in r
      requires at.saved == {}
      requires allow != {} && OneClass(allow, TypeOf(prog, n).fp)
      modifies this`freeset, this`modset, this`r, this`s, this`evenspill, this`oddspill, this`mcode
      ensures res.Err? ==> Overflows(res.error)
      ensures res.Ok? ==> Valid() && IsReg(res.value) && n in r && freeset + {res.value} == old(freeset) + {res.value} && KeptPlaces(old(r), r)
      ensures res.Ok? ==> if old(r)[n].InReg? then res.value == old(r)[n].reg && r[n] == old(r)[n] else res.value in allow && res.value in freeset && !r[n].InReg?
      ensures res.Ok? ==> res.value in old(freeset) || !(old(freeset) * allow != {}) || old(r)[n].InReg?
    {
      hide SpillCount, InFrame, RegsOk, SlotsOk, Good, ProgOk, Evicted;
      InPlace(prog, Now(), at.cur, n);
      ghost var r0 := r;
      var dest: Reg;
      if r[n].InReg? {
        dest := r[n].reg;
        modset := modset + {dest};
      } else {
        if r[n].Hint? && r[n].hint in freeset * allow {
          dest := r[n].hint;
          modset := modset + {dest};
          assert freeset == freeset + {dest};
        } else {
          dest :- RaScratch(allow, TypeOf(prog, n).fp);
          if r != r0 {
            EvictedKeeps(r0, r, cost, dest, n);
          }
        }
      }
      return Ok(dest);
    }

    method DefineIn(n: Ref, dest: Reg)
      requires Valid() && at.cur == n + 1 && at.temp == map[] && n in prog && HasValue(prog[n]) && n in r && IsReg(dest)
      requires if r[n].InReg? then dest == r[n].reg else dest in freeset
      modifies this`freeset, this`r, this`mcode, this`at
      ensures Valid() && at == DefPoint(prog, world, old(at), n, dest) && freeset == old(freeset) + {dest} && r == old(r)[n := InReg(dest)]
    {
      hide SpillCount, InFrame, RegsOk, SlotsOk, Good, ProgOk, Defining, DefPoint;
      SlotOf(prog, Now(), n);
      DefTemp(prog, world, Now(), at, n, dest);
      DefiningOk(prog, Now(), n, dest);
      SlotsSame(prog, Now(), Defining(Now(), n, dest));
      Define(prog, world, goal, mcode, Now(), at, n, dest);
      at := DefPoint(prog, world, at, n, dest);
      if s[n] != 0 {
        SlotEnd(prog, Now(), n);
        FrameMore(mcode, Spill(dest, s[n], TypeOf(prog, n).wide), evenspill);
        RaSave(n, dest);
      } else {
        assert [] + mcode == mcode;
      }
      freeset := freeset + {dest};
      r := r[n := InReg(dest)];
    }

    /** Emits an instruction that computes the temporary d; u is what it needs instead. */
    method Emit(i: MIns, ghost d: Reg, ghost u: Point)
      requires Valid() && d in at.temp && u.cur == at.cur && u.out == at.out && u.sp == at.sp && u.saved == at.saved && TempOk(Now(), u)
      requires forall x {:trigger x in u.temp} :: x in at.temp && x != d ==> x in u.temp && u.temp[x] == at.temp[x]
      requires forall m {:trigger Step(world, m, i)} :: Meets(prog, world, Now(), u, m) ==> Step(world, m, i) == Set(m, d, at.temp[d])
      requires Reach(i) <= evenspill && !i.SpSub?
      modifies this`mcode, this`at
      ensures Valid() && at == u && mcode == [i] + old(mcode)
    {
      hide SpillCount, InFrame, RegsOk, SlotsOk, Good, ProgOk, Meets, Step;
      Compute(prog, world, goal, mcode, Now(), at, i, d, u);
      FrameMore(mcode, i, evenspill);
      mcode := [i] + mcode;
      at := u;
    }

    /** ra_destreg: the result has to be in register q. */
    method RaDestReg(n: Ref, q: Reg) returns (res: Outcome<()>)
      requires Valid() && at.cur == n + 1 && at.temp == map[] && n in prog && HasValue(prog[n]) && n in r
      requires at.saved == {}
      requires IsReg(q) && IsFpr(q) == TypeOf(prog, n).fp && (q in freeset || r[n] == InReg(q))
      modifies this`freeset, this`modset, this`r, this`s, this`evenspill, this`oddspill, this`mcode, this`at
      ensures res.Err? ==> Overflows(res.error)
      ensures res.Ok? ==> Valid() && at == DefPoint(prog, world, old(at), n, q) && q in freeset
      ensures res.Ok? ==> old(freeset) <= freeset && (old(r)[n].InReg? ==> old(r)[n].reg in freeset)
    {
      hide SpillCount, InFrame, RegsOk, SlotsOk, Good, ProgOk, Meets;
      var dest :- RaDest(n, {q});
      if dest != q {
        modset := modset + {q};
        ghost var u := at.(temp := map[q := Val(prog, world, n)]);
        forall m | Meets(prog, world, Now(), u, m) ensures Step(world, m, Mov(dest, q)) == Set(m, dest, at.temp[dest]) {
          TempValue(prog, world, Now(), u, m, q);
        }
        Emit(Mov(dest, q), dest, u);
      }
      return Ok(());
    }

    /** ra_left: the left operand of a two-operand instruction has to be in dest. */
    method RaLeft(dest: Reg, lref: Ref)
      requires Valid() && lref in prog && lref < at.cur && HasValue(prog[lref]) && IsReg(dest) && IsFpr(dest) == TypeOf(prog, lref).fp
      requires at.saved == {}
      requires dest in freeset && at.temp == map[dest := Val(prog, world, lref)]
      modifies this`freeset, this`modset, this`cost, this`r, this`s, this`evenspill, this`oddspill, this`mcode, this`at
      ensures Valid() && at == old(at).(temp := map[])
    {
      hide SpillCount, InFrame, RegsOk, SlotsOk, Good, ProgOk, Meets;
      InPlace(prog, Now(), at.cur, lref);
      KindOf(prog, lref);
      ghost var t := at;
      ghost var u := at.(temp := map[]);
      if !r[lref].InReg? {
        if lref < REF_BASE && (!TypeOf(prog, lref).fp || prog[lref].k == 0 || freeset * RSET_FPR == {}) {
          Emit(LoadK(dest, prog[lref].k), dest, u);
          return;
        }
        if !r[lref].Hint? && !(lref < loopref) {
          HintOk(prog, world, goal, mcode, Now(), at, lref, dest);
          r := r[lref := Hint(dest)];
        }
      }
      var left;
      if r[lref].InReg? {
        left := r[lref].reg;
        assert left != dest;
      } else {
        assert dest in freeset * ClassOf(dest);
        var got := RaAllocRef(lref, ClassOf(dest));
        left := got.value;
      }
      if dest != left {
        InPlace(prog, Now(), at.cur, lref);
        assert at.temp == t.temp;
        forall m | Meets(prog, world, Now(), u, m) ensures Step(world, m, Mov(dest, left)) == Set(m, dest, at.temp[dest]) {
          HasValueIn(prog, world, Now(), u, m, left);
        }
        Emit(Mov(dest, left), dest, u);
      } else {
        assert at.temp == map[];
      }
    }

    /** asm_fuseload without load fusion: a register, or a constant or spill slot used as a
        memory operand when registers are short. */
    method FuseLoad(n: Ref, allow: set<Reg>) returns (res: Outcome<Source>)
      requires Valid() && n in prog && n < at.cur && HasValue(prog[n]) && allow != {} && OneClass(allow, TypeOf(prog, n).fp)
      requires at.saved == {}
      requires forall q {:trigger q in at.temp} :: q in at.temp ==> q !in allow
      modifies this`freeset, this`modset, this`cost, this`r, this`s, this`evenspill, this`oddspill, this`mcode, this`at
      ensures res.Err? ==> Overflows(res.error)
      ensures res.Ok? ==> Valid() && at == old(at) && SourceOk(prog, Now(), at.cur, res.value, n)
    {
      hide SpillCount, InFrame, RegsOk, SlotsOk, Good, ProgOk, Meets;
      InPlace(prog, Now(), at.cur, n);
      KindOf(prog, n);
      SlotOf(prog, Now(), n);
      if r[n].InReg? {
        return Ok(R(r[n].reg));
      }
      var avail := freeset - modset;
      if n < REF_BASE && TypeOf(prog, n).fp {
        if |avail * RSET_FPR| < 2 {
          return Ok(K(prog[n].k));
        }
      } else if n == REF_BASE || (n < REF_BASE && TypeOf(prog, n).wide) {
        if |avail * RSET_GPR| < 2 {
          return Ok(if n == REF_BASE then G else K(prog[n].k));
        }
      }
      if freeset * allow == {} && n > REF_BASE && (s[n] != 0 || n < loopref) {
        var slot :- RaSpill(n);
        return Ok(S(slot, TypeOf(prog, n).wide));
      }
      var q :- RaAllocRef(n, allow);
      assert at.temp == old(at).temp;
      InPlace(prog, Now(), at.cur, n);
      return Ok(R(q));
    }

    /** asm_swapops */
    method SwapOps(n: Ref) returns (swap: bool)
      requires n in prog && prog[n].Arith? && prog[n].op1 in r && prog[n].op2 in r && n in r && !r[prog[n].op2].InReg?
      requires prog[n].op1 in prog && prog[n].op2 in prog
      ensures swap ==> IsComm(prog[n].op) && prog[n].op2 >= REF_BASE
    {
      var op1, op2 := prog[n].op1, prog[n].op2;
      if !IsComm(prog[n].op) || op2 < REF_BASE {
        return false;
      }
      if r[op1].InReg? || Low7(r[n]) == Low7(r[op2]) {
        return true;
      }
      if n > loopref {
        if op2 < loopref && !TypeOf(prog, op2).phi {
          return false;
        }
        if op1 < loopref && !TypeOf(prog, op1).phi {
          return true;
        }
      }
      return prog[op1].Sload?;
    }

    /** The point between instructions n - 1 and n. */
    ghost predicate Before(n: Ref)
      reads this
    {
      at.cur == n && at.temp == map[] && at.out == Out(prog, world, n) && at.saved == {}
    }

    /** asm_isk32, for integer operations */
    predicate IsK32(n: Ref)
    {
      n in prog && prog[n].Const? && !prog[n].t.fp && (!prog[n].t.wide || -0x8000_0000 <= prog[n].k < 0x8000_0000)
    }

    /** asm_intarith and asm_fparith: dest := left op right, as dest := left; dest op= right. */
    method AsmArith(n: Ref) returns (res: Outcome<()>)
      requires Valid() && Before(n + 1) && n in prog && prog[n].Arith?
      modifies this`freeset, this`modset, this`cost, this`r, this`s, this`evenspill, this`oddspill, this`mcode, this`at
      ensures res.Err? ==> Overflows(res.error)
      ensures res.Ok? ==> Valid() && Before(n) && at.sp == old(at).sp
    {
      hide SpillCount, InFrame, RegsOk, SlotsOk, Good, Meets, Val, Out;
      var op, lref, rref, fp := prog[n].op, prog[n].op1, prog[n].op2, prog[n].t.fp;
      assert Operand(prog, n, lref, fp) && Operand(prog, n, rref, fp);
      NoEffect(prog, world, n);
      InPlace(prog, Now(), at.cur, rref);
      InPlace(prog, Now(), at.cur, n);
      var allow := ClassSet(fp);
      var right := r[rref];
      TwoLeft(fp, if right.InReg? then right.reg else 0, 0);
      if right.InReg? {
        allow := allow - {right.reg};
      }
      var dest :- RaDest(n, allow);
      ghost var t := at;
      var src;
      if lref == rref {
        src := R(dest);
      } else if !right.InReg? && !IsK32(rref) {
        InPlace(prog, Now(), at.cur, lref);
        var swap := SwapOps(n);
        if swap {
          lref, rref := rref, lref;
        }
        TwoLeft(fp, dest, 0);
        src :- FuseLoad(rref, ClassSet(fp) - {dest});
      } else if right.InReg? {
        src := R(right.reg);
      } else {
        src := K(prog[rref].k);
      }
      ArithLeft(n, lref, rref, dest, src);
      res := Ok(());
    }

    /** The two-operand instruction, with its left operand brought into dest before it. */
    method ArithLeft(n: Ref, lref: Ref, ghost rref: Ref, dest: Reg, src: Source)
      requires Valid() && at.cur == n && n in prog && prog[n].Arith? && at.temp == map[dest := Val(prog, world, n)] && at.saved == {}
      requires (lref == prog[n].op1 && rref == prog[n].op2) || (lref == prog[n].op2 && rref == prog[n].op1 && IsComm(prog[n].op))
      requires (src == R(dest) && lref == rref) || SourceOk(prog, Now(), at.cur, src, rref)
      requires Operand(prog, n, lref, TypeOf(prog, n).fp) && IsReg(dest) && IsFpr(dest) == TypeOf(prog, n).fp
      modifies this`freeset, this`modset, this`cost, this`r, this`s, this`evenspill, this`oddspill, this`mcode, this`at
      ensures Valid() && at == old(at).(temp := map[])
    {
      hide SpillCount, InFrame, RegsOk, SlotsOk, Good, Meets, Val, Out, ProgOk, SourceOk;
      ghost var u := at.(temp := map[dest := Val(prog, world, lref)]);
      ArithStep(prog, world, Now(), at, n, lref, rref, dest, src, u);
      SourceReach(prog, Now(), at.cur, src, rref, prog[n].op, dest);
      Emit(Arith2(prog[n].op, dest, src), dest, u);
      RaLeft(dest, lref);
    }

    /** asm_sload without conversions and type checks */
    method AsmSload(n: Ref) returns (res: Outcome<()>)
      requires Valid() && Before(n + 1) && n in prog && prog[n].Sload?
      modifies this`freeset, this`modset, this`cost, this`r, this`s, this`evenspill, this`oddspill, this`mcode, this`at
      ensures res.Err? ==> Overflows(res.error)
      ensures res.Ok? ==> Valid() && Before(n) && at.sp == old(at).sp
    {
      hide SpillCount, InFrame, RegsOk, SlotsOk, Good, Meets, Val, Out;
      NoEffect(prog, world, n);
      InPlace(prog, Now(), at.cur, n);
      KindOf(prog, n);
      KindOf(prog, REF_BASE);
      SlotOf(prog, Now(), n);
      if !Used(n) {
        SkipIns(n);
        return Ok(());
      }
      TwoLeft(prog[n].t.fp, 0, 0);
      var dest :- RaDest(n, ClassSet(prog[n].t.fp));
      res := LoadFromStack(n, dest);
    }

    /** The base register is allocated, and the load emitted. The register taken for the
        base may be dest, as the load reads it before it writes it; this is why the
        book-keeping of the new owner follows the load. */
    method LoadFromStack(n: Ref, dest: Reg) returns (res: Outcome<()>)
      requires Valid() && n in prog && prog[n].Sload? && at.cur == n && at.temp == map[dest := Val(prog, world, n)] && dest in freeset
      requires at.saved == {}
      requires REF_BASE < n
      modifies this`freeset, this`modset, this`cost, this`r, this`s, this`evenspill, this`oddspill, this`mcode, this`at
      ensures res.Err? ==> Overflows(res.error)
      ensures res.Ok? ==> Valid() && at == old(at).(temp := map[])
    {
      hide SpillCount, InFrame, RegsOk, SlotsOk, Good, Meets, Val, Out, ProgOk;
      var slot := prog[n].slot;
      BaseValue(prog, world);
      SloadValue(prog, world, n);
      KindOf(prog, n);
      BaseIns(prog);
      InPlace(prog, Now(), at.cur, REF_BASE);
      if r[REF_BASE].InReg? {
        var base := r[REF_BASE].reg;
        ghost var u := at.(temp := map[]);
        forall m | Meets(prog, world, Now(), u, m) ensures Step(world, m, LoadStack(dest, base, slot)) == Set(m, dest, at.temp[dest]) {
          HasValueIn(prog, world, Now(), u, m, base);
        }
        Emit(LoadStack(dest, base, slot), dest, u);
      } else {
        TwoLeft(false, 0, 0);
        var base :- ChooseReg(REF_BASE, ClassSet(false));
        ghost var u := at.(temp := map[base := world.base]);
        forall m | Meets(prog, world, Now(), u, m) ensures Step(world, m, LoadStack(dest, base, slot)) == Set(m, dest, at.temp[dest]) {
          TempValue(prog, world, Now(), u, m, base);
        }
        Emit(LoadStack(dest, base, slot), dest, u);
        TakeReg(REF_BASE, base);
        assert at.temp == map[];
      }
      return Ok(());
    }

    /** ra_used */
    predicate Used(n: Ref)
      requires n in r && n in s
      reads this
    {
      r[n].InReg? || s[n] != 0
    }

    /** Dead-code elimination: nothing is emitted for an instruction that is not used. */
    method SkipIns(n: Ref)
      requires Valid() && Before(n + 1) && n in r && n in s && !Used(n) && (n !in prog || !SideEffect(prog[n]))
      modifies this`at
      ensures Valid() && Before(n) && at.sp == old(at).sp
    {
      hide Good, Val, Out;
      NoEffect(prog, world, n);
      ghost var u := at.(cur := n, out := Out(prog, world, n));
      SkipDead(prog, world, goal, mcode, Now(), at, u);
      FewerOwners(prog, Now(), n + 1, n);
      at := u;
    }

    /** A store, as asm_ahustore does it: the value first, then the address. */
    method AsmStore(n: Ref) returns (res: Outcome<()>)
      requires Valid() && Before(n + 1) && n in prog && prog[n].Store?
      modifies this`freeset, this`modset, this`cost, this`r, this`s, this`evenspill, this`oddspill, this`mcode, this`at
      ensures res.Err? ==> Overflows(res.error)
      ensures res.Ok? ==> Valid() && Before(n) && at.sp == old(at).sp
    {
      hide SpillCount, InFrame, RegsOk, SlotsOk, Good, Meets, Val, Out;
      var op, address, value := prog[n].op, prog[n].op1, prog[n].op2;
      assert Operand(prog, n, address, false) && value in prog && value < n && HasValue(prog[value]);
      hide ProgOk, ClassSet;
      SlotOf(prog, Now(), n);
      InPlace(prog, Now(), at.cur, n);
      TwoLeft(TypeOf(prog, value).fp, 0, 0);
      var src :- RaAlloc1(value, ClassSet(TypeOf(prog, value).fp));
      InPlace(prog, Now(), at.cur, value);
      InPlace(prog, Now(), at.cur, address);
      TwoLeft(false, src, 0);
      var base :- RaAlloc1(address, ClassSet(false) - {src});
      InPlace(prog, Now(), at.cur, address);
      if address != value {
        assert base != src;
      }
      assert src in cost && RefOf(cost[src]) == value && src !in freeset;
      StoreEffect(prog, world, n);
      EmitTheStore(n, op, base, src);
      return Ok(());
    }

    method EmitTheStore(n: Ref, op: nat, base: Reg, src: Reg)
      requires Valid() && Before(n + 1) && n in prog && prog[n].Store?
      requires IsReg(base) && IsReg(src) && base in cost && src in cost && base !in freeset && src !in freeset
      requires Out(prog, world, n + 1) == Out(prog, world, n) + [Stored(op, Val(prog, world, RefOf(cost[base])), Val(prog, world, RefOf(cost[src])))]
      modifies this`mcode, this`at
      ensures Valid() && Before(n) && at.sp == old(at).sp
    {
      hide SpillCount, InFrame, RegsOk, SlotsOk, Good, Meets, Val, Out, ProgOk;
      ghost var u := Point(n, map[], Out(prog, world, n), at.sp, at.saved);
      assert at.temp == map[];
      StoreIsNoValue(n);
      EmitStore(prog, world, goal, mcode, Now(), at, op, base, src, u);
      FrameMore(mcode, StoreTo(op, base, src), evenspill);
      mcode := [StoreTo(op, base, src)] + mcode;
      at := u;
    }

    /** asm_setupresult and asm_gencall: scratch registers are evicted, the result is taken
        from its fixed register, and the arguments go to theirs. */
    method AsmCall(n: Ref) returns (res: Outcome<()>)
      requires Valid() && Before(n + 1) && n in prog && prog[n].Call?
      modifies this`freeset, this`modset, this`cost, this`r, this`s, this`evenspill, this`oddspill, this`mcode, this`at
      ensures res.Err? ==> Overflows(res.error)
      ensures res.Ok? ==> Valid() && Before(n) && at.sp == old(at).sp
    {
      hide SpillCount, InFrame, RegsOk, SlotsOk, Good, Meets, Val, Out, ProgOk;
      InPlace(prog, Now(), at.cur, n);
      ghost var place := r[n];
      var drop := RSET_SCRATCH - (if r[n].InReg? then {r[n].reg} else {});
      var unused :- RaEvictSet(drop);
      if place.InReg? {
        OwnReg(prog, Now(), at.cur, place.reg);
        assert r[n] == place;
      }
      var ret := if prog[n].t.fp then RID_FPRET else RID_RET;
      SlotOf(prog, Now(), n);
      InPlace(prog, Now(), at.cur, n);
      if Used(n) {
        assert ret in RSET_SCRATCH;
        unused :- RaDestReg(n, ret);
      } else {
        ghost var t := at.(cur := n);
        SkipDead(prog, world, goal, mcode, Now(), at, t);
        FewerOwners(prog, Now(), n + 1, n);
        at := t;
      }
      forall q | IsScratch(q) && IsReg(q) ensures q in freeset {
        assert q in RSET_SCRATCH;
        assert q in drop || place == InReg(q);
      }
      ArgsOf(prog, n);
      var regs := ArgRegs(prog, prog[n].args);
      EmitTheCall(n, regs);
      res := SetupArgs(n, regs);
    }

    method EmitTheCall(n: Ref, ghost regs: seq<Reg>)
      requires Valid() && n in prog && prog[n].Call? && at.cur == n && at.out == Out(prog, world, n + 1)
      requires at.temp == map[] || at.temp == map[RetPlace(prog[n].t.fp) := Val(prog, world, n)]
      requires forall q {:trigger q in freeset} :: IsScratch(q) && IsReg(q) ==> q in freeset
      requires ArgsFit(prog, prog[n].args) && regs == ArgRegs(prog, prog[n].args)
      modifies this`mcode, this`at
      ensures Valid() && at == Point(n, ArgTemps(prog, world, prog[n].args, regs, 0), Out(prog, world, n), old(at).sp, old(at).saved)
    {
      hide SpillCount, InFrame, RegsOk, SlotsOk, Good, Meets, Val, Out, ProgOk, ArgRegs, ArgPlaces, ArgTemps;
      ghost var u := Point(n, ArgTemps(prog, world, prog[n].args, regs, 0), Out(prog, world, n), at.sp, at.saved);
      var i := CallFn(prog[n].fn, Classes(prog, prog[n].args), prog[n].t.fp);
      ArgRegsApart(prog, prog[n].args);
      ArgRegsPlaced(prog, prog[n].args);
      ArgTempsAre(prog, world, prog[n].args, regs, 0);
      CallValues(prog, world, n, regs, u.temp);
      EmitCall(prog, world, goal, mcode, Now(), at, i.fn, i.fps, i.fp, u);
      FrameMore(mcode, i, evenspill);
      mcode := [i] + mcode;
      at := u;
    }

    /** The arguments of a call, from the first to the last. */
    method SetupArgs(n: Ref, regs: seq<Reg>) returns (res: Outcome<()>)
      requires Valid() && n in prog && prog[n].Call? && ArgsFit(prog, prog[n].args) && regs == ArgRegs(prog, prog[n].args)
      requires at.saved == {}
      requires at.cur == n && at.temp == ArgTemps(prog, world, prog[n].args, regs, 0)
      requires forall q {:trigger q in freeset} :: IsScratch(q) && IsReg(q) ==> q in freeset
      modifies this`freeset, this`modset, this`cost, this`r, this`s, this`evenspill, this`oddspill, this`mcode, this`at
      ensures res.Err? ==> Overflows(res.error)
      ensures res.Ok? ==> Valid() && at == old(at).(temp := map[])
    {
      hide SpillCount, InFrame, RegsOk, SlotsOk, Good, Meets, Val, Out, ProgOk, ArgTemps, ArgRegs, Cost, RefOf, TypeOf;
      var args := prog[n].args;
      ArgsOf(prog, n);
      ArgRegsApart(prog, args);
      LastTemps(prog, world, args, regs);
      var i := 0;
      while i < |args|
        invariant i <= |args| && Valid() && at == old(at).(temp := ArgTemps(prog, world, args, regs, i))
        invariant forall j {:trigger regs[j]} :: i <= j < |args| ==> regs[j] in freeset
      {
        ArgTempsAre(prog, world, args, regs, i);
        ArgTempsNext(prog, world, args, regs, i);
        assert args[i] in prog;
        var unused :- SetupArg(args[i], regs[i]);
        i := i + 1;
      }
      return Ok(());
    }

    /** One argument. */
    method SetupArg(ref: Ref, q: Reg) returns (res: Outcome<()>)
      requires Valid() && ref in prog && ref < at.cur && HasValue(prog[ref]) && IsReg(q) && IsFpr(q) == TypeOf(prog, ref).fp
      requires at.saved == {}
      requires q in freeset && q in at.temp && at.temp[q] == Val(prog, world, ref)
      modifies this`freeset, this`modset, this`cost, this`r, this`s, this`evenspill, this`oddspill, this`mcode, this`at
      ensures res.Err? ==> Overflows(res.error)
      ensures res.Ok? ==> Valid() && at == old(at).(temp := old(at).temp - {q}) && KeptOutside(old(Now()), Now(), {q})
    {
      hide SpillCount, InFrame, RegsOk, SlotsOk, Good, Meets, Val, Out, ProgOk;
      ghost var u := at.(temp := at.temp - {q});
      KindOf(prog, ref);
      InPlace(prog, Now(), at.cur, ref);
      ConstValue(prog, world, ref);
      if IsGpr(q) && ref < REF_TRUE {
        Emit(LoadK(q, prog[ref].k), q, u);
      } else if r[ref].InReg? {
        var from := r[ref].reg;
        forall m | Meets(prog, world, Now(), u, m) ensures Step(world, m, Mov(q, from)) == Set(m, q, at.temp[q]) {
          HasValueIn(prog, world, Now(), u, m, from);
        }
        Emit(Mov(q, from), q, u);
      } else {
        assert q in freeset * {q};
        var got := RaAllocRef(ref, {q});
      }
      return Ok(());
    }

    /** A store has neither a register nor a slot. */
    lemma StoreIsNoValue(n: Ref)
      requires Valid() && at.cur == n + 1 && n in prog && !HasValue(prog[n])
      requires at.saved == {}
      ensures RegsOk(prog, Now(), n) && SlotsUnused(prog, Now(), n, n + 1)
    {
      hide SpillCount, InFrame, RegsOk, SlotsOk, Good, ProgOk;
      InPlace(prog, Now(), at.cur, n);
      SlotOf(prog, Now(), n);
      FewerOwners(prog, Now(), n + 1, n);
    }

    // ---- the whole trace -----------------------------------------------------------------

    /** asm_ir */
    method AsmIR(n: Ref) returns (res: Outcome<()>)
      requires Valid() && Before(n + 1) && n in prog && n > REF_BASE && !prog[n].Parent?
      modifies this`freeset, this`modset, this`cost, this`r, this`s, this`evenspill, this`oddspill, this`mcode, this`at
      ensures res.Err? ==> Overflows(res.error)
      ensures res.Ok? ==> Valid() && Before(n) && at.sp == old(at).sp
    {
      hide SpillCount, InFrame, RegsOk, SlotsOk, Good, Val, Out;
      match prog[n] {
        case Arith(_, _, _, _) => res := AsmArith(n);
        case Sload(_, _) => res := AsmSload(n);
        case Store(_, _, _) => res := AsmStore(n);
        case Call(_, _, _) => res := AsmCall(n);
        case Const(_, _) => KindOf(prog, n);
        case Base => KindOf(prog, n);
      }
    }

    /** The main loop of lj_asm_trace, from nins down to stop. */
    method AsmLoop(nins: Ref, stop: Ref) returns (res: Outcome<()>)
      requires Valid() && Before(nins) && REF_BASE <= stop < nins
      requires forall n {:trigger n in prog} :: stop < n < nins ==> n in prog && !prog[n].Parent?
      modifies this`freeset, this`modset, this`cost, this`r, this`s, this`evenspill, this`oddspill, this`mcode, this`at
      ensures res.Err? ==> Overflows(res.error)
      ensures res.Ok? ==> Valid() && Before(stop + 1) && at.sp == old(at).sp
    {
      hide SpillCount, InFrame, RegsOk, SlotsOk, Good, Val, Out, ProgOk;
      var curins := nins - 1;
      while curins > stop
        invariant stop <= curins < nins && Valid() && Before(curins + 1) && at.sp == old(at).sp
      {
        InPlace(prog, Now(), at.cur, curins);
        SlotOf(prog, Now(), curins);
        if !Used(curins) && !SideEffect(prog[curins]) && dce {
          SkipIns(curins);
        } else {
          var unused :- AsmIR(curins);
        }
        curins := curins - 1;
      }
      return Ok(());
    }

    /** asm_head_root: constants and the base register are set up, and the stack frame. No
        register is left in use. */
    method AsmHeadRoot() returns (spadj: nat)
      requires Valid() && Before(REF_BASE + 1)
      modifies this`freeset, this`modset, this`r, this`mcode
      ensures spadj == StackAdjust(evenspill) && Framed(mcode, spadj, evenspill, 0)
      ensures freeset == RSET_ALL && RootReady(world, goal, mcode, at.sp + spadj)
    {
      hide SpillCount, InFrame, RegsOk, SlotsOk, Good, Val, ProgOk, Out;
      RaEvictK();
      BaseIns(prog);
      InPlace(prog, Now(), at.cur, REF_BASE);
      NoEarlyEffects(prog, world, REF_BASE + 1);
      OnlyBase(prog, Now());
      ghost var a0 := Now();
      var setup := [];
      spadj := StackAdjust(evenspill);
      if r[REF_BASE].InReg? {
        var q := r[REF_BASE].reg;
        freeset := freeset + {q};
        if q in modset {
          r := r[REF_BASE := Init];
        }
        if q != RID_BASE {
          setup := [Mov(q, RID_BASE)];
          FrameMore(mcode, Mov(q, RID_BASE), evenspill);
        }
      }
      RootHead(prog, world, goal, mcode, a0, at, setup, spadj);
      assert setup == [] ==> setup + mcode == mcode;
      mcode := setup + mcode;
      HeadNone([SpSub(spadj)] + mcode, 0);
      mcode := [SpSub(spadj)] + mcode;
    }

    /** A root trace from its last instruction to its head: running the code on any machine
        that enters it with the base register set has the effects of the trace. */
    method AsmTraceRoot(nins: Ref) returns (res: Outcome<nat>)
      requires Valid() && Before(nins) && REF_BASE < nins
      requires forall n {:trigger n in prog} :: REF_BASE < n < nins ==> n in prog && !prog[n].Parent?
      modifies this`freeset, this`modset, this`cost, this`r, this`s, this`evenspill, this`oddspill, this`mcode, this`at
      ensures res.Err? ==> Overflows(res.error)
      ensures res.Ok? ==> freeset == RSET_ALL && res.value == StackAdjust(evenspill) && Framed(mcode, res.value, evenspill, 0)
      ensures res.Ok? ==> forall m: Machine {:trigger Run(world, m, mcode)} ::
                m.out == [] && m.sp == old(at).sp + res.value && RID_BASE in m.reg && m.reg[RID_BASE] == world.base ==>
                  Run(world, m, mcode).out == goal
    {
      hide SpillCount, InFrame, Framed, RegsOk, SlotsOk, Good, Val, ProgOk, Out;
      var unused :- AsmLoop(nins, REF_BASE);
      var spadj := AsmHeadRoot();
      return Ok(spadj);
    }
  }

  lemma NoEffect(p: Prog, w: World, n: Ref)
    requires n !in p || !SideEffect(p[n])
    ensures Out(p, w, n + 1) == Out(p, w, n)
  {
    assert Effect(p, w, n) == [];
  }

  /** The operands may come in either order if the operation is commutative. */
  lemma ArithValue(p: Prog, w: World, n: Ref, l: Ref, r: Ref)
    requires ProgOk(p) && WorldOk(w) && n in p && p[n].Arith?
    requires (l == p[n].op1 && r == p[n].op2) || (l == p[n].op2 && r == p[n].op1 && IsComm(p[n].op))
    ensures Val(p, w, n) == w.arith(p[n].op, Val(p, w, l), Val(p, w, r))
  {
    assert Operand(p, n, p[n].op1, p[n].t.fp) && Operand(p, n, p[n].op2, p[n].t.fp);
  }

  lemma BaseValue(p: Prog, w: World)
    requires ProgOk(p)
    ensures Val(p, w, REF_BASE) == w.base
  {
  }

  lemma BaseIns(p: Prog)
    requires ProgOk(p)
    ensures REF_BASE in p && p[REF_BASE] == Base && TypeOf(p, REF_BASE).fp == false && HasValue(p[REF_BASE])
  {
  }

  lemma SloadValue(p: Prog, w: World, n: Ref)
    requires n in p && p[n].Sload?
    ensures Val(p, w, n) == w.stack(w.base, p[n].slot)
  {
  }

  lemma StoreEffect(p: Prog, w: World, n: Ref)
    requires ProgOk(p) && n in p && p[n].Store?
    ensures Out(p, w, n + 1) == Out(p, w, n) + [Stored(p[n].op, Val(p, w, p[n].op1), Val(p, w, p[n].op2))]
  {
    assert Operand(p, n, p[n].op1, false);
  }

  lemma SourceReach(p: Prog, a: Alloc, cur: Ref, src: Source, r: Ref, op: nat, dest: Reg)
    requires SlotsOk(p, a) && (src.R? || SourceOk(p, a, cur, src, r))
    ensures Reach(Arith2(op, dest, src)) <= a.even
  {
    hide SlotsOk;
    if src.S? {
      SlotEnd(p, a, r);
    }
  }

  lemma ArithStep(p: Prog, w: World, a: Alloc, t: Point, n: Ref, l: Ref, r: Ref, dest: Reg, src: Source, u: Point)
    requires ProgOk(p) && WorldOk(w) && n in p && p[n].Arith? && t.temp == map[dest := Val(p, w, n)] && t.saved == {}
    requires (l == p[n].op1 && r == p[n].op2) || (l == p[n].op2 && r == p[n].op1 && IsComm(p[n].op))
    requires u == t.(temp := map[dest := Val(p, w, l)])
    requires (src == R(dest) && l == r) || SourceOk(p, a, t.cur, src, r)
    ensures forall m {:trigger Step(w, m, Arith2(p[n].op, dest, src))} ::
              Meets(p, w, a, u, m) ==> Step(w, m, Arith2(p[n].op, dest, src)) == Set(m, dest, t.temp[dest])
  {
    hide Meets, Val, ProgOk, SourceOk;
    ArithValue(p, w, n, l, r);
    forall m | Meets(p, w, a, u, m) ensures Step(w, m, Arith2(p[n].op, dest, src)) == Set(m, dest, t.temp[dest]) {
      TempValue(p, w, a, u, m, dest);
      if !(src == R(dest) && l == r) {
        SourceValue(p, w, a, u, m, src, r);
      }
    }
  }

  lemma KeptTwice(a: Alloc, b: Alloc, c: Alloc, q: Reg)
    requires b.cost == a.cost && b.free == a.free + {q} && KeptOutside(b, c, {q})
    ensures KeptOutside(a, c, {q})
  {
  }

  lemma ConstValue(p: Prog, w: World, n: Ref)
    ensures n in p && p[n].Const? ==> Val(p, w, n) == p[n].k
  {
  }

  // ---- arguments of calls ---------------------------------------------------------------

  /** EDI, ESI, EDX, ECX, R8D, R9D */
  const ARG_GPRS: seq<Reg> := [7, 6, 2, 1, 8, 9]

  lemma {:induction false} FpArgsMono(p: Prog, args: seq<Ref>, i: nat, j: nat)
    requires i <= j <= |args|
    ensures FpArgs(p, args, i) <= FpArgs(p, args, j) && FpArgs(p, args, j) - FpArgs(p, args, i) <= j - i
  {
    if i < j {
      FpArgsMono(p, args, i, j - 1);
    }
  }

  /** The registers of the arguments, in order of appearance. */
  function ArgRegs(p: Prog, args: seq<Ref>): (rs: seq<Reg>)
    requires ArgsFit(p, args)
    ensures |rs| == |args|
  {
    seq(|args|, i requires 0 <= i < |args| =>
      ArgCounts(p, args, i);
      ArgReg(p, args, i))
  }

  lemma ArgCounts(p: Prog, args: seq<Ref>, i: nat)
    requires ArgsFit(p, args) && i < |args|
    ensures if TypeOf(p, args[i]).fp then FpArgs(p, args, i) < 8 else i - FpArgs(p, args, i) < 6
  {
    FpArgsMono(p, args, i + 1, |args|);
  }

  /** Each argument has a scratch register of its class for itself. */
  lemma ArgRegsApart(p: Prog, args: seq<Ref>)
    requires ArgsFit(p, args)
    ensures var rs := ArgRegs(p, args);
            && (forall i {:trigger rs[i]} :: 0 <= i < |rs| ==> IsReg(rs[i]) && IsScratch(rs[i]) && IsFpr(rs[i]) == TypeOf(p, args[i]).fp)
            && (forall i, j {:trigger rs[i], rs[j]} :: 0 <= i < j < |rs| ==> rs[i] != rs[j])
  {
    hide ArgReg;
    var rs := ArgRegs(p, args);
    forall i | 0 <= i < |rs| ensures IsReg(rs[i]) && IsScratch(rs[i]) && IsFpr(rs[i]) == TypeOf(p, args[i]).fp {
      ArgCounts(p, args, i);
      ArgRegClass(p, args, i);
    }
    forall i, j | 0 <= i < j < |rs| ensures rs[i] != rs[j] {
      ArgCounts(p, args, i);
      ArgCounts(p, args, j);
      TwoArgRegs(p, args, i, j);
    }
  }

  lemma ArgRegClass(p: Prog, args: seq<Ref>, i: nat)
    requires i < |args| && if TypeOf(p, args[i]).fp then FpArgs(p, args, i) < 8 else i - FpArgs(p, args, i) < 6
    ensures IsReg(ArgReg(p, args, i)) && IsScratch(ArgReg(p, args, i)) && IsFpr(ArgReg(p, args, i)) == TypeOf(p, args[i]).fp
  {
    hide FpArgs;
  }

  lemma TwoArgRegs(p: Prog, args: seq<Ref>, i: nat, j: nat)
    requires i < j < |args|
    requires if TypeOf(p, args[i]).fp then FpArgs(p, args, i) < 8 else i - FpArgs(p, args, i) < 6
    requires if TypeOf(p, args[j]).fp then FpArgs(p, args, j) < 8 else j - FpArgs(p, args, j) < 6
    ensures ArgReg(p, args, i) != ArgReg(p, args, j)
  {
    FpArgsMono(p, args, i + 1, j);
    assert FpArgs(p, args, i + 1) == FpArgs(p, args, i) + if TypeOf(p, args[i]).fp then 1 else 0;
    hide FpArgs;
  }

  function ArgReg(p: Prog, args: seq<Ref>, i: nat): (q: Reg)
    requires i < |args|
    requires if TypeOf(p, args[i]).fp then FpArgs(p, args, i) < 8 else i - FpArgs(p, args, i) < 6
  {
    if TypeOf(p, args[i]).fp then 16 + FpArgs(p, args, i) else ARG_GPRS[i - FpArgs(p, args, i)]
  }

  /** Which arguments are floating point. */
  function Classes(p: Prog, args: seq<Ref>): seq<bool> {
    seq(|args|, i requires 0 <= i < |args| => TypeOf(p, args[i]).fp)
  }

  lemma {:induction false} FloatArgs(p: Prog, args: seq<Ref>, i: nat)
    requires i <= |args|
    ensures Floats(Classes(p, args), i) == FpArgs(p, args, i)
  {
    hide TypeOf;
    if i > 0 {
      FloatArgs(p, args, i - 1);
    }
  }

  /** The registers are those in which the called function looks for its arguments. */
  lemma ArgRegsPlaced(p: Prog, args: seq<Ref>)
    requires ArgsFit(p, args)
    ensures ArgRegs(p, args) == ArgPlaces(Classes(p, args))
  {
    hide TypeOf, FpArgs, Floats;
    forall i | 0 <= i < |args| ensures ArgRegs(p, args)[i] == ArgPlaces(Classes(p, args))[i] {
      ArgCounts(p, args, i);
      FloatArgs(p, args, i);
    }
  }

  /** What the argument registers from i on must hold. */
  ghost function ArgTemps(p: Prog, w: World, args: seq<Ref>, rs: seq<Reg>, i: nat): map<Reg, int>
    requires i <= |rs| == |args|
    decreases |rs| - i
  {
    if i == |rs| then map[] else ArgTemps(p, w, args, rs, i + 1)[rs[i] := Val(p, w, args[i])]
  }

  lemma {:induction false} ArgTempsAre(p: Prog, w: World, args: seq<Ref>, rs: seq<Reg>, i: nat)
    requires i <= |rs| == |args| && forall j, k {:trigger rs[j], rs[k]} :: 0 <= j < k < |rs| ==> rs[j] != rs[k]
    ensures forall q {:trigger q in ArgTemps(p, w, args, rs, i)} :: q in ArgTemps(p, w, args, rs, i) ==> exists j :: i <= j < |rs| && rs[j] == q
    ensures forall j {:trigger rs[j]} :: i <= j < |rs| ==> rs[j] in ArgTemps(p, w, args, rs, i) && ArgTemps(p, w, args, rs, i)[rs[j]] == Val(p, w, args[j])
    decreases |rs| - i
  {
    hide Val;
    if i < |rs| {
      ArgTempsAre(p, w, args, rs, i + 1);
    }
  }

  lemma LastTemps(p: Prog, w: World, args: seq<Ref>, rs: seq<Reg>)
    requires |rs| == |args|
    ensures ArgTemps(p, w, args, rs, |args|) == map[]
  {
  }

  lemma ArgTempsNext(p: Prog, w: World, args: seq<Ref>, rs: seq<Reg>, i: nat)
    requires i < |rs| == |args| && forall j, k {:trigger rs[j], rs[k]} :: 0 <= j < k < |rs| ==> rs[j] != rs[k]
    ensures ArgTemps(p, w, args, rs, i) - {rs[i]} == ArgTemps(p, w, args, rs, i + 1)
  {
    hide Val;
    ArgTempsAre(p, w, args, rs, i + 1);
  }

  /** The machine's view of the call is that of the trace. */
  lemma CallValues(p: Prog, w: World, n: Ref, rs: seq<Reg>, temp: map<Reg, int>)
    requires ProgOk(p) && n in p && p[n].Call? && |rs| == |p[n].args|
    requires forall j {:trigger rs[j]} :: 0 <= j < |rs| ==> rs[j] in temp && temp[rs[j]] == Val(p, w, p[n].args[j])
    ensures seq(|rs|, i requires 0 <= i < |rs| => temp[rs[i]]) == Vals(p, w, n, p[n].args)
    ensures Out(p, w, n + 1) == Out(p, w, n) + [Called(p[n].fn, Vals(p, w, n, p[n].args))]
    ensures Val(p, w, n) == w.result(p[n].fn, Vals(p, w, n, p[n].args), |Out(p, w, n)|)
  {
    assert p[n] == p[n];
    forall i | 0 <= i < |rs| ensures temp[rs[i]] == Vals(p, w, n, p[n].args)[i] {
      assert p[n].args[i] < n;
    }
  }

  lemma ArgsOf(p: Prog, n: Ref)
    requires ProgOk(p) && n in p && p[n].Call?
    ensures ArgsFit(p, p[n].args)
    ensures forall i {:trigger p[n].args[i]} :: 0 <= i < |p[n].args| ==> p[n].args[i] in p && p[n].args[i] < n && HasValue(p[p[n].args[i]])
  {
    assert p[n] == p[n];
  }

  /** Ready for a machine that enters a root trace with stack pointer sp. */
  ghost predicate RootReady(w: World, goal: seq<Event>, code: seq<MIns>, sp: int) {
    forall m: Machine {:trigger Run(w, m, code)} ::
      m.out == [] && m.sp == sp && RID_BASE in m.reg && m.reg[RID_BASE] == w.base ==> Run(w, m, code).out == goal
  }

  /** With all constants evicted, only the base register is left before the first instruction. */
  lemma OnlyBase(p: Prog, a: Alloc)
    requires ProgOk(p) && RegsOk(p, a, REF_BASE + 1) && forall q {:trigger q in a.free} :: IsReg(q) && q !in a.free ==> q in a.cost && RefOf(a.cost[q]) >= REF_BASE
    ensures forall q {:trigger q in a.free} :: IsReg(q) && q !in a.free ==> a.r[REF_BASE] == InReg(q) && RefOf(a.cost[q]) == REF_BASE
    ensures a.free + (if a.r[REF_BASE].InReg? then {a.r[REF_BASE].reg} else {}) == RSET_ALL
  {
    assert PlaceOk(p, a, REF_BASE);
    forall q | IsReg(q) && q !in a.free ensures a.r[REF_BASE] == InReg(q) && RefOf(a.cost[q]) == REF_BASE {
      assert OwnerOk(p, a, REF_BASE + 1, q);
    }
    forall q ensures q in RSET_ALL <==> IsReg(q) {
    }
  }

  lemma {:induction false} NoEarlyEffects(p: Prog, w: World, n: Ref)
    requires ProgOk(p) && n <= REF_BASE + 1
    ensures Out(p, w, n) == []
  {
    if n > 0 {
      NoEarlyEffects(p, w, n - 1);
      assert n - 1 in p ==> p[n - 1] == p[n - 1];
    }
  }

  lemma RootHead(p: Prog, w: World, goal: seq<Event>, code: seq<MIns>, a: Alloc, t: Point, setup: seq<MIns>, spadj: nat)
    requires Good(p, w, goal, code, a, t) && ProgOk(p) && SlotsOk(p, a) && t.cur == REF_BASE + 1 && t.temp == map[] && t.out == []
    requires REF_BASE in a.r
    requires forall q {:trigger q in a.free} :: IsReg(q) && q !in a.free ==> q in a.cost && a.r[REF_BASE] == InReg(q) && RefOf(a.cost[q]) == REF_BASE
    requires setup == if a.r[REF_BASE].InReg? && a.r[REF_BASE].reg != RID_BASE then [Mov(a.r[REF_BASE].reg, RID_BASE)] else []
    ensures RootReady(w, goal, [SpSub(spadj)] + (setup + code), t.sp + spadj)
  {
    hide Good, SlotsOk, ProgOk, Val;
    BaseValue(p, w);
    forall m: Machine | m.out == [] && m.sp == t.sp + spadj && RID_BASE in m.reg && m.reg[RID_BASE] == w.base
      ensures Run(w, m, [SpSub(spadj)] + (setup + code)).out == goal
    {
      var m1 := Step(w, m, SpSub(spadj));
      assert ([SpSub(spadj)] + (setup + code))[1..] == setup + code;
      var m2 := if setup == [] then m1 else Step(w, m1, setup[0]);
      assert Run(w, m1, setup + code) == Run(w, m2, code) by {
        if setup == [] {
          assert setup + code == code;
        } else {
          assert (setup + code)[1..] == code;
        }
      }
      assert Meets(p, w, a, t, m2) by {
        forall q | IsReg(q) && q !in a.free ensures InReg_(p, w, a, m2, q) {
        }
        forall n | n in p && n < t.cur && n !in t.saved ensures InSlot(p, w, a, m2, n) {
          SlotOf(p, a, n);
        }
      }
      GoodRun(p, w, goal, code, a, t, m2);
    }
  }

  lemma GoodRun(p: Prog, w: World, goal: seq<Event>, code: seq<MIns>, a: Alloc, t: Point, m: Machine)
    requires Good(p, w, goal, code, a, t) && Meets(p, w, a, t, m)
    ensures Run(w, m, code).out == goal
  {
  }

  /** A place without its high bit, which is how ra_samehint compares hints. */
  function Low7(p: Place): nat {
    match p
    case InReg(q) => q
    case Hint(q) => q
    case Init => 127
  }

  function ClassSet(fp: bool): (c: set<Reg>)
    ensures OneClass(c, fp)
  {
    if fp then RSET_FPR else RSET_GPR
  }

  /** A class has registers to spare. */
  lemma TwoLeft(fp: bool, x: Reg, y: Reg)
    ensures ClassSet(fp) - {x} != {} && ClassSet(fp) - {x} - {y} != {}
  {
    assert 17 in RSET_FPR && 18 in RSET_FPR && 19 in RSET_FPR && 1 in RSET_GPR && 2 in RSET_GPR && 3 in RSET_GPR;
    var c := ClassSet(fp) - {x} - {y};
    assert 17 in c || 18 in c || 19 in c || 1 in c || 2 in c || 3 in c;
  }

  /** RSET_GPR or RSET_FPR. */
  function ClassOf(q: Reg): (c: set<Reg>)
    requires IsReg(q)
    ensures OneClass(c, IsFpr(q)) && q in c
  {
    if q < 16 then RSET_GPR else RSET_FPR
  }

  lemma TempValue(p: Prog, w: World, a: Alloc, t: Point, m: Machine, q: Reg)
    requires Meets(p, w, a, t, m) && q in t.temp
    ensures Get(m, q) == t.temp[q]
  {
    assert InTemp(t, m, q);
  }

  /** A hint changes nothing. */
  lemma HintOk(p: Prog, w: World, goal: seq<Event>, code: seq<MIns>, a: Alloc, t: Point, n: Ref, h: Reg)
    requires Good(p, w, goal, code, a, t) && RegsOk(p, a, t.cur) && SlotsOk(p, a) && TempOk(a, t) && n in a.r && !a.r[n].InReg?
    ensures var b := a.(r := a.r[n := Hint(h)]);
            Good(p, w, goal, code, b, t) && RegsOk(p, b, t.cur) && SlotsOk(p, b) && TempOk(b, t)
  {
    hide Good, Val;
    var b := a.(r := a.r[n := Hint(h)]);
    forall m | Meets(p, w, b, t, m) ensures Meets(p, w, a, t, m) {
      forall q | IsReg(q) && q !in a.free ensures InReg_(p, w, a, m, q) {
        assert InReg_(p, w, b, m, q);
      }
      forall k | k in p && k < t.cur && k !in t.saved ensures InSlot(p, w, a, m, k) {
        assert InSlot(p, w, b, m, k);
      }
    }
    Stronger(p, w, goal, code, a, t, b, t);
    SlotsSame(p, a, b);
    forall x | IsReg(x) && x !in b.free ensures OwnerOk(p, b, t.cur, x) {
      assert OwnerOk(p, a, t.cur, x);
    }
    forall k | k in p && k < t.cur ensures PlaceOk(p, b, k) {
      assert PlaceOk(p, a, k);
    }
  }

  lemma DefTemp(p: Prog, w: World, a: Alloc, t: Point, n: Ref, d: Reg)
    requires TempOk(a, t)
    ensures TempOk(Defining(a, n, d), DefPoint(p, w, t, n, d)) && Defining(a, n, d) == a.(free := a.free + {d}, r := a.r[n := InReg(d)])
    ensures DefPoint(p, w, t, n, d).cur == n
  {
  }

  lemma EvictedKeeps(r: map<Ref, Place>, r': map<Ref, Place>, cost: map<Reg, nat>, q: Reg, n: Ref)
    requires Evicted(r, r', cost, q) && n in r && !r[n].InReg?
    ensures n in r' && !r'[n].InReg? && KeptPlaces(r, r')
  {
  }

  /** What free registers must hold stays in free registers. */
  lemma TempLess(a: Alloc, t: Point, q: Reg, p: Prog, n: Ref)
    requires TempOk(a, t)
    ensures TempOk(TakenBy(p, a, q, n), t.(temp := t.temp - {q}))
  {
  }

  lemma SlotKeeps(p: Prog, w: World, goal: seq<Event>, code: seq<MIns>, a: Alloc, t: Point, n: Ref, slot: nat, even: nat, odd: nat)
    requires Good(p, w, goal, code, a, t) && RegsOk(p, a, t.cur) && TempOk(a, t) && SlotsOk(p, a) && n in a.s && a.s[n] == 0
    ensures var b := WithSlot(a, n, slot, even, odd);
            Good(p, w, goal, code, b, t) && RegsOk(p, b, t.cur) && TempOk(b, t)
  {
    hide Good, Meets;
    var b := WithSlot(a, n, slot, even, odd);
    assert p.Keys <= a.s.Keys by {
      forall k | k in p ensures k in a.s {
        SlotOf(p, a, k);
      }
    }
    forall m | Meets(p, w, b, t, m) ensures Meets(p, w, a, t, m) {
      MoreDemand(p, w, a, t, n, slot, even, odd, m);
    }
    Stronger(p, w, goal, code, a, t, b, t);
    forall x | IsReg(x) && x !in b.free ensures OwnerOk(p, b, t.cur, x) {
      assert OwnerOk(p, a, t.cur, x);
    }
    forall k | k in p && k < t.cur ensures PlaceOk(p, b, k) {
      assert PlaceOk(p, a, k);
    }
  }

  /** An assembled trace: its code, its frame adjustment in slots, and the first slot behind the
      ones it uses. */
  datatype Trace = Trace(code: seq<MIns>, spadjust: nat, even: nat)

  /** The machine at the start of a root trace. */
  ghost predicate AtStart(w: World, m: Machine) {
    m.out == [] && RID_BASE in m.reg && m.reg[RID_BASE] == w.base
  }

  /** lj_asm_trace for a root trace: wherever the stack is, the code has the effects of the trace and
      stores only inside its frame, which has room for all slots it names. */
  method AssembleRoot(p: Prog, ghost w: World, nins: Ref, hints: map<Ref, Reg>, slots: nat, loop: Ref, eliminate: bool)
    returns (res: Outcome<Trace>)
    requires ProgOk(p) && WorldOk(w) && REF_BASE < nins && 2 <= slots < 256 && forall n {:trigger n in p} :: n in p ==> n < nins
    requires forall n {:trigger n in p} :: REF_BASE < n < nins ==> n in p && !p[n].Parent?
    ensures res.Err? ==> res.error == SpillOv && slots + 1 + 2 * (nins - REF_BASE - 1) > 256
    ensures res.Ok? ==> var t := res.value; t.spadjust == StackAdjust(t.even) && t.even <= SPS_FIXED + t.spadjust && Framed(t.code, t.spadjust, t.even, 0)
    ensures res.Ok? ==> forall m: Machine {:trigger Run(w, m, res.value.code)} :: AtStart(w, m) ==>
              && Run(w, m, res.value.code).out == Out(p, w, nins)
              && SameOutside(m.mem, Run(w, m, res.value.code).mem, m.sp - res.value.spadjust, m.sp + SPS_FIXED)
  {
    hide ProgOk, WorldOk, RegsOk, SlotsOk, Good, Val, Out, InFrame, Framed, SameOutside, StackAdjust;
    var st := new ASMState(p, w, nins, hints, slots, loop, eliminate, 0);
    var spadj :- st.AsmTraceRoot(nins);
    var even := st.evenspill;
    FrameFits(even);
    forall m | AtStart(w, m)
      ensures Run(w, m, st.mcode).out == Out(p, w, nins) && SameOutside(m.mem, Run(w, m, st.mcode).mem, m.sp - spadj, m.sp + SPS_FIXED)
    {
      AnywhereRoot(w, m, spadj, st.mcode, Out(p, w, nins));
      FramedInside(w, m, st.mcode, spadj, even, 0);
      MoreOutside(m.mem, Run(w, m, st.mcode).mem, m.sp - spadj, m.sp - spadj + even, m.sp + SPS_FIXED);
    }
    return Ok(Trace(st.mcode, spadj, even));
  }

  /** What holds for one place of the stack holds for all. */
  lemma AnywhereRoot(w: World, m: Machine, sp: int, code: seq<MIns>, goal: seq<Event>)
    requires AtStart(w, m) && RootReady(w, goal, code, sp)
    ensures Run(w, m, code).out == goal
  {
    hide MovedAt;
    var n := sp - m.sp;
    var m' := m.(sp := m.sp + n, mem := MovedMem(m.mem, n));
    ShiftedBy(m, n);
    ShiftRun(w, m, m', n, code);
  }
}
