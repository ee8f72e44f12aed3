/** The allocator's book-keeping as a value (lj_asm.c, lj_target.h), what it demands of the
    machine, and what each elementary step of backwards allocation keeps. */
module RegState {
  import opened RegMachine

  // ---- results -----------------------------------------------------------------------

  /** Trace errors: spill slots run out, or register coalescing is too complex. */
  datatype TraceError = SpillOv | NyiCoal

  datatype Outcome<T> = Ok(value: T) | Err(error: TraceError) {
    predicate IsFailure() { Err? }

    function PropagateFailure<U>(): Outcome<U>
      requires IsFailure()
    {
      Err(error)
    }

    function Extract(): T
      requires !IsFailure()
    {
      value
    }
  }

  // ---- costs and places ---------------------------------------------------------------

  /** What ir->r says: a register, a hint, or nothing. */
  datatype Place = InReg(reg: Reg) | Hint(hint: Reg) | Init

  const REGCOST_PHI_WEIGHT: nat := 64

  /** REGCOST_REF_T, in 32 bit arithmetic. */
  function Cost(n: Ref, phi: bool): nat {
    (n + (n + if phi then REGCOST_PHI_WEIGHT else 0) * 0x1_0000) % 0x1_0000_0000
  }

  /** regcost_ref: the low 16 bits. */
  function RefOf(cost: nat): Ref { cost % 0x1_0000 }

  lemma CostRef(n: Ref, phi: bool)
    requires n < 0xFFFF
    ensures RefOf(Cost(n, phi)) == n && Cost(n, phi) < 0xFFFF_FFFF
  {
    var x := n + (n + if phi then REGCOST_PHI_WEIGHT else 0) * 0x1_0000;
    LowBits(x);
    assert x == n + 0x1_0000 * (n + if phi then REGCOST_PHI_WEIGHT else 0);
  }

  /** An older value is cheaper, and a PHI reference weighs as much as REGCOST_PHI_WEIGHT references. */
  lemma CostOrder(n: Ref, phi: bool, n': Ref, phi': bool)
    requires n < 0xFFFF && n' < 0xFFFF
    ensures var age, age' := n + if phi then 64 else 0, n' + if phi' then 64 else 0;
            age < 0x1_0000 && age' < 0x1_0000 ==> (Cost(n, phi) < Cost(n', phi') <==> age < age' || (age == age' && n < n'))
  {
  }

  lemma LowBits(x: nat)
    ensures (x % 0x1_0000_0000) % 0x1_0000 == x % 0x1_0000
  {
    assert x == 0x1_0000_0000 * (x / 0x1_0000_0000) + x % 0x1_0000_0000;
    assert x == 0x1_0000 * (0x1_0000 * (x / 0x1_0000_0000)) + x % 0x1_0000_0000;
  }

  /** freeset, cost, and the r and s fields of the instructions. */
  datatype Alloc = Alloc(free: set<Reg>, cost: map<Reg, nat>, r: map<Ref, Place>, s: map<Ref, nat>, even: nat, odd: nat)

  function Width(p: Prog, n: Ref): nat { if TypeOf(p, n).wide then 2 else 1 }

  /** Register q, which is in use, belongs to an instruction below cur that says so itself. */
  ghost predicate OwnerOk(p: Prog, a: Alloc, cur: Ref, q: Reg) {
    && q in a.cost
    && var n := RefOf(a.cost[q]);
       && n in p && n < cur && HasValue(p[n]) && a.cost[q] == Cost(n, TypeOf(p, n).phi)
       && n in a.r && a.r[n] == InReg(q) && TypeOf(p, n).fp == IsFpr(q)
  }

  ghost predicate PlaceOk(p: Prog, a: Alloc, n: Ref) {
    && n in a.r
    && (a.r[n].InReg? ==> IsReg(a.r[n].reg) && a.r[n].reg !in a.free && a.r[n].reg in a.cost && RefOf(a.cost[a.r[n].reg]) == n)
  }

  ghost predicate RegsOk(p: Prog, a: Alloc, cur: Ref) {
    && (forall q {:trigger q in a.free} :: q in a.free ==> IsReg(q))
    && (forall q {:trigger OwnerOk(p, a, cur, q)} :: IsReg(q) && q !in a.free ==> OwnerOk(p, a, cur, q))
    && (forall n {:trigger PlaceOk(p, a, n)} :: n in p && n < cur ==> PlaceOk(p, a, n))
    && p.Keys <= a.r.Keys
  }

  /** A slot lies behind the fixed ones, and pairs are aligned. */
  ghost predicate SlotOk(p: Prog, a: Alloc, n: Ref) {
    && n in a.s
    && (n <= REF_BASE || n !in p || !HasValue(p[n]) ==> a.s[n] == 0)
    && (a.s[n] != 0 ==> 2 <= a.s[n] && a.s[n] + Width(p, n) <= a.even && (TypeOf(p, n).wide ==> a.s[n] % 2 == 0)
                        && (a.odd != 0 ==> a.odd < a.s[n] || a.s[n] + Width(p, n) <= a.odd))
  }

  ghost predicate SlotsApart(p: Prog, a: Alloc, n: Ref, k: Ref) {
    n != k && n in a.s && k in a.s && a.s[n] != 0 && a.s[k] != 0 ==> a.s[n] + Width(p, n) <= a.s[k] || a.s[k] + Width(p, k) <= a.s[n]
  }

  /** Spill slots of different values never overlap, and those of 64 bit values are even. */
  ghost predicate SlotsOk(p: Prog, a: Alloc) {
    && a.even % 2 == 0 && 2 <= a.even <= 256
    && (a.odd != 0 ==> a.odd % 2 == 1 && 2 < a.odd < a.even)
    && (forall n {:trigger SlotOk(p, a, n)} :: n in p ==> SlotOk(p, a, n))
    && (forall n, k {:trigger SlotsApart(p, a, n, k)} :: n in p && k in p ==> SlotsApart(p, a, n, k))
  }

  // ---- what the code expects --------------------------------------------------------

  /** The point reached in backwards order: instructions from cur on have been assembled;
      temp holds what free registers must contain, out the effects so far, sp the stack
      pointer; the slots of the instructions in saved are filled by the code itself. */
  datatype Point = Point(cur: Ref, temp: map<Reg, int>, out: seq<Event>, sp: int, saved: set<Ref>)

  ghost predicate InReg_(p: Prog, w: World, a: Alloc, m: Machine, q: Reg) {
    q in a.cost && q in m.reg && m.reg[q] == Val(p, w, RefOf(a.cost[q]))
  }

  ghost predicate InSlot(p: Prog, w: World, a: Alloc, m: Machine, n: Ref) {
    n in a.s && (a.s[n] != 0 ==> Holds(m, a.s[n], TypeOf(p, n).wide, Val(p, w, n)))
  }

  ghost predicate InTemp(t: Point, m: Machine, q: Reg) {
    q in t.temp ==> q in m.reg && m.reg[q] == t.temp[q]
  }

  /** Machine state m provides every value that has a register, a slot or a temporary. */
  ghost predicate Meets(p: Prog, w: World, a: Alloc, t: Point, m: Machine) {
    && (forall q {:trigger InReg_(p, w, a, m, q)} :: IsReg(q) && q !in a.free ==> InReg_(p, w, a, m, q))
    && (forall n {:trigger InSlot(p, w, a, m, n)} :: n in p && n < t.cur && n !in t.saved ==> InSlot(p, w, a, m, n))
    && (forall q {:trigger InTemp(t, m, q)} :: InTemp(t, m, q))
    && m.out == t.out && m.sp == t.sp
  }

  /** Whoever provides what is demanded gets the right effects from the code. */
  ghost predicate Good(p: Prog, w: World, goal: seq<Event>, code: seq<MIns>, a: Alloc, t: Point) {
    forall m {:trigger Run(w, m, code)} :: Meets(p, w, a, t, m) ==> Run(w, m, code).out == goal
  }

  /** Prepending an instruction. */
  lemma Prepend(p: Prog, w: World, goal: seq<Event>, code: seq<MIns>, a: Alloc, t: Point, i: MIns, a': Alloc, t': Point)
    requires Good(p, w, goal, code, a, t)
    requires forall m {:trigger Step(w, m, i)} :: Meets(p, w, a', t', m) ==> Meets(p, w, a, t, Step(w, m, i))
    ensures Good(p, w, goal, [i] + code, a', t')
  {
    hide Meets, Step;
    forall m | Meets(p, w, a', t', m) ensures Run(w, m, [i] + code).out == goal {
      assert ([i] + code)[1..] == code;
      assert Run(w, m, [i] + code) == Run(w, Step(w, m, i), code);
    }
  }

  /** The same code under demands that are at least as strong. */
  lemma Stronger(p: Prog, w: World, goal: seq<Event>, code: seq<MIns>, a: Alloc, t: Point, a': Alloc, t': Point)
    requires Good(p, w, goal, code, a, t)
    requires forall m {:trigger Meets(p, w, a', t', m)} :: Meets(p, w, a', t', m) ==> Meets(p, w, a, t, m)
    ensures Good(p, w, goal, code, a', t')
  {
    hide Meets;
  }

  // ---- steps: a register is given up --------------------------------------------------

  /** Register q, which held n, is free again. */
  function Given(a: Alloc, q: Reg, n: Ref, place: Place): Alloc {
    a.(free := a.free + {q}, r := a.r[n := place])
  }

  lemma GivenOk(p: Prog, a: Alloc, cur: Ref, q: Reg, n: Ref, place: Place)
    requires RegsOk(p, a, cur) && IsReg(q) && q in a.cost && n == RefOf(a.cost[q]) && !place.InReg?
    requires q !in a.free
    ensures RegsOk(p, Given(a, q, n, place), cur)
  {
    var b := Given(a, q, n, place);
    assert OwnerOk(p, a, cur, q);
    forall k | k in p && k < cur ensures PlaceOk(p, b, k) {
      assert PlaceOk(p, a, k);
    }
    forall x | IsReg(x) && x !in b.free ensures OwnerOk(p, b, cur, x) {
      assert OwnerOk(p, a, cur, x);
    }
  }

  lemma SlotsSame(p: Prog, a: Alloc, b: Alloc)
    requires SlotsOk(p, a) && b.s == a.s && b.even == a.even && b.odd == a.odd
    ensures SlotsOk(p, b)
  {
    forall n | n in p ensures SlotOk(p, b, n) {
      assert SlotOk(p, a, n);
    }
    forall n, k | n in p && k in p ensures SlotsApart(p, b, n, k) {
      assert SlotsApart(p, a, n, k);
    }
  }

  /** Temporaries live in free registers. */
  ghost predicate TempOk(a: Alloc, t: Point) {
    forall q {:trigger q in t.temp} :: q in t.temp ==> q in a.free
  }

  /** A machine that reloads n into q before the code. */
  lemma GivenMeets(p: Prog, w: World, a: Alloc, t: Point, q: Reg, n: Ref, place: Place, m: Machine)
    requires RegsOk(p, a, t.cur) && IsReg(q) && q !in a.free && q in a.cost && n == RefOf(a.cost[q]) && TempOk(a, t)
    requires Meets(p, w, Given(a, q, n, place), t, m)
    ensures Meets(p, w, a, t, Set(m, q, Val(p, w, n)))
  {
    hide Val, RegsOk;
    var b, m' := Given(a, q, n, place), Set(m, q, Val(p, w, n));
    forall x | IsReg(x) && x !in a.free ensures InReg_(p, w, a, m', x) {
      assert x != q ==> InReg_(p, w, b, m, x);
    }
    forall k | k in p && k < t.cur && k !in t.saved ensures InSlot(p, w, a, m', k) {
      assert InSlot(p, w, b, m, k);
    }
    forall x ensures InTemp(t, m', x) {
      assert InTemp(t, m, x);
      assert x in t.temp ==> x in a.free;
    }
  }

  /** ra_rematk: a constant is loaded again. */
  lemma Remat(p: Prog, w: World, goal: seq<Event>, code: seq<MIns>, a: Alloc, t: Point, q: Reg, n: Ref, place: Place, i: MIns)
    requires Good(p, w, goal, code, a, t) && RegsOk(p, a, t.cur) && IsReg(q) && q !in a.free && q in a.cost && n == RefOf(a.cost[q])
    requires TempOk(a, t) && n in p && ((p[n].Const? && i == LoadK(q, p[n].k)) || (p[n].Base? && i == LoadBase(q)))
    ensures Good(p, w, goal, [i] + code, Given(a, q, n, place), t)
  {
    hide Good, Meets, RegsOk, Given;
    forall m | Meets(p, w, Given(a, q, n, place), t, m) ensures Meets(p, w, a, t, Step(w, m, i)) {
      GivenMeets(p, w, a, t, q, n, place, m);
    }
    Prepend(p, w, goal, code, a, t, i, Given(a, q, n, place), t);
  }

  /** ra_restore: a spilled value is loaded again. */
  lemma Restore(p: Prog, w: World, goal: seq<Event>, code: seq<MIns>, a: Alloc, t: Point, q: Reg, n: Ref, place: Place)
    requires Good(p, w, goal, code, a, t) && RegsOk(p, a, t.cur) && IsReg(q) && q !in a.free && q in a.cost && n == RefOf(a.cost[q])
    requires TempOk(a, t) && n in p && n < t.cur && n !in t.saved && n in a.s && a.s[n] != 0
    ensures Good(p, w, goal, [Reload(q, a.s[n], TypeOf(p, n).wide)] + code, Given(a, q, n, place), t)
  {
    hide Good, RegsOk;
    var i := Reload(q, a.s[n], TypeOf(p, n).wide);
    forall m | Meets(p, w, Given(a, q, n, place), t, m) ensures Meets(p, w, a, t, Step(w, m, i)) {
      assert InSlot(p, w, Given(a, q, n, place), m, n);
      GivenMeets(p, w, a, t, q, n, place, m);
    }
    Prepend(p, w, goal, code, a, t, i, Given(a, q, n, place), t);
  }

  // ---- steps: a slot or a register is taken -------------------------------------------

  function WithSlot(a: Alloc, n: Ref, slot: nat, even: nat, odd: nat): Alloc {
    a.(s := a.s[n := slot], even := even, odd := odd)
  }

  /** How ra_spill picks a slot. */
  ghost predicate NewSlot(wide: bool, a: Alloc, slot: nat, even: nat, odd: nat) {
    if wide then slot == a.even && even == a.even + 2 && odd == a.odd
    else if a.odd != 0 then slot == a.odd && even == a.even && odd == 0
    else slot == a.even && even == a.even + 2 && odd == a.even + 1
  }

  lemma NewSlotOk(p: Prog, a: Alloc, n: Ref, slot: nat, even: nat, odd: nat)
    requires SlotsOk(p, a) && n in p && HasValue(p[n]) && n > REF_BASE && n in a.s && a.s[n] == 0 && NewSlot(TypeOf(p, n).wide, a, slot, even, odd) && even <= 256
    ensures SlotsOk(p, WithSlot(a, n, slot, even, odd)) && slot != 0
  {
    var b := WithSlot(a, n, slot, even, odd);
    forall k | k in p ensures SlotOk(p, b, k) {
      assert SlotOk(p, a, k);
    }
    forall k, j | k in p && j in p ensures SlotsApart(p, b, k, j) {
      assert SlotOk(p, a, k) && SlotOk(p, a, j) && SlotsApart(p, a, k, j);
    }
  }

  lemma MoreDemand(p: Prog, w: World, a: Alloc, t: Point, n: Ref, slot: nat, even: nat, odd: nat, m: Machine)
    requires Meets(p, w, WithSlot(a, n, slot, even, odd), t, m) && n in a.s && a.s[n] == 0 && p.Keys <= a.s.Keys
    ensures Meets(p, w, a, t, m)
  {
    hide Val;
    var b := WithSlot(a, n, slot, even, odd);
    forall x | IsReg(x) && x !in a.free ensures InReg_(p, w, a, m, x) {
      assert InReg_(p, w, b, m, x);
    }
    forall k | k in p && k < t.cur && k !in t.saved ensures InSlot(p, w, a, m, k) {
      assert InSlot(p, w, b, m, k);
    }
  }

  /** Register q, which is free, holds n from now on. */
  function TakenBy(p: Prog, a: Alloc, q: Reg, n: Ref): Alloc {
    a.(free := a.free - {q}, r := a.r[n := InReg(q)], cost := a.cost[q := Cost(n, TypeOf(p, n).phi)])
  }

  lemma TakenOk(p: Prog, a: Alloc, cur: Ref, q: Reg, n: Ref)
    requires RegsOk(p, a, cur) && ProgOk(p) && IsReg(q) && q in a.free
    requires n in p && n < cur && HasValue(p[n]) && n in a.r && !a.r[n].InReg? && TypeOf(p, n).fp == IsFpr(q)
    ensures RegsOk(p, TakenBy(p, a, q, n), cur)
  {
    hide Cost;
    var b := TakenBy(p, a, q, n);
    assert p[n] == p[n];
    CostRef(n, TypeOf(p, n).phi);
    forall x | IsReg(x) && x !in b.free ensures OwnerOk(p, b, cur, x) {
      assert x != q ==> OwnerOk(p, a, cur, x);
    }
    forall k | k in p && k < cur ensures PlaceOk(p, b, k) {
      assert PlaceOk(p, a, k);
    }
  }

  lemma TakenMeets(p: Prog, w: World, a: Alloc, t: Point, q: Reg, n: Ref, m: Machine)
    requires ProgOk(p) && n in p && q in a.free && IsReg(q) && (q in t.temp ==> t.temp[q] == Val(p, w, n))
    requires Meets(p, w, TakenBy(p, a, q, n), t.(temp := t.temp - {q}), m)
    ensures Meets(p, w, a, t, m)
  {
    hide Val, Cost;
    var b, u := TakenBy(p, a, q, n), t.(temp := t.temp - {q});
    assert p[n] == p[n];
    CostRef(n, TypeOf(p, n).phi);
    assert InReg_(p, w, b, m, q);
    forall x | IsReg(x) && x !in a.free ensures InReg_(p, w, a, m, x) {
      assert InReg_(p, w, b, m, x);
    }
    forall k | k in p && k < t.cur && k !in t.saved ensures InSlot(p, w, a, m, k) {
      assert InSlot(p, w, b, m, k);
    }
    forall x ensures InTemp(t, m, x) {
      assert InTemp(u, m, x);
    }
  }

  lemma Take(p: Prog, w: World, goal: seq<Event>, code: seq<MIns>, a: Alloc, t: Point, q: Reg, n: Ref)
    requires Good(p, w, goal, code, a, t) && ProgOk(p) && n in p && q in a.free && IsReg(q) && (q in t.temp ==> t.temp[q] == Val(p, w, n))
    ensures Good(p, w, goal, code, TakenBy(p, a, q, n), t.(temp := t.temp - {q}))
  {
    hide Good, Meets, TakenBy;
    forall m | Meets(p, w, TakenBy(p, a, q, n), t.(temp := t.temp - {q}), m) ensures Meets(p, w, a, t, m) {
      TakenMeets(p, w, a, t, q, n, m);
    }
    Stronger(p, w, goal, code, a, t, TakenBy(p, a, q, n), t.(temp := t.temp - {q}));
  }

  // ---- steps: moving and defining ----------------------------------------------------

  function Renamed(a: Alloc, down: Reg, up: Reg, n: Ref): Alloc
    requires down in a.cost
  {
    a.(free := a.free + {down} - {up}, r := a.r[n := InReg(up)], cost := a.cost[up := a.cost[down]][down := 0])
  }

  lemma RenamedOk(p: Prog, a: Alloc, cur: Ref, down: Reg, up: Reg, n: Ref)
    requires RegsOk(p, a, cur) && IsReg(down) && IsReg(up) && IsFpr(down) == IsFpr(up) && down !in a.free && up in a.free
    requires down in a.cost && n == RefOf(a.cost[down])
    ensures RegsOk(p, Renamed(a, down, up, n), cur)
  {
    hide Cost;
    var b := Renamed(a, down, up, n);
    assert OwnerOk(p, a, cur, down);
    forall x | IsReg(x) && x !in b.free ensures OwnerOk(p, b, cur, x) {
      assert x != up ==> OwnerOk(p, a, cur, x);
    }
    forall k | k in p && k < cur ensures PlaceOk(p, b, k) {
      assert PlaceOk(p, a, k);
    }
  }

  lemma RenamedMeets(p: Prog, w: World, a: Alloc, t: Point, down: Reg, up: Reg, n: Ref, m: Machine)
    requires RegsOk(p, a, t.cur) && IsReg(down) && IsReg(up) && down !in a.free && up in a.free && TempOk(a, t) && up !in t.temp
    requires down in a.cost && n == RefOf(a.cost[down])
    requires Meets(p, w, Renamed(a, down, up, n), t, m)
    ensures Meets(p, w, a, t, Set(m, down, Get(m, up)))
  {
    hide Val, RegsOk;
    var b, m' := Renamed(a, down, up, n), Set(m, down, Get(m, up));
    assert InReg_(p, w, b, m, up);
    forall x | IsReg(x) && x !in a.free ensures InReg_(p, w, a, m', x) {
      assert x != down ==> InReg_(p, w, b, m, x);
    }
    forall k | k in p && k < t.cur && k !in t.saved ensures InSlot(p, w, a, m', k) {
      assert InSlot(p, w, b, m, k);
    }
    forall x ensures InTemp(t, m', x) {
      assert InTemp(t, m, x);
      assert x in t.temp ==> x in a.free;
    }
  }

  lemma Rename(p: Prog, w: World, goal: seq<Event>, code: seq<MIns>, a: Alloc, t: Point, down: Reg, up: Reg, n: Ref)
    requires Good(p, w, goal, code, a, t)
    requires RegsOk(p, a, t.cur) && IsReg(down) && IsReg(up) && down !in a.free && up in a.free && TempOk(a, t) && up !in t.temp
    requires down in a.cost && n == RefOf(a.cost[down])
    ensures Good(p, w, goal, [Mov(down, up)] + code, Renamed(a, down, up, n), t)
  {
    hide Good, Meets, RegsOk, Renamed;
    forall m | Meets(p, w, Renamed(a, down, up, n), t, m) ensures Meets(p, w, a, t, Step(w, m, Mov(down, up))) {
      RenamedMeets(p, w, a, t, down, up, n, m);
    }
    Prepend(p, w, goal, code, a, t, Mov(down, up), Renamed(a, down, up, n), t);
  }

  /** The result of instruction n, to be computed into register d. */
  function Defining(a: Alloc, n: Ref, d: Reg): Alloc {
    a.(free := a.free + {d}, r := a.r[n := InReg(d)])
  }

  ghost function DefPoint(p: Prog, w: World, t: Point, n: Ref, d: Reg): Point {
    t.(cur := n, temp := t.temp[d := Val(p, w, n)])
  }

  /** At the definition of n its register, or a free one, becomes a temporary; slot and
      register of n are not demanded any more. */
  lemma DefiningOk(p: Prog, a: Alloc, n: Ref, d: Reg)
    requires RegsOk(p, a, n + 1) && n in p && n in a.r && IsReg(d) && (if a.r[n].InReg? then d == a.r[n].reg else d in a.free)
    ensures RegsOk(p, Defining(a, n, d), n) && d in Defining(a, n, d).free
  {
    var b := Defining(a, n, d);
    assert PlaceOk(p, a, n);
    forall x | IsReg(x) && x !in b.free ensures OwnerOk(p, b, n, x) {
      assert OwnerOk(p, a, n + 1, x);
    }
    forall k | k in p && k < n ensures PlaceOk(p, b, k) {
      assert PlaceOk(p, a, k);
    }
  }

  lemma DefiningMeets(p: Prog, w: World, a: Alloc, t: Point, n: Ref, d: Reg, m: Machine)
    requires RegsOk(p, a, n + 1) && SlotsOk(p, a) && n in p && n in a.r && n in a.s && IsReg(d) && t.cur == n + 1 && TempOk(a, t)
    requires if a.r[n].InReg? then d == a.r[n].reg else d in a.free
    requires d !in t.temp
    requires Meets(p, w, Defining(a, n, d), DefPoint(p, w, t, n, d), m)
    ensures Meets(p, w, a, t, if a.s[n] != 0 then Poke(m, a.s[n], TypeOf(p, n).wide, Get(m, d)) else m)
  {
    hide Val;
    var b, u := Defining(a, n, d), DefPoint(p, w, t, n, d);
    var m' := if a.s[n] != 0 then Poke(m, a.s[n], TypeOf(p, n).wide, Get(m, d)) else m;
    assert InTemp(u, m, d);
    assert PlaceOk(p, a, n);
    forall x | IsReg(x) && x !in a.free ensures InReg_(p, w, a, m', x) {
      assert x != d ==> InReg_(p, w, b, m, x);
      assert OwnerOk(p, a, n + 1, x);
    }
    forall k | k in p && k < t.cur && k !in t.saved ensures InSlot(p, w, a, m', k) {
      assert k != n ==> InSlot(p, w, b, m, k);
      assert SlotOk(p, a, k) && SlotOk(p, a, n) && SlotsApart(p, a, n, k);
    }
    forall x ensures InTemp(t, m', x) {
      assert InTemp(u, m, x);
    }
  }

  lemma Define(p: Prog, w: World, goal: seq<Event>, code: seq<MIns>, a: Alloc, t: Point, n: Ref, d: Reg)
    requires Good(p, w, goal, code, a, t)
    requires RegsOk(p, a, n + 1) && SlotsOk(p, a) && n in p && n in a.r && n in a.s && IsReg(d) && t.cur == n + 1 && TempOk(a, t)
    requires if a.r[n].InReg? then d == a.r[n].reg else d in a.free
    requires d !in t.temp
    ensures Good(p, w, goal, (if a.s[n] != 0 then [Spill(d, a.s[n], TypeOf(p, n).wide)] else []) + code,
                 Defining(a, n, d), DefPoint(p, w, t, n, d))
  {
    hide Good, Meets, RegsOk, SlotsOk, Defining, DefPoint;
    var b, u := Defining(a, n, d), DefPoint(p, w, t, n, d);
    forall m | Meets(p, w, b, u, m)
      ensures Meets(p, w, a, t, if a.s[n] != 0 then Poke(m, a.s[n], TypeOf(p, n).wide, Get(m, d)) else m)
    {
      DefiningMeets(p, w, a, t, n, d, m);
    }
    if a.s[n] != 0 {
      Prepend(p, w, goal, code, a, t, Spill(d, a.s[n], TypeOf(p, n).wide), b, u);
    } else {
      assert [] + code == code;
      Stronger(p, w, goal, code, a, t, b, u);
    }
  }

  /** An instruction computes the temporary d; u says what it needs instead. */
  lemma Compute(p: Prog, w: World, goal: seq<Event>, code: seq<MIns>, a: Alloc, t: Point, i: MIns, d: Reg, u: Point)
    requires Good(p, w, goal, code, a, t) && d in t.temp && d in a.free && u.cur == t.cur && u.out == t.out && u.sp == t.sp && u.saved == t.saved
    requires forall x {:trigger x in u.temp} :: x in t.temp && x != d ==> x in u.temp && u.temp[x] == t.temp[x]
    requires forall m {:trigger Step(w, m, i)} :: Meets(p, w, a, u, m) ==> Step(w, m, i) == Set(m, d, t.temp[d])
    ensures Good(p, w, goal, [i] + code, a, u)
  {
    hide Good, Step;
    forall m | Meets(p, w, a, u, m) ensures Meets(p, w, a, t, Step(w, m, i)) {
      ComputeMeets(p, w, a, t, d, u, m);
    }
    Prepend(p, w, goal, code, a, t, i, a, u);
  }

  lemma ComputeMeets(p: Prog, w: World, a: Alloc, t: Point, d: Reg, u: Point, m: Machine)
    requires d in t.temp && d in a.free && u.cur == t.cur && u.out == t.out && u.sp == t.sp && u.saved == t.saved
    requires forall x {:trigger x in u.temp} :: x in t.temp && x != d ==> x in u.temp && u.temp[x] == t.temp[x]
    requires Meets(p, w, a, u, m)
    ensures Meets(p, w, a, t, Set(m, d, t.temp[d]))
  {
    hide Val;
    var m' := Set(m, d, t.temp[d]);
    forall x | IsReg(x) && x !in a.free ensures InReg_(p, w, a, m', x) {
      assert InReg_(p, w, a, m, x);
    }
    forall k | k in p && k < t.cur && k !in t.saved ensures InSlot(p, w, a, m', k) {
      assert InSlot(p, w, a, m, k);
    }
    forall x ensures InTemp(t, m', x) {
      assert InTemp(u, m, x);
    }
  }

  /** What a register in use contains. */
  lemma HasValueIn(p: Prog, w: World, a: Alloc, t: Point, m: Machine, q: Reg)
    requires Meets(p, w, a, t, m) && IsReg(q) && q !in a.free
    ensures q in a.cost && Get(m, q) == Val(p, w, RefOf(a.cost[q]))
  {
    hide Val;
    assert InReg_(p, w, a, m, q);
  }

  /** An operand from which the value of n can be fetched. */
  ghost predicate SourceOk(p: Prog, a: Alloc, cur: Ref, src: Source, n: Ref) {
    && n in p
    && match src
       case R(q) => IsReg(q) && q !in a.free && q in a.cost && RefOf(a.cost[q]) == n
       case K(k) => p[n].Const? && p[n].k == k
       case S(slot, wide) => n < cur && n in a.s && a.s[n] == slot && slot != 0 && wide == TypeOf(p, n).wide
       case G => p[n].Base?
  }

  lemma SourceValue(p: Prog, w: World, a: Alloc, t: Point, m: Machine, src: Source, n: Ref)
    requires Meets(p, w, a, t, m) && SourceOk(p, a, t.cur, src, n) && t.saved == {}
    ensures Fetch(w, m, src) == Val(p, w, n)
  {
    if src.R? {
      HasValueIn(p, w, a, t, m, src.r);
    } else if src.S? {
      assert InSlot(p, w, a, m, n);
    }
  }

  // ---- steps: effects -----------------------------------------------------------------

  lemma EmitStore(p: Prog, w: World, goal: seq<Event>, code: seq<MIns>, a: Alloc, t: Point, op: nat, x: Reg, y: Reg, u: Point)
    requires Good(p, w, goal, code, a, t) && IsReg(x) && IsReg(y) && x !in a.free && y !in a.free && x in a.cost && y in a.cost
    requires u.cur <= t.cur && u.temp == t.temp && u.sp == t.sp && u.saved == t.saved && SlotsUnused(p, a, u.cur, t.cur)
    requires t.out == u.out + [Stored(op, Val(p, w, RefOf(a.cost[x])), Val(p, w, RefOf(a.cost[y])))]
    ensures Good(p, w, goal, [StoreTo(op, x, y)] + code, a, u)
  {
    hide Good, Val;
    forall m | Meets(p, w, a, u, m) ensures Meets(p, w, a, t, Step(w, m, StoreTo(op, x, y))) {
      StoreMeets(p, w, a, t, op, x, y, u, m);
    }
    Prepend(p, w, goal, code, a, t, StoreTo(op, x, y), a, u);
  }

  /** No instruction from lo to hi has a spill slot. */
  ghost predicate SlotsUnused(p: Prog, a: Alloc, lo: Ref, hi: Ref) {
    forall n {:trigger n in a.s} :: lo <= n < hi && n in p ==> n in a.s && a.s[n] == 0
  }

  lemma StoreMeets(p: Prog, w: World, a: Alloc, t: Point, op: nat, x: Reg, y: Reg, u: Point, m: Machine)
    requires IsReg(x) && IsReg(y) && x !in a.free && y !in a.free && x in a.cost && y in a.cost
    requires u.cur <= t.cur && u.temp == t.temp && u.sp == t.sp && u.saved == t.saved && SlotsUnused(p, a, u.cur, t.cur)
    requires t.out == u.out + [Stored(op, Val(p, w, RefOf(a.cost[x])), Val(p, w, RefOf(a.cost[y])))]
    requires Meets(p, w, a, u, m)
    ensures Meets(p, w, a, t, Step(w, m, StoreTo(op, x, y)))
  {
    hide Val;
    var m' := Step(w, m, StoreTo(op, x, y));
    HasValueIn(p, w, a, u, m, x);
    HasValueIn(p, w, a, u, m, y);
    forall q | IsReg(q) && q !in a.free ensures InReg_(p, w, a, m', q) {
      assert InReg_(p, w, a, m, q);
    }
    forall k | k in p && k < t.cur && k !in t.saved ensures InSlot(p, w, a, m', k) {
      assert k < u.cur ==> InSlot(p, w, a, m, k);
      assert k >= u.cur ==> k in a.s;
    }
    forall q ensures InTemp(t, m', q) {
      assert InTemp(u, m, q);
    }
  }

  /** An instruction without use and effect needs no code. */
  lemma SkipDead(p: Prog, w: World, goal: seq<Event>, code: seq<MIns>, a: Alloc, t: Point, u: Point)
    requires Good(p, w, goal, code, a, t) && u.cur <= t.cur && u.temp == t.temp && u.sp == t.sp && u.saved == t.saved && u.out == t.out
    requires SlotsUnused(p, a, u.cur, t.cur)
    ensures Good(p, w, goal, code, a, u)
  {
    hide Good, Val;
    forall m | Meets(p, w, a, u, m) ensures Meets(p, w, a, t, m) {
      forall q | IsReg(q) && q !in a.free ensures InReg_(p, w, a, m, q) {
        assert InReg_(p, w, a, m, q);
      }
      forall k | k in p && k < t.cur && k !in t.saved ensures InSlot(p, w, a, m, k) {
        assert k < u.cur ==> InSlot(p, w, a, m, k);
        assert k >= u.cur ==> k in a.s;
      }
      forall q ensures InTemp(t, m, q) {
        assert InTemp(u, m, q);
      }
    }
    Stronger(p, w, goal, code, a, t, a, u);
  }

  lemma FewerOwners(p: Prog, a: Alloc, cur: Ref, lo: Ref)
    requires RegsOk(p, a, cur) && lo <= cur
    requires forall n :: lo <= n < cur && n in p ==> n in a.r && !a.r[n].InReg?
    ensures RegsOk(p, a, lo)
  {
    forall q | IsReg(q) && q !in a.free ensures OwnerOk(p, a, lo, q) {
      assert OwnerOk(p, a, cur, q);
    }
    forall n | n in p && n < lo ensures PlaceOk(p, a, n) {
      assert PlaceOk(p, a, n);
    }
  }

  /** Before a call, the registers its arguments are taken from hold the values of the event that
      is to follow; behind it, at most the result is of interest. */
  ghost predicate CallPoint(w: World, t: Point, fn: nat, fps: seq<bool>, fp: bool, u: Point) {
    var rs := ArgPlaces(fps);
    && (forall i {:trigger rs[i]} :: 0 <= i < |rs| ==> rs[i] in u.temp)
    && var vs := seq(|rs|, i requires 0 <= i < |rs| => u.temp[rs[i]]);
       && t.out == u.out + [Called(fn, vs)]
       && (forall q {:trigger q in t.temp} :: q in t.temp ==> q == RetPlace(fp) && t.temp[q] == w.result(fn, vs, |u.out|))
  }

  /** A call: no value may be in a scratch register, apart from the result. */
  lemma EmitCall(p: Prog, w: World, goal: seq<Event>, code: seq<MIns>, a: Alloc, t: Point, fn: nat, fps: seq<bool>, fp: bool, u: Point)
    requires Good(p, w, goal, code, a, t) && u.cur <= t.cur && u.sp == t.sp && u.saved == t.saved && SlotsUnused(p, a, u.cur, t.cur)
    requires forall q {:trigger q in a.free} :: IsScratch(q) && IsReg(q) ==> q in a.free
    requires CallPoint(w, t, fn, fps, fp, u)
    ensures Good(p, w, goal, [CallFn(fn, fps, fp)] + code, a, u)
  {
    hide Good, Val, CallPoint;
    forall m | Meets(p, w, a, u, m) ensures Meets(p, w, a, t, Step(w, m, CallFn(fn, fps, fp))) {
      CallMeets(p, w, a, t, fn, fps, fp, u, m);
    }
    Prepend(p, w, goal, code, a, t, CallFn(fn, fps, fp), a, u);
  }

  lemma CallMeets(p: Prog, w: World, a: Alloc, t: Point, fn: nat, fps: seq<bool>, fp: bool, u: Point, m: Machine)
    requires u.cur <= t.cur && u.sp == t.sp && u.saved == t.saved && SlotsUnused(p, a, u.cur, t.cur)
    requires forall q {:trigger q in a.free} :: IsScratch(q) && IsReg(q) ==> q in a.free
    requires CallPoint(w, t, fn, fps, fp, u) && Meets(p, w, a, u, m)
    ensures Meets(p, w, a, t, Step(w, m, CallFn(fn, fps, fp)))
  {
    hide Val, ArgPlaces;
    var m', rs := AfterCall(w, m, fn, fps, fp), ArgPlaces(fps);
    var vs := seq(|rs|, i requires 0 <= i < |rs| => u.temp[rs[i]]);
    assert GetAll(m, rs) == vs by {
      forall i | 0 <= i < |rs| ensures GetAll(m, rs)[i] == vs[i] {
        assert InTemp(u, m, rs[i]);
      }
    }
    forall q | IsReg(q) && q !in a.free ensures InReg_(p, w, a, m', q) {
      assert InReg_(p, w, a, m, q);
    }
    forall k | k in p && k < t.cur && k !in t.saved ensures InSlot(p, w, a, m', k) {
      assert k < u.cur ==> InSlot(p, w, a, m, k);
      assert k >= u.cur ==> k in a.s;
    }
    forall q ensures InTemp(t, m', q) {
    }
  }

  // ---- steps at the head of a side trace -----------------------------------------------

  /** A register whose content is already there when the trace is entered: its owner n has
      no further need of code. */
  lemma Coalesce(p: Prog, w: World, goal: seq<Event>, code: seq<MIns>, a: Alloc, t: Point, q: Reg, n: Ref, place: Place)
    requires Good(p, w, goal, code, a, t) && RegsOk(p, a, t.cur) && IsReg(q) && q !in a.free && q in a.cost && n == RefOf(a.cost[q])
    requires TempOk(a, t)
    ensures Good(p, w, goal, code, Given(a, q, n, place), t.(temp := t.temp[q := Val(p, w, n)]))
  {
    hide Good, Val, RegsOk;
    var b, u := Given(a, q, n, place), t.(temp := t.temp[q := Val(p, w, n)]);
    forall m | Meets(p, w, b, u, m) ensures Meets(p, w, a, t, m) {
      assert InTemp(u, m, q);
      forall x | IsReg(x) && x !in a.free ensures InReg_(p, w, a, m, x) {
        assert x != q ==> InReg_(p, w, b, m, x);
      }
      forall k | k in p && k < t.cur && k !in t.saved ensures InSlot(p, w, a, m, k) {
        assert InSlot(p, w, b, m, k);
      }
      forall x ensures InTemp(t, m, x) {
        assert InTemp(u, m, x);
        assert x in t.temp ==> x in a.free;
      }
    }
    Stronger(p, w, goal, code, a, t, b, u);
  }

  /** A register in use is stored to the slot of its owner. */
  lemma SaveOwn(p: Prog, w: World, goal: seq<Event>, code: seq<MIns>, a: Alloc, t: Point, q: Reg, n: Ref)
    requires Good(p, w, goal, code, a, t) && SlotsOk(p, a) && IsReg(q) && q !in a.free && q in a.cost && n == RefOf(a.cost[q])
    requires n in p && n < t.cur && n in a.s && a.s[n] != 0
    ensures Good(p, w, goal, [Spill(q, a.s[n], TypeOf(p, n).wide)] + code, a, t.(saved := t.saved + {n}))
  {
    hide Good, SlotsOk;
    var u, i := t.(saved := t.saved + {n}), Spill(q, a.s[n], TypeOf(p, n).wide);
    forall m | Meets(p, w, a, u, m) ensures Meets(p, w, a, t, Step(w, m, i)) {
      SaveOwnMeets(p, w, a, t, q, n, m);
    }
    Prepend(p, w, goal, code, a, t, i, a, u);
  }

  lemma SaveOwnMeets(p: Prog, w: World, a: Alloc, t: Point, q: Reg, n: Ref, m: Machine)
    requires SlotsOk(p, a) && IsReg(q) && q !in a.free && q in a.cost && n == RefOf(a.cost[q])
    requires n in p && n < t.cur && n in a.s && a.s[n] != 0
    requires Meets(p, w, a, t.(saved := t.saved + {n}), m)
    ensures Meets(p, w, a, t, Poke(m, a.s[n], TypeOf(p, n).wide, Get(m, q)))
  {
    hide Val;
    var u, m' := t.(saved := t.saved + {n}), Poke(m, a.s[n], TypeOf(p, n).wide, Get(m, q));
    HasValueIn(p, w, a, u, m, q);
    forall x | IsReg(x) && x !in a.free ensures InReg_(p, w, a, m', x) {
      assert InReg_(p, w, a, m, x);
    }
    forall k | k in p && k < t.cur && k !in t.saved ensures InSlot(p, w, a, m', k) {
      assert k != n ==> InSlot(p, w, a, m, k);
      assert SlotOk(p, a, k) && SlotOk(p, a, n) && SlotsApart(p, a, n, k);
    }
    forall x ensures InTemp(t, m', x) {
      assert InTemp(u, m, x);
    }
  }

  /** The slots in the frame of the parent that hold what the trace still expects in slots. */
  ghost predicate SameSlots(p: Prog, a: Alloc, t: Point, d: nat, ps: map<Ref, nat>) {
    forall n {:trigger n in a.s} {:trigger n in ps} :: n in p && n in a.s && n < t.cur ==>
      n in ps && (n !in t.saved && a.s[n] != 0 ==> ps[n] != 0 && ps[n] + d == a.s[n])
  }

  /** The stack frame grows by d slots. */
  lemma Grow(p: Prog, w: World, goal: seq<Event>, code: seq<MIns>, a: Alloc, t: Point, d: nat, ps: map<Ref, nat>)
    requires Good(p, w, goal, code, a, t) && SlotsOk(p, a) && SameSlots(p, a, t, d, ps)
    ensures Good(p, w, goal, [SpSub(d)] + code, a.(s := ps), t.(sp := t.sp + d, saved := {}))
  {
    hide Good, Val;
    var b, u := a.(s := ps), t.(sp := t.sp + d, saved := {});
    forall m | Meets(p, w, b, u, m) ensures Meets(p, w, a, t, Step(w, m, SpSub(d))) {
      var m' := Step(w, m, SpSub(d));
      forall x | IsReg(x) && x !in a.free ensures InReg_(p, w, a, m', x) {
        assert InReg_(p, w, b, m, x);
      }
      forall k | k in p && k < t.cur && k !in t.saved ensures InSlot(p, w, a, m', k) {
        assert InSlot(p, w, b, m, k);
        assert SlotOk(p, a, k);
      }
      forall x ensures InTemp(t, m', x) {
        assert InTemp(u, m, x);
      }
    }
    Prepend(p, w, goal, code, a, t, SpSub(d), b, u);
  }

  /** More is expected in slots. */
  lemma ExpectSlot(p: Prog, w: World, goal: seq<Event>, code: seq<MIns>, a: Alloc, t: Point, n: Ref, slot: nat)
    requires Good(p, w, goal, code, a, t) && n in a.s && (a.s[n] == 0 || a.s[n] == slot)
    ensures Good(p, w, goal, code, a.(s := a.s[n := slot]), t)
  {
    hide Good, Val;
    var b := a.(s := a.s[n := slot]);
    forall m | Meets(p, w, b, t, m) ensures Meets(p, w, a, t, m) {
      forall x | IsReg(x) && x !in a.free ensures InReg_(p, w, a, m, x) {
        assert InReg_(p, w, b, m, x);
      }
      forall k | k in p && k < t.cur && k !in t.saved ensures InSlot(p, w, a, m, k) {
        assert InSlot(p, w, b, m, k);
      }
    }
    Stronger(p, w, goal, code, a, t, b, t);
  }

  lemma OtherSlots(p: Prog, a: Alloc, cur: Ref, s: map<Ref, nat>)
    requires RegsOk(p, a, cur)
    ensures RegsOk(p, a.(s := s), cur)
  {
    var b := a.(s := s);
    forall x | IsReg(x) && x !in b.free ensures OwnerOk(p, b, cur, x) {
      assert OwnerOk(p, a, cur, x);
    }
    forall k | k in p && k < cur ensures PlaceOk(p, b, k) {
      assert PlaceOk(p, a, k);
    }
  }

  // ---- how many values are spilled ---------------------------------------------------------

  ghost function Spilled(s: map<Ref, nat>): set<Ref> {
    set n | n in s && s[n] != 0
  }

  /** Every spilled value has taken two slots at most, from first on. */
  ghost predicate SpillCount(p: Prog, s: map<Ref, nat>, even: nat, first: nat, top: Ref) {
    && even <= first + 2 * |Spilled(s)|
    && (forall n {:trigger n in Spilled(s)} :: n in Spilled(s) ==> REF_BASE < n < top)
    && (forall n {:trigger n in p} :: n in p ==> n < top)
  }

  lemma {:induction false} IntervalSize(xs: set<Ref>, lo: Ref, hi: Ref)
    requires lo < hi && forall n {:trigger n in xs} :: n in xs ==> lo < n < hi
    ensures |xs| <= hi - lo - 1
    decreases hi
  {
    if hi > lo + 1 {
      IntervalSize(xs - {hi - 1}, lo, hi - 1);
      assert hi - 1 in xs ==> xs == (xs - {hi - 1}) + {hi - 1};
      assert hi - 1 !in xs ==> xs - {hi - 1} == xs;
    } else {
      assert xs == {};
    }
  }

  /** One more value is spilled. */
  lemma SpillMore(p: Prog, s: map<Ref, nat>, even: nat, first: nat, top: Ref, n: Ref, slot: nat, even': nat)
    requires SpillCount(p, s, even, first, top) && n in p && n > REF_BASE && n in s && s[n] == 0 && slot != 0 && even' <= even + 2
    ensures SpillCount(p, s[n := slot], even', first, top) && even' <= first + 2 * (top - REF_BASE - 1)
  {
    assert Spilled(s[n := slot]) == Spilled(s) + {n};
    assert n < top;
    IntervalSize(Spilled(s) + {n}, REF_BASE, top);
  }

  lemma NoneSpilled(p: Prog, s: map<Ref, nat>, even: nat, top: Ref)
    requires (forall n {:trigger n in s} :: n in s ==> s[n] == 0) && forall n {:trigger n in p} :: n in p ==> n < top
    ensures SpillCount(p, s, even, even, top)
  {
    assert Spilled(s) == {};
  }
}
