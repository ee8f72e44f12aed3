/** The action lists of DynASM (dasm_x86.h): how the bytes are read, and what each action
    contributes to the section buffer and to the code. */
module DasmActions {
  // ---- action codes -------------------------------------------------------------------

  const DASM_DISP: nat := 233
  const DASM_IMM_S: nat := 234
  const DASM_IMM_B: nat := 235
  const DASM_IMM_W: nat := 236
  const DASM_IMM_D: nat := 237
  const DASM_SPACE: nat := 241
  const DASM_REL_LG: nat := 244
  const DASM_REL_PC: nat := 245
  const DASM_LABEL_LG: nat := 248
  const DASM_LABEL_PC: nat := 249
  const DASM_ALIGN: nat := 250
  const DASM_ESC: nat := 252
  const DASM_SECTION: nat := 254
  const DASM_STOP: nat := 255

  /** A label: local (1 to 9) or global (10 and up), or numbered (PC). */
  datatype Label = Lg(n: nat) | Pc(n: nat)

  /** How a reference is written: to the last or next local label, or to any other. */
  datatype Kind = Backward | Forward | Other

  /** What an action stands for, with its argument. */
  datatype Elem =
    | Start(p: nat)
    | Raw(v: nat)
    | Esc(v: nat)
    | Imm(size: nat, val: int)
    | Space(fill: nat, count: nat)
    | Rel(name: Label, kind: Kind)
    | Def(name: Label)
    | Align(mask: nat)

  /** Positions taken in the section buffer. */
  function Width(e: Elem): nat {
    match e
    case Raw(_) => 0
    case Esc(_) => 0
    case Rel(_, _) => 2
    case _ => 1
  }

  /** Bytes reserved by the first pass. */
  function Max(e: Elem): nat {
    match e
    case Start(_) => 0
    case Raw(_) => 1
    case Esc(_) => 1
    case Imm(size, _) => size
    case Space(_, n) => n
    case Rel(_, _) => 4
    case Def(_) => 0
    case Align(mask) => mask
  }

  /** One action, as it stands in the list: arguments are still open. */
  datatype Action =
    | Byte(v: nat)
    | Escaped(v: nat)
    | Immediate(size: nat)
    | Fill(fill: nat)
    | RelLg(n: nat)
    | RelPc
    | LabelLg(n: nat)
    | LabelPc
    | AlignTo(mask: nat)
    | Section(n: nat)
    | Stop
    | Unknown

  /** Bytes taken in the action list. */
  function Length(a: Action): nat {
    match a
    case Escaped(_) => 2
    case Fill(_) => 2
    case RelLg(_) => 2
    case LabelLg(_) => 2
    case AlignTo(_) => 2
    case Section(_) => 2
    case _ => 1
  }

  /** The action at p. An alignment is given as a power of two minus one. */
  function Decode(act: seq<nat>, p: nat): Action {
    if p >= |act| then Unknown
    else
      var a := act[p];
      if a < DASM_DISP then Byte(a)
      else if a == DASM_IMM_S || a == DASM_IMM_B then Immediate(1)
      else if a == DASM_IMM_W then Immediate(2)
      else if a == DASM_IMM_D then Immediate(4)
      else if a == DASM_REL_PC then RelPc
      else if a == DASM_LABEL_PC then LabelPc
      else if a == DASM_STOP then Stop
      else if p + 1 >= |act| then Unknown
      else if a == DASM_SPACE then Fill(act[p + 1])
      else if a == DASM_REL_LG then RelLg(act[p + 1])
      else if a == DASM_LABEL_LG then LabelLg(act[p + 1])
      else if a == DASM_ALIGN then AlignTo(act[p + 1])
      else if a == DASM_ESC then Escaped(act[p + 1])
      else if a == DASM_SECTION then Section(act[p + 1])
      else Unknown
  }

  /** All bytes are bytes. */
  ghost predicate Bytes(act: seq<nat>) {
    forall i {:trigger act[i]} :: 0 <= i < |act| ==> act[i] < 256
  }

  predicate IsMask(m: nat) {
    m == 1 || m == 3 || m == 7 || m == 15 || m == 31 || m == 63 || m == 127 || m == 255
  }

  /** x & mask, for a mask of low bits */
  function And(x: int, mask: nat): int {
    x % (mask + 1)
  }

  lemma ProductSmall(m: int, k: int)
    requires m > 0 && 0 <= m * k < m
    ensures k == 0
  {
    assert k >= 1 ==> m * (k - 1) >= 0;
    assert k <= -1 ==> m * (-1 - k) >= 0;
  }

  lemma MultipleOf(m: int, q: int)
    requires m > 0
    ensures (m * q) % m == 0
  {
    var z := m * q;
    assert z == m * (z / m) + z % m;
    assert m * (q - z / m) == m * q - m * (z / m);
    ProductSmall(m, q - z / m);
  }

  /** Clearing the low bits of y gives a multiple. */
  lemma ClearLow(y: int, mask: nat)
    ensures And(y - And(y, mask), mask) == 0 && 0 <= And(y, mask) <= mask
  {
    var m := mask + 1;
    assert y == m * (y / m) + y % m;
    MultipleOf(m, y / m);
  }

  /** The label and kind of a REL_LG operand: up to 246 a backward local or a global label,
      above that a forward local label. */
  function LgRef(n: nat): Elem {
    if n <= 246 then Rel(Lg(n), if n >= 10 then Other else Backward) else Rel(Lg(n - 246), Forward)
  }

  /** Element e is action a with its argument filled in. */
  predicate Fits(a: Action, e: Elem) {
    match a
    case Byte(v) => e == Raw(v)
    case Escaped(v) => e == Esc(v)
    case Immediate(size) => e.Imm? && e.size == size
    case Fill(fill) => e.Space? && e.fill == fill
    case RelLg(n) => e == LgRef(n)
    case RelPc => e.Rel? && e.name.Pc? && e.kind == Other
    case LabelLg(n) => e == Def(Lg(n))
    case LabelPc => e.Def? && e.name.Pc?
    case AlignTo(mask) => e == Align(mask)
    case Section(_) => false
    case Stop => false
    case Unknown => false
  }

  /** Action a with argument n. */
  function ElemAt(a: Action, n: int): Elem {
    var m: nat := if n < 0 then 0 else n;
    match a
    case Byte(v) => Raw(v)
    case Escaped(v) => Esc(v)
    case Immediate(size) => Imm(size, n)
    case Fill(fill) => Space(fill, m)
    case RelLg(x) => LgRef(x)
    case RelPc => Rel(Pc(m), Other)
    case LabelLg(x) => Def(Lg(x))
    case LabelPc => Def(Pc(m))
    case AlignTo(mask) => Align(mask)
    case _ => Raw(0)
  }

  predicate TakesArg(a: Action) {
    a.Immediate? || a.Fill? || a.RelPc? || a.LabelPc?
  }

  /** The elements a put adds, from the action at p and the argument args[i] on. */
  ghost function Elems(act: seq<nat>, p: nat, args: seq<int>, i: nat): seq<Elem>
    decreases |act| - p
  {
    var a := Decode(act, p);
    if Ends(a) || p >= |act| then []
    else [ElemAt(a, if TakesArg(a) && i < |args| then args[i] else 0)] + Elems(act, p + Length(a), args, if TakesArg(a) then i + 1 else i)
  }

  /** The buffer positions a put takes from the action at p on. */
  ghost function Words(act: seq<nat>, p: nat): nat
    decreases |act| - p
  {
    var a := Decode(act, p);
    if Ends(a) || p >= |act| then 0 else Width(ElemAt(a, 0)) + Words(act, p + Length(a))
  }

  /** The section or stop action behind p. */
  ghost function EndOf(act: seq<nat>, p: nat): Action
    decreases |act| - p
  {
    var a := Decode(act, p);
    if Ends(a) || p >= |act| then a else EndOf(act, p + Length(a))
  }

  predicate Ends(a: Action) { a.Stop? || a.Section? }

  /** An action list is read to its end from p: every action is one of the modelled ones. The
      last opcode byte seen is op, and the one before it pre; a relative operand follows its
      opcode at once if that opcode has a short form. */
  ghost predicate Wf(act: seq<nat>, p: nat, op: nat, pre: nat, near: bool)
    decreases |act| - p
  {
    var a := Decode(act, p);
    && !a.Unknown?
    && (a.RelLg? || a.RelPc? ==> (op == 0xE9 ==> near) && (0x80 <= op < 0x90 ==> near && pre == 0x0F))
    && (a.AlignTo? ==> IsMask(a.mask))
    && (!Ends(a) && p < |act| ==>
          if a.Byte? then Wf(act, p + 1, a.v, if near then op else 0, true)
          else if a.Escaped? then Wf(act, p + 2, a.v, if near then op else 0, true)
          else Wf(act, p + Length(a), op, pre, false))
  }

  /** The opcode bytes seen after the action at p. */
  ghost function NextOp(act: seq<nat>, p: nat, op: nat, pre: nat, near: bool): (nat, nat, bool) {
    var a := Decode(act, p);
    if a.Byte? || a.Escaped? then (a.v, if near then op else 0, true) else (op, pre, false)
  }

  lemma WfStep(act: seq<nat>, p: nat, op: nat, pre: nat, near: bool)
    requires Wf(act, p, op, pre, near)
    ensures p < |act| && !Decode(act, p).Unknown? && p + Length(Decode(act, p)) <= |act|
    ensures Decode(act, p).AlignTo? ==> IsMask(Decode(act, p).mask)
    ensures !Ends(Decode(act, p)) ==>
              var x := NextOp(act, p, op, pre, near); Wf(act, p + Length(Decode(act, p)), x.0, x.1, x.2)
  {
  }
}
