/** How the assembler (dasm_x86.lua) writes statements as action lists, and that the encoding engine
    (dasm_x86.h) reads them back. */
module DasmText {
  import opened DasmActions

  /** What the assembler is given: a byte of code, an immediate operand, bytes to fill, a branch
      target, a label, an alignment. Local labels are 1 to 9, global ones 10 and up. */
  datatype Stmt =
    | Out(v: nat)
    | Signed8(n: int)
    | Unsigned8(n: int)
    | Unsigned16(n: int)
    | Any32(n: int)
    | Filled(fill: nat, count: nat)
    | Back(x: nat)
    | Ahead(x: nat)
    | ToGlobal(x: nat)
    | ToNumbered(pc: nat)
    | Here(x: nat)
    | HereNumbered(pc: nat)
    | Aligned(mask: nat)

  predicate StmtOk(s: Stmt) {
    match s
    case Out(v) => v < 256
    case Back(x) => 1 <= x <= 9
    case Ahead(x) => 1 <= x <= 9
    case ToGlobal(x) => 10 <= x <= 246
    case _ => true
  }

  /** The bytes of the action list. Bytes of code that look like actions are escaped; a forward local
      label is written 246 higher. */
  function Actions(s: Stmt): seq<nat> {
    match s
    case Out(v) => if v >= 233 then [252, v] else [v]
    case Signed8(_) => [234]
    case Unsigned8(_) => [235]
    case Unsigned16(_) => [236]
    case Any32(_) => [237]
    case Filled(fill, _) => [241, fill]
    case Back(x) => [244, x]
    case Ahead(x) => [244, x + 246]
    case ToGlobal(x) => [244, x]
    case ToNumbered(_) => [245]
    case Here(x) => [248, x]
    case HereNumbered(_) => [249]
    case Aligned(mask) => [250, mask]
  }

  /** The arguments passed at run time. */
  function Args(s: Stmt): seq<int> {
    match s
    case Signed8(n) => [n]
    case Unsigned8(n) => [n]
    case Unsigned16(n) => [n]
    case Any32(n) => [n]
    case Filled(_, n) => [n]
    case ToNumbered(n) => [n]
    case HereNumbered(n) => [n]
    case _ => []
  }

  /** The element of the section buffer that is meant. */
  function Meant(s: Stmt): Elem {
    match s
    case Out(v) => if v < 233 then Raw(v) else Esc(v)
    case Signed8(n) => Imm(1, n)
    case Unsigned8(n) => Imm(1, n)
    case Unsigned16(n) => Imm(2, n)
    case Any32(n) => Imm(4, n)
    case Filled(fill, n) => Space(fill, n)
    case Back(x) => Rel(Lg(x), Backward)
    case Ahead(x) => Rel(Lg(x), Forward)
    case ToGlobal(x) => Rel(Lg(x), Other)
    case ToNumbered(n) => Rel(Pc(n), Other)
    case Here(x) => Def(Lg(x))
    case HereNumbered(n) => Def(Pc(n))
    case Aligned(mask) => Align(mask)
  }

  predicate StmtsOk(ss: seq<Stmt>) {
    forall i {:trigger ss[i]} :: 0 <= i < |ss| ==> StmtOk(ss[i])
  }

  /** An action list ends with STOP. */
  function AllActions(ss: seq<Stmt>): seq<nat> {
    if ss == [] then [255] else Actions(ss[0]) + AllActions(ss[1..])
  }

  function AllArgs(ss: seq<Stmt>): seq<int> {
    if ss == [] then [] else Args(ss[0]) + AllArgs(ss[1..])
  }

  function AllMeant(ss: seq<Stmt>): seq<Elem> {
    seq(|ss|, i requires 0 <= i < |ss| => Meant(ss[i]))
  }

  /** What is left of a sequence from i on. */
  ghost predicate Left<T>(s: seq<T>, i: nat, t: seq<T>) { i <= |s| && s[i..] == t }

  lemma LeftSplit<T>(s: seq<T>, i: nat, t: seq<T>, rest: seq<T>)
    requires Left(s, i, t + rest)
    ensures i + |t| <= |s| && Left(s, i + |t|, rest)
    ensures |t| > 0 ==> s[i] == t[0]
    ensures |t| > 1 ==> s[i + 1] == t[1]
  {
    assert s[i + |t|..] == s[i..][|t|..];
    assert |t| > 0 ==> s[i] == s[i..][0];
    assert |t| > 1 ==> s[i + 1] == s[i..][1];
  }

  /** The action at p, with its argument n. */
  lemma StmtRead(act: seq<nat>, p: nat, s: Stmt, n: int)
    requires StmtOk(s) && p + |Actions(s)| <= |act| && act[p] == Actions(s)[0] && (|Actions(s)| > 1 ==> act[p + 1] == Actions(s)[1])
    requires |Args(s)| > 0 ==> n == Args(s)[0]
    ensures var a := Decode(act, p);
            && !Ends(a) && Length(a) == |Actions(s)| && |Args(s)| == (if TakesArg(a) then 1 else 0) && ElemAt(a, if TakesArg(a) then n else 0) == Meant(s)
  {
  }

  lemma ElemsNext(act: seq<nat>, p: nat, args: seq<int>, i: nat)
    requires p < |act| && !Ends(Decode(act, p)) && (TakesArg(Decode(act, p)) ==> i < |args|)
    ensures var a := Decode(act, p); var q := p + Length(a);
            && Elems(act, p, args, i) == (if TakesArg(a) then [ElemAt(a, args[i])] + Elems(act, q, args, i + 1) else [ElemAt(a, 0)] + Elems(act, q, args, i))
            && EndOf(act, p) == EndOf(act, q)
  {
    hide Decode, ElemAt, TakesArg, Ends, Length;
  }

  /** One statement read at p, with its argument at i. */
  lemma StmtAt(act: seq<nat>, p: nat, args: seq<int>, i: nat, s: Stmt, more: seq<nat>, rest: seq<int>)
    requires StmtOk(s) && Left(act, p, Actions(s) + more) && Left(args, i, Args(s) + rest)
    ensures Left(act, p + |Actions(s)|, more) && Left(args, i + |Args(s)|, rest)
    ensures Elems(act, p, args, i) == [Meant(s)] + Elems(act, p + |Actions(s)|, args, i + |Args(s)|)
    ensures EndOf(act, p) == EndOf(act, p + |Actions(s)|)
  {
    hide Left, Decode, ElemAt, TakesArg, Ends, Length, Elems, EndOf, Actions, Args, Meant, StmtOk;
    LeftSplit(act, p, Actions(s), more);
    LeftSplit(args, i, Args(s), rest);
    SomeAction(s);
    StmtRead(act, p, s, if |Args(s)| > 0 then args[i] else 0);
    ElemsNext(act, p, args, i);
  }

  lemma SomeAction(s: Stmt)
    ensures 1 <= |Actions(s)| <= 2 && |Args(s)| <= 1
  {
  }

  lemma StopAt(act: seq<nat>, p: nat, args: seq<int>, i: nat)
    requires Left(act, p, [255])
    ensures Elems(act, p, args, i) == [] && EndOf(act, p) == Stop
  {
    assert act[p] == act[p..][0] == 255;
  }

  /** What a put adds for a list of statements are the elements that are meant, up to the STOP. */
  lemma {:induction false} ReadsStmts(act: seq<nat>, p: nat, args: seq<int>, i: nat, ss: seq<Stmt>)
    requires StmtsOk(ss) && p <= |act| && act[p..] == AllActions(ss) && i <= |args| && args[i..] == AllArgs(ss)
    ensures Elems(act, p, args, i) == AllMeant(ss) && EndOf(act, p) == Stop
  {
    ReadsFrom(act, p, args, i, ss);
  }

  lemma {:induction false} ReadsFrom(act: seq<nat>, p: nat, args: seq<int>, i: nat, ss: seq<Stmt>)
    requires StmtsOk(ss) && Left(act, p, AllActions(ss)) && Left(args, i, AllArgs(ss))
    ensures Elems(act, p, args, i) == AllMeant(ss) && EndOf(act, p) == Stop
    decreases |ss|
  {
    hide Elems, EndOf, Left, Actions, Args, Meant, StmtOk;
    if ss == [] {
      StopAt(act, p, args, i);
    } else {
      StmtAt(act, p, args, i, ss[0], AllActions(ss[1..]), AllArgs(ss[1..]));
      ReadsFrom(act, p + |Actions(ss[0])|, args, i + |Args(ss[0])|, ss[1..]);
      assert AllMeant(ss) == [Meant(ss[0])] + AllMeant(ss[1..]);
    }
  }
}
