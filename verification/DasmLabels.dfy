/** Label chains of DynASM (dasm_x86.h): which definition a reference means, and how the
    chains through the section buffers lead there. */
module DasmLabels {
  import opened DasmActions

  /** The first pass, as far as labels are concerned, in the order of the calls. */
  datatype Event = Ref(pos: int, x: Label, kind: Kind) | Defined(pos: int, x: Label)

  /** The last definition of x before event i, or 0. */
  ghost function LastDef(h: seq<Event>, i: nat, x: Label): int
    requires i <= |h|
  {
    if i == 0 then 0
    else if h[i - 1].Defined? && h[i - 1].x == x then h[i - 1].pos
    else LastDef(h, i - 1, x)
  }

  /** The first definition of x from event i on, or 0. */
  ghost function NextDef(h: seq<Event>, i: nat, x: Label): int
    requires i <= |h|
    decreases |h| - i
  {
    if i == |h| then 0
    else if h[i].Defined? && h[i].x == x then h[i].pos
    else NextDef(h, i + 1, x)
  }

  /** What reference i means: the last definition for a backward label, the next one for a
      forward label; any other label means its last definition, or if there is none the next. */
  ghost function Target(h: seq<Event>, i: nat): int
    requires i < |h| && h[i].Ref?
  {
    match h[i].kind
    case Backward => LastDef(h, i, h[i].x)
    case Forward => NextDef(h, i + 1, h[i].x)
    case Other => if LastDef(h, i, h[i].x) != 0 then LastDef(h, i, h[i].x) else NextDef(h, i + 1, h[i].x)
  }

  /** Definitions have positive positions. */
  ghost predicate Positive(h: seq<Event>) {
    forall i {:trigger h[i]} :: 0 <= i < |h| ==> h[i].pos > 0
  }

  lemma {:induction false} NextDefAppend(h: seq<Event>, e: Event, i: nat, x: Label)
    requires i <= |h| && Positive(h)
    ensures NextDef(h + [e], i, x) == if NextDef(h, i, x) != 0 then NextDef(h, i, x) else if e.Defined? && e.x == x then e.pos else 0
    decreases |h| - i
  {
    if i < |h| {
      assert (h + [e])[i] == h[i];
      NextDefAppend(h, e, i + 1, x);
    } else {
      assert (h + [e])[i] == e;
      assert NextDef(h + [e], i + 1, x) == 0;
    }
  }

  lemma {:induction false} LastDefAppend(h: seq<Event>, e: Event, i: nat, x: Label)
    requires i <= |h|
    ensures LastDef(h + [e], i, x) == LastDef(h, i, x)
  {
    if i > 0 {
      assert (h + [e])[i - 1] == h[i - 1];
      LastDefAppend(h, e, i - 1, x);
    }
  }

  lemma LastDefNow(h: seq<Event>, e: Event, x: Label)
    ensures LastDef(h + [e], |h| + 1, x) == if e.Defined? && e.x == x then e.pos else LastDef(h, |h|, x)
  {
    LastDefAppend(h, e, |h|, x);
    assert (h + [e])[|h|] == e;
  }

  lemma TargetAppend(h: seq<Event>, e: Event, i: nat)
    requires i < |h| && h[i].Ref? && Positive(h)
    ensures Target(h, i) != 0 ==> Target(h + [e], i) == Target(h, i)
    ensures Target(h, i) == 0 && h[i].kind != Backward ==>
              Target(h + [e], i) == if e.Defined? && e.x == h[i].x then e.pos else 0
    ensures Target(h, i) == 0 && h[i].kind == Backward ==> Target(h + [e], i) == 0
  {
    assert (h + [e])[i] == h[i];
    LastDefAppend(h, e, i, h[i].x);
    NextDefAppend(h, e, i + 1, h[i].x);
  }

  // ---- chains ---------------------------------------------------------------------------

  /** The references in q, newest first, are chained through the buffer; v leads to them. */
  ghost predicate Chain(buf: map<int, int>, v: int, q: seq<int>)
    decreases |q|
  {
    if q == [] then v == 0
    else v == q[0] && v > 0 && v in buf && Chain(buf, buf[v], q[1..])
  }

  lemma {:induction false} ChainFrame(buf: map<int, int>, buf': map<int, int>, v: int, q: seq<int>)
    requires Chain(buf, v, q)
    requires forall y {:trigger y in q} :: y in q && y in buf ==> y in buf' && buf'[y] == buf[y]
    ensures Chain(buf', v, q)
    decreases |q|
  {
    if q != [] {
      assert q[0] in q;
      assert forall y {:trigger y in q[1..]} :: y in q[1..] ==> y in q;
      ChainFrame(buf, buf', buf[v], q[1..]);
    }
  }

  lemma {:induction false} ChainPositive(buf: map<int, int>, v: int, q: seq<int>)
    requires Chain(buf, v, q)
    ensures forall y {:trigger y in q} :: y in q ==> y > 0 && y in buf
    decreases |q|
  {
    if q != [] {
      ChainPositive(buf, buf[v], q[1..]);
      assert forall y :: y in q ==> y == q[0] || y in q[1..];
    }
  }

  /** No position occurs twice. */
  ghost predicate Distinct(q: seq<int>) {
    forall i, j {:trigger q[i], q[j]} :: 0 <= i < j < |q| ==> q[i] != q[j]
  }

  /** The state of one label: defined at -v, chained from v on, or unknown. */
  ghost predicate LabelOk(buf: map<int, int>, h: seq<Event>, x: Label, v: int, q: seq<int>) {
    && Distinct(q)
    && (v < 0 ==> q == [] && -v == LastDef(h, |h|, x))
    && (v >= 0 ==> Chain(buf, v, q))
  }

  /** Reference i is resolved, or waits in the chain of its label. */
  ghost predicate RefOk(buf: map<int, int>, h: seq<Event>, pend: map<Label, seq<int>>, i: nat)
    requires i < |h| && h[i].Ref?
  {
    && h[i].x in pend
    && (h[i].kind == Backward ==> Target(h, i) != 0)
    && (if Target(h, i) != 0 then h[i].pos in buf && buf[h[i].pos] == Target(h, i) && h[i].pos !in pend[h[i].x]
        else h[i].pos in pend[h[i].x])
  }

  /** Only references wait, each in the chain of its own label. */
  ghost predicate PendOk(h: seq<Event>, pend: map<Label, seq<int>>) {
    forall x, y {:trigger y in pend[x]} :: x in pend && y in pend[x] ==> exists i :: IsRef(h, i, x, y)
  }

  ghost predicate IsRef(h: seq<Event>, i: int, x: Label, y: int) {
    0 <= i < |h| && h[i].Ref? && h[i].x == x && h[i].pos == y
  }

  /** Events have positions of their own. */
  ghost predicate OwnPos(h: seq<Event>) {
    forall i, j {:trigger h[i], h[j]} :: 0 <= i < j < |h| ==> h[i].pos != h[j].pos
  }

  /** The value of a label's table entry. */
  function Entry(lg: seq<int>, pc: seq<int>, x: Label): int {
    match x
    case Lg(n) => if n < |lg| then lg[n] else 0
    case Pc(n) => if n < |pc| then pc[n] else 0
  }

  predicate Known(lg: seq<int>, pc: seq<int>, x: Label) {
    match x
    case Lg(n) => n < |lg|
    case Pc(n) => n < |pc|
  }

  /** Everything the first pass keeps about labels. */
  ghost predicate LabelsOk(buf: map<int, int>, h: seq<Event>, lg: seq<int>, pc: seq<int>, pend: map<Label, seq<int>>) {
    && Positive(h) && OwnPos(h) && PendOk(h, pend)
    && (forall x {:trigger x in pend} :: x in pend <==> Known(lg, pc, x))
    && (forall x {:trigger x in pend} :: x in pend ==> LabelOk(buf, h, x, Entry(lg, pc, x), pend[x]))
    && (forall i {:trigger h[i]} :: 0 <= i < |h| ==> Known(lg, pc, h[i].x) && (h[i].Ref? ==> RefOk(buf, h, pend, i)))
    // a label that is not local stays defined
    && (forall x {:trigger x in pend} :: x in pend && !IsLocal(x) && Entry(lg, pc, x) >= 0 ==> LastDef(h, |h|, x) == 0)
    && (forall i {:trigger h[i]} :: 0 <= i < |h| && h[i].Ref? && h[i].kind != Other ==> IsLocal(h[i].x))
  }

  predicate IsLocal(x: Label) { x.Lg? && x.n < 10 }

  // ---- steps ------------------------------------------------------------------------------

  /** The buffer keeps what it had at the positions of events, except in q. */
  ghost predicate KeepsBut(buf: map<int, int>, buf': map<int, int>, h: seq<Event>, q: seq<int>) {
    forall i {:trigger h[i]} :: 0 <= i < |h| && h[i].pos in buf && h[i].pos !in q ==> h[i].pos in buf' && buf'[h[i].pos] == buf[h[i].pos]
  }

  ghost predicate FreshPos(h: seq<Event>, pos: int) {
    pos > 0 && forall i {:trigger h[i]} :: 0 <= i < |h| ==> h[i].pos != pos
  }

  /** A waiting reference is an event. */
  lemma Waits(buf: map<int, int>, h: seq<Event>, lg: seq<int>, pc: seq<int>, pend: map<Label, seq<int>>, x: Label, y: int) returns (i: int)
    requires LabelsOk(buf, h, lg, pc, pend) && x in pend && y in pend[x]
    ensures IsRef(h, i, x, y) && y in buf
  {
    i :| IsRef(h, i, x, y);
    assert LabelOk(buf, h, x, Entry(lg, pc, x), pend[x]);
    ChainPositive(buf, Entry(lg, pc, x), pend[x]);
  }

  /** No reference waits for two labels. */
  lemma OneWait(buf: map<int, int>, h: seq<Event>, lg: seq<int>, pc: seq<int>, pend: map<Label, seq<int>>, x: Label, z: Label, y: int)
    requires LabelsOk(buf, h, lg, pc, pend) && x in pend && y in pend[x] && z in pend && y in pend[z]
    ensures x == z
  {
    var i := Waits(buf, h, lg, pc, pend, x, y);
    var j := Waits(buf, h, lg, pc, pend, z, y);
    assert h[i].pos == h[j].pos;
  }

  /** Chains of other labels are not affected. */
  lemma OtherChain(buf: map<int, int>, h: seq<Event>, lg: seq<int>, pc: seq<int>, pend: map<Label, seq<int>>, buf': map<int, int>, q: seq<int>, x: Label, z: Label)
    requires LabelsOk(buf, h, lg, pc, pend) && x in pend && z in pend && x != z && KeepsBut(buf, buf', h, q)
    requires forall y {:trigger y in q} :: y in q ==> y in pend[x]
    ensures Entry(lg, pc, z) >= 0 ==> Chain(buf', Entry(lg, pc, z), pend[z])
  {
    assert LabelOk(buf, h, z, Entry(lg, pc, z), pend[z]);
    if Entry(lg, pc, z) >= 0 {
      forall y | y in pend[z] && y in buf ensures y in buf' && buf'[y] == buf[y] {
        var i := Waits(buf, h, lg, pc, pend, z, y);
        if y in q {
          OneWait(buf, h, lg, pc, pend, x, z, y);
        }
        assert h[i].pos == y;
      }
      ChainFrame(buf, buf', Entry(lg, pc, z), pend[z]);
    }
  }

  lemma OwnPosAppend(h: seq<Event>, e: Event)
    requires OwnPos(h) && Positive(h) && FreshPos(h, e.pos)
    ensures OwnPos(h + [e]) && Positive(h + [e])
  {
    var g := h + [e];
    forall i, j | 0 <= i < j < |g| ensures g[i].pos != g[j].pos {
      assert j < |h| ==> h[i].pos != h[j].pos;
    }
  }

  lemma NotWaiting(buf: map<int, int>, h: seq<Event>, lg: seq<int>, pc: seq<int>, pend: map<Label, seq<int>>, x: Label, i: nat)
    requires LabelsOk(buf, h, lg, pc, pend) && x in pend && i < |h| && h[i].x != x
    ensures h[i].pos !in pend[x]
  {
    if h[i].pos in pend[x] {
      var j := Waits(buf, h, lg, pc, pend, x, h[i].pos);
    }
  }

  /** A reference that does not wait for x keeps its state when an event for x is added. */
  lemma OtherRef(buf: map<int, int>, h: seq<Event>, lg: seq<int>, pc: seq<int>, pend: map<Label, seq<int>>, x: Label, q: seq<int>,
                 e: Event, buf': map<int, int>, pend': map<Label, seq<int>>, i: nat)
    requires LabelsOk(buf, h, lg, pc, pend) && x in pend && e.x == x && i < |h| && h[i].Ref? && h[i].x != x && KeepsBut(buf, buf', h, q)
    requires forall y {:trigger y in q} :: y in q ==> y in pend[x]
    requires h[i].x in pend' && pend'[h[i].x] == pend[h[i].x]
    ensures RefOk(buf', h + [e], pend', i)
  {
    assert RefOk(buf, h, pend, i);
    assert (h + [e])[i] == h[i];
    TargetAppend(h, e, i);
    NotWaiting(buf, h, lg, pc, pend, x, i);
  }

  /** putlabel: the chain collapses, every waiting reference gets the position. */
  lemma DefineLabel(buf: map<int, int>, h: seq<Event>, lg: seq<int>, pc: seq<int>, pend: map<Label, seq<int>>,
                    x: Label, pos: int, buf': map<int, int>, lg': seq<int>, pc': seq<int>)
    requires LabelsOk(buf, h, lg, pc, pend) && x in pend && FreshPos(h, pos) && KeepsBut(buf, buf', h, pend[x])
    requires forall y {:trigger y in pend[x]} :: y in pend[x] ==> y in buf' && buf'[y] == pos
    requires |lg'| == |lg| && |pc'| == |pc| && Entry(lg', pc', x) == -pos
    requires forall z {:trigger Entry(lg', pc', z)} :: z != x ==> Entry(lg', pc', z) == Entry(lg, pc, z)
    ensures LabelsOk(buf', h + [Defined(pos, x)], lg', pc', pend[x := []])
  {
    hide RefOk, LabelOk, LastDef, NextDef, Target, OwnPos, Positive;
    var e := Defined(pos, x);
    var g, pend' := h + [e], pend[x := []];
    OwnPosAppend(h, e);
    forall z, y | z in pend' && y in pend'[z] ensures exists i :: IsRef(g, i, z, y) {
      var i := Waits(buf, h, lg, pc, pend, z, y);
      assert IsRef(g, i, z, y);
    }
    forall z | z in pend' ensures LabelOk(buf', g, z, Entry(lg', pc', z), pend'[z]) && (!IsLocal(z) && Entry(lg', pc', z) >= 0 ==> LastDef(g, |g|, z) == 0) {
      DefinedEntry(buf, h, lg, pc, pend, x, pos, buf', lg', pc', z);
    }
    forall i | 0 <= i < |g| ensures Known(lg', pc', g[i].x) && (g[i].Ref? ==> RefOk(buf', g, pend', i)) {
      if i < |h| {
        assert g[i] == h[i];
        if h[i].Ref? {
          if h[i].x != x {
            OtherRef(buf, h, lg, pc, pend, x, pend[x], e, buf', pend', i);
          } else {
            DefinedRef(buf, h, lg, pc, pend, x, pos, buf', i);
          }
        }
      }
    }
  }

  lemma DefinedEntry(buf: map<int, int>, h: seq<Event>, lg: seq<int>, pc: seq<int>, pend: map<Label, seq<int>>,
                     x: Label, pos: int, buf': map<int, int>, lg': seq<int>, pc': seq<int>, z: Label)
    requires LabelsOk(buf, h, lg, pc, pend) && x in pend && pos > 0 && KeepsBut(buf, buf', h, pend[x]) && z in pend
    requires Entry(lg', pc', x) == -pos && (z != x ==> Entry(lg', pc', z) == Entry(lg, pc, z))
    ensures var g, q := h + [Defined(pos, x)], if z == x then [] else pend[z];
            LabelOk(buf', g, z, Entry(lg', pc', z), q) && (!IsLocal(z) && Entry(lg', pc', z) >= 0 ==> LastDef(g, |g|, z) == 0)
  {
    LastDefNow(h, Defined(pos, x), z);
    assert LabelOk(buf, h, z, Entry(lg, pc, z), pend[z]);
    if z != x {
      OtherChain(buf, h, lg, pc, pend, buf', pend[x], x, z);
    }
  }

  lemma DefinedRef(buf: map<int, int>, h: seq<Event>, lg: seq<int>, pc: seq<int>, pend: map<Label, seq<int>>,
                   x: Label, pos: int, buf': map<int, int>, i: nat)
    requires LabelsOk(buf, h, lg, pc, pend) && x in pend && pos > 0 && KeepsBut(buf, buf', h, pend[x]) && i < |h| && h[i].Ref? && h[i].x == x
    requires forall y {:trigger y in pend[x]} :: y in pend[x] ==> y in buf' && buf'[y] == pos
    ensures RefOk(buf', h + [Defined(pos, x)], pend[x := []], i)
  {
    assert RefOk(buf, h, pend, i);
    assert (h + [Defined(pos, x)])[i] == h[i];
    TargetAppend(h, Defined(pos, x), i);
  }

  /** putrel for a label that exists: its position is stored. */
  lemma UseLabel(buf: map<int, int>, h: seq<Event>, lg: seq<int>, pc: seq<int>, pend: map<Label, seq<int>>,
                 x: Label, kind: Kind, pos: int, buf': map<int, int>)
    requires LabelsOk(buf, h, lg, pc, pend) && x in pend && FreshPos(h, pos) && KeepsBut(buf, buf', h, [])
    requires Entry(lg, pc, x) < 0 && pos in buf' && buf'[pos] == -Entry(lg, pc, x) && kind != Forward && (kind == Backward ==> IsLocal(x))
    ensures LabelsOk(buf', h + [Ref(pos, x, kind)], lg, pc, pend)
  {
    hide NextDef, LastDef, Chain;
    var e := Ref(pos, x, kind);
    assert [] + pend[x] == pend[x];
    assert pend[x := [] + pend[x]] == pend;
    RefAdded(buf, h, lg, pc, pend, x, e, buf', [], pend);
    var g := h + [e];
    assert LabelOk(buf, h, x, Entry(lg, pc, x), pend[x]);
    LastDefAppend(h, e, |h|, x);
    assert RefOk(buf', g, pend, |h|);
    hide RefOk, LabelOk, Target, OwnPos, Positive;
    forall i | 0 <= i < |g|
      ensures Known(lg, pc, g[i].x) && (g[i].Ref? ==> RefOk(buf', g, pend, i)) && (g[i].Ref? && g[i].kind != Other ==> IsLocal(g[i].x))
    {
      assert i < |h| ==> g[i] == h[i];
    }
  }

  /** linkrel: the reference becomes the first of the chain. */
  lemma LinkLabel(buf: map<int, int>, h: seq<Event>, lg: seq<int>, pc: seq<int>, pend: map<Label, seq<int>>,
                  x: Label, kind: Kind, pos: int, buf': map<int, int>, lg': seq<int>, pc': seq<int>)
    requires LabelsOk(buf, h, lg, pc, pend) && x in pend && FreshPos(h, pos) && KeepsBut(buf, buf', h, [])
    requires kind != Backward && (kind == Forward ==> IsLocal(x)) && (kind == Other ==> !IsLocal(x) && Entry(lg, pc, x) >= 0)
    requires pos in buf' && buf'[pos] == (if Entry(lg, pc, x) < 0 then 0 else Entry(lg, pc, x))
    requires |lg'| == |lg| && |pc'| == |pc| && Entry(lg', pc', x) == pos
    requires forall z {:trigger Entry(lg', pc', z)} :: z != x ==> Entry(lg', pc', z) == Entry(lg, pc, z)
    ensures LabelsOk(buf', h + [Ref(pos, x, kind)], lg', pc', pend[x := [pos] + pend[x]])
  {
    hide LastDef;
    var e, pend' := Ref(pos, x, kind), pend[x := [pos] + pend[x]];
    RefAdded(buf, h, lg, pc, pend, x, e, buf', [pos], pend');
    var g := h + [e];
    LinkedChain(buf, h, lg, pc, pend, x, pos, buf');
    assert g[|h|] == e;
    assert NextDef(g, |g|, x) == 0;
    LastDefAppend(h, e, |h|, x);
    assert RefOk(buf', g, pend', |h|);
    hide RefOk, Target, OwnPos, Positive, Chain, NextDef, Distinct;
    forall z | z in pend' ensures LabelOk(buf', g, z, Entry(lg', pc', z), pend'[z]) && (!IsLocal(z) && Entry(lg', pc', z) >= 0 ==> LastDef(g, |g|, z) == 0) {
    }
    forall i | 0 <= i < |g|
      ensures Known(lg', pc', g[i].x) && (g[i].Ref? ==> RefOk(buf', g, pend', i)) && (g[i].Ref? && g[i].kind != Other ==> IsLocal(g[i].x))
    {
      assert i < |h| ==> g[i] == h[i];
    }
  }

  /** The longer chain. */
  lemma LinkedChain(buf: map<int, int>, h: seq<Event>, lg: seq<int>, pc: seq<int>, pend: map<Label, seq<int>>,
                    x: Label, pos: int, buf': map<int, int>)
    requires LabelsOk(buf, h, lg, pc, pend) && x in pend && FreshPos(h, pos) && KeepsBut(buf, buf', h, [])
    requires pos in buf' && buf'[pos] == (if Entry(lg, pc, x) < 0 then 0 else Entry(lg, pc, x))
    ensures Chain(buf', pos, [pos] + pend[x]) && Distinct([pos] + pend[x])
  {
    var v, q := Entry(lg, pc, x), pend[x];
    assert LabelOk(buf, h, x, v, q);
    forall y | y in q ensures y != pos && y in buf' && y in buf && buf'[y] == buf[y] {
      var i := Waits(buf, h, lg, pc, pend, x, y);
      assert h[i].pos == y;
    }
    var w := if v < 0 then 0 else v;
    assert Chain(buf, w, q);
    ChainFrame(buf, buf', w, q);
    assert ([pos] + q)[1..] == q;
    forall i, j | 0 <= i < j < |[pos] + q| ensures ([pos] + q)[i] != ([pos] + q)[j] {
      assert ([pos] + q)[j] == q[j - 1];
      assert q[j - 1] in q;
      assert i > 0 ==> q[i - 1] != q[j - 1];
    }
  }

  /** What adding a reference keeps of everything before it. */
  lemma RefAdded(buf: map<int, int>, h: seq<Event>, lg: seq<int>, pc: seq<int>, pend: map<Label, seq<int>>,
                 x: Label, e: Event, buf': map<int, int>, more: seq<int>, pend': map<Label, seq<int>>)
    requires LabelsOk(buf, h, lg, pc, pend) && x in pend && e.Ref? && e.x == x && FreshPos(h, e.pos) && KeepsBut(buf, buf', h, [])
    requires pend' == pend[x := more + pend[x]] && (more == [] || more == [e.pos])
    ensures OwnPos(h + [e]) && Positive(h + [e]) && PendOk(h + [e], pend')
    ensures forall z {:trigger z in pend} :: z in pend && z != x ==> LabelOk(buf', h + [e], z, Entry(lg, pc, z), pend[z])
    ensures forall i {:trigger h[i]} :: 0 <= i < |h| && h[i].Ref? ==> RefOk(buf', h + [e], pend', i)
    ensures forall z {:trigger z in pend} :: z in pend ==> LastDef(h + [e], |h| + 1, z) == LastDef(h, |h|, z)
  {
    hide LastDef, NextDef, Target;
    var g := h + [e];
    OwnPosAppend(h, e);
    forall z | z in pend ensures LastDef(g, |h| + 1, z) == LastDef(h, |h|, z) {
      LastDefNow(h, e, z);
    }
    forall z, y | z in pend' && y in pend'[z] ensures exists i :: IsRef(g, i, z, y) {
      if z == x && y !in pend[x] {
        assert IsRef(g, |h|, x, y);
      } else {
        var i := Waits(buf, h, lg, pc, pend, z, y);
        assert IsRef(g, i, z, y);
      }
    }
    forall z | z in pend && z != x ensures LabelOk(buf', g, z, Entry(lg, pc, z), pend[z]) {
      assert LabelOk(buf, h, z, Entry(lg, pc, z), pend[z]);
      OtherChain(buf, h, lg, pc, pend, buf', [], x, z);
    }
    hide LabelOk, Chain, OwnPos;
    forall i | 0 <= i < |h| && h[i].Ref? ensures RefOk(buf', g, pend', i) {
      if h[i].x != x {
        OtherRef(buf, h, lg, pc, pend, x, [], e, buf', pend', i);
      } else {
        assert RefOk(buf, h, pend, i);
        assert g[i] == h[i];
        TargetAppend(h, e, i);
      }
    }
  }

  // ---- when all puts are done ------------------------------------------------------------

  function Marker(idx: int): int { -idx }

  /** The word of a reference: the definition it means, or a marker for an undefined global. */
  ghost function Meaning(h: seq<Event>, i: nat): int
    requires i < |h| && h[i].Ref?
  {
    if Target(h, i) != 0 then Target(h, i) else if h[i].x.Lg? then Marker(h[i].x.n) else 0
  }

  ghost predicate Resolved(buf: map<int, int>, h: seq<Event>) {
    forall i {:trigger h[i]} :: 0 <= i < |h| && h[i].Ref? ==>
      && h[i].pos in buf && buf[h[i].pos] == Meaning(h, i)
      && (Target(h, i) == 0 ==> h[i].x.Lg? && h[i].x.n >= 10 && h[i].kind == Other)
  }

  /** Nothing waits for a local or numbered label. */
  predicate NoneWait(lg: seq<int>, pc: seq<int>) {
    && (forall n :: 0 <= n < |lg| && n < 10 ==> lg[n] <= 0)
    && (forall n :: 0 <= n < |pc| ==> pc[n] <= 0)
  }

  /** y waits for one of the globals from 10 up to hi. */
  ghost predicate GlobalWait(pend: map<Label, seq<int>>, hi: nat, y: int) {
    exists n: nat :: 10 <= n < hi && Waiting(pend, n, y)
  }

  ghost predicate Waiting(pend: map<Label, seq<int>>, n: nat, y: int) {
    Lg(n) in pend && y in pend[Lg(n)]
  }

  /** The chains of globals that were never defined hold their markers. */
  ghost predicate Marked(buf: map<int, int>, buf': map<int, int>, pend: map<Label, seq<int>>, hi: nat) {
    && (forall n: nat, y {:trigger Waiting(pend, n, y)} :: 10 <= n < hi && Waiting(pend, n, y) ==> y in buf' && buf'[y] == Marker(n))
    && (forall y {:trigger y in buf} {:trigger y in buf'} :: y in buf && !GlobalWait(pend, hi, y) ==> y in buf' && buf'[y] == buf[y])
    && (forall y {:trigger y in buf} {:trigger y in buf'} :: y in buf <==> y in buf')
  }

  lemma AllResolved(buf: map<int, int>, h: seq<Event>, lg: seq<int>, pc: seq<int>, pend: map<Label, seq<int>>, buf': map<int, int>)
    requires LabelsOk(buf, h, lg, pc, pend) && NoneWait(lg, pc) && Marked(buf, buf', pend, |lg|)
    ensures Resolved(buf', h)
  {
    hide LastDef, NextDef, Target, Marked, Chain, Distinct;
    forall i: nat | i < |h| && h[i].Ref?
      ensures h[i].pos in buf' && buf'[h[i].pos] == Meaning(h, i) && (Target(h, i) == 0 ==> h[i].x.Lg? && h[i].x.n >= 10 && h[i].kind == Other)
    {
      OneResolved(buf, h, lg, pc, pend, buf', i);
    }
  }

  lemma OneResolved(buf: map<int, int>, h: seq<Event>, lg: seq<int>, pc: seq<int>, pend: map<Label, seq<int>>, buf': map<int, int>, i: nat)
    requires LabelsOk(buf, h, lg, pc, pend) && NoneWait(lg, pc) && Marked(buf, buf', pend, |lg|) && i < |h| && h[i].Ref?
    ensures h[i].pos in buf' && buf'[h[i].pos] == Meaning(h, i)
    ensures Target(h, i) == 0 ==> h[i].x.Lg? && h[i].x.n >= 10 && h[i].kind == Other
  {
    hide LastDef, NextDef, Target;
    var x := h[i].x;
    assert RefOk(buf, h, pend, i) && x in pend;
    assert LabelOk(buf, h, x, Entry(lg, pc, x), pend[x]);
    if Target(h, i) != 0 {
      forall n: nat | Lg(n) in pend && Lg(n) != x ensures !Waiting(pend, n, h[i].pos) {
        NotWaiting(buf, h, lg, pc, pend, Lg(n), i);
      }
      assert !GlobalWait(pend, |lg|, h[i].pos);
    } else if x.Lg? && x.n >= 10 {
      assert Waiting(pend, x.n, h[i].pos);
    }
  }

  /** A definition that is meant exists. */
  lemma {:induction false} LastDefExists(h: seq<Event>, i: nat, x: Label) returns (j: nat)
    requires i <= |h| && LastDef(h, i, x) != 0
    ensures j < |h| && h[j] == Defined(LastDef(h, i, x), x)
  {
    if h[i - 1].Defined? && h[i - 1].x == x {
      j := i - 1;
    } else {
      j := LastDefExists(h, i - 1, x);
    }
  }

  lemma {:induction false} NextDefExists(h: seq<Event>, i: nat, x: Label) returns (j: nat)
    requires i <= |h| && NextDef(h, i, x) != 0
    ensures j < |h| && h[j] == Defined(NextDef(h, i, x), x)
    decreases |h| - i
  {
    if h[i].Defined? && h[i].x == x {
      j := i;
    } else {
      j := NextDefExists(h, i + 1, x);
    }
  }

  lemma TargetExists(h: seq<Event>, i: nat) returns (j: nat)
    requires i < |h| && h[i].Ref? && Target(h, i) != 0
    ensures j < |h| && h[j] == Defined(Target(h, i), h[i].x)
  {
    if h[i].kind == Backward || (h[i].kind == Other && LastDef(h, i, h[i].x) != 0) {
      j := LastDefExists(h, i, h[i].x);
    } else {
      j := NextDefExists(h, i + 1, h[i].x);
    }
  }
}
