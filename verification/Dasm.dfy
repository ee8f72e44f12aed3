/** The DynASM x86 encoding engine (dasm_x86.h): dasm_put, dasm_link and dasm_encode. */
module Dasm {
  import opened DasmActions
  import opened DasmLabels
  import opened DasmCells
  import opened DasmLink
  import opened DasmCode

  /** DASM_S codes, with the action list offset or the number or'ed in. */
  datatype Status =
    | Ok
    | RangeI(at: int)
    | RangeSec(at: int)
    | RangeLg(at: int)
    | RangePc(at: int)
    | UndefL(n: int)
    | UndefPc(n: int)
    | MatchSec(n: int)
    | Phase

  /** There is an argument for every action that takes one, and sizes are not negative. */
  ghost predicate ArgsOk(act: seq<nat>, p: nat, args: seq<int>, i: nat)
    decreases |act| - p
  {
    var a := Decode(act, p);
    && (TakesArg(a) ==> i < |args|)
    && (a.Fill? ==> args[i] >= 0)
    && (!Ends(a) && !a.Unknown? && p < |act| ==> ArgsOk(act, p + Length(a), args, if TakesArg(a) then i + 1 else i))
  }

  /** Which labels exist: their entries are negative. */
  function Existing(lg: seq<int>): (def: seq<bool>)
    ensures |def| == |lg| && forall z {:trigger def[z]} {:trigger lg[z]} :: 0 <= z < |lg| ==> (def[z] <==> lg[z] < 0)
  {
    seq(|lg|, z requires 0 <= z < |lg| => lg[z] < 0)
  }

  /** The labels that exist after the action: a forward reference starts a new chain even if its
      label exists. */
  function NowDefined(a: Action, def: seq<bool>): seq<bool> {
    match a
    case LabelLg(x) => if x < |def| then def[x := true] else def
    case RelLg(x) => if 246 < x < |def| + 246 then def[x - 246 := false] else def
    case _ => def
  }

  /** The checks of the first pass on the action at p with argument n. A backward reference needs
      an existing label. */
  predicate Accepted(act: seq<nat>, p: nat, n: int, def: seq<bool>, pcs: nat) {
    match Decode(act, p)
    case Immediate(_) =>
      if act[p] == DASM_IMM_S then -128 <= n < 128
      else if act[p] == DASM_IMM_B then 0 <= n < 256
      else act[p] == DASM_IMM_W ==> 0 <= n < 65536
    case RelLg(x) => if x <= 246 then x < |def| && (x < 10 ==> def[x]) else true
    case RelPc => 0 <= n < pcs
    case LabelLg(x) => x < |def|
    case LabelPc => 0 <= n < pcs
    case _ => true
  }

  /** The status if it is not accepted: the place in the action list is reported. */
  function Refused(act: seq<nat>, p: nat): Status {
    match Decode(act, p)
    case Immediate(_) => RangeI(p)
    case RelLg(_) => RangeLg(p + 1)
    case LabelLg(_) => RangeLg(p + 1)
    case _ => RangePc(p)
  }

  /** What a put comes to from the action at p and argument i on: the first action that is not
      accepted is reported, or a section there is none of. */
  ghost function Verdict(act: seq<nat>, p: nat, args: seq<int>, i: nat, def: seq<bool>, pcs: nat, sections: nat): Status
    decreases |act| - p
  {
    var a := Decode(act, p);
    var n := if TakesArg(a) && i < |args| then args[i] else 0;
    if p >= |act| || a.Stop? || a.Unknown? then Ok
    else if a.Section? then (if a.n < sections then Ok else RangeSec(p))
    else if !Accepted(act, p, n, def, pcs) then Refused(act, p)
    else Verdict(act, p + Length(a), args, if TakesArg(a) then i + 1 else i, NowDefined(a, def), pcs, sections)
  }

  /** The first numbered label that is waited for is reported, if there is one. */
  ghost predicate PcVerdict(r: Status, pc: seq<int>) {
    || (r == Ok && forall m :: 0 <= m < |pc| ==> pc[m] <= 0)
    || (r.UndefPc? && 0 <= r.n < |pc| && pc[r.n] > 0 && forall m :: 0 <= m < r.n ==> pc[m] <= 0)
  }

  /** Buffer positions of the action with this code. */
  function Positions(action: nat): nat {
    if action < DASM_DISP || action == DASM_ESC then 0
    else if action == DASM_REL_LG || action == DASM_REL_PC then 2
    else 1
  }

  class State {
    const act: seq<nat>
    const maxsection: nat
    var lglabels: seq<int>
    var pclabels: seq<int>
    /** Addresses of global labels. */
    var globals: seq<int>
    var section: nat
    var pos: seq<int>
    var ofs: seq<int>
    /** The section buffers, by biased position. */
    var buf: map<int, int>
    var codesize: int
    var status: Status
    ghost var cells: seq<seq<Cell>>
    ghost var hist: seq<DasmLabels.Event>
    ghost var pend: map<Label, seq<int>>
    /** Code offsets of the elements, from the second pass on. */
    ghost var spots: seq<seq<int>>

    ghost predicate Shape()
      reads this
    {
      && Bytes(act) && |cells| == |pos| == |ofs| == maxsection && section < maxsection && |lglabels| >= 10
      && EventsOk(hist, cells) && LabelsOk(buf, hist, lglabels, pclabels, pend)
      && lglabels[0] <= 0 && |lglabels| == 10 + |globals|
    }

    /** The state between puts. */
    ghost predicate Valid()
      reads this
    {
      Shape() && SectionsOk(cells, pos, ofs, buf) && AllParsed(act, cells)
    }

    /** The state within a put of the active section, which now ends at position at and size o;
        the actions from start to p have been dealt with. */
    ghost predicate Open(start: nat, k: nat, p: nat, at: int, o: int)
      reads this
    {
      Shape() && Building(act, cells, pos, ofs, buf, hist, section, start, k, p, at, o)
    }

    /** dasm_setup with room for global and PC labels. */
    constructor (actions: seq<nat>, sections: nat, lgsize: nat, pcsize: nat, globs: seq<int>)
      requires Bytes(actions) && sections > 0 && lgsize == 10 + |globs|
      ensures Valid() && status == Ok && act == actions && maxsection == sections && hist == []
      ensures |lglabels| == lgsize && |pclabels| == pcsize && globals == globs
    {
      act, maxsection := actions, sections;
      lglabels, pclabels, globals := seq(lgsize, i => 0), seq(pcsize, i => 0), globs;
      section := 0;
      pos, ofs := seq(sections, i requires 0 <= i < sections => SecPos(i)), seq(sections, i => 0);
      buf := map[];
      codesize := 0;
      status := Ok;
      cells := seq(sections, i => []);
      hist := [];
      spots := [];
      pend := (map n: nat | 0 <= n < lgsize :: Lg(n) := []) + (map n: nat | 0 <= n < pcsize :: Pc(n) := []);
      new;
      hide SectionsOk, EventsOk, LabelsOk, Parsed;
      NewState(act, sections, lgsize, pcsize, cells, pos, ofs, lglabels, pclabels, pend);
    }

    /** An action that only adds bytes. */
    ghost method AddBytes(e: Elem, start: nat, k: nat, p: nat, at: int, o: int)
      requires Open(start, k, p, at, o) && Fits(Decode(act, p), e) && Width(e) == 0 && at <= SecPos(section + 1)
      modifies this`cells
      ensures Open(start, k, p + Length(Decode(act, p)), at, o + Max(e))
      ensures cells == Extend(old(cells), section, Cell(e, at, o))
    {
      hide Building, EventsOk, LabelsOk, Decode, Fits, SecPos;
      Grown(act, cells, pos, ofs, buf, hist, section, start, k, p, at, o, e, buf);
      assert hist + [] == hist;
      BuildingEvents(act, Extend(cells, section, Cell(e, at, o)), pos, ofs, buf, hist, section, start, k, p + Length(Decode(act, p)), at + 0, o + Max(e));
      cells := Extend(cells, section, Cell(e, at, o));
    }

    /** An action that stores its argument n. */
    method StoreArg(ghost e: Elem, ghost start: nat, ghost k: nat, ghost p: nat, at: int, ghost o: int, n: int)
      requires Open(start, k, p, at, o) && Fits(Decode(act, p), e) && Width(e) == 1 && !e.Def? && at < SecPos(section + 1)
      requires Stored(buf[at := n], Cell(e, at, o))
      modifies this`cells, this`buf
      ensures Open(start, k, p + Length(Decode(act, p)), at + 1, o + Max(e))
      ensures cells == Extend(old(cells), section, Cell(e, at, o))
    {
      hide Building, EventsOk, LabelsOk, Decode, Fits, SecPos, Stored;
      LabelsPositive(buf, hist, lglabels, pclabels, pend);
      GrownStore(act, cells, pos, ofs, buf, hist, section, start, k, p, at, o, e, n);
      StoreBehind(buf, hist, lglabels, pclabels, pend, at, n);
      BuildingEvents(act, Extend(cells, section, Cell(e, at, o)), pos, ofs, buf[at := n], hist, section, start, k, p + Length(Decode(act, p)), at + 1, o + Max(e));
      cells := Extend(cells, section, Cell(e, at, o));
      buf := buf[at := n];
    }

    function EntryOf(x: Label): int
      reads this
    {
      Entry(lglabels, pclabels, x)
    }

    method SetEntry(x: Label, v: int)
      requires Known(lglabels, pclabels, x) && |lglabels| > 0
      modifies this`lglabels, this`pclabels
      ensures |lglabels| == |old(lglabels)| && lglabels[0] == if x == Lg(0) then v else old(lglabels[0])
      ensures |lglabels| == |old(lglabels)| && |pclabels| == |old(pclabels)| && Entry(lglabels, pclabels, x) == v
      ensures lglabels == if x.Lg? then old(lglabels)[x.n := v] else old(lglabels)
      ensures forall z {:trigger Entry(lglabels, pclabels, z)} :: z != x ==> Entry(lglabels, pclabels, z) == Entry(old(lglabels), old(pclabels), z)
    {
      match x {
        case Lg(n) => lglabels := lglabels[n := v];
        case Pc(n) => pclabels := pclabels[n := v];
      }
    }

    /** The word putrel and linkrel leave for a reference to label x: the position of the
        label if that is known, else the last one of the chain of waiting references. */
    ghost function RelWord(x: Label, kind: Kind): int
      requires Known(lglabels, pclabels, x)
      reads this`lglabels, this`pclabels
    {
      var n := Entry(lglabels, pclabels, x);
      if n >= 0 then n else if kind != Forward then -n else 0
    }

    method StoreRel(x: Label, kind: Kind, at: int, o: int)
      requires LabelsOk(buf, hist, lglabels, pclabels, pend) && Known(lglabels, pclabels, x) && |lglabels| > 0 && lglabels[0] <= 0
      requires (kind != Other <==> IsLocal(x)) && (kind == Backward ==> Entry(lglabels, pclabels, x) < 0) && (x == Lg(0) ==> kind == Backward)
      requires at >= 0 && FreshPos(hist, at) && KeepsBut(buf, buf[at := RelWord(x, kind)][at + 1 := o + 4], hist, [])
      modifies this`buf, this`pend, this`lglabels, this`pclabels
      ensures buf == old(buf)[at := old(RelWord(x, kind))][at + 1 := o + 4]
      ensures LabelsOk(buf, hist + [DasmLabels.Ref(at, x, kind)], lglabels, pclabels, pend)
      ensures |pclabels| == |old(pclabels)| && Existing(lglabels) == MovedRel(Existing(old(lglabels)), x, kind)
      ensures |lglabels| == |old(lglabels)| && lglabels[0] <= 0
    {
      EntryExisting(lglabels, pclabels, x, at);
      hide LabelsOk, Entry, Existing, KeepsBut, FreshPos;
      ghost var buf0, lg0, pc0 := buf, lglabels, pclabels;
      LabelKnown(buf, hist, lglabels, pclabels, pend, x);
      var n := EntryOf(x);
      if kind != Forward && n < 0 {
        buf := buf[at := -n][at + 1 := o + 4];
        UseLabel(buf0, hist, lglabels, pclabels, pend, x, kind, at, buf);
      } else {
        if n < 0 {
          n := 0;
        }
        buf := buf[at := n][at + 1 := o + 4];
        SetEntry(x, at);
        LinkLabel(buf0, hist, lg0, pc0, pend, x, kind, at, buf, lglabels, pclabels);
        pend := pend[x := [at] + pend[x]];
      }
    }

    /** putrel and linkrel: a reference to label x. */
    method PutRel(x: Label, kind: Kind, ghost start: nat, ghost k: nat, ghost p: nat, at: int, o: int)
      requires Open(start, k, p, at, o) && Fits(Decode(act, p), Rel(x, kind)) && at + 2 <= SecPos(section + 1)
      requires Known(lglabels, pclabels, x) && (kind != Other <==> IsLocal(x)) && (kind == Backward ==> EntryOf(x) < 0)
      requires x == Lg(0) ==> kind == Backward
      modifies this`cells, this`buf, this`hist, this`pend, this`lglabels, this`pclabels
      ensures Open(start, k, p + Length(Decode(act, p)), at + 2, o + 4)
      ensures |pclabels| == |old(pclabels)| && Existing(lglabels) == MovedRel(Existing(old(lglabels)), x, kind)
      ensures cells == Extend(old(cells), section, Cell(Rel(x, kind), at, o)) && hist == old(hist) + EventOf(Cell(Rel(x, kind), at, o))
    {
      hide Building, EventsOk, LabelsOk, Decode, Fits, SecPos, Entry, KeepsBut, FreshPos, RelWord, Existing, MovedRel;
      ghost var e, g := Rel(x, kind), hist + [DasmLabels.Ref(at, x, kind)];
      LabelsPositive(buf, hist, lglabels, pclabels, pend);
      BuildingFresh(act, cells, pos, ofs, buf, hist, section, start, k, p, at, o);
      ghost var word := RelWord(x, kind);
      GrownRel(act, cells, pos, ofs, buf, hist, section, start, k, p, at, o, x, kind, word);
      BuildingEvents(act, Extend(cells, section, Cell(e, at, o)), pos, ofs, buf[at := word][at + 1 := o + 4], g, section, start, k, p + Length(Decode(act, p)), at + 2, o + 4);
      StoreRel(x, kind, at, o);
      cells := Extend(cells, section, Cell(e, at, o));
      hist := g;
    }

    /** The chain of the label now points to at, and the label exists there. */
    method StoreDef(x: Label, at: int, o: int) returns (ghost buf1: map<int, int>)
      requires LabelsOk(buf, hist, lglabels, pclabels, pend) && Known(lglabels, pclabels, x) && |lglabels| > 0 && lglabels[0] <= 0
      requires FreshPos(hist, at) && at > 0
      modifies this`buf, this`pend, this`lglabels, this`pclabels
      ensures x in old(pend) && Collapsed(old(buf), buf1, old(pend)[x], at) && buf == buf1[at := o]
      ensures LabelsOk(buf, hist + [DasmLabels.Defined(at, x)], lglabels, pclabels, pend)
      ensures |pclabels| == |old(pclabels)| && Existing(lglabels) == MovedDef(Existing(old(lglabels)), x)
      ensures |lglabels| == |old(lglabels)| && lglabels[0] <= 0
    {
      EntryExisting(lglabels, pclabels, x, -at);
      hide LabelsOk, Entry, Existing, KeepsBut, FreshPos, Chain, Distinct;
      ghost var buf0, lg0, pc0 := buf, lglabels, pclabels;
      LabelsPositive(buf, hist, lglabels, pclabels, pend);
      LabelKnown(buf, hist, lglabels, pclabels, pend, x);
      PendElsewhere(buf, hist, lglabels, pclabels, pend, x, at);
      Collapse(EntryOf(x), at, pend[x]);
      buf1 := buf;
      CollapsedKeeps(buf0, buf1, hist, pend[x], at, o);
      buf := buf[at := o];
      SetEntry(x, -at);
      DefineLabel(buf0, hist, lg0, pc0, pend, x, at, buf, lglabels, pclabels);
      pend := pend[x := []];
    }

    /** putlabel: the chain of the label collapses, and the label exists. */
    method PutLabel(x: Label, ghost start: nat, ghost k: nat, ghost p: nat, at: int, o: int)
      requires Open(start, k, p, at, o) && Fits(Decode(act, p), Def(x)) && at + 1 <= SecPos(section + 1)
      requires Known(lglabels, pclabels, x)
      modifies this`cells, this`buf, this`hist, this`pend, this`lglabels, this`pclabels
      ensures Open(start, k, p + Length(Decode(act, p)), at + 1, o)
      ensures |pclabels| == |old(pclabels)| && Existing(lglabels) == MovedDef(Existing(old(lglabels)), x)
      ensures cells == Extend(old(cells), section, Cell(Def(x), at, o)) && hist == old(hist) + EventOf(Cell(Def(x), at, o))
    {
      hide Building, EventsOk, LabelsOk, Decode, Fits, SecPos, Entry, KeepsBut, FreshPos, Collapsed, Existing, MovedDef;
      ghost var e, g := Def(x), hist + [DasmLabels.Defined(at, x)];
      LabelsPositive(buf, hist, lglabels, pclabels, pend);
      LabelKnown(buf, hist, lglabels, pclabels, pend, x);
      BuildingFresh(act, cells, pos, ofs, buf, hist, section, start, k, p, at, o);
      ghost var buf0, lg0, pc0, pend0 := buf, lglabels, pclabels, pend;
      ghost var buf1 := StoreDef(x, at, o);
      GrownLabel(act, cells, pos, ofs, buf0, hist, section, start, k, p, at, o, x, lg0, pc0, pend0, buf1);
      BuildingEvents(act, Extend(cells, section, Cell(e, at, o)), pos, ofs, buf, g, section, start, k, p + Length(Decode(act, p)), at + 1, o);
      cells := Extend(cells, section, Cell(e, at, o));
      hist := g;
    }

    /** The loop over a chain: every link is replaced by v. */
    method Collapse(first: int, v: int, ghost q: seq<int>)
      requires (first < 0 && q == []) || Chain(buf, first, q)
      requires Distinct(q)
      modifies this`buf
      ensures forall y {:trigger y in q} :: y in q ==> y in buf && buf[y] == v
      ensures forall y {:trigger y in buf} :: y !in q && y in old(buf) ==> y in buf && buf[y] == old(buf)[y]
      ensures forall y {:trigger y in buf} :: y in buf ==> y in old(buf)
      ensures forall y {:trigger y in old(buf)} :: y in old(buf) ==> y in buf
    {
      var n := first;
      ghost var i := 0;
      if n >= 0 {
        ChainPositive(buf, n, q);
      }
      while n > 0
        invariant 0 <= i <= |q| && (n > 0 ==> Chain(buf, n, q[i..])) && (n <= 0 ==> i == |q|)
        invariant forall j {:trigger q[j]} :: 0 <= j < i ==> q[j] in buf && buf[q[j]] == v
        invariant forall y {:trigger y in buf} :: y !in q && y in old(buf) ==> y in buf && buf[y] == old(buf)[y]
        invariant forall y {:trigger y in buf} :: y in buf <==> y in old(buf)
        decreases |q| - i
      {
        ghost var rest := q[i..];
        assert rest != [] && rest[0] == q[i] && rest[1..] == q[i + 1..];
        var pb := n;
        n := buf[pb];
        ghost var before := buf;
        assert Chain(before, n, q[i + 1..]);
        buf := buf[pb := v];
        ChainFrame(before, buf, n, q[i + 1..]);
        i := i + 1;
        assert n <= 0 ==> q[i..] == [];
      }
    }

    /** A put begins with its start in the buffer. */
    method BeginPut(start: nat)
      requires Valid() && pos[section] < SecPos(section + 1)
      modifies this`cells, this`buf
      ensures section < |cells| && |cells[section]| > 0 && Open(start, |cells[section]| - 1, start, pos[section] + 1, ofs[section])
      ensures cells == Extend(old(cells), section, Cell(Start(start), pos[section], ofs[section]))
    {
      hide SectionsOk, EventsOk, LabelsOk, SecPos, Building, AllParsed;
      var at, o := pos[section], ofs[section];
      PutBegun(act, cells, pos, ofs, buf, section, start, hist, lglabels, pclabels, pend);
      cells := Extend(cells, section, Cell(Start(start), at, o));
      buf := buf[at := start];
    }

    /** A put ends: its end is the end of the section. */
    ghost method EndPut(start: nat, k: nat, p: nat, at: int, o: int)
      requires Open(start, k, p, at, o) && Ends(Decode(act, p)) && Wf(act, start, 0, 0, false)
      ensures forall s {:trigger cells[s]} :: 0 <= s < |cells| ==> Parsed(act, cells[s])
      ensures Shape() && SectionsOk(cells, pos[section := at], ofs[section := o], buf)
    {
      hide SectionsOk, EventsOk, LabelsOk, Read, SecPos, Decode, Wf;
      ParsedMore(act, cells[section], k, start, p);
    }

    /** An immediate operand: a check of its range, and its size. */
    method PutImm(action: nat, n: int, ghost start: nat, ghost k: nat, p: nat, at: int, o: int) returns (ok: bool, size: nat)
      requires Open(start, k, p, at, o) && p < |act| && act[p] == action && at < SecPos(section + 1)
      requires action == DASM_IMM_S || action == DASM_IMM_B || action == DASM_IMM_W || action == DASM_IMM_D
      modifies this`cells, this`buf
      ensures ok <==> (match action
                       case 234 => -128 <= n < 128
                       case 235 => 0 <= n < 256
                       case 236 => 0 <= n < 65536
                       case _ => true)
      ensures ok ==> Open(start, k, p + 1, at + 1, o + size) && Decode(act, p) == Immediate(size)
      ensures ok ==> cells == Extend(old(cells), section, Cell(Imm(size, n), at, o))
      ensures !ok ==> unchanged(this)
    {
      hide SectionsOk, EventsOk, LabelsOk, Parsed, Read, SecPos;
      size := if action == DASM_IMM_D then 4 else if action == DASM_IMM_W then 2 else 1;
      ok := if action == DASM_IMM_S then -128 <= n < 128
            else if action == DASM_IMM_B then 0 <= n < 256
            else if action == DASM_IMM_W then 0 <= n < 65536
            else true;
      if ok {
        StoreArg(Imm(size, n), start, k, p, at, o, n);
      }
    }

    /** dasm_put for the actions from start on. Either a check fails and the status says so,
        or the actions have been added to the active section, and SECTION has switched it. */
    method Put(start: nat, args: seq<int>)
      requires Valid() && status == Ok && start <= |act| && Wf(act, start, 0, 0, false) && ArgsOk(act, start, args, 0)
      requires pos[section] + 1 + Words(act, start) <= SecPos(section + 1)
      modifies this`pos, this`ofs, this`cells, this`buf, this`hist, this`pend, this`lglabels, this`pclabels, this`section, this`status
      ensures status == Verdict(act, start, args, 0, Existing(old(lglabels)), |old(pclabels)|, maxsection)
      ensures status == Ok ==> Valid() && Added(old(cells), cells, old(hist), hist, old(section), [Start(start)] + Elems(act, start, args, 0))
      ensures status == Ok ==> section == match EndOf(act, start) case Section(n) => n case _ => old(section)
    {
      hide SectionsOk, EventsOk, LabelsOk, Parsed, Read, SecPos, Entry, Fits, ArgsOk, Wf, Added, ElemAt, Accepted, Elems, EndOf, Existing, Verdict;
      var at, o := pos[section], ofs[section];
      ghost var cells0, hist0 := cells, hist;
      AddedNone(cells0, hist0, section);
      BeginPut(start);
      AddedStep(cells0, cells0, hist0, hist0, section, [], Cell(Start(start), at, o));
      assert [] + [Start(start)] == [Start(start)];
      ghost var k := |cells[section]| - 1;
      var ok, p, at', o' := PutActions(start, args, k, at + 1, o, cells0, hist0);
      if !ok {
        return;
      }
      EndPut(start, k, p, at', o');
      var sec := section;
      if act[p] == DASM_SECTION {
        var n := act[p + 1];
        if n >= maxsection {
          status := RangeSec(p);
          return;
        }
        section := n;
      }
      pos := pos[sec := at'];
      ofs := ofs[sec := o'];
    }

    /** The loop over the actions of a put. */
    method PutActions(start: nat, args: seq<int>, ghost k: nat, at0: int, o0: int, ghost cells0: seq<seq<Cell>>, ghost hist0: seq<DasmLabels.Event>)
      returns (ok: bool, p: nat, at: int, o: int)
      requires Open(start, k, start, at0, o0) && status == Ok && start <= |act| && Wf(act, start, 0, 0, false) && ArgsOk(act, start, args, 0)
      requires at0 + Words(act, start) <= SecPos(section + 1) && Added(cells0, cells, hist0, hist, section, [Start(start)])
      modifies this`cells, this`buf, this`hist, this`pend, this`lglabels, this`pclabels, this`status
      ensures ok ==> status == Ok && p < |act| && Open(start, k, p, at, o) && Ends(Decode(act, p)) && EndOf(act, start) == Decode(act, p)
      ensures ok ==> Added(cells0, cells, hist0, hist, section, [Start(start)] + Elems(act, start, args, 0)) && p + Length(Decode(act, p)) <= |act|
      ensures !ok ==> status == Verdict(act, start, args, 0, Existing(old(lglabels)), |old(pclabels)|, maxsection) != Ok
      ensures ok ==> Verdict(act, start, args, 0, Existing(old(lglabels)), |old(pclabels)|, maxsection) == EndVerdict(act, p, maxsection)
    {
      hide SectionsOk, EventsOk, LabelsOk, Parsed, Read, SecPos, Entry, Fits, ArgsOk, Wf, Added, ElemAt, Accepted, Elems, EndOf, Open, Words, Existing, NowDefined, Refused, Verdict;
      ghost var es := [Start(start)];
      p, at, o := start, at0, o0;
      var i := 0;
      ghost var def0, pcs := Existing(lglabels), |pclabels|;
      ghost var op, pre, near := 0, 0, false;
      WfStep(act, p, op, pre, near);
      while !Ends(Decode(act, p))
        invariant Open(start, k, p, at, o) && p < |act| && i <= |args| && status == Ok && p + Length(Decode(act, p)) <= |act|
        invariant ArgsOk(act, p, args, i) && at + Words(act, p) <= SecPos(section + 1)
        invariant Added(cells0, cells, hist0, hist, section, es) && es + Elems(act, p, args, i) == [Start(start)] + Elems(act, start, args, 0)
        invariant EndOf(act, p) == EndOf(act, start) && Wf(act, p, op, pre, near)
        invariant |pclabels| == pcs && Verdict(act, p, args, i, Existing(lglabels), pcs, maxsection) == Verdict(act, start, args, 0, def0, pcs, maxsection)
        decreases |act| - p
      {
        WfStep(act, p, op, pre, near);
        ArgsStep(act, p, args, i);
        ghost var x := NextOp(act, p, op, pre, near);
        var takes, len := TakesArg(Decode(act, p)), Length(Decode(act, p));
        ghost var e := ElemAt(Decode(act, p), if takes then args[i] else 0);
        ElemsStep(act, p, args, i);
        VerdictStep(act, p, args, i, Existing(lglabels), pcs, maxsection);
        WordsStep(act, p, if takes then args[i] else 0);
        ghost var before, hbefore := cells, hist;
        ghost var rest := Elems(act, p + len, args, if takes then i + 1 else i);
        var at', o';
        ok, at', o' := PutOne(if takes then args[i] else 0, start, k, p, at, o);
        if !ok {
          return;
        }
        AddedStep(cells0, before, hist0, hbefore, section, es, Cell(e, at, o));
        assert es + ([e] + rest) == es + [e] + rest;
        es := es + [e];
        at, o := at', o';
        op, pre, near := x.0, x.1, x.2;
        if takes {
          i := i + 1;
        }
        p := p + len;
        WfStep(act, p, op, pre, near);
      }
      ok := true;
      ElemsEnd(act, p, args, i);
      VerdictEnd(act, p, args, i, Existing(lglabels), pcs, maxsection);
      assert es + [] == es;
    }

    /** One action. */
    method PutOne(n: int, ghost start: nat, ghost k: nat, p: nat, at: int, o: int) returns (ok: bool, at': int, o': int)
      requires Open(start, k, p, at, o) && p < |act| && !Decode(act, p).Unknown? && !Ends(Decode(act, p)) && status == Ok
      requires at + Width(ElemAt(Decode(act, p), n)) <= SecPos(section + 1) && (Decode(act, p).Fill? ==> n >= 0) && (Decode(act, p).AlignTo? ==> IsMask(Decode(act, p).mask))
      modifies this`cells, this`buf, this`hist, this`pend, this`lglabels, this`pclabels, this`status
      ensures ok <==> Accepted(act, p, n, Existing(old(lglabels)), |old(pclabels)|)
      ensures ok ==> |pclabels| == |old(pclabels)| && Existing(lglabels) == NowDefined(Decode(act, p), Existing(old(lglabels)))
      ensures ok ==> Open(start, k, p + Length(Decode(act, p)), at', o') && at' == at + Width(ElemAt(Decode(act, p), n)) && status == Ok
      ensures ok ==> var c := Cell(ElemAt(Decode(act, p), n), at, o); cells == Extend(old(cells), section, c) && hist == old(hist) + EventOf(c)
      ensures !ok ==> status == Refused(act, p)
    {
      hide SectionsOk, EventsOk, LabelsOk, Parsed, Read, SecPos, Entry, IsMask, Existing;
      var action := act[p];
      ok, at', o' := true, at, o;
      if action < DASM_DISP {
        AddBytes(Raw(action), start, k, p, at, o);
        o' := o + 1;
      } else if action == DASM_IMM_S || action == DASM_IMM_B || action == DASM_IMM_W || action == DASM_IMM_D {
        var size;
        ok, size := PutImm(action, n, start, k, p, at, o);
        at', o' := at + 1, o + size;
        if !ok {
          status := RangeI(p);
        }
      } else if action == DASM_SPACE {
        StoreArg(Space(act[p + 1], n), start, k, p, at, o, n);
        at', o' := at + 1, o + n;
      } else if action == DASM_REL_LG || action == DASM_REL_PC {
        ok := PutRelative(action, n, start, k, p, at, o);
        at', o' := at + 2, o + 4;
      } else if action == DASM_LABEL_LG || action == DASM_LABEL_PC {
        ok := PutDefinition(action, n, start, k, p, at, o);
        at' := at + 1;
      } else if action == DASM_ALIGN {
        var mask := act[p + 1];
        o' := o + mask;
        StoreArg(Align(mask), start, k, p, at, o, o');
        at' := at + 1;
      } else {
        AddBytes(Esc(act[p + 1]), start, k, p, at, o);
        o' := o + 1;
      }
    }

    method PutRelative(action: nat, n: int, ghost start: nat, ghost k: nat, p: nat, at: int, o: int) returns (ok: bool)
      requires Open(start, k, p, at, o) && p < |act| && !Decode(act, p).Unknown? && status == Ok && at + 2 <= SecPos(section + 1)
      requires action == act[p] && (action == DASM_REL_LG || action == DASM_REL_PC)
      modifies this`cells, this`buf, this`hist, this`pend, this`lglabels, this`pclabels, this`status
      ensures ok ==> Open(start, k, p + Length(Decode(act, p)), at + 2, o + 4) && status == Ok
      ensures ok <==> Accepted(act, p, n, Existing(old(lglabels)), |old(pclabels)|)
      ensures ok ==> |pclabels| == |old(pclabels)| && Existing(lglabels) == NowDefined(Decode(act, p), Existing(old(lglabels)))
      ensures ok ==> var c := Cell(ElemAt(Decode(act, p), n), at, o); cells == Extend(old(cells), section, c) && hist == old(hist) + EventOf(c)
      ensures !ok ==> status == Refused(act, p)
    {
      hide SectionsOk, EventsOk, LabelsOk, Parsed, Read, SecPos;
      if action == DASM_REL_LG {
        var x := act[p + 1];
        if x <= 246 {
          if (x < 10 && lglabels[x] >= 0) || x >= |lglabels| {
            status := RangeLg(p + 1);
            return false;
          }
          PutRel(Lg(x), if x >= 10 then Other else Backward, start, k, p, at, o);
        } else {
          PutRel(Lg(x - 246), Forward, start, k, p, at, o);
        }
      } else {
        if !(0 <= n < |pclabels|) {
          status := RangePc(p);
          return false;
        }
        PutRel(Pc(n), Other, start, k, p, at, o);
      }
      return true;
    }

    method PutDefinition(action: nat, n: int, ghost start: nat, ghost k: nat, p: nat, at: int, o: int) returns (ok: bool)
      requires Open(start, k, p, at, o) && p < |act| && !Decode(act, p).Unknown? && status == Ok && at + 1 <= SecPos(section + 1)
      requires action == act[p] && (action == DASM_LABEL_LG || action == DASM_LABEL_PC)
      modifies this`cells, this`buf, this`hist, this`pend, this`lglabels, this`pclabels, this`status
      ensures ok ==> Open(start, k, p + Length(Decode(act, p)), at + 1, o) && status == Ok
      ensures ok <==> Accepted(act, p, n, Existing(old(lglabels)), |old(pclabels)|)
      ensures ok ==> |pclabels| == |old(pclabels)| && Existing(lglabels) == NowDefined(Decode(act, p), Existing(old(lglabels)))
      ensures ok ==> var c := Cell(ElemAt(Decode(act, p), n), at, o); cells == Extend(old(cells), section, c) && hist == old(hist) + EventOf(c)
      ensures !ok ==> status == Refused(act, p)
    {
      hide SectionsOk, EventsOk, LabelsOk, Parsed, Read, SecPos;
      if action == DASM_LABEL_LG {
        var x := act[p + 1];
        if x >= |lglabels| {
          status := RangeLg(p + 1);
          return false;
        }
        PutLabel(Lg(x), start, k, p, at, o);
      } else {
        if !(0 <= n < |pclabels|) {
          status := RangePc(p);
          return false;
        }
        PutLabel(Pc(n), start, k, p, at, o);
      }
      return true;
    }

    // ---- pass 2 -------------------------------------------------------------------------

    /** Globals that were never defined: their chains get markers. */
    method CollapseGlobals()
      requires Shape()
      modifies this`buf
      ensures Marked(old(buf), buf, pend, |lglabels|)
    {
      hide EventsOk, LabelsOk;
      ghost var buf0 := buf;
      var idx := 10;
      while idx < |lglabels|
        invariant 10 <= idx <= |lglabels| && Marked(buf0, buf, pend, idx)
      {
        ghost var buf1 := buf;
        ghost var q := GlobalChain(buf0, hist, lglabels, pclabels, pend, buf1, idx);
        Collapse(lglabels[idx], Marker(idx), q);
        MarkedStep(buf0, hist, lglabels, pclabels, pend, buf1, buf, idx);
        idx := idx + 1;
      }
    }

    /** Cumulative section offsets. */
    method SectionSizes(from: nat, to: nat) returns (sum: int)
      requires from <= to <= |ofs|
      ensures sum == Base(ofs, to) - Base(ofs, from)
    {
      sum := 0;
      var i := from;
      while i < to
        invariant from <= i <= to && sum == Base(ofs, i) - Base(ofs, from)
      {
        sum := sum + ofs[i];
        i := i + 1;
      }
    }

    /** A relative operand: may its branch be short? */
    method LinkRel(secnum: nat, ghost k: nat, at: int, adj: int, op: nat, ghost want: map<int, int>) returns (adj': int)
      requires Linking(cells, pos, ofs, buf, want, spots, secnum, k, adj) && HasCell(cells, secnum, k) && cells[secnum][k].e.Rel?
      requires at == cells[secnum][k].pos && op == LastOp(cells[secnum], k) && LabelsKnown(cells, want)
      modifies this`buf, this`spots
      ensures Linking(cells, pos, ofs, buf, want, spots, secnum, k + 1, adj')
    {
      hide Linking, LabelsKnown, LastOp, Base, IsLabel, Decision;
      ghost var buf0, t := buf, spots;
      StoredNow(cells, pos, ofs, buf, want, spots, secnum, k, adj);
      ghost var i, j: nat := LabelFor(cells, want, secnum, k);
      var shrink := if op == 0xE9 then 3 else if op / 16 == 8 then 4 else 0;
      assert shrink == Saving(op);
      if shrink != 0 {
        var lpos := buf[at];
        if lpos < 0 {
          shrink := 0;
        } else {
          if Before(i, j, secnum, k) {
            LabelBehind(cells, pos, ofs, buf, want, spots, secnum, k, adj, i, j, lpos);
          } else {
            LabelAhead(cells, pos, ofs, buf, want, spots, secnum, k, adj, i, j, lpos);
          }
          var lofs := buf[lpos];
          if lpos > at {
            LabelIn(cells, i, j, lpos);
            var sum := SectionSizes(secnum, PosSec(lpos));
            lofs := lofs + sum;
          } else {
            lofs := lofs - adj;
          }
          lofs := lofs - buf[at + 1];
          assert lofs == DistanceOf(cells, ofs, spots, secnum, k, i, j);
          if !(-128 - shrink <= lofs <= 127) {
            shrink := 0;
          }
        }
      }
      Chosen(cells, ofs, t, secnum, k, shrink, buf[at], i, j);
      buf := buf[at + 1 := shrink];
      adj' := adj - shrink;
      RelLinked(cells, pos, ofs, buf0, want, t, secnum, k, adj, shrink, i, j);
      spots := AddSpot(t, secnum, EndEst(cells[secnum][k]) + adj');
    }

    /** One action of the second pass. */
    method LinkOne(secnum: nat, ghost k: nat, p: nat, at: int, adj: int, op: nat, ghost want: map<int, int>) returns (at': int, adj': int, op': nat)
      requires Linking(cells, pos, ofs, buf, want, spots, secnum, k, adj) && HasCell(cells, secnum, k) && !cells[secnum][k].e.Start?
      requires p < |act| && Fits(Decode(act, p), cells[secnum][k].e)
      requires at == cells[secnum][k].pos && op == LastOp(cells[secnum], k) && LabelsKnown(cells, want)
      modifies this`buf, this`spots
      ensures Linking(cells, pos, ofs, buf, want, spots, secnum, k + 1, adj')
      ensures at' == EndPos(cells[secnum][k]) && op' == LastOp(cells[secnum], k + 1)
    {
      hide Linking, LabelsKnown, CellLinked;
      StoredNow(cells, pos, ofs, buf, want, spots, secnum, k, adj);
      ghost var c, t := cells[secnum][k], spots;
      var action := act[p];
      at', adj', op' := at, adj, op;
      if action == DASM_REL_LG || action == DASM_REL_PC {
        adj' := LinkRel(secnum, k, at, adj, op, want);
        at' := at + 2;
      } else if action == DASM_LABEL_LG || action == DASM_LABEL_PC {
        DefLinked(buf, c, t[secnum][k], adj);
        ghost var buf0 := buf;
        buf := buf[at := buf[at] + adj];
        LinkStep(cells, pos, ofs, buf0, want, t, secnum, k, adj, buf, at, buf[at], adj);
        spots := AddSpot(t, secnum, EndEst(c) + adj);
        at' := at + 1;
      } else {
        if action == DASM_ALIGN {
          adj' := adj - And(buf[at] + adj, act[p + 1]);
          AlignLinked(buf, c, t[secnum][k], adj, adj');
          at' := at + 1;
        } else {
          StoredLinked(buf, c, t[secnum][k], adj);
          if action == DASM_ESC {
            op' := act[p + 1];
          } else if action < DASM_DISP {
            op' := action;
          } else {
            at' := at + 1;
          }
        }
        LinkStep(cells, pos, ofs, buf, want, t, secnum, k, adj, buf, at, 0, adj');
        spots := AddSpot(t, secnum, EndEst(c) + adj');
      }
    }

    /** The second pass over the put that starts at element k. */
    method LinkPut(secnum: nat, ghost k: nat, at: int, adj: int, ghost want: map<int, int>) returns (at': int, adj': int, ghost k': nat)
      requires Linking(cells, pos, ofs, buf, want, spots, secnum, k, adj) && HasCell(cells, secnum, k) && cells[secnum][k].e.Start?
      requires SectionsOk(cells, pos, ofs, want) && at == cells[secnum][k].pos && LabelsKnown(cells, want) && Parsed(act, cells[secnum]) && |pos| == |cells|
      modifies this`buf, this`spots
      ensures k < k' <= |cells[secnum]| && (k' == |cells[secnum]| || cells[secnum][k'].e.Start?)
      ensures Linking(cells, pos, ofs, buf, want, spots, secnum, k', adj') && at' == PosAt(cells, pos, secnum, k')
    {
      hide Linking, LabelsKnown, CellLinked, SectionsOk, Decode, Fits, Follows, Wf;
      StoredNow(cells, pos, ofs, buf, want, spots, secnum, k, adj);
      StoredLinked(buf, cells[secnum][k], spots[secnum][k], adj);
      PosNext(cells, pos, ofs, want, secnum, k);
      LinkStep(cells, pos, ofs, buf, want, spots, secnum, k, adj, buf, at, 0, adj);
      var p: nat := buf[at];
      at', adj', k' := at + 1, adj, k + 1;
      spots := AddSpot(spots, secnum, EndEst(cells[secnum][k]) + adj);
      var op := 0;
      while !Ends(Decode(act, p))
        invariant k < k' <= |cells[secnum]| && Follows(act, p, cells[secnum], k') && op == LastOp(cells[secnum], k')
        invariant Linking(cells, pos, ofs, buf, want, spots, secnum, k', adj') && at' == PosAt(cells, pos, secnum, k')
        decreases |cells[secnum]| - k'
      {
        FollowsStep(act, p, cells[secnum], k');
        PosNext(cells, pos, ofs, want, secnum, k');
        at', adj', op := LinkOne(secnum, k', p, at', adj', op, want);
        k' := k' + 1;
        p := p + Length(Decode(act, p));
      }
      FollowsEnd(act, p, cells[secnum], k');
    }

    /** The second pass over all sections: the offset behind the last one is the size. */
    method LinkSections(ghost want: map<int, int>) returns (size: int)
      requires cells != [] && |cells| == |pos| == |ofs| == maxsection && SectionsOk(cells, pos, ofs, want) && buf == want && LabelsKnown(cells, want)
      requires forall s {:trigger cells[s]} :: 0 <= s < |cells| ==> Parsed(act, cells[s])
      modifies this`buf, this`spots
      ensures AllLinked(cells, pos, ofs, buf, spots) && Wanted(cells, buf, want)
      ensures size == CodeEnd(cells, spots)
    {
      hide Linking, LabelsKnown, CellLinked, SectionsOk, AllLinked, Wanted, Parsed;
      LinkStart(cells, pos, ofs, want);
      spots := [[0]];
      size := 0;
      var secnum := 0;
      while secnum < maxsection
        invariant secnum <= maxsection
        invariant secnum < maxsection ==> Linking(cells, pos, ofs, buf, want, spots, secnum, 0, size)
        invariant secnum == maxsection ==> Linking(cells, pos, ofs, buf, want, spots, secnum - 1, |cells[secnum - 1]|, size - ofs[secnum - 1])
      {
        var at := SecPos(secnum);
        PosStart(cells, pos, ofs, want, secnum);
        ParsedStart(act, cells[secnum]);
        ghost var k: nat := 0;
        while at != pos[secnum]
          invariant k <= |cells[secnum]| && (k == |cells[secnum]| || cells[secnum][k].e.Start?)
          invariant Linking(cells, pos, ofs, buf, want, spots, secnum, k, size) && at == PosAt(cells, pos, secnum, k)
          decreases |cells[secnum]| - k
        {
          at, size, k := LinkPut(secnum, k, at, size, want);
        }
        if k < |cells[secnum]| {
          PosNext(cells, pos, ofs, want, secnum, k);
        }
        if secnum + 1 < maxsection {
          NextSection(cells, pos, ofs, buf, want, spots, secnum, size);
          spots := spots + [[size + ofs[secnum]]];
        }
        size := size + ofs[secnum];
        secnum := secnum + 1;
      }
      LinkEnd(cells, pos, ofs, buf, want, spots, size - ofs[maxsection - 1]);
      LinkedSize(cells, pos, ofs, buf, want, spots, size - ofs[maxsection - 1]);
    }

    /** dasm_link. Local labels must not be waited for, as dasm_checkstep makes sure. */
    method Link() returns (r: Status, size: int)
      requires Valid() && forall n :: 1 <= n < 10 ==> lglabels[n] <= 0
      modifies this`buf, this`spots, this`codesize
      ensures status != Ok ==> r == status
      ensures status == Ok ==> PcVerdict(r, pclabels)
      ensures r != Ok ==> size == 0 && unchanged(this)
      ensures r == Ok ==> Linked() && size == codesize
    {
      hide SectionsOk, EventsOk, LabelsOk, Parsed, AllLinked, LabelsKnown, Wanted, Resolved, Marked, CodeEnd;
      size := 0;
      if status != Ok {
        return status, 0;
      }
      var n := 0;
      while n < |pclabels|
        invariant n <= |pclabels| && forall m :: 0 <= m < n ==> pclabels[m] <= 0
      {
        if pclabels[n] > 0 {
          return UndefPc(n), 0;
        }
        n := n + 1;
      }
      ghost var buf0 := buf;
      CollapseGlobals();
      ghost var want := buf;
      AllResolved(buf0, hist, lglabels, pclabels, pend, want);
      MarkedSections(cells, pos, ofs, buf0, hist, lglabels, pclabels, pend, want);
      LabelsPositive(buf0, hist, lglabels, pclabels, pend);
      ResolvedKnown(cells, hist, want);
      size := LinkSections(want);
      codesize := size;
      StillResolved(cells, hist, buf, want);
      TableBound(buf0, hist, lglabels, pclabels, pend);
      r := Ok;
    }

    // ---- pass 3 -------------------------------------------------------------------------

    /** The state after dasm_link. */
    ghost predicate Linked()
      reads this
    {
      && LinkedState(act, cells, pos, ofs, buf, hist, spots) && InTable(hist, |lglabels|) && TablesOk(hist, lglabels, pclabels)
      && |cells| == |pos| == maxsection > 0 && |lglabels| == 10 + |globals| && codesize == CodeEnd(cells, spots)
    }

    /** The displacement of a reference. The opcode of a short branch is rewritten. */
    method EncodeRel(lg: bool, s: nat, ghost k: nat, at: int, code: seq<nat>, base: int, ghost globs0: seq<int>) returns (code': seq<nat>)
      requires LinkedState(act, cells, pos, ofs, buf, hist, spots) && InTable(hist, 10 + |globals|) && HasCell(cells, s, k) && cells[s][k].e.Rel?
      requires EncodedTo(code, cells, buf, globs0, base, spots, s, k) && GlobalsTo(cells, globs0, globals, base, spots, s, k)
      requires at == cells[s][k].pos && lg == cells[s][k].e.name.Lg?
      ensures EncodedTo(code', cells, buf, globs0, base, spots, s, k + 1) && GlobalsTo(cells, globs0, globals, base, spots, s, k + 1)
    {
      hide LinkedState, AllLinked, EncodedAt, Encoded, Foreign, GlobalDef, LastOp, EncodedTo, OpcodeThere, GlobalsTo, InTable, Saving;
      RelFacts(act, cells, pos, ofs, buf, hist, 10 + |globals|, spots, s, k);
      GlobalsSize(cells, globs0, globals, base, spots, s, k);
      GlobalsStep(cells, globs0, globals, globals, base, spots, s, k);
      EncodedSize(code, cells, buf, globs0, base, spots, s, k);
      var n, shrink := buf[at], buf[at + 1];
      if lg && n < 0 {
        ForeignGlobal(cells, globs0, globals, base, spots, s, k, -n - 10);
        code' := code + LE(globals[-n - 10] - (base + |code| + 4), 4);
        LongStep(cells, pos, ofs, buf, globs0, base, spots, s, k, code, globals[-n - 10] - (base + |code| + 4));
      } else {
        n := buf[n] - (|code| + 4 - shrink);
        if shrink == 0 {
          code' := code + LE(n, 4);
          LongStep(cells, pos, ofs, buf, globs0, base, spots, s, k, code, n);
        } else {
          if shrink == 4 {
            code' := code[..|code| - 2] + [(code[|code| - 1] as int - 0x10) % 256];
          } else {
            code' := code[..|code| - 1] + [0xEB];
          }
          code' := code' + [n % 256];
          ShortStep(cells, pos, ofs, buf, globs0, base, spots, s, k, code, code', n);
        }
      }
    }

    /** One action of the third pass that is no reference. */
    method EncodePlain(s: nat, ghost k: nat, p: nat, at: int, code: seq<nat>, base: int, ghost globs0: seq<int>) returns (code': seq<nat>)
      requires LinkedState(act, cells, pos, ofs, buf, hist, spots) && InTable(hist, 10 + |globals|) && HasCell(cells, s, k)
      requires !cells[s][k].e.Start? && !cells[s][k].e.Rel?
      requires EncodedTo(code, cells, buf, globs0, base, spots, s, k) && GlobalsTo(cells, globs0, globals, base, spots, s, k)
      requires p < |act| && Fits(Decode(act, p), cells[s][k].e) && at == cells[s][k].pos
      modifies this`globals
      ensures EncodedTo(code', cells, buf, globs0, base, spots, s, k + 1) && GlobalsTo(cells, globs0, globals, base, spots, s, k + 1)
      ensures |globals| == |old(globals)|
    {
      hide LinkedState, AllLinked, EncodedAt, Encoded, GlobalDef, EncodedTo, GlobalsTo, InTable, LE, Reads;
      PlainFacts(act, cells, pos, ofs, buf, hist, 10 + |globals|, spots, s, k);
      GlobalsSize(cells, globs0, globals, base, spots, s, k);
      EncodedSize(code, cells, buf, globs0, base, spots, s, k);
      ghost var globs1 := globals;
      var action := act[p];
      var more: seq<nat> := [];
      if action == DASM_IMM_S || action == DASM_IMM_B {
        more := LE(buf[at], 1);
        LittleEndian(buf[at], 1);
      } else if action == DASM_IMM_W {
        more := LE(buf[at], 2);
        LittleEndian(buf[at], 2);
      } else if action == DASM_IMM_D {
        more := LE(buf[at], 4);
        LittleEndian(buf[at], 4);
      } else if action == DASM_LABEL_LG {
        var idx := act[p + 1];
        if idx >= 10 {
          globals := globals[idx - 10 := base + buf[at]];
        }
      } else if action == DASM_LABEL_PC {
      } else if action == DASM_SPACE {
        more := Repeat(act[p + 1], buf[at]);
      } else if action == DASM_ALIGN {
        more := Nops(|code|, act[p + 1], spots[s][k + 1]);
      } else if action == DASM_ESC {
        more := [act[p + 1]];
      } else {
        more := [action];
      }
      code' := code + more;
      GlobalsStep(cells, globs0, globs1, globals, base, spots, s, k);
      PlainStep(cells, pos, ofs, buf, globs0, base, spots, s, k, code, more);
    }

    /** n bytes v. */
    method Repeat(v: nat, n: int) returns (r: seq<nat>)
      requires n >= 0
      ensures |r| == n && forall x {:trigger r[x]} :: 0 <= x < |r| ==> r[x] == v
    {
      r := [];
      var m := n;
      while m != 0
        invariant 0 <= m <= n && |r| == n - m && forall x {:trigger r[x]} :: 0 <= x < |r| ==> r[x] == v
        decreases m
      {
        r := r + [v];
        m := m - 1;
      }
    }

    /** Nops from offset t to the next multiple, u. */
    method Nops(t: nat, mask: nat, ghost u: int) returns (r: seq<nat>)
      requires IsMask(mask) && t <= u <= t + mask && And(u, mask) == 0
      ensures |r| == u - t && forall x {:trigger r[x]} :: 0 <= x < |r| ==> r[x] == 0x90
    {
      r := [];
      while And(t + |r|, mask) != 0
        invariant t + |r| <= u && forall x {:trigger r[x]} :: 0 <= x < |r| ==> r[x] == 0x90
        decreases u - t - |r|
      {
        r := r + [0x90];
      }
      OneMultiple(t + |r|, u, mask);
    }

    /** The third pass over the put that starts at element k. */
    method EncodePut(s: nat, ghost k: nat, at: int, code: seq<nat>, base: int, ghost globs0: seq<int>) returns (code': seq<nat>, at': int, ghost k': nat)
      requires LinkedState(act, cells, pos, ofs, buf, hist, spots) && InTable(hist, 10 + |globals|) && HasCell(cells, s, k) && |pos| == |cells|
      requires cells[s][k].e.Start? && at == cells[s][k].pos
      requires EncodedTo(code, cells, buf, globs0, base, spots, s, k) && GlobalsTo(cells, globs0, globals, base, spots, s, k)
      modifies this`globals
      ensures k < k' <= |cells[s]| && (k' == |cells[s]| || cells[s][k'].e.Start?) && at' == PosAt(cells, pos, s, k')
      ensures EncodedTo(code', cells, buf, globs0, base, spots, s, k') && GlobalsTo(cells, globs0, globals, base, spots, s, k')
      ensures |globals| == |old(globals)|
    {
      hide LinkedState, AllLinked, GlobalDef, EncodedTo, GlobalsTo, InTable, Decode, Fits, Follows, Wf, Parsed;
      var p: nat;
      IsLinked(act, cells, pos, ofs, buf, hist, spots);
      StartStep(act, cells, pos, ofs, buf, globs0, base, spots, s, k, code);
      GlobalsStep(cells, globs0, globals, globals, base, spots, s, k);
      p := buf[at];
      code', at', k' := code, at + 1, k + 1;
      while !Ends(Decode(act, p))
        invariant k < k' <= |cells[s]| && Follows(act, p, cells[s], k') && at' == PosAt(cells, pos, s, k')
        invariant EncodedTo(code', cells, buf, globs0, base, spots, s, k') && GlobalsTo(cells, globs0, globals, base, spots, s, k')
        invariant |globals| == |old(globals)|
        decreases |cells[s]| - k'
      {
        FollowsStep(act, p, cells[s], k');
        WordFacts(cells, pos, ofs, buf, spots, s, k');
        RelAction(act, p, cells[s][k'].e);
        if act[p] == DASM_REL_LG || act[p] == DASM_REL_PC {
          code' := EncodeRel(act[p] == DASM_REL_LG, s, k', at', code', base, globs0);
        } else {
          code' := EncodePlain(s, k', p, at', code', base, globs0);
        }
        at' := at' + Positions(act[p]);
        k' := k' + 1;
        p := p + Length(Decode(act, p));
      }
      FollowsEnd(act, p, cells[s], k');
    }

    /** dasm_encode: every element is in the code where the second pass put it, the size is the
        one it reported, and the globals this code defines have their addresses. */
    method Encode(base: int) returns (r: Status, code: seq<nat>)
      requires Linked()
      modifies this`globals
      ensures r == Ok && |code| == codesize && AllEncoded(code, cells, buf, old(globals), base, spots)
      ensures GlobalsTo(cells, old(globals), globals, base, spots, maxsection, 0)
    {
      hide LinkedState, AllLinked, GlobalDef, EncodedTo, GlobalsTo, InTable, Parsed, AllEncoded;
      ghost var globs0 := globals;
      IsLinked(act, cells, pos, ofs, buf, hist, spots);
      EncodeStart(cells, pos, ofs, buf, spots, globs0, base);
      code := [];
      var secnum := 0;
      while secnum < maxsection
        invariant secnum <= maxsection && |globals| == |old(globals)|
        invariant secnum < maxsection ==> EncodedTo(code, cells, buf, globs0, base, spots, secnum, 0)
        invariant secnum == maxsection ==> EncodedTo(code, cells, buf, globs0, base, spots, secnum - 1, |cells[secnum - 1]|)
        invariant GlobalsTo(cells, globs0, globals, base, spots, secnum, 0)
      {
        var at := SecPos(secnum);
        SectionStart(act, cells, pos, ofs, buf, hist, spots, secnum);
        ghost var k: nat := 0;
        while at != pos[secnum]
          invariant k <= |cells[secnum]| && (k == |cells[secnum]| || cells[secnum][k].e.Start?) && at == PosAt(cells, pos, secnum, k)
          invariant EncodedTo(code, cells, buf, globs0, base, spots, secnum, k) && GlobalsTo(cells, globs0, globals, base, spots, secnum, k)
          invariant |globals| == |old(globals)|
          decreases |cells[secnum]| - k
        {
          code, at, k := EncodePut(secnum, k, at, code, base, globs0);
        }
        if k < |cells[secnum]| {
          WordFacts(cells, pos, ofs, buf, spots, secnum, k);
        }
        GlobalsSection(cells, globs0, globals, base, spots, secnum);
        if secnum + 1 < maxsection {
          EncodeNext(cells, pos, ofs, buf, spots, globs0, base, code, secnum);
        }
        secnum := secnum + 1;
      }
      EncodeEnd(cells, buf, spots, globs0, base, code);
      r := if codesize != |code| then Phase else Ok;
    }

    /** dasm_getpclabel: the code offset of the last definition of a numbered label. */
    method GetPcLabel(pc: nat) returns (r: int)
      requires Linked()
      ensures pc >= |pclabels| ==> r == -2
      ensures pc < |pclabels| && LastDef(hist, |hist|, Pc(pc)) == 0 ==> r == if pclabels[pc] > 0 then -1 else -2
      ensures pc < |pclabels| && LastDef(hist, |hist|, Pc(pc)) != 0 ==> LabelSpot(cells, spots, LastDef(hist, |hist|, Pc(pc)), r)
    {
      hide LinkedState, LastDef, InTable;
      if pc < |pclabels| {
        var at := pclabels[pc];
        assert TableOk(hist, Pc(pc), Entry(lglabels, pclabels, Pc(pc)));
        if at < 0 {
          SpotOfLast(act, cells, pos, ofs, buf, hist, spots, Pc(pc));
          return buf[-at];
        }
        if at > 0 {
          return -1;
        }
      }
      return -2;
    }

    /** dasm_checkstep: nothing may wait for a local label, and they are all forgotten. */
    method CheckStep(secmatch: int) returns (r: Status)
      requires Valid()
      modifies this`lglabels, this`status
      ensures Valid() && r == status && |lglabels| == |old(lglabels)|
      ensures forall n {:trigger lglabels[n]} :: 10 <= n < |lglabels| ==> lglabels[n] == old(lglabels)[n]
      ensures old(status) != Ok ==> r == old(status) && lglabels == old(lglabels)
      ensures r == Ok ==> forall n {:trigger lglabels[n]} :: 1 <= n < 10 ==> lglabels[n] == 0 && old(lglabels)[n] <= 0
      ensures old(status) == Ok ==>
                match r
                case Ok => secmatch < 0 || section == secmatch
                case UndefL(n) => 1 <= n < 10 && old(lglabels)[n] > 0 && forall m :: 1 <= m < n ==> old(lglabels)[m] <= 0
                case MatchSec(n) => n == section != secmatch >= 0 && forall m :: 1 <= m < 10 ==> old(lglabels)[m] <= 0
                case _ => false
    {
      hide SectionsOk, EventsOk, LabelsOk, Parsed;
      if status == Ok {
        var i := 1;
        while i <= 9 && status == Ok
          invariant 1 <= i <= 10 && Valid() && |lglabels| == |old(lglabels)| && lglabels[i..] == old(lglabels)[i..]
          invariant status == Ok ==> forall m {:trigger lglabels[m]} {:trigger old(lglabels)[m]} :: 1 <= m < i ==> lglabels[m] == 0 && old(lglabels)[m] <= 0
          invariant status != Ok ==> i < 10 && status == UndefL(i) && old(lglabels)[i] > 0 && forall m :: 1 <= m < i ==> old(lglabels)[m] <= 0
          decreases 10 - i, status == Ok
        {
          assert lglabels[i] == lglabels[i..][0] == old(lglabels)[i..][0];
          if lglabels[i] > 0 {
            status := UndefL(i);
          } else {
            ForgetLocal(buf, hist, lglabels, pclabels, pend, i);
            assert lglabels[i := 0][i + 1..] == lglabels[i..][1..] && old(lglabels)[i + 1..] == old(lglabels)[i..][1..];
            lglabels := lglabels[i := 0];
            i := i + 1;
          }
        }
        assert forall n {:trigger lglabels[n]} :: i <= n < |lglabels| ==> lglabels[n] == lglabels[i..][n - i] == old(lglabels)[i..][n - i];
      }
      if status == Ok && secmatch >= 0 && section != secmatch {
        status := MatchSec(section);
      }
      return status;
    }
  }

  ghost predicate AllParsed(act: seq<nat>, cells: seq<seq<Cell>>) {
    forall s {:trigger cells[s]} :: 0 <= s < |cells| ==> Parsed(act, cells[s])
  }

  /** The sections and label events within a put: see Open. */
  ghost predicate Building(act: seq<nat>, cells: seq<seq<Cell>>, pos: seq<int>, ofs: seq<int>, buf: map<int, int>, h: seq<DasmLabels.Event>,
                           sec: nat, start: nat, k: nat, p: nat, at: int, o: int)
  {
    && |cells| == |pos| == |ofs| && sec < |cells| && at > 0
    && SectionsOk(cells, pos[sec := at], ofs[sec := o], buf) && EventsOk(h, cells)
    && (forall s {:trigger cells[s]} :: 0 <= s < |cells| && s != sec ==> Parsed(act, cells[s]))
    && k < |cells[sec]| && cells[sec][k].e == Start(start) && Parsed(act, cells[sec][..k])
    && Read(act, start, p, cells[sec], k + 1)
  }

  lemma BuildingEvents(act: seq<nat>, cells: seq<seq<Cell>>, pos: seq<int>, ofs: seq<int>, buf: map<int, int>, h: seq<DasmLabels.Event>,
                       sec: nat, start: nat, k: nat, p: nat, at: int, o: int)
    requires Building(act, cells, pos, ofs, buf, h, sec, start, k, p, at, o)
    ensures |cells| == |pos| == |ofs| && EventsOk(h, cells) && at > 0 && sec < |cells| && k < |cells[sec]|
  {
  }

  /** The place behind the end is new to all events. */
  lemma BuildingFresh(act: seq<nat>, cells: seq<seq<Cell>>, pos: seq<int>, ofs: seq<int>, buf: map<int, int>, h: seq<DasmLabels.Event>,
                      sec: nat, start: nat, k: nat, p: nat, at: int, o: int)
    requires Building(act, cells, pos, ofs, buf, h, sec, start, k, p, at, o) && Positive(h) && at < SecPos(sec + 1)
    ensures FreshPos(h, at) && at > 0
  {
    hide SectionsOk, EventsOk, Parsed, Read, SecPos;
    EventBelow(cells, pos[sec := at], ofs[sec := o], buf, h, sec, at);
  }

  /** The start of a put. */
  lemma Begun(act: seq<nat>, cells: seq<seq<Cell>>, pos: seq<int>, ofs: seq<int>, buf: map<int, int>, sec: nat, start: nat,
              h: seq<DasmLabels.Event>)
    requires |cells| == |pos| == |ofs| && SectionsOk(cells, pos, ofs, buf) && sec < |cells| && 0 <= pos[sec] < SecPos(sec + 1)
    requires EventsOk(h, cells) && AllParsed(act, cells)
    ensures Building(act, Extend(cells, sec, Cell(Start(start), pos[sec], ofs[sec])), pos, ofs, buf[pos[sec] := start], h, sec, start,
                     |cells[sec]|, start, pos[sec] + 1, ofs[sec])
  {
    hide SectionsOk, EventsOk, Parsed, Decode, Fits, KeepsFixed;
    var c := Cell(Start(start), pos[sec], ofs[sec]);
    var buf' := buf[pos[sec] := start];
    WriteBehind(cells, pos, ofs, buf, sec, buf');
    AddCell(cells, pos, ofs, buf, sec, Start(start), buf');
    EventsMore(h, cells, sec, c, h);
    assert ofs[sec := ofs[sec] + 0] == ofs[sec := ofs[sec]];
    assert (cells[sec] + [c])[..|cells[sec]|] == cells[sec];
  }

  lemma PutBegun(act: seq<nat>, cells: seq<seq<Cell>>, pos: seq<int>, ofs: seq<int>, buf: map<int, int>, sec: nat, start: nat,
                 h: seq<DasmLabels.Event>, lg: seq<int>, pc: seq<int>, pend: map<Label, seq<int>>)
    requires |cells| == |pos| == |ofs| && SectionsOk(cells, pos, ofs, buf) && sec < |cells| && pos[sec] < SecPos(sec + 1)
    requires EventsOk(h, cells) && AllParsed(act, cells) && LabelsOk(buf, h, lg, pc, pend)
    ensures var at, o := pos[sec], ofs[sec];
            var cells' := Extend(cells, sec, Cell(Start(start), at, o));
            && Building(act, cells', pos, ofs, buf[at := start], h, sec, start, |cells[sec]|, start, at + 1, o)
            && EventsOk(h, cells') && LabelsOk(buf[at := start], h, lg, pc, pend)
  {
    hide SectionsOk, EventsOk, LabelsOk, Parsed, SecPos, FreshPos, Positive, Building, AllParsed;
    var at, o := pos[sec], ofs[sec];
    SectionLaid(cells, pos, ofs, buf, sec);
    LabelsPositive(buf, h, lg, pc, pend);
    SecAbove(sec);
    if at > 0 {
      EventBelow(cells, pos, ofs, buf, h, sec, at);
    }
    StoreBehind(buf, h, lg, pc, pend, at, start);
    Begun(act, cells, pos, ofs, buf, sec, start, h);
    BuildingEvents(act, Extend(cells, sec, Cell(Start(start), at, o)), pos, ofs, buf[at := start], h, sec, start, |cells[sec]|, start, at + 1, o);
  }

  /** One more element in the active section. */
  lemma Grown(act: seq<nat>, cells: seq<seq<Cell>>, pos: seq<int>, ofs: seq<int>, buf: map<int, int>, h: seq<DasmLabels.Event>,
              sec: nat, start: nat, k: nat, p: nat, at: int, o: int, e: Elem, buf': map<int, int>)
    requires Building(act, cells, pos, ofs, buf, h, sec, start, k, p, at, o) && at + Width(e) <= SecPos(sec + 1) && Fits(Decode(act, p), e)
    requires KeepsFixed(cells, buf, buf') && buf.Keys <= buf'.Keys && Stored(buf', Cell(e, at, o))
    ensures Building(act, Extend(cells, sec, Cell(e, at, o)), pos, ofs, buf', h + EventOf(Cell(e, at, o)), sec, start, k,
                     p + Length(Decode(act, p)), at + Width(e), o + Max(e))
  {
    hide SectionsOk, EventsOk, Parsed, Read, Decode, Fits, KeepsFixed, Stored, SecPos;
    var c := Cell(e, at, o);
    Twice(pos, sec, at, at + Width(e));
    Twice(ofs, sec, o, o + Max(e));
    AddCell(cells, pos[sec := at], ofs[sec := o], buf, sec, e, buf');
    EventsMore(h, cells, sec, c, h + EventOf(c));
    ReadAppend(act, start, p, cells[sec], k + 1, c);
    assert (cells[sec] + [c])[..k] == cells[sec][..k];
  }

  /** An element with one word that is no label. */
  lemma GrownStore(act: seq<nat>, cells: seq<seq<Cell>>, pos: seq<int>, ofs: seq<int>, buf: map<int, int>, h: seq<DasmLabels.Event>,
                   sec: nat, start: nat, k: nat, p: nat, at: int, o: int, e: Elem, n: int)
    requires Building(act, cells, pos, ofs, buf, h, sec, start, k, p, at, o) && at < SecPos(sec + 1) && Fits(Decode(act, p), e) && Positive(h)
    requires Width(e) == 1 && !e.Def? && Stored(buf[at := n], Cell(e, at, o))
    ensures Building(act, Extend(cells, sec, Cell(e, at, o)), pos, ofs, buf[at := n], h, sec, start, k, p + Length(Decode(act, p)), at + 1, o + Max(e))
    ensures FreshPos(h, at)
  {
    BuildingFresh(act, cells, pos, ofs, buf, h, sec, start, k, p, at, o);
    WriteBehind(cells, pos[sec := at], ofs[sec := o], buf, sec, buf[at := n]);
    hide Building, Decode, Fits, KeepsFixed, Stored, SecPos, FreshPos;
    assert h + [] == h;
    Grown(act, cells, pos, ofs, buf, h, sec, start, k, p, at, o, e, buf[at := n]);
  }

  /** A reference more in the active section. */
  lemma GrownRel(act: seq<nat>, cells: seq<seq<Cell>>, pos: seq<int>, ofs: seq<int>, buf: map<int, int>, h: seq<DasmLabels.Event>,
                 sec: nat, start: nat, k: nat, p: nat, at: int, o: int, x: Label, kind: Kind, v: int)
    requires Building(act, cells, pos, ofs, buf, h, sec, start, k, p, at, o) && Positive(h) && at + 2 <= SecPos(sec + 1) && Fits(Decode(act, p), Rel(x, kind))
    ensures var buf' := buf[at := v][at + 1 := o + 4];
            && KeepsBut(buf, buf', h, []) && FreshPos(h, at)
            && Building(act, Extend(cells, sec, Cell(Rel(x, kind), at, o)), pos, ofs, buf', h + [DasmLabels.Ref(at, x, kind)], sec, start, k,
                        p + Length(Decode(act, p)), at + 2, o + 4)
  {
    hide SectionsOk, EventsOk, Parsed, Read, Decode, Fits, KeepsFixed, SecPos;
    StoreTwo(cells, pos[sec := at], ofs[sec := o], buf, h, sec, at, v, o + 4);
    hide Building;
    Grown(act, cells, pos, ofs, buf, h, sec, start, k, p, at, o, Rel(x, kind), buf[at := v][at + 1 := o + 4]);
  }

  /** The words q now hold v, and nothing else has changed. */
  ghost predicate Collapsed(buf: map<int, int>, buf1: map<int, int>, q: seq<int>, v: int) {
    && (forall y {:trigger y in q} :: y in q ==> y in buf1 && buf1[y] == v)
    && (forall y {:trigger y in buf1} :: y !in q && y in buf ==> y in buf1 && buf1[y] == buf[y])
    && forall y {:trigger y in buf} :: y in buf ==> y in buf1
  }

  /** A label more in the active section; buf1 is the buffer with its chain collapsed. */
  lemma GrownLabel(act: seq<nat>, cells: seq<seq<Cell>>, pos: seq<int>, ofs: seq<int>, buf: map<int, int>, h: seq<DasmLabels.Event>,
                   sec: nat, start: nat, k: nat, p: nat, at: int, o: int, x: Label, lg: seq<int>, pc: seq<int>, pend: map<Label, seq<int>>, buf1: map<int, int>)
    requires Building(act, cells, pos, ofs, buf, h, sec, start, k, p, at, o) && at < SecPos(sec + 1) && Fits(Decode(act, p), Def(x))
    requires LabelsOk(buf, h, lg, pc, pend) && x in pend && FreshPos(h, at)
    requires Collapsed(buf, buf1, pend[x], at)
    ensures Building(act, Extend(cells, sec, Cell(Def(x), at, o)), pos, ofs, buf1[at := o], h + [DasmLabels.Defined(at, x)], sec, start, k,
                     p + Length(Decode(act, p)), at + 1, o)
  {
    hide SectionsOk, EventsOk, Parsed, Read, Decode, Fits, KeepsFixed, LabelsOk, FreshPos, SecPos;
    var buf' := buf1[at := o];
    PendNotFixed(cells, pos[sec := at], ofs[sec := o], buf, h, lg, pc, pend, x, buf1);
    Behind2(cells, pos[sec := at], ofs[sec := o], buf, buf1, sec, at, o);
    assert buf.Keys <= buf'.Keys by {
      forall y | y in buf.Keys ensures y in buf'.Keys {
        assert y in buf;
      }
    }
    hide Building;
    Grown(act, cells, pos, ofs, buf, h, sec, start, k, p, at, o, Def(x), buf');
  }

  lemma Twice(s: seq<int>, i: nat, x: int, y: int)
    requires i < |s|
    ensures s[i := x][i := y] == s[i := y] && s[i := x][i] == x
  {
  }

  lemma LabelKnown(buf: map<int, int>, h: seq<DasmLabels.Event>, lg: seq<int>, pc: seq<int>, pend: map<Label, seq<int>>, x: Label)
    requires LabelsOk(buf, h, lg, pc, pend) && Known(lg, pc, x)
    ensures x in pend && Distinct(pend[x]) && (Entry(lg, pc, x) < 0 ==> pend[x] == []) && (Entry(lg, pc, x) >= 0 ==> Chain(buf, Entry(lg, pc, x), pend[x]))
  {
    assert x in pend;
    assert LabelOk(buf, h, x, Entry(lg, pc, x), pend[x]);
  }

  /** Waiting references are no words that matter otherwise. */
  lemma PendNotFixed(cells: seq<seq<Cell>>, pos: seq<int>, ofs: seq<int>, buf: map<int, int>, h: seq<DasmLabels.Event>,
                     lg: seq<int>, pc: seq<int>, pend: map<Label, seq<int>>, x: Label, buf': map<int, int>)
    requires SectionsOk(cells, pos, ofs, buf) && EventsOk(h, cells) && LabelsOk(buf, h, lg, pc, pend) && x in pend
    requires forall y {:trigger y in buf'} :: y !in pend[x] && y in buf ==> y in buf' && buf'[y] == buf[y]
    ensures KeepsFixed(cells, buf, buf')
  {
    hide SectionsOk, LabelsOk, EventsOk;
    forall s: nat, k: nat, y {:trigger Fixed(cells[s][k], y)} | HasCell(cells, s, k) && Fixed(cells[s][k], y) && y in buf
      ensures y in buf' && buf'[y] == buf[y]
    {
      if y in pend[x] {
        WaitingNotFixed(cells, pos, ofs, buf, h, lg, pc, pend, x, s, k, y);
      }
    }
  }

  lemma Behind2(cells: seq<seq<Cell>>, pos: seq<int>, ofs: seq<int>, buf: map<int, int>, buf': map<int, int>, sec: nat, at: int, v: int)
    requires SectionsOk(cells, pos, ofs, buf) && sec < |cells| == |pos| && pos[sec] == at < SecPos(sec + 1) && KeepsFixed(cells, buf, buf')
    ensures KeepsFixed(cells, buf, buf'[at := v])
  {
    WriteBehind(cells, pos, ofs, buf, sec, buf[at := v]);
    forall s: nat, k: nat, y {:trigger Fixed(cells[s][k], y)} | HasCell(cells, s, k) && Fixed(cells[s][k], y) && y in buf
      ensures y in buf'[at := v] && buf'[at := v][y] == buf[y]
    {
      hide SecPos;
      Bounds(cells[s], s, pos[s], ofs[s], k);
      EndAbove(cells[sec], sec, pos[sec], ofs[sec]);
      if s < sec {
        SecMono(s, sec);
      } else if sec < s {
        SecMono(sec, s);
      }
    }
  }

  lemma PendElsewhere(buf: map<int, int>, h: seq<DasmLabels.Event>, lg: seq<int>, pc: seq<int>, pend: map<Label, seq<int>>, x: Label, at: int)
    requires LabelsOk(buf, h, lg, pc, pend) && x in pend && FreshPos(h, at)
    ensures at !in pend[x]
  {
    if at in pend[x] {
      var i := Waits(buf, h, lg, pc, pend, x, at);
    }
  }

  lemma ArgsStep(act: seq<nat>, p: nat, args: seq<int>, i: nat)
    requires ArgsOk(act, p, args, i) && p < |act| && !Decode(act, p).Unknown?
    ensures TakesArg(Decode(act, p)) ==> i < |args|
    ensures Decode(act, p).Fill? ==> args[i] >= 0
    ensures !Ends(Decode(act, p)) ==> ArgsOk(act, p + Length(Decode(act, p)), args, if TakesArg(Decode(act, p)) then i + 1 else i)
  {
  }

  lemma LabelsPositive(buf: map<int, int>, h: seq<DasmLabels.Event>, lg: seq<int>, pc: seq<int>, pend: map<Label, seq<int>>)
    requires LabelsOk(buf, h, lg, pc, pend)
    ensures Positive(h)
  {
  }

  /** Stores at positions of no event do not matter to labels. */
  lemma LabelsFrame(buf: map<int, int>, h: seq<DasmLabels.Event>, lg: seq<int>, pc: seq<int>, pend: map<Label, seq<int>>, buf': map<int, int>)
    requires LabelsOk(buf, h, lg, pc, pend) && KeepsBut(buf, buf', h, [])
    ensures LabelsOk(buf', h, lg, pc, pend)
  {
    forall x | x in pend ensures LabelOk(buf', h, x, Entry(lg, pc, x), pend[x]) {
      assert LabelOk(buf, h, x, Entry(lg, pc, x), pend[x]);
      forall y | y in pend[x] && y in buf ensures y in buf' && buf'[y] == buf[y] {
        var i := Waits(buf, h, lg, pc, pend, x, y);
        assert h[i].pos == y;
      }
      if Entry(lg, pc, x) >= 0 {
        ChainFrame(buf, buf', Entry(lg, pc, x), pend[x]);
      }
    }
    forall i | 0 <= i < |h| && h[i].Ref? ensures RefOk(buf', h, pend, i) {
      assert RefOk(buf, h, pend, i);
    }
  }

  lemma StoreBehind(buf: map<int, int>, h: seq<DasmLabels.Event>, lg: seq<int>, pc: seq<int>, pend: map<Label, seq<int>>, at: int, v: int)
    requires LabelsOk(buf, h, lg, pc, pend) && at >= 0 && (at > 0 ==> FreshPos(h, at))
    ensures LabelsOk(buf[at := v], h, lg, pc, pend)
  {
    LabelsPositive(buf, h, lg, pc, pend);
    hide LabelsOk;
    LabelsFrame(buf, h, lg, pc, pend, buf[at := v]);
  }

  /** The existing labels after a reference, and after a definition. */
  function MovedRel(def: seq<bool>, x: Label, kind: Kind): seq<bool> {
    if x.Lg? && x.n < |def| && kind == Forward then def[x.n := false] else def
  }

  function MovedDef(def: seq<bool>, x: Label): seq<bool> {
    if x.Lg? && x.n < |def| then def[x.n := true] else def
  }

  lemma EntryExisting(lg: seq<int>, pc: seq<int>, x: Label, v: int)
    requires Known(lg, pc, x)
    ensures x.Lg? ==> Existing(lg[x.n := v]) == Existing(lg)[x.n := v < 0] && (Existing(lg)[x.n] <==> Entry(lg, pc, x) < 0)
  {
  }

  function EndVerdict(act: seq<nat>, p: nat, sections: nat): Status {
    match Decode(act, p)
    case Section(n) => if n < sections then Ok else RangeSec(p)
    case _ => Ok
  }

  lemma VerdictStep(act: seq<nat>, p: nat, args: seq<int>, i: nat, def: seq<bool>, pcs: nat, sections: nat)
    requires p < |act| && !Ends(Decode(act, p)) && !Decode(act, p).Unknown? && (TakesArg(Decode(act, p)) ==> i < |args|)
    ensures var a := Decode(act, p);
            Verdict(act, p, args, i, def, pcs, sections) ==
              if !Accepted(act, p, if TakesArg(a) then args[i] else 0, def, pcs) then Refused(act, p)
              else Verdict(act, p + Length(a), args, if TakesArg(a) then i + 1 else i, NowDefined(a, def), pcs, sections)
    ensures Refused(act, p) != Ok
  {
  }

  lemma VerdictEnd(act: seq<nat>, p: nat, args: seq<int>, i: nat, def: seq<bool>, pcs: nat, sections: nat)
    requires p < |act| && Ends(Decode(act, p))
    ensures Verdict(act, p, args, i, def, pcs, sections) == EndVerdict(act, p, sections)
  {
  }

  lemma ElemsStep(act: seq<nat>, p: nat, args: seq<int>, i: nat)
    requires p < |act| && !Ends(Decode(act, p)) && (TakesArg(Decode(act, p)) ==> i < |args|)
    ensures var a := Decode(act, p);
            && Elems(act, p, args, i) == [ElemAt(a, if TakesArg(a) then args[i] else 0)] + Elems(act, p + Length(a), args, if TakesArg(a) then i + 1 else i)
            && EndOf(act, p) == EndOf(act, p + Length(a))
  {
  }

  lemma ElemsEnd(act: seq<nat>, p: nat, args: seq<int>, i: nat)
    requires p < |act| && Ends(Decode(act, p))
    ensures Elems(act, p, args, i) == [] && EndOf(act, p) == Decode(act, p)
  {
  }

  /** Two words behind the end of a section matter to no element and no event before. */
  lemma StoreTwo(cells: seq<seq<Cell>>, pos: seq<int>, ofs: seq<int>, buf: map<int, int>, h: seq<DasmLabels.Event>, sec: nat, at: int, v: int, w: int)
    requires SectionsOk(cells, pos, ofs, buf) && EventsOk(h, cells) && Positive(h) && sec < |cells| == |pos| && pos[sec] == at && 0 < at && at + 2 <= SecPos(sec + 1)
    ensures KeepsFixed(cells, buf, buf[at := v][at + 1 := w]) && KeepsBut(buf, buf[at := v][at + 1 := w], h, []) && FreshPos(h, at)
  {
    hide SectionsOk, EventsOk, SecPos;
    EventBelow(cells, pos, ofs, buf, h, sec, at);
    EventBelow(cells, pos, ofs, buf, h, sec, at + 1);
    WriteBehind(cells, pos, ofs, buf, sec, buf[at := v][at + 1 := w]);
  }

  lemma CollapsedKeeps(buf: map<int, int>, buf': map<int, int>, h: seq<DasmLabels.Event>, q: seq<int>, at: int, v: int)
    requires forall y {:trigger y in buf'} :: y !in q && y in buf ==> y in buf' && buf'[y] == buf[y]
    requires FreshPos(h, at)
    ensures KeepsBut(buf, buf'[at := v], h, q)
  {
  }

  /** The chain of global idx, while other globals are marked. */
  lemma GlobalChain(buf: map<int, int>, h: seq<DasmLabels.Event>, lg: seq<int>, pc: seq<int>, pend: map<Label, seq<int>>, buf': map<int, int>, idx: nat)
    returns (q: seq<int>)
    requires LabelsOk(buf, h, lg, pc, pend) && 10 <= idx < |lg| && Marked(buf, buf', pend, idx)
    ensures Lg(idx) in pend && q == pend[Lg(idx)] && Distinct(q) && ((lg[idx] < 0 && q == []) || Chain(buf', lg[idx], q))
  {
    LabelKnown(buf, h, lg, pc, pend, Lg(idx));
    q := pend[Lg(idx)];
    if lg[idx] >= 0 {
      forall y | y in q && y in buf ensures y in buf' && buf'[y] == buf[y] {
        forall n: nat | n < idx ensures !Waiting(pend, n, y) {
          if Waiting(pend, n, y) {
            OneWait(buf, h, lg, pc, pend, Lg(n), Lg(idx), y);
          }
        }
        assert !GlobalWait(pend, idx, y);
      }
      ChainFrame(buf, buf', lg[idx], q);
    }
  }

  lemma MarkedStep(buf: map<int, int>, h: seq<DasmLabels.Event>, lg: seq<int>, pc: seq<int>, pend: map<Label, seq<int>>,
                   buf1: map<int, int>, buf2: map<int, int>, idx: nat)
    requires LabelsOk(buf, h, lg, pc, pend) && 10 <= idx < |lg| && Marked(buf, buf1, pend, idx) && Lg(idx) in pend
    requires forall y {:trigger y in pend[Lg(idx)]} :: y in pend[Lg(idx)] ==> y in buf2 && buf2[y] == Marker(idx)
    requires forall y {:trigger y in buf2} :: y !in pend[Lg(idx)] && y in buf1 ==> y in buf2 && buf2[y] == buf1[y]
    requires forall y {:trigger y in buf2} {:trigger y in buf1} :: y in buf2 <==> y in buf1
    ensures Marked(buf, buf2, pend, idx + 1)
  {
    hide LabelsOk;
    forall n: nat, y | 10 <= n < idx + 1 && Waiting(pend, n, y) ensures y in buf2 && buf2[y] == Marker(n) {
      if n < idx && Waiting(pend, idx, y) {
        OneWait(buf, h, lg, pc, pend, Lg(n), Lg(idx), y);
      }
    }
    forall y | y in buf && !GlobalWait(pend, idx + 1, y) ensures y in buf2 && buf2[y] == buf[y] {
      assert !Waiting(pend, idx, y);
      assert !GlobalWait(pend, idx, y);
    }
  }

  /** Markers are only written over labels of references. */
  lemma MarkedSections(cells: seq<seq<Cell>>, pos: seq<int>, ofs: seq<int>, buf: map<int, int>, h: seq<DasmLabels.Event>,
                       lg: seq<int>, pc: seq<int>, pend: map<Label, seq<int>>, buf': map<int, int>)
    requires SectionsOk(cells, pos, ofs, buf) && EventsOk(h, cells) && LabelsOk(buf, h, lg, pc, pend) && Marked(buf, buf', pend, |lg|)
    ensures SectionsOk(cells, pos, ofs, buf')
  {
    hide LabelsOk, Stored, Laid;
    forall s: nat, k: nat, y {:trigger Fixed(cells[s][k], y)} | HasCell(cells, s, k) && Fixed(cells[s][k], y) && y in buf
      ensures y in buf' && buf'[y] == buf[y]
    {
      forall n: nat ensures !Waiting(pend, n, y) {
        if Waiting(pend, n, y) {
          WaitingNotFixed(cells, pos, ofs, buf, h, lg, pc, pend, Lg(n), s, k, y);
        }
      }
      assert !GlobalWait(pend, |lg|, y);
    }
    forall s {:trigger cells[s]} | 0 <= s < |cells| ensures AllStored(buf', cells[s]) {
      assert AllStored(buf, cells[s]);
      assert buf.Keys <= buf'.Keys by {
        forall y | y in buf.Keys ensures y in buf'.Keys {
          assert y in buf;
        }
      }
      forall k: nat | k < |cells[s]| ensures Stored(buf', cells[s][k]) {
        KeepsStored(cells, buf, buf', s, k);
      }
    }
  }

  lemma WaitingNotFixed(cells: seq<seq<Cell>>, pos: seq<int>, ofs: seq<int>, buf: map<int, int>, h: seq<DasmLabels.Event>,
                        lg: seq<int>, pc: seq<int>, pend: map<Label, seq<int>>, x: Label, s: nat, k: nat, y: int)
    requires SectionsOk(cells, pos, ofs, buf) && EventsOk(h, cells) && LabelsOk(buf, h, lg, pc, pend)
    requires x in pend && y in pend[x] && HasCell(cells, s, k)
    ensures !Fixed(cells[s][k], y)
  {
    hide LabelsOk, SectionsOk;
    if Fixed(cells[s][k], y) {
      var i := Waits(buf, h, lg, pc, pend, x, y);
      assert Happened(cells, h[i]);
      var s': nat, k': nat :| IsCell(cells, s', k', h[i]);
      CellsApart(cells, pos, ofs, buf, s, k, s', k', y);
    }
  }

  lemma TableBound(buf: map<int, int>, h: seq<DasmLabels.Event>, lg: seq<int>, pc: seq<int>, pend: map<Label, seq<int>>)
    requires LabelsOk(buf, h, lg, pc, pend)
    ensures InTable(h, |lg|) && TablesOk(h, lg, pc)
  {
    forall x | Known(lg, pc, x) ensures TableOk(h, x, Entry(lg, pc, x)) {
      assert x in pend;
      assert LabelOk(buf, h, x, Entry(lg, pc, x), pend[x]);
    }
  }

  /** The entry of a label is its last definition; without one it has never been defined, unless
      it is local and has been forgotten. */
  ghost predicate TableOk(h: seq<DasmLabels.Event>, x: Label, v: int) {
    && (v < 0 ==> -v == LastDef(h, |h|, x))
    && (v >= 0 && !IsLocal(x) ==> LastDef(h, |h|, x) == 0)
  }

  ghost predicate TablesOk(h: seq<DasmLabels.Event>, lg: seq<int>, pc: seq<int>) {
    forall x {:trigger TableOk(h, x, Entry(lg, pc, x))} :: Known(lg, pc, x) ==> TableOk(h, x, Entry(lg, pc, x))
  }

  lemma IsLinked(act: seq<nat>, cells: seq<seq<Cell>>, pos: seq<int>, ofs: seq<int>, buf: map<int, int>, h: seq<DasmLabels.Event>, t: seq<seq<int>>)
    requires LinkedState(act, cells, pos, ofs, buf, h, t)
    ensures AllLinked(cells, pos, ofs, buf, t)
    ensures forall s {:trigger cells[s]} :: 0 <= s < |cells| ==> Parsed(act, cells[s])
  {
  }

  lemma ForeignGlobal(cells: seq<seq<Cell>>, globs0: seq<int>, globs: seq<int>, base: int, t: seq<seq<int>>, s: nat, k: nat, m: int)
    requires GlobalsTo(cells, globs0, globs, base, t, s, k) && 0 <= m < |globs| && Foreign(cells, m)
    ensures |globs| == |globs0| && globs[m] == globs0[m]
  {
    forall i: nat, j: nat ensures !DefAt(cells, base, t, s, k, m, globs[m], i, j) {
      assert !IsDef(cells, m, i, j);
    }
    assert !GlobalDef(cells, base, t, s, k, m, globs[m]);
  }

  /** The bytes of a short branch. */
  lemma ShortCode(cells: seq<seq<Cell>>, buf: map<int, int>, globs: seq<int>, base: int, t: seq<seq<int>>, s: nat, k: nat,
                  code: seq<nat>, code': seq<nat>, low: int, n: int)
    requires EncodedTo(code, cells, buf, globs, base, t, s, k) && HasCell(cells, s, k) && cells[s][k].e.Rel? && OpcodeThere(cells[s], k)
    requires cells[s][k].pos + 1 in buf && 0 <= low && low == |code| + 2 - buf[cells[s][k].pos + 1]
    requires var sh := buf[cells[s][k].pos + 1];
             && sh == Saving(LastOp(cells[s], k)) && sh != 0
             && code' == (if sh == 4 then code[..|code| - 2] + [(code[|code| - 1] - 0x10) % 256] else code[..|code| - 1] + [0xEB]) + [n % 256]
    ensures code' == code[..low] + [if buf[cells[s][k].pos + 1] == 3 then 0xEB else (LastOp(cells[s], k) - 0x10) % 256, n % 256]
  {
  }

  lemma EncodedSize(code: seq<nat>, cells: seq<seq<Cell>>, buf: map<int, int>, globs: seq<int>, base: int, t: seq<seq<int>>, s: nat, k: nat)
    requires EncodedTo(code, cells, buf, globs, base, t, s, k)
    ensures s < |t| && k < |t[s]| && |code| == t[s][k]
  {
  }

  lemma LongStep(cells: seq<seq<Cell>>, pos: seq<int>, ofs: seq<int>, buf: map<int, int>, globs: seq<int>, base: int, t: seq<seq<int>>,
                 s: nat, k: nat, code: seq<nat>, n: int)
    requires AllLinked(cells, pos, ofs, buf, t) && EncodedTo(code, cells, buf, globs, base, t, s, k) && HasCell(cells, s, k) && cells[s][k].e.Rel?
    requires !ShortAt(buf, cells[s], k) && s < |t| && k + 1 < |t[s]| && t[s][k + 1] == t[s][k] + 4 && n == Aim(buf, globs, base, cells[s][k]) - t[s][k + 1]
    ensures EncodedTo(code + LE(n, 4), cells, buf, globs, base, t, s, k + 1)
  {
    hide AllLinked, EncodedAt, Encoded, LastOp, Aim, LE, Reads;
    LittleEndian(n, 4);
    AppendEncoded(code, LE(n, 4), cells[s], k, buf, globs, base, t[s][k], t[s][k + 1]);
    EncodeStep(cells, pos, ofs, buf, globs, base, t, s, k, code, code + LE(n, 4), |code|);
  }

  lemma ShortStep(cells: seq<seq<Cell>>, pos: seq<int>, ofs: seq<int>, buf: map<int, int>, globs: seq<int>, base: int, t: seq<seq<int>>,
                  s: nat, k: nat, code: seq<nat>, code': seq<nat>, n: int)
    requires AllLinked(cells, pos, ofs, buf, t) && EncodedTo(code, cells, buf, globs, base, t, s, k) && HasCell(cells, s, k) && cells[s][k].e.Rel?
    requires cells[s][k].pos + 1 in buf && OpcodeThere(cells[s], k) && s < |t| && k + 1 < |t[s]|
    requires var sh := buf[cells[s][k].pos + 1];
             && sh == Saving(LastOp(cells[s], k)) && sh != 0 && |code| >= sh - 2
             && code' == (if sh == 4 then code[..|code| - 2] + [(code[|code| - 1] - 0x10) % 256] else code[..|code| - 1] + [0xEB]) + [n % 256]
             && t[s][k + 1] == t[s][k] + 4 - sh && n == Aim(buf, globs, base, cells[s][k]) - t[s][k + 1]
    ensures EncodedTo(code', cells, buf, globs, base, t, s, k + 1)
  {
    hide AllLinked, EncodedAt, Encoded, LastOp, Aim, OpcodeThere, Keeps;
    var low := |code| + 2 - buf[cells[s][k].pos + 1];
    ShortCode(cells, buf, globs, base, t, s, k, code, code', low, n);
    ShortEncoded(code, code', cells[s], k, buf, globs, base, t[s][k], t[s][k + 1], low);
    EncodeStep(cells, pos, ofs, buf, globs, base, t, s, k, code, code', low);
  }

  /** A new state. */
  lemma NewState(act: seq<nat>, sections: nat, lgsize: nat, pcsize: nat, cells: seq<seq<Cell>>, pos: seq<int>, ofs: seq<int>,
                 lg: seq<int>, pc: seq<int>, pend: map<Label, seq<int>>)
    requires cells == seq(sections, i => []) && pos == seq(sections, i requires 0 <= i < sections => SecPos(i)) && ofs == seq(sections, i => 0)
    requires lg == seq(lgsize, i => 0) && pc == seq(pcsize, i => 0)
    requires pend == (map n: nat | 0 <= n < lgsize :: Lg(n) := []) + (map n: nat | 0 <= n < pcsize :: Pc(n) := [])
    ensures SectionsOk(cells, pos, ofs, map[]) && EventsOk([], cells) && LabelsOk(map[], [], lg, pc, pend)
    ensures forall s {:trigger cells[s]} :: 0 <= s < |cells| ==> Parsed(act, cells[s])
  {
  }

  lemma GlobalsSize(cells: seq<seq<Cell>>, globs0: seq<int>, globs: seq<int>, base: int, t: seq<seq<int>>, s: nat, k: nat)
    requires GlobalsTo(cells, globs0, globs, base, t, s, k)
    ensures |globs| == |globs0|
  {
  }

  lemma RelAction(act: seq<nat>, p: nat, e: Elem)
    requires p < |act| && Fits(Decode(act, p), e)
    ensures (act[p] == DASM_REL_LG || act[p] == DASM_REL_PC) <==> e.Rel?
    ensures act[p] == DASM_REL_LG ==> e.name.Lg?
    ensures act[p] == DASM_REL_PC ==> e.name.Pc?
    ensures Positions(act[p]) == Width(e)
  {
  }

  /** What the third pass finds for an element that is no reference. */
  lemma PlainFacts(act: seq<nat>, cells: seq<seq<Cell>>, pos: seq<int>, ofs: seq<int>, buf: map<int, int>, h: seq<DasmLabels.Event>, lgs: nat, t: seq<seq<int>>, s: nat, k: nat)
    requires LinkedState(act, cells, pos, ofs, buf, h, t) && InTable(h, lgs) && HasCell(cells, s, k) && !cells[s][k].e.Rel?
    ensures AllLinked(cells, pos, ofs, buf, t) && s < |t| && k + 1 < |t[s]| && t[s][k] >= 0
    ensures CellLinked(buf, cells[s][k], t[s][k], t[s][k + 1])
    ensures cells[s][k].e.Def? && cells[s][k].e.name.Lg? ==> cells[s][k].e.name.n < lgs
  {
    hide AllLinked, EventsOk, Parsed, Resolved;
    WordFacts(cells, pos, ofs, buf, t, s, k);
    if cells[s][k].e.Def? {
      var r := DefEvent(cells, h, s, k);
      assert h[r].x == cells[s][k].e.name;
    }
  }

  lemma PlainStep(cells: seq<seq<Cell>>, pos: seq<int>, ofs: seq<int>, buf: map<int, int>, globs: seq<int>, base: int, t: seq<seq<int>>,
                  s: nat, k: nat, code: seq<nat>, more: seq<nat>)
    requires AllLinked(cells, pos, ofs, buf, t) && EncodedTo(code, cells, buf, globs, base, t, s, k) && HasCell(cells, s, k) && !cells[s][k].e.Rel?
    requires s < |t| && k + 1 < |t[s]| && t[s][k + 1] == t[s][k] + |more|
    requires match cells[s][k].e
             case Start(_) => true
             case Def(_) => true
             case Raw(v) => more == [v]
             case Esc(v) => more == [v]
             case Imm(size, v) => |more| == size && Reads(more, v)
             case Space(fill, _) => forall x {:trigger more[x]} :: 0 <= x < |more| ==> more[x] == fill
             case Align(_) => forall x {:trigger more[x]} :: 0 <= x < |more| ==> more[x] == 0x90
             case Rel(_, _) => false
    ensures EncodedTo(code + more, cells, buf, globs, base, t, s, k + 1)
  {
    hide AllLinked, EncodedAt, Encoded, Reads;
    AppendEncoded(code, more, cells[s], k, buf, globs, base, t[s][k], t[s][k + 1]);
    EncodeStep(cells, pos, ofs, buf, globs, base, t, s, k, code, code + more, |code|);
  }

  /** Multiples are at least a multiple apart. */
  lemma OneMultiple(x: int, u: int, mask: nat)
    requires And(x, mask) == 0 && And(u, mask) == 0 && x <= u <= x + mask
    ensures x == u
  {
    var m := mask + 1;
    assert x == m * (x / m) && u == m * (u / m);
    assert m * (u / m - x / m) == u - x;
    ProductSmall(m, u / m - x / m);
  }

  lemma StartStep(act: seq<nat>, cells: seq<seq<Cell>>, pos: seq<int>, ofs: seq<int>, buf: map<int, int>, globs: seq<int>, base: int, t: seq<seq<int>>,
                  s: nat, k: nat, code: seq<nat>)
    requires AllLinked(cells, pos, ofs, buf, t) && EncodedTo(code, cells, buf, globs, base, t, s, k) && HasCell(cells, s, k) && cells[s][k].e.Start?
    requires Parsed(act, cells[s])
    ensures |pos| == |cells| && s < |t| && k < |t[s]| && cells[s][k].pos in buf && buf[cells[s][k].pos] == cells[s][k].e.p
    ensures PosAt(cells, pos, s, k + 1) == cells[s][k].pos + 1 && Follows(act, cells[s][k].e.p, cells[s], k + 1)
    ensures EncodedTo(code, cells, buf, globs, base, t, s, k + 1)
  {
    hide AllLinked, EncodedTo, Follows, Wf;
    WordFacts(cells, pos, ofs, buf, t, s, k);
    assert code + [] == code;
    PlainStep(cells, pos, ofs, buf, globs, base, t, s, k, code, []);
  }

  lemma SectionStart(act: seq<nat>, cells: seq<seq<Cell>>, pos: seq<int>, ofs: seq<int>, buf: map<int, int>, h: seq<DasmLabels.Event>, t: seq<seq<int>>, s: nat)
    requires LinkedState(act, cells, pos, ofs, buf, h, t) && s < |cells|
    ensures |pos| == |cells| && PosAt(cells, pos, s, 0) == SecPos(s) && (cells[s] == [] || cells[s][0].e.Start?)
  {
    hide EventsOk, Resolved, Spots, CellLinked, Decided;
    AllShape(cells, pos, ofs, buf, t, s);
    assert Parsed(act, cells[s]);
  }

  /** A local label that nothing waits for can be forgotten. */
  lemma ForgetLocal(buf: map<int, int>, h: seq<DasmLabels.Event>, lg: seq<int>, pc: seq<int>, pend: map<Label, seq<int>>, n: nat)
    requires LabelsOk(buf, h, lg, pc, pend) && n < 10 <= |lg| && lg[n] <= 0
    ensures LabelsOk(buf, h, lg[n := 0], pc, pend)
  {
    hide RefOk, LastDef;
    forall x | x in pend ensures LabelOk(buf, h, x, Entry(lg[n := 0], pc, x), pend[x]) && (!IsLocal(x) ==> Entry(lg[n := 0], pc, x) == Entry(lg, pc, x)) {
      assert LabelOk(buf, h, x, Entry(lg, pc, x), pend[x]);
    }
  }

  /** v is the position of a label at code offset r. */
  ghost predicate LabelSpot(cells: seq<seq<Cell>>, t: seq<seq<int>>, v: int, r: int) {
    exists i: nat, j: nat :: IsLabel(cells, i, j, v) && i < |t| && j < |t[i]| && r == t[i][j]
  }

  lemma SpotOfLast(act: seq<nat>, cells: seq<seq<Cell>>, pos: seq<int>, ofs: seq<int>, buf: map<int, int>, h: seq<DasmLabels.Event>, t: seq<seq<int>>, x: Label)
    requires LinkedState(act, cells, pos, ofs, buf, h, t) && LastDef(h, |h|, x) != 0
    ensures LastDef(h, |h|, x) in buf && LabelSpot(cells, t, LastDef(h, |h|, x), buf[LastDef(h, |h|, x)])
  {
    hide AllLinked, LastDef, Resolved, Positive, Decided;
    var d := LastDefExists(h, |h|, x);
    assert Happened(cells, h[d]);
    var i: nat, j: nat :| IsCell(cells, i, j, h[d]);
    CellDone(cells, pos, ofs, buf, t, i, j);
    assert IsLabel(cells, i, j, LastDef(h, |h|, x));
  }

  lemma WordsStep(act: seq<nat>, p: nat, n: int)
    requires p < |act| && !Ends(Decode(act, p))
    ensures Words(act, p) == Width(ElemAt(Decode(act, p), n)) + Words(act, p + Length(Decode(act, p)))
  {
  }
}
