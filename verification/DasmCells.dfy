/** The section buffers of DynASM (dasm_x86.h) seen as lists of elements: where each one sits
    in the buffer, where it sits in the code, and how the three passes meet it. */
module DasmCells {
  import opened DasmActions
  import opened DasmLabels

  const SECTION_SPAN: int := 0x100_0000

  /** DASM_SEC2POS */
  function SecPos(sec: nat): int { sec * SECTION_SPAN }

  /** DASM_POS2SEC, for positions of a section */
  function PosSec(pos: int): int { pos / SECTION_SPAN }

  /** An element, its buffer position, and its byte offset in the section as the first pass
      estimates it. */
  datatype Cell = Cell(e: Elem, pos: int, est: int)

  function EndPos(c: Cell): int { c.pos + Width(c.e) }
  function EndEst(c: Cell): int { c.est + Max(c.e) }

  /** The elements of section sec, one behind the other, up to buffer position pos and
      estimated size ofs. */
  ghost predicate Laid(cs: seq<Cell>, sec: nat, pos: int, ofs: int) {
    && (if cs == [] then pos == SecPos(sec) && ofs == 0
        else cs[0].pos == SecPos(sec) && cs[0].est == 0 && pos == EndPos(cs[|cs| - 1]) && ofs == EndEst(cs[|cs| - 1]))
    && forall k {:trigger cs[k]} :: 0 < k < |cs| ==> cs[k].pos == EndPos(cs[k - 1]) && cs[k].est == EndEst(cs[k - 1])
  }

  lemma LaidAppend(cs: seq<Cell>, sec: nat, pos: int, ofs: int, e: Elem)
    requires Laid(cs, sec, pos, ofs)
    ensures Laid(cs + [Cell(e, pos, ofs)], sec, pos + Width(e), ofs + Max(e))
  {
    var ds := cs + [Cell(e, pos, ofs)];
    forall k | 0 < k < |ds| ensures ds[k].pos == EndPos(ds[k - 1]) && ds[k].est == EndEst(ds[k - 1]) {
      assert k < |cs| ==> ds[k] == cs[k];
      assert ds[k - 1] == cs[k - 1];
    }
  }

  lemma {:induction false} Ordered(cs: seq<Cell>, sec: nat, pos: int, ofs: int, i: nat, j: nat)
    requires Laid(cs, sec, pos, ofs) && i < j < |cs|
    ensures EndPos(cs[i]) <= cs[j].pos && EndEst(cs[i]) <= cs[j].est
    decreases j
  {
    if i + 1 < j {
      Ordered(cs, sec, pos, ofs, i, j - 1);
    }
  }

  lemma Bounds(cs: seq<Cell>, sec: nat, pos: int, ofs: int, i: nat)
    requires Laid(cs, sec, pos, ofs) && i < |cs|
    ensures SecPos(sec) <= cs[i].pos <= EndPos(cs[i]) <= pos && 0 <= cs[i].est <= EndEst(cs[i]) <= ofs
  {
    if i > 0 {
      Ordered(cs, sec, pos, ofs, 0, i);
    }
    if i + 1 < |cs| {
      Ordered(cs, sec, pos, ofs, i, |cs| - 1);
    }
  }

  // ---- agreement with the action list ------------------------------------------------------

  /** The actions from q to p are the elements of cs from k on. */
  ghost predicate Read(act: seq<nat>, q: nat, p: nat, cs: seq<Cell>, k: nat)
    requires k <= |cs|
    decreases |cs| - k
  {
    if k == |cs| then q == p
    else
      var a := Decode(act, q);
      Fits(a, cs[k].e) && Read(act, q + Length(a), p, cs, k + 1)
  }

  lemma {:induction false} ReadAppend(act: seq<nat>, q: nat, p: nat, cs: seq<Cell>, k: nat, c: Cell)
    requires k <= |cs| && Read(act, q, p, cs, k) && Fits(Decode(act, p), c.e)
    ensures Read(act, q, p + Length(Decode(act, p)), cs + [c], k)
    decreases |cs| - k
  {
    if k < |cs| {
      assert (cs + [c])[k] == cs[k];
      ReadAppend(act, q + Length(Decode(act, q)), p, cs, k + 1, c);
    } else {
      assert (cs + [c])[k] == c;
      assert Read(act, p + Length(Decode(act, p)), p + Length(Decode(act, p)), cs + [c], k + 1);
    }
  }

  /** From q on the actions are the elements of cs from k on, and the next put, or the end of
      the section, follows. op and pre are the last opcode bytes, as for Wf. */
  ghost predicate Follows(act: seq<nat>, q: nat, cs: seq<Cell>, k: nat)
    requires k <= |cs|
    decreases |cs| - k
  {
    var a := Decode(act, q);
    if k == |cs| || cs[k].e.Start? then Ends(a)
    else Fits(a, cs[k].e) && Follows(act, q + Length(a), cs, k + 1)
  }

  lemma {:induction false} ReadFollows(act: seq<nat>, q: nat, p: nat, cs: seq<Cell>, k: nat)
    requires k <= |cs| && Read(act, q, p, cs, k) && Ends(Decode(act, p))
    ensures Follows(act, q, cs, k)
    decreases |cs| - k
  {
    if k < |cs| {
      ReadFollows(act, q + Length(Decode(act, q)), p, cs, k + 1);
    }
  }

  lemma {:induction false} FollowsPrefix(act: seq<nat>, q: nat, cs: seq<Cell>, k: nat, more: seq<Cell>)
    requires k <= |cs| && Follows(act, q, cs, k) && (more == [] || more[0].e.Start?)
    ensures Follows(act, q, cs + more, k)
    decreases |cs| - k
  {
    if k < |cs| {
      assert (cs + more)[k] == cs[k];
      if !cs[k].e.Start? {
        FollowsPrefix(act, q + Length(Decode(act, q)), cs, k + 1, more);
      }
    }
  }

  /** Every put of a section can be read again. */
  ghost predicate Parsed(act: seq<nat>, cs: seq<Cell>) {
    && (cs != [] ==> cs[0].e.Start?)
    && forall k {:trigger cs[k]} :: 0 <= k < |cs| && cs[k].e.Start? ==>
         Wf(act, cs[k].e.p, 0, 0, false) && Follows(act, cs[k].e.p, cs, k + 1)
  }

  // ---- contents of the buffer -----------------------------------------------------------

  /** What the first pass stores for an element; the label of a reference is another matter. */
  ghost predicate Stored(buf: map<int, int>, c: Cell) {
    match c.e
    case Start(p) => c.pos in buf && buf[c.pos] == p
    case Raw(_) => true
    case Esc(_) => true
    case Imm(_, v) => c.pos in buf && buf[c.pos] == v
    case Space(_, n) => c.pos in buf && buf[c.pos] == n
    case Rel(_, _) => c.pos in buf && c.pos + 1 in buf && buf[c.pos + 1] == c.est + 4
    case Def(_) => c.pos in buf && buf[c.pos] == c.est
    case Align(mask) => c.pos in buf && buf[c.pos] == c.est + mask && IsMask(mask)
  }

  ghost predicate AllStored(buf: map<int, int>, cs: seq<Cell>) {
    forall k {:trigger cs[k]} :: 0 <= k < |cs| ==> Stored(buf, cs[k])
  }

  // ---- all sections --------------------------------------------------------------------

  /** Position y of the cell holds what Stored says: not the label of a reference. */
  predicate Fixed(c: Cell, y: int) {
    c.pos <= y < EndPos(c) && !(c.e.Rel? && y == c.pos)
  }

  ghost predicate HasCell(cells: seq<seq<Cell>>, s: nat, k: nat) {
    s < |cells| && k < |cells[s]|
  }

  ghost predicate SectionsOk(cells: seq<seq<Cell>>, pos: seq<int>, ofs: seq<int>, buf: map<int, int>) {
    && |cells| == |pos| == |ofs|
    && forall s {:trigger cells[s]} {:trigger pos[s]} :: 0 <= s < |cells| ==>
         Laid(cells[s], s, pos[s], ofs[s]) && pos[s] <= SecPos(s + 1) && AllStored(buf, cells[s])
  }

  /** An event happened where a cell says so, and every label cell is an event. */
  ghost predicate EventsOk(h: seq<Event>, cells: seq<seq<Cell>>) {
    && (forall i {:trigger h[i]} :: 0 <= i < |h| ==> Happened(cells, h[i]))
    && (forall s: nat, k: nat {:trigger cells[s][k]} :: HasCell(cells, s, k) && cells[s][k].e.Rel? ==>
          Ref(cells[s][k].pos, cells[s][k].e.name, cells[s][k].e.kind) in h)
    && (forall s: nat, k: nat {:trigger cells[s][k]} :: HasCell(cells, s, k) && cells[s][k].e.Def? ==>
          Defined(cells[s][k].pos, cells[s][k].e.name) in h)
  }

  ghost predicate Happened(cells: seq<seq<Cell>>, v: Event) {
    exists s: nat, k: nat :: IsCell(cells, s, k, v)
  }

  ghost predicate IsCell(cells: seq<seq<Cell>>, s: nat, k: nat, v: Event) {
    && HasCell(cells, s, k) && cells[s][k].pos == v.pos
    && cells[s][k].e == match v case Ref(_, x, kind) => Rel(x, kind) case Defined(_, x) => Def(x)
  }

  /** Different cells take different positions. */
  lemma CellsApart(cells: seq<seq<Cell>>, pos: seq<int>, ofs: seq<int>, buf: map<int, int>, s: nat, k: nat, s': nat, k': nat, y: int)
    requires SectionsOk(cells, pos, ofs, buf) && HasCell(cells, s, k) && HasCell(cells, s', k')
    requires cells[s][k].pos <= y < EndPos(cells[s][k]) && cells[s'][k'].pos <= y < EndPos(cells[s'][k'])
    ensures s == s' && k == k'
  {
    Bounds(cells[s], s, pos[s], ofs[s], k);
    Bounds(cells[s'], s', pos[s'], ofs[s'], k');
    if s == s' {
      if k < k' {
        Ordered(cells[s], s, pos[s], ofs[s], k, k');
      } else if k' < k {
        Ordered(cells[s], s, pos[s], ofs[s], k', k);
      }
    }
  }

  lemma SecMono(s: nat, t: nat)
    requires s < t
    ensures SecPos(s) < SecPos(s + 1) <= SecPos(t)
  {
  }

  lemma EndAbove(cs: seq<Cell>, sec: nat, pos: int, ofs: int)
    requires Laid(cs, sec, pos, ofs)
    ensures SecPos(sec) <= pos && 0 <= ofs
  {
    if cs != [] {
      Bounds(cs, sec, pos, ofs, |cs| - 1);
    }
  }

  /** Every event lies before the end of its section. */
  lemma EventBelow(cells: seq<seq<Cell>>, pos: seq<int>, ofs: seq<int>, buf: map<int, int>, h: seq<DasmLabels.Event>, sec: nat, end: int)
    requires SectionsOk(cells, pos, ofs, buf) && EventsOk(h, cells) && Positive(h) && sec < |cells| && pos[sec] <= end < SecPos(sec + 1) && end > 0
    ensures FreshPos(h, end)
  {
    hide SecPos, Laid, AllStored;
    EndAbove(cells[sec], sec, pos[sec], ofs[sec]);
    forall i | 0 <= i < |h| ensures h[i].pos != end {
      var s: nat, k: nat :| IsCell(cells, s, k, h[i]);
      Bounds(cells[s], s, pos[s], ofs[s], k);
      if s < sec {
        SecMono(s, sec);
      } else if sec < s {
        SecMono(sec, s);
      }
    }
  }

  function Extend(cells: seq<seq<Cell>>, sec: nat, c: Cell): seq<seq<Cell>>
    requires sec < |cells|
  {
    cells[sec := cells[sec] + [c]]
  }

  /** The words that matter are kept. */
  ghost predicate KeepsFixed(cells: seq<seq<Cell>>, buf: map<int, int>, buf': map<int, int>) {
    forall s: nat, k: nat, y {:trigger Fixed(cells[s][k], y)} :: HasCell(cells, s, k) && Fixed(cells[s][k], y) && y in buf ==>
      y in buf' && buf'[y] == buf[y]
  }

  lemma KeepsStored(cells: seq<seq<Cell>>, buf: map<int, int>, buf': map<int, int>, s: nat, k: nat)
    requires HasCell(cells, s, k) && Stored(buf, cells[s][k]) && KeepsFixed(cells, buf, buf') && buf.Keys <= buf'.Keys
    ensures Stored(buf', cells[s][k])
  {
    var c := cells[s][k];
    assert Fixed(c, c.pos) || c.e.Rel? || Width(c.e) == 0;
    assert c.e.Rel? ==> Fixed(c, c.pos + 1);
  }

  /** A cell more at the end of a section. */
  lemma AddCell(cells: seq<seq<Cell>>, pos: seq<int>, ofs: seq<int>, buf: map<int, int>, sec: nat, e: Elem, buf': map<int, int>)
    requires SectionsOk(cells, pos, ofs, buf) && sec < |cells| && pos[sec] + Width(e) <= SecPos(sec + 1)
    requires KeepsFixed(cells, buf, buf') && buf.Keys <= buf'.Keys && Stored(buf', Cell(e, pos[sec], ofs[sec]))
    ensures SectionsOk(Extend(cells, sec, Cell(e, pos[sec], ofs[sec])), pos[sec := pos[sec] + Width(e)], ofs[sec := ofs[sec] + Max(e)], buf')
  {
    hide Stored, Laid, Fixed;
    var c := Cell(e, pos[sec], ofs[sec]);
    var cells', pos', ofs' := Extend(cells, sec, c), pos[sec := pos[sec] + Width(e)], ofs[sec := ofs[sec] + Max(e)];
    LaidAppend(cells[sec], sec, pos[sec], ofs[sec], e);
    forall s | 0 <= s < |cells'| ensures Laid(cells'[s], s, pos'[s], ofs'[s]) && pos'[s] <= SecPos(s + 1) && AllStored(buf', cells'[s]) {
      assert Laid(cells[s], s, pos[s], ofs[s]) && pos[s] <= SecPos(s + 1) && AllStored(buf, cells[s]);
      forall k | 0 <= k < |cells'[s]| ensures Stored(buf', cells'[s][k]) {
        if k < |cells[s]| {
          assert cells'[s][k] == cells[s][k];
          KeepsStored(cells, buf, buf', s, k);
        }
      }
    }
  }

  /** The first pass only writes behind the end of a section, or at references. */
  lemma WriteBehind(cells: seq<seq<Cell>>, pos: seq<int>, ofs: seq<int>, buf: map<int, int>, sec: nat, buf': map<int, int>)
    requires SectionsOk(cells, pos, ofs, buf) && sec < |cells|
    requires forall y {:trigger y in buf'} :: y in buf && !(pos[sec] <= y < SecPos(sec + 1)) ==> y in buf' && buf'[y] == buf[y]
    ensures KeepsFixed(cells, buf, buf')
  {
    hide SecPos, Laid, AllStored;
    EndAbove(cells[sec], sec, pos[sec], ofs[sec]);
    forall s: nat, k: nat, y | HasCell(cells, s, k) && Fixed(cells[s][k], y) && y in buf ensures y in buf' && buf'[y] == buf[y] {
      Bounds(cells[s], s, pos[s], ofs[s], k);
      if s < sec {
        SecMono(s, sec);
      } else if sec < s {
        SecMono(sec, s);
      }
    }
  }

  lemma EventsMore(h: seq<Event>, cells: seq<seq<Cell>>, sec: nat, c: Cell, g: seq<Event>)
    requires EventsOk(h, cells) && sec < |cells|
    requires match c.e
             case Rel(x, kind) => g == h + [Ref(c.pos, x, kind)]
             case Def(x) => g == h + [Defined(c.pos, x)]
             case _ => g == h
    ensures EventsOk(g, Extend(cells, sec, c))
  {
    var cells' := Extend(cells, sec, c);
    assert forall v :: v in h ==> v in g;
    forall i {:trigger g[i]} | 0 <= i < |g| ensures Happened(cells', g[i]) {
      if i < |h| {
        assert g[i] == h[i];
        var s: nat, k: nat :| IsCell(cells, s, k, h[i]);
        assert cells'[s][k] == cells[s][k];
        assert IsCell(cells', s, k, g[i]);
      } else {
        assert IsCell(cells', sec, |cells[sec]|, g[i]);
      }
    }
    forall s: nat, k: nat {:trigger cells'[s][k]} | HasCell(cells', s, k)
      ensures cells'[s][k].e.Rel? ==> Ref(cells'[s][k].pos, cells'[s][k].e.name, cells'[s][k].e.kind) in g
      ensures cells'[s][k].e.Def? ==> Defined(cells'[s][k].pos, cells'[s][k].e.name) in g
    {
      if HasCell(cells, s, k) {
        assert cells'[s][k] == cells[s][k];
        if cells[s][k].e.Rel? {
          assert Ref(cells[s][k].pos, cells[s][k].e.name, cells[s][k].e.kind) in h;
          assert Ref(cells'[s][k].pos, cells'[s][k].e.name, cells'[s][k].e.kind) in g;
        }
      } else {
        assert s == sec && k == |cells[sec]| && cells'[s][k] == c;
        if c.e.Rel? || c.e.Def? {
          assert g[|h|] in g;
        }
      }
    }
  }

  lemma SectionLaid(cells: seq<seq<Cell>>, pos: seq<int>, ofs: seq<int>, buf: map<int, int>, s: nat)
    requires SectionsOk(cells, pos, ofs, buf) && s < |cells|
    ensures s < |pos| && s < |ofs| && Laid(cells[s], s, pos[s], ofs[s]) && SecPos(s) <= pos[s] <= SecPos(s + 1)
    ensures AllStored(buf, cells[s])
  {
    EndAbove(cells[s], s, pos[s], ofs[s]);
  }

  /** A put that has been read to its end can be read again. */
  lemma ParsedMore(act: seq<nat>, cs: seq<Cell>, k: nat, start: nat, p: nat)
    requires k < |cs| && cs[k].e == Start(start) && Parsed(act, cs[..k]) && Read(act, start, p, cs, k + 1) && Ends(Decode(act, p))
    requires Wf(act, start, 0, 0, false)
    ensures Parsed(act, cs)
  {
    hide Wf, Decode, Read, Follows;
    ReadFollows(act, start, p, cs, k + 1);
    NoStarts(act, start, p, cs, k + 1);
    assert cs == cs[..k] + cs[k..];
    forall j | 0 <= j < |cs| && cs[j].e.Start? ensures Wf(act, cs[j].e.p, 0, 0, false) && Follows(act, cs[j].e.p, cs, j + 1) {
      if j < k {
        assert cs[..k][j] == cs[j];
        FollowsPrefix(act, cs[j].e.p, cs[..k], j + 1, cs[k..]);
      }
    }
    assert k > 0 ==> cs[..k][0] == cs[0];
  }

  lemma {:induction false} NoStarts(act: seq<nat>, q: nat, p: nat, cs: seq<Cell>, k: nat)
    requires k <= |cs| && Read(act, q, p, cs, k)
    ensures forall j {:trigger cs[j]} :: k <= j < |cs| ==> !cs[j].e.Start?
    decreases |cs| - k
  {
    if k < |cs| {
      NoStarts(act, q + Length(Decode(act, q)), p, cs, k + 1);
    }
  }

  lemma SecAbove(s: nat)
    ensures 0 <= SecPos(s) && SecPos(s) + SECTION_SPAN == SecPos(s + 1)
  {
  }

  // ---- what a put adds ------------------------------------------------------------------

  function ElemsOf(cs: seq<Cell>): seq<Elem> {
    seq(|cs|, j requires 0 <= j < |cs| => cs[j].e)
  }

  function EventOf(c: Cell): seq<Event> {
    match c.e
    case Rel(x, kind) => [Ref(c.pos, x, kind)]
    case Def(x) => [Defined(c.pos, x)]
    case _ => []
  }

  function EventsOf(cs: seq<Cell>): seq<Event> {
    if cs == [] then [] else EventsOf(cs[..|cs| - 1]) + EventOf(cs[|cs| - 1])
  }

  /** Section sec, and no other, has grown by the elements es, and the label events by theirs. */
  ghost predicate Added(cells: seq<seq<Cell>>, cells': seq<seq<Cell>>, h: seq<Event>, h': seq<Event>, sec: nat, es: seq<Elem>) {
    && sec < |cells| == |cells'| && |cells[sec]| <= |cells'[sec]| && cells' == cells[sec := cells'[sec]]
    && cells'[sec][..|cells[sec]|] == cells[sec]
    && ElemsOf(cells'[sec][|cells[sec]|..]) == es && h' == h + EventsOf(cells'[sec][|cells[sec]|..])
  }

  lemma AddedNone(cells: seq<seq<Cell>>, h: seq<Event>, sec: nat)
    requires sec < |cells|
    ensures Added(cells, cells, h, h, sec, [])
  {
    assert cells[sec][|cells[sec]|..] == [];
  }

  lemma EventsAppend(cs: seq<Cell>, c: Cell)
    ensures EventsOf(cs + [c]) == EventsOf(cs) + EventOf(c)
  {
    assert (cs + [c])[..|cs|] == cs;
  }

  lemma ElemsAppend(cs: seq<Cell>, c: Cell)
    ensures ElemsOf(cs + [c]) == ElemsOf(cs) + [c.e]
  {
  }

  lemma AddedStep(cells: seq<seq<Cell>>, cells': seq<seq<Cell>>, h: seq<Event>, h': seq<Event>, sec: nat, es: seq<Elem>, c: Cell)
    requires Added(cells, cells', h, h', sec, es)
    ensures Added(cells, Extend(cells', sec, c), h, h' + EventOf(c), sec, es + [c.e])
  {
    var cs, n := cells'[sec], |cells[sec]|;
    assert (cs + [c])[n..] == cs[n..] + [c];
    EventsAppend(cs[n..], c);
    ElemsAppend(cs[n..], c);
    assert (cs + [c])[..n] == cs[..n];
    hide EventsOf, ElemsOf;
    assert h' + EventOf(c) == h + (EventsOf(cs[n..]) + EventOf(c));
  }
}
