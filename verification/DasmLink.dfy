/** Pass 2 of DynASM (dasm_x86.h), seen from the elements: where each element lands in the
    code, which branches are short, and why a short branch reaches its label. */
module DasmLink {
  import opened DasmActions
  import opened DasmLabels
  import opened DasmCells

  /** Sum of the estimated sizes of the sections before s. */
  ghost function Base(ofs: seq<int>, s: nat): int
    requires s <= |ofs|
  {
    if s == 0 then 0 else Base(ofs, s - 1) + ofs[s - 1]
  }

  /** Estimated offset of element k of section s in its section; k may be the end. */
  ghost function Est(cells: seq<seq<Cell>>, ofs: seq<int>, s: nat, k: nat): int
    requires s < |cells| == |ofs| && k <= |cells[s]|
  {
    if k < |cells[s]| then cells[s][k].est else ofs[s]
  }

  ghost predicate Before(i: nat, j: nat, s: nat, k: nat) {
    i < s || (i == s && j < k)
  }

  /** The last opcode byte of the put before element k. */
  ghost function LastOp(cs: seq<Cell>, k: nat): nat
    requires k <= |cs|
  {
    if k == 0 then 0
    else match cs[k - 1].e
      case Start(_) => 0
      case Raw(v) => v
      case Esc(v) => v
      case _ => LastOp(cs, k - 1)
  }

  /** Bytes saved by the short form of a branch. */
  function Saving(op: nat): nat {
    if op == 0xE9 then 3 else if 0x80 <= op < 0x90 then 4 else 0
  }

  /** What the second pass leaves for an element that starts at code offset t and ends at u. */
  ghost predicate CellLinked(buf: map<int, int>, c: Cell, t: int, u: int) {
    match c.e
    case Start(p) => c.pos in buf && buf[c.pos] == p && u == t
    case Raw(_) => u == t + 1
    case Esc(_) => u == t + 1
    case Imm(size, v) => c.pos in buf && buf[c.pos] == v && u == t + size
    case Space(_, n) => c.pos in buf && buf[c.pos] == n && u == t + n
    case Rel(_, _) => c.pos in buf && c.pos + 1 in buf && (buf[c.pos + 1] == 0 || buf[c.pos + 1] == 3 || buf[c.pos + 1] == 4) && u == t + 4 - buf[c.pos + 1]
    case Def(_) => c.pos in buf && buf[c.pos] == t && u == t
    case Align(mask) => c.pos in buf && IsMask(mask) && t <= u <= t + mask && And(u, mask) == 0
  }

  /** Spots t for all elements before element k of section s. */
  ghost predicate Spots(cells: seq<seq<Cell>>, t: seq<seq<int>>, s: nat, k: nat) {
    && s < |cells| && k <= |cells[s]| && |t| == s + 1 && |t[s]| == k + 1
    && (forall i {:trigger t[i]} :: 0 <= i < s ==> |t[i]| == |cells[i]| + 1)
    && t[0][0] == 0
    && (forall i {:trigger t[i]} :: 0 < i <= s ==> t[i][0] == t[i - 1][|cells[i - 1]|])
  }

  ghost predicate LinkedTo(cells: seq<seq<Cell>>, buf: map<int, int>, t: seq<seq<int>>, s: nat, k: nat)
    requires Spots(cells, t, s, k)
  {
    forall i: nat, j: nat {:trigger cells[i][j]} :: HasCell(cells, i, j) && Before(i, j, s, k) ==> CellLinked(buf, cells[i][j], t[i][j], t[i][j + 1])
  }

  ghost predicate StoredFrom(cells: seq<seq<Cell>>, buf: map<int, int>, s: nat, k: nat) {
    forall i: nat, j: nat {:trigger cells[i][j]} :: HasCell(cells, i, j) && !Before(i, j, s, k) ==> Stored(buf, cells[i][j])
  }

  /** The labels of references stay as they were when the pass started. */
  ghost predicate Wanted(cells: seq<seq<Cell>>, buf: map<int, int>, want: map<int, int>) {
    forall i: nat, j: nat {:trigger cells[i][j]} :: HasCell(cells, i, j) && cells[i][j].e.Rel? ==>
      cells[i][j].pos in want && cells[i][j].pos in buf && buf[cells[i][j].pos] == want[cells[i][j].pos]
  }

  /** The distance the second pass sees from the long form of a branch, at element j of section
      i, to its label: exact backwards, estimated forwards. */
  ghost function Distance(cells: seq<seq<Cell>>, ofs: seq<int>, t: seq<seq<int>>, i: nat, j: nat, i': nat, j': nat): int
    requires HasCell(cells, i, j) && HasCell(cells, i', j') && |ofs| == |cells| && i < |t| && j < |t[i]|
    requires Before(i', j', i, j) ==> i' < |t| && j' < |t[i']|
  {
    if Before(i', j', i, j) then t[i'][j'] - (t[i][j] + 4)
    else Base(ofs, i') + cells[i'][j'].est - (Base(ofs, i) + cells[i][j].est + 4)
  }

  /** Element j' of section i' is the label a reference with word v means. */
  ghost predicate IsLabel(cells: seq<seq<Cell>>, i': nat, j': nat, v: int) {
    HasCell(cells, i', j') && cells[i'][j'].e.Def? && cells[i'][j'].pos == v
  }

  /** A branch is short if and only if it has a short form, its label is in this code and the
      distance is small. */
  ghost predicate Decided(cells: seq<seq<Cell>>, ofs: seq<int>, buf: map<int, int>, t: seq<seq<int>>, i: nat, j: nat)
    requires HasCell(cells, i, j) && |ofs| == |cells| && i < |t| && j + 1 < |t[i]|
    requires forall i' {:trigger t[i']} :: 0 <= i' < i ==> |t[i']| > |cells[i']|
  {
    var c := cells[i][j];
    var save := Saving(LastOp(cells[i], j));
    && c.pos in buf && c.pos + 1 in buf
    && (buf[c.pos] < 0 ==> buf[c.pos + 1] == 0)
    && forall i': nat, j': nat {:trigger IsLabel(cells, i', j', buf[c.pos])} :: IsLabel(cells, i', j', buf[c.pos]) ==>
         buf[c.pos + 1] == if -128 - save <= Distance(cells, ofs, t, i, j, i', j') <= 127 then save else 0
  }

  ghost predicate AllDecided(cells: seq<seq<Cell>>, ofs: seq<int>, buf: map<int, int>, t: seq<seq<int>>, s: nat, k: nat)
    requires Spots(cells, t, s, k) && |ofs| == |cells|
  {
    forall i: nat, j: nat {:trigger cells[i][j]} :: HasCell(cells, i, j) && Before(i, j, s, k) && cells[i][j].e.Rel? ==>
      Decided(cells, ofs, buf, t, i, j)
  }

  /** The second pass before element k of section s: want is the buffer it started with, adj
      the difference between code offset and estimate. */
  ghost predicate Linking(cells: seq<seq<Cell>>, pos: seq<int>, ofs: seq<int>, buf: map<int, int>, want: map<int, int>,
                          t: seq<seq<int>>, s: nat, k: nat, adj: int)
  {
    && SectionsOk(cells, pos, ofs, want) && Spots(cells, t, s, k)
    && LinkedTo(cells, buf, t, s, k) && StoredFrom(cells, buf, s, k) && Wanted(cells, buf, want) && AllDecided(cells, ofs, buf, t, s, k)
    && t[s][k] == Est(cells, ofs, s, k) + adj
  }

  // ---- steps ------------------------------------------------------------------------------

  function AddSpot(t: seq<seq<int>>, s: nat, v: int): seq<seq<int>>
    requires s < |t|
  {
    t[s := t[s] + [v]]
  }

  /** The word at y belongs to element k of section s, and is no label word. */
  ghost predicate Owns(cells: seq<seq<Cell>>, s: nat, k: nat, y: int) {
    HasCell(cells, s, k) && Fixed(cells[s][k], y)
  }

  lemma OthersKept(cells: seq<seq<Cell>>, pos: seq<int>, ofs: seq<int>, want: map<int, int>, s: nat, k: nat, y: int, i: nat, j: nat)
    requires SectionsOk(cells, pos, ofs, want) && Owns(cells, s, k, y) && HasCell(cells, i, j) && (i != s || j != k)
    ensures !(cells[i][j].pos <= y < EndPos(cells[i][j]))
  {
    if cells[i][j].pos <= y < EndPos(cells[i][j]) {
      CellsApart(cells, pos, ofs, want, s, k, i, j, y);
    }
  }

  lemma Sizes(cells: seq<seq<Cell>>, pos: seq<int>, ofs: seq<int>, buf: map<int, int>)
    requires SectionsOk(cells, pos, ofs, buf)
    ensures |cells| == |pos| == |ofs|
  {
  }

  lemma EstNext(cells: seq<seq<Cell>>, pos: seq<int>, ofs: seq<int>, buf: map<int, int>, s: nat, k: nat)
    requires SectionsOk(cells, pos, ofs, buf) && HasCell(cells, s, k)
    ensures Est(cells, ofs, s, k + 1) == EndEst(cells[s][k])
  {
    assert Laid(cells[s], s, pos[s], ofs[s]);
  }

  /** The words before are those of the step before. */
  lemma LinkedStep(cells: seq<seq<Cell>>, pos: seq<int>, ofs: seq<int>, buf: map<int, int>, want: map<int, int>, t: seq<seq<int>>,
                   s: nat, k: nat, adj: int, buf': map<int, int>, y: int, v: int, u: int)
    requires Linking(cells, pos, ofs, buf, want, t, s, k, adj) && HasCell(cells, s, k)
    requires buf' == buf || (Owns(cells, s, k, y) && buf' == buf[y := v])
    requires CellLinked(buf', cells[s][k], t[s][k], u)
    ensures Spots(cells, AddSpot(t, s, u), s, k + 1) && LinkedTo(cells, buf', AddSpot(t, s, u), s, k + 1)
    ensures StoredFrom(cells, buf', s, k + 1) && Wanted(cells, buf', want)
  {
    hide SectionsOk, CellLinked, Stored;
    var t' := AddSpot(t, s, u);
    assert t'[s][k + 1] == u && t'[s][k] == t[s][k];
    forall i: nat, j: nat {:trigger cells[i][j]} | HasCell(cells, i, j) && Before(i, j, s, k + 1)
      ensures CellLinked(buf', cells[i][j], t'[i][j], t'[i][j + 1])
    {
      if i != s || j != k {
        assert CellLinked(buf, cells[i][j], t[i][j], t[i][j + 1]);
        if buf' != buf {
          OthersKept(cells, pos, ofs, want, s, k, y, i, j);
          LinkedFrame(buf, buf', cells[i][j], t[i][j], t[i][j + 1]);
        }
      }
    }
    forall i: nat, j: nat {:trigger cells[i][j]} | HasCell(cells, i, j) && !Before(i, j, s, k + 1)
      ensures Stored(buf', cells[i][j])
    {
      assert Stored(buf, cells[i][j]);
      if buf' != buf {
        OthersKept(cells, pos, ofs, want, s, k, y, i, j);
        StoredFrame(buf, buf', cells[i][j]);
      }
    }
    forall i: nat, j: nat {:trigger cells[i][j]} | HasCell(cells, i, j) && cells[i][j].e.Rel?
      ensures cells[i][j].pos in want && cells[i][j].pos in buf' && buf'[cells[i][j].pos] == want[cells[i][j].pos]
    {
      if buf' != buf && (i != s || j != k) {
        OthersKept(cells, pos, ofs, want, s, k, y, i, j);
      }
    }
  }

  ghost predicate SameWords(buf: map<int, int>, buf': map<int, int>, c: Cell) {
    forall y {:trigger y in buf} :: c.pos <= y < EndPos(c) && y in buf ==> y in buf' && buf'[y] == buf[y]
  }

  lemma LinkedFrame(buf: map<int, int>, buf': map<int, int>, c: Cell, t: int, u: int)
    requires CellLinked(buf, c, t, u) && SameWords(buf, buf', c)
    ensures CellLinked(buf', c, t, u)
  {
  }

  lemma StoredFrame(buf: map<int, int>, buf': map<int, int>, c: Cell)
    requires Stored(buf, c) && SameWords(buf, buf', c)
    ensures Stored(buf', c)
  {
  }

  /** Decisions of the past stand. */
  lemma DecidedStep(cells: seq<seq<Cell>>, pos: seq<int>, ofs: seq<int>, buf: map<int, int>, want: map<int, int>, t: seq<seq<int>>,
                    s: nat, k: nat, adj: int, buf': map<int, int>, y: int, v: int, u: int)
    requires Linking(cells, pos, ofs, buf, want, t, s, k, adj) && HasCell(cells, s, k)
    requires buf' == buf || (Owns(cells, s, k, y) && buf' == buf[y := v])
    requires Spots(cells, AddSpot(t, s, u), s, k + 1)
    requires cells[s][k].e.Rel? ==> |ofs| == |cells| && Decided(cells, ofs, buf', AddSpot(t, s, u), s, k)
    ensures |ofs| == |cells| && AllDecided(cells, ofs, buf', AddSpot(t, s, u), s, k + 1)
  {
    hide SectionsOk, LinkedTo, StoredFrom, Decided, CellLinked, Stored;
    Sizes(cells, pos, ofs, want);
    var t' := AddSpot(t, s, u);
    forall i: nat, j: nat {:trigger cells[i][j]} | HasCell(cells, i, j) && Before(i, j, s, k + 1) && cells[i][j].e.Rel?
      ensures Decided(cells, ofs, buf', t', i, j)
    {
      if i != s || j != k {
        assert Decided(cells, ofs, buf, t, i, j);
        if buf' != buf {
          OthersKept(cells, pos, ofs, want, s, k, y, i, j);
        }
        assert SameWords(buf, buf', cells[i][j]);
        DecidedFrame(cells, ofs, buf, buf', t, t', i, j, s, k, u);
      }
    }
  }

  lemma DecidedFrame(cells: seq<seq<Cell>>, ofs: seq<int>, buf: map<int, int>, buf': map<int, int>, t: seq<seq<int>>, t': seq<seq<int>>,
                     i: nat, j: nat, s: nat, k: nat, u: int)
    requires HasCell(cells, i, j) && |ofs| == |cells| && Spots(cells, t, s, k) && t' == AddSpot(t, s, u) && Before(i, j, s, k)
    requires Decided(cells, ofs, buf, t, i, j) && SameWords(buf, buf', cells[i][j]) && cells[i][j].e.Rel?
    requires Spots(cells, t', s, k + 1)
    ensures Decided(cells, ofs, buf', t', i, j)
  {
    hide Saving, LastOp, Base;
    var c := cells[i][j];
    assert buf'[c.pos] == buf[c.pos] && buf'[c.pos + 1] == buf[c.pos + 1];
    forall i': nat, j': nat | IsLabel(cells, i', j', buf'[c.pos])
      ensures Distance(cells, ofs, t', i, j, i', j') == Distance(cells, ofs, t, i, j, i', j')
    {
    }
  }

  lemma SpotsLast(cells: seq<seq<Cell>>, t: seq<seq<int>>, s: nat, k: nat)
    requires Spots(cells, t, s, k)
    ensures s < |t| && |t[s]| == k + 1
  {
  }

  /** One element done. */
  lemma LinkStep(cells: seq<seq<Cell>>, pos: seq<int>, ofs: seq<int>, buf: map<int, int>, want: map<int, int>, t: seq<seq<int>>,
                 s: nat, k: nat, adj: int, buf': map<int, int>, y: int, v: int, adj': int)
    requires Linking(cells, pos, ofs, buf, want, t, s, k, adj) && HasCell(cells, s, k)
    requires buf' == buf || (Owns(cells, s, k, y) && buf' == buf[y := v])
    requires CellLinked(buf', cells[s][k], t[s][k], EndEst(cells[s][k]) + adj')
    requires cells[s][k].e.Rel? ==> Spots(cells, AddSpot(t, s, EndEst(cells[s][k]) + adj'), s, k + 1) && Decided(cells, ofs, buf', AddSpot(t, s, EndEst(cells[s][k]) + adj'), s, k)
    ensures Linking(cells, pos, ofs, buf', want, AddSpot(t, s, EndEst(cells[s][k]) + adj'), s, k + 1, adj')
  {
    hide SectionsOk, Spots, LinkedTo, StoredFrom, Wanted, AllDecided, CellLinked, Decided;
    Sizes(cells, pos, ofs, want);
    var u := EndEst(cells[s][k]) + adj';
    SpotsLast(cells, t, s, k);
    LinkedStep(cells, pos, ofs, buf, want, t, s, k, adj, buf', y, v, u);
    DecidedStep(cells, pos, ofs, buf, want, t, s, k, adj, buf', y, v, u);
    EstNext(cells, pos, ofs, want, s, k);
    assert AddSpot(t, s, u)[s][k + 1] == u;
  }

  /** The end of a section is the start of the next. */
  lemma NextSection(cells: seq<seq<Cell>>, pos: seq<int>, ofs: seq<int>, buf: map<int, int>, want: map<int, int>, t: seq<seq<int>>, s: nat, adj: int)
    requires s + 1 < |cells| && Linking(cells, pos, ofs, buf, want, t, s, |cells[s]|, adj)
    ensures Linking(cells, pos, ofs, buf, want, t + [[adj + ofs[s]]], s + 1, 0, adj + ofs[s])
  {
    hide SectionsOk, LinkedTo, AllDecided, Wanted, StoredFrom;
    Sizes(cells, pos, ofs, want);
    var t' := t + [[adj + ofs[s]]];
    SectionLaid(cells, pos, ofs, want, s + 1);
    assert Est(cells, ofs, s + 1, 0) == 0;
    MoreSpots(cells, t, s, adj + ofs[s]);
    LinkedNext(cells, buf, t, t', s);
    DecidedNext(cells, ofs, buf, t, t', s);
    StoredNext(cells, buf, s);
  }

  lemma MoreSpots(cells: seq<seq<Cell>>, t: seq<seq<int>>, s: nat, v: int)
    requires s + 1 < |cells| && Spots(cells, t, s, |cells[s]|) && t[s][|cells[s]|] == v
    ensures Spots(cells, t + [[v]], s + 1, 0) && (t + [[v]])[s + 1][0] == v
  {
  }

  lemma LinkedNext(cells: seq<seq<Cell>>, buf: map<int, int>, t: seq<seq<int>>, t': seq<seq<int>>, s: nat)
    requires s + 1 < |cells| && Spots(cells, t, s, |cells[s]|) && Spots(cells, t', s + 1, 0) && t'[..s + 1] == t && LinkedTo(cells, buf, t, s, |cells[s]|)
    ensures LinkedTo(cells, buf, t', s + 1, 0)
  {
    hide CellLinked;
    forall i: nat, j: nat {:trigger cells[i][j]} | HasCell(cells, i, j) && Before(i, j, s + 1, 0)
      ensures CellLinked(buf, cells[i][j], t'[i][j], t'[i][j + 1])
    {
      assert Before(i, j, s, |cells[s]|) && t'[i] == t'[..s + 1][i];
    }
  }

  lemma StoredNext(cells: seq<seq<Cell>>, buf: map<int, int>, s: nat)
    requires s < |cells| && StoredFrom(cells, buf, s, |cells[s]|)
    ensures StoredFrom(cells, buf, s + 1, 0)
  {
    hide Stored;
  }

  lemma DecidedNext(cells: seq<seq<Cell>>, ofs: seq<int>, buf: map<int, int>, t: seq<seq<int>>, t': seq<seq<int>>, s: nat)
    requires s + 1 < |cells| == |ofs| && Spots(cells, t, s, |cells[s]|) && Spots(cells, t', s + 1, 0) && t'[..s + 1] == t
    requires AllDecided(cells, ofs, buf, t, s, |cells[s]|)
    ensures AllDecided(cells, ofs, buf, t', s + 1, 0)
  {
    hide Decided;
    forall i: nat, j: nat {:trigger cells[i][j]} | HasCell(cells, i, j) && Before(i, j, s + 1, 0) && cells[i][j].e.Rel?
      ensures Decided(cells, ofs, buf, t', i, j)
    {
      assert Before(i, j, s, |cells[s]|) && t'[i] == t'[..s + 1][i];
      DecidedSame(cells, ofs, buf, t, t', i, j);
    }
  }

  lemma DecidedSame(cells: seq<seq<Cell>>, ofs: seq<int>, buf: map<int, int>, t: seq<seq<int>>, t': seq<seq<int>>, i: nat, j: nat)
    requires HasCell(cells, i, j) && |ofs| == |cells| && i < |t| <= |t'| && j + 1 < |t[i]|
    requires forall i' {:trigger t[i']} :: 0 <= i' < i ==> |t[i']| > |cells[i']|
    requires forall i' {:trigger t'[i']} {:trigger t[i']} :: 0 <= i' < |t| ==> t'[i'] == t[i']
    requires Decided(cells, ofs, buf, t, i, j)
    ensures Decided(cells, ofs, buf, t', i, j)
  {
    hide Saving, LastOp, Base;
    forall i': nat, j': nat | IsLabel(cells, i', j', buf[cells[i][j].pos])
      ensures Distance(cells, ofs, t', i, j, i', j') == Distance(cells, ofs, t, i, j, i', j')
    {
    }
  }

  // ---- the end of the pass ---------------------------------------------------------------

  /** All sections have been linked. */
  ghost predicate AllLinked(cells: seq<seq<Cell>>, pos: seq<int>, ofs: seq<int>, buf: map<int, int>, t: seq<seq<int>>) {
    && cells != [] && |cells| == |pos| == |ofs| && Spots(cells, t, |cells| - 1, |cells[|cells| - 1]|)
    && (forall s {:trigger cells[s]} :: 0 <= s < |cells| ==> Laid(cells[s], s, pos[s], ofs[s]) && pos[s] <= SecPos(s + 1))
    && (forall i: nat, j: nat {:trigger cells[i][j]} :: HasCell(cells, i, j) ==>
          CellLinked(buf, cells[i][j], t[i][j], t[i][j + 1]) && (cells[i][j].e.Rel? ==> Decided(cells, ofs, buf, t, i, j)))
  }

  lemma LinkEnd(cells: seq<seq<Cell>>, pos: seq<int>, ofs: seq<int>, buf: map<int, int>, want: map<int, int>, t: seq<seq<int>>, adj: int)
    requires cells != [] && Linking(cells, pos, ofs, buf, want, t, |cells| - 1, |cells[|cells| - 1]|, adj)
    ensures AllLinked(cells, pos, ofs, buf, t)
  {
    hide Laid, SecPos, CellLinked, Decided, Stored;
    forall i: nat, j: nat {:trigger cells[i][j]} | HasCell(cells, i, j)
      ensures Before(i, j, |cells| - 1, |cells[|cells| - 1]|)
    {
    }
  }

  lemma AllShape(cells: seq<seq<Cell>>, pos: seq<int>, ofs: seq<int>, buf: map<int, int>, t: seq<seq<int>>, s: nat)
    requires AllLinked(cells, pos, ofs, buf, t) && s < |cells|
    ensures |t| == |cells| == |ofs| == |pos| && |t[s]| == |cells[s]| + 1 && Laid(cells[s], s, pos[s], ofs[s])
  {
  }

  lemma OneShrinks(cells: seq<seq<Cell>>, pos: seq<int>, ofs: seq<int>, buf: map<int, int>, t: seq<seq<int>>, s: nat, k: nat)
    requires AllLinked(cells, pos, ofs, buf, t) && HasCell(cells, s, k) && |t| == |cells| == |ofs| && |t[s]| == |cells[s]| + 1
    ensures 0 <= t[s][k + 1] - t[s][k] <= Est(cells, ofs, s, k + 1) - Est(cells, ofs, s, k)
  {
    assert CellLinked(buf, cells[s][k], t[s][k], t[s][k + 1]);
    AllShape(cells, pos, ofs, buf, t, s);
    EstAfter(cells, pos, ofs, s, k);
  }

  lemma SectionShrinks(cells: seq<seq<Cell>>, pos: seq<int>, ofs: seq<int>, buf: map<int, int>, t: seq<seq<int>>, s: nat)
    requires AllLinked(cells, pos, ofs, buf, t) && 0 < s < |cells| && |t| == |cells| == |ofs| && |t[s]| == |cells[s]| + 1 && |t[s - 1]| == |cells[s - 1]| + 1
    ensures t[s][0] == t[s - 1][|cells[s - 1]|]
    ensures Base(ofs, s) + Est(cells, ofs, s, 0) == Base(ofs, s - 1) + Est(cells, ofs, s - 1, |cells[s - 1]|)
  {
    AllShape(cells, pos, ofs, buf, t, s);
  }

  /** From element j of section i to element k of section s the code grows, and by no more than
      the estimate. */
  ghost predicate Between(cells: seq<seq<Cell>>, ofs: seq<int>, t: seq<seq<int>>, i: nat, j: nat, s: nat, k: nat) {
    && |t| == |cells| == |ofs| && s < |cells| && i < |cells| && k <= |cells[s]| && j <= |cells[i]|
    && |t[s]| == |cells[s]| + 1 && |t[i]| == |cells[i]| + 1
    && 0 <= t[s][k] - t[i][j] <= Base(ofs, s) + Est(cells, ofs, s, k) - (Base(ofs, i) + Est(cells, ofs, i, j))
  }

  /** Between two places the code never grows beyond the estimate. */
  lemma {:induction false} Shrinks(cells: seq<seq<Cell>>, pos: seq<int>, ofs: seq<int>, buf: map<int, int>, t: seq<seq<int>>, i: nat, j: nat, s: nat, k: nat)
    requires AllLinked(cells, pos, ofs, buf, t) && s < |cells| && k <= |cells[s]| && i <= s && j <= |cells[i]| && (i == s ==> j <= k)
    ensures Between(cells, ofs, t, i, j, s, k)
    decreases s, k
  {
    hide AllLinked, Between;
    AllShape(cells, pos, ofs, buf, t, s);
    if i == s && j == k {
      NoDistance(cells, ofs, t, s, k);
    } else if k > 0 {
      Shrinks(cells, pos, ofs, buf, t, i, j, s, k - 1);
      OneShrinks(cells, pos, ofs, buf, t, s, k - 1);
      LongerBy(cells, ofs, t, i, j, s, k - 1);
    } else {
      AllShape(cells, pos, ofs, buf, t, s - 1);
      Shrinks(cells, pos, ofs, buf, t, i, j, s - 1, |cells[s - 1]|);
      SectionShrinks(cells, pos, ofs, buf, t, s);
      AcrossBy(cells, ofs, t, i, j, s);
    }
  }

  lemma NoDistance(cells: seq<seq<Cell>>, ofs: seq<int>, t: seq<seq<int>>, s: nat, k: nat)
    requires |t| == |cells| == |ofs| && s < |cells| && k <= |cells[s]| && |t[s]| == |cells[s]| + 1
    ensures Between(cells, ofs, t, s, k, s, k)
  {
  }

  lemma LongerBy(cells: seq<seq<Cell>>, ofs: seq<int>, t: seq<seq<int>>, i: nat, j: nat, s: nat, k: nat)
    requires Between(cells, ofs, t, i, j, s, k) && k < |cells[s]|
    requires 0 <= t[s][k + 1] - t[s][k] <= Est(cells, ofs, s, k + 1) - Est(cells, ofs, s, k)
    ensures Between(cells, ofs, t, i, j, s, k + 1)
  {
  }

  lemma AcrossBy(cells: seq<seq<Cell>>, ofs: seq<int>, t: seq<seq<int>>, i: nat, j: nat, s: nat)
    requires 0 < s < |cells| && Between(cells, ofs, t, i, j, s - 1, |cells[s - 1]|) && |t[s]| == |cells[s]| + 1
    requires t[s][0] == t[s - 1][|cells[s - 1]|]
    requires Base(ofs, s) + Est(cells, ofs, s, 0) == Base(ofs, s - 1) + Est(cells, ofs, s - 1, |cells[s - 1]|)
    ensures Between(cells, ofs, t, i, j, s, 0)
  {
  }

  lemma RowsFull(cells: seq<seq<Cell>>, pos: seq<int>, ofs: seq<int>, buf: map<int, int>, t: seq<seq<int>>)
    requires AllLinked(cells, pos, ofs, buf, t)
    ensures |t| == |cells| && forall i {:trigger t[i]} :: 0 <= i < |t| ==> |t[i]| > |cells[i]|
  {
    hide Decided, CellLinked, Laid;
    assert Spots(cells, t, |cells| - 1, |cells[|cells| - 1]|);
  }

  lemma DecidedFor(cells: seq<seq<Cell>>, ofs: seq<int>, buf: map<int, int>, t: seq<seq<int>>, i: nat, j: nat, i': nat, j': nat)
    requires HasCell(cells, i, j) && |ofs| == |cells| == |t| && j + 1 < |t[i]|
    requires forall i' {:trigger t[i']} :: 0 <= i' < |t| ==> |t[i']| > |cells[i']|
    requires Decided(cells, ofs, buf, t, i, j) && buf[cells[i][j].pos + 1] != 0 && IsLabel(cells, i', j', buf[cells[i][j].pos])
    ensures var save := Saving(LastOp(cells[i], j));
            buf[cells[i][j].pos + 1] == save && -128 - save <= Distance(cells, ofs, t, i, j, i', j') <= 127
  {
  }

  lemma CellDone(cells: seq<seq<Cell>>, pos: seq<int>, ofs: seq<int>, buf: map<int, int>, t: seq<seq<int>>, i: nat, j: nat)
    requires AllLinked(cells, pos, ofs, buf, t) && HasCell(cells, i, j)
    ensures i < |t| && j + 1 < |t[i]| && CellLinked(buf, cells[i][j], t[i][j], t[i][j + 1])
    ensures |ofs| == |cells| && (forall i' {:trigger t[i']} :: 0 <= i' < i ==> |t[i']| > |cells[i']|)
    ensures cells[i][j].e.Rel? ==> Decided(cells, ofs, buf, t, i, j)
  {
    hide Decided, CellLinked, Laid;
    RowsFull(cells, pos, ofs, buf, t);
  }

  /** Branch shrinking is sound: a short branch reaches its label. */
  lemma ShortReaches(cells: seq<seq<Cell>>, pos: seq<int>, ofs: seq<int>, buf: map<int, int>, t: seq<seq<int>>, i: nat, j: nat, i': nat, j': nat)
    requires AllLinked(cells, pos, ofs, buf, t) && HasCell(cells, i, j) && cells[i][j].e.Rel?
    requires cells[i][j].pos in buf && cells[i][j].pos + 1 in buf && buf[cells[i][j].pos + 1] != 0
    requires IsLabel(cells, i', j', buf[cells[i][j].pos])
    ensures |t| == |cells| && |t[i]| == |cells[i]| + 1 && |t[i']| == |cells[i']| + 1
    ensures -128 <= t[i'][j'] - t[i][j + 1] <= 127
    ensures buf[cells[i][j].pos + 1] == Saving(LastOp(cells[i], j))
  {
    hide LastOp, Base;
    AllShape(cells, pos, ofs, buf, t, i);
    AllShape(cells, pos, ofs, buf, t, i');
    RowsFull(cells, pos, ofs, buf, t);
    CellDone(cells, pos, ofs, buf, t, i, j);
    hide AllLinked;
    DecidedFor(cells, ofs, buf, t, i, j, i', j');
    hide Decided;
    if Before(i', j', i, j) {
      Shrinks(cells, pos, ofs, buf, t, i', j', i, j);
    } else {
      Shrinks(cells, pos, ofs, buf, t, i, j + 1, i', j');
      EstAfter(cells, pos, ofs, i, j);
    }
  }

  lemma EstAfter(cells: seq<seq<Cell>>, pos: seq<int>, ofs: seq<int>, s: nat, k: nat)
    requires HasCell(cells, s, k) && |ofs| == |cells| == |pos| && Laid(cells[s], s, pos[s], ofs[s])
    ensures Est(cells, ofs, s, k + 1) == EndEst(cells[s][k])
  {
  }

  // ---- labels of references --------------------------------------------------------------

  /** Every reference has a label in the code, or is a marker for an undefined global. */
  ghost predicate LabelsKnown(cells: seq<seq<Cell>>, want: map<int, int>) {
    forall i: nat, j: nat {:trigger cells[i][j]} :: HasCell(cells, i, j) && cells[i][j].e.Rel? ==>
      cells[i][j].pos in want && (want[cells[i][j].pos] < 0 || HasLabel(cells, want[cells[i][j].pos]))
  }

  ghost predicate HasLabel(cells: seq<seq<Cell>>, v: int) {
    exists i: nat, j: nat :: IsLabel(cells, i, j, v)
  }

  lemma ResolvedKnown(cells: seq<seq<Cell>>, h: seq<Event>, want: map<int, int>)
    requires EventsOk(h, cells) && Resolved(want, h) && Positive(h)
    ensures LabelsKnown(cells, want)
  {
    forall s: nat, k: nat {:trigger cells[s][k]} | HasCell(cells, s, k) && cells[s][k].e.Rel?
      ensures cells[s][k].pos in want && (want[cells[s][k].pos] < 0 || HasLabel(cells, want[cells[s][k].pos]))
    {
      var c := cells[s][k];
      assert Ref(c.pos, c.e.name, c.e.kind) in h;
      var i: nat :| i < |h| && h[i] == Ref(c.pos, c.e.name, c.e.kind);
      if Target(h, i) != 0 {
        var j := TargetExists(h, i);
        assert Happened(cells, h[j]);
        var s': nat, k': nat :| IsCell(cells, s', k', h[j]);
        assert IsLabel(cells, s', k', want[c.pos]);
      }
    }
  }

  /** Where the label of the reference at hand is, and what the buffer holds there. */
  lemma LabelBehind(cells: seq<seq<Cell>>, pos: seq<int>, ofs: seq<int>, buf: map<int, int>, want: map<int, int>, t: seq<seq<int>>,
                    s: nat, k: nat, adj: int, i: nat, j: nat, v: int)
    requires Linking(cells, pos, ofs, buf, want, t, s, k, adj) && HasCell(cells, s, k)
    requires IsLabel(cells, i, j, v) && Before(i, j, s, k)
    ensures v in buf && 0 <= v < cells[s][k].pos && i < |t| && j < |t[i]| && buf[v] == t[i][j]
  {
    DefInside(cells, pos, ofs, want, i, j);
    PosOrder(cells, pos, ofs, want, i, j, s, k);
    hide SectionsOk, AllDecided, StoredFrom;
    SecAbove(i);
    assert CellLinked(buf, cells[i][j], t[i][j], t[i][j + 1]);
  }

  lemma LabelAhead(cells: seq<seq<Cell>>, pos: seq<int>, ofs: seq<int>, buf: map<int, int>, want: map<int, int>, t: seq<seq<int>>,
                   s: nat, k: nat, adj: int, i: nat, j: nat, v: int)
    requires Linking(cells, pos, ofs, buf, want, t, s, k, adj) && HasCell(cells, s, k) && cells[s][k].e.Rel?
    requires IsLabel(cells, i, j, v) && !Before(i, j, s, k)
    ensures v in buf && v > cells[s][k].pos && PosSec(v) == i && s <= i && buf[v] == cells[i][j].est
  {
    DefInside(cells, pos, ofs, want, i, j);
    PosOrder(cells, pos, ofs, want, s, k, i, j);
    hide SectionsOk, AllDecided, LinkedTo;
    SecSpan(i, v);
    assert Stored(buf, cells[i][j]);
  }

  /** Positions are in the order of the elements. */
  lemma PosOrder(cells: seq<seq<Cell>>, pos: seq<int>, ofs: seq<int>, want: map<int, int>, i: nat, j: nat, s: nat, k: nat)
    requires SectionsOk(cells, pos, ofs, want) && HasCell(cells, i, j) && HasCell(cells, s, k) && Before(i, j, s, k) && Width(cells[i][j].e) > 0
    ensures cells[i][j].pos < cells[s][k].pos
  {
    SectionLaid(cells, pos, ofs, want, i);
    SectionLaid(cells, pos, ofs, want, s);
    hide SectionsOk, Laid, AllStored, SecPos;
    Bounds(cells[i], i, pos[i], ofs[i], j);
    Bounds(cells[s], s, pos[s], ofs[s], k);
    if i == s {
      Ordered(cells[s], s, pos[s], ofs[s], j, k);
    } else {
      SecMono(i, s);
    }
  }

  lemma DefInside(cells: seq<seq<Cell>>, pos: seq<int>, ofs: seq<int>, want: map<int, int>, i: nat, j: nat)
    requires SectionsOk(cells, pos, ofs, want) && HasCell(cells, i, j) && cells[i][j].e.Def?
    ensures SecPos(i) <= cells[i][j].pos < SecPos(i + 1)
  {
    SectionLaid(cells, pos, ofs, want, i);
    Bounds(cells[i], i, pos[i], ofs[i], j);
  }

  lemma SecSpan(s: nat, v: int)
    requires SecPos(s) <= v < SecPos(s + 1)
    ensures PosSec(v) == s
  {
  }

  /** What a decision for the label found makes of the reference. */
  ghost predicate Decision(cells: seq<seq<Cell>>, ofs: seq<int>, t: seq<seq<int>>, s: nat, k: nat, shrink: int, v: int, i: nat, j: nat)
    requires HasCell(cells, s, k) && |ofs| == |cells| && s < |t| && k < |t[s]|
  {
    && (v < 0 ==> shrink == 0)
    && (v >= 0 ==> IsLabel(cells, i, j, v) && (Before(i, j, s, k) ==> i < |t| && j < |t[i]|)
                   && shrink == var save := Saving(LastOp(cells[s], k)); if -128 - save <= Distance(cells, ofs, t, s, k, i, j) <= 127 then save else 0)
  }

  lemma DecideIt(cells: seq<seq<Cell>>, pos: seq<int>, ofs: seq<int>, buf: map<int, int>, want: map<int, int>, t: seq<seq<int>>,
                 s: nat, k: nat, adj: int, shrink: int, i: nat, j: nat)
    requires Linking(cells, pos, ofs, buf, want, t, s, k, adj) && HasCell(cells, s, k) && cells[s][k].e.Rel? && cells[s][k].pos in buf
    requires |ofs| == |cells| && s < |t| && k < |t[s]| && Decision(cells, ofs, t, s, k, shrink, buf[cells[s][k].pos], i, j)
    ensures var c := cells[s][k];
            var buf', t' := buf[c.pos + 1 := shrink], AddSpot(t, s, EndEst(c) + adj - shrink);
            && CellLinked(buf', c, t[s][k], EndEst(c) + adj - shrink)
            && Spots(cells, t', s, k + 1) && Decided(cells, ofs, buf', t', s, k)
  {
    hide LastOp, Base, LinkedTo, StoredFrom, AllDecided, SectionsOk;
    var c := cells[s][k];
    var t' := AddSpot(t, s, EndEst(c) + adj - shrink);
    assert Spots(cells, t', s, k + 1);
    var v := buf[c.pos];
    forall i': nat, j': nat | IsLabel(cells, i', j', v) ensures v >= 0 && i' == i && j' == j {
      NegativeLabel(cells, pos, ofs, want, i', j');
      CellsApart(cells, pos, ofs, want, i, j, i', j', v);
    }
    if v >= 0 {
      assert Distance(cells, ofs, t', s, k, i, j) == Distance(cells, ofs, t, s, k, i, j);
    }
  }

  /** The step of the link pass for a reference that has been decided on. */
  lemma RelLinked(cells: seq<seq<Cell>>, pos: seq<int>, ofs: seq<int>, buf: map<int, int>, want: map<int, int>, t: seq<seq<int>>,
                  s: nat, k: nat, adj: int, shrink: int, i: nat, j: nat)
    requires Linking(cells, pos, ofs, buf, want, t, s, k, adj) && HasCell(cells, s, k) && cells[s][k].e.Rel? && cells[s][k].pos in buf
    requires |ofs| == |cells| && s < |t| && k < |t[s]| && Decision(cells, ofs, t, s, k, shrink, buf[cells[s][k].pos], i, j)
    ensures var c := cells[s][k];
            Linking(cells, pos, ofs, buf[c.pos + 1 := shrink], want, AddSpot(t, s, EndEst(c) + adj - shrink), s, k + 1, adj - shrink)
  {
    hide Linking, Decision, CellLinked, Spots, Decided;
    DecideIt(cells, pos, ofs, buf, want, t, s, k, adj, shrink, i, j);
    var c := cells[s][k];
    assert EndEst(c) + adj - shrink == EndEst(c) + (adj - shrink);
    LinkStep(cells, pos, ofs, buf, want, t, s, k, adj, buf[c.pos + 1 := shrink], c.pos + 1, shrink, adj - shrink);
  }

  lemma NegativeLabel(cells: seq<seq<Cell>>, pos: seq<int>, ofs: seq<int>, want: map<int, int>, i: nat, j: nat)
    requires SectionsOk(cells, pos, ofs, want) && HasCell(cells, i, j)
    ensures cells[i][j].pos >= 0
  {
    SectionLaid(cells, pos, ofs, want, i);
    Bounds(cells[i], i, pos[i], ofs[i], j);
    SecAbove(i);
  }

  // ---- starting and reading --------------------------------------------------------------

  lemma LinkStart(cells: seq<seq<Cell>>, pos: seq<int>, ofs: seq<int>, want: map<int, int>)
    requires SectionsOk(cells, pos, ofs, want) && cells != [] && LabelsKnown(cells, want)
    ensures Linking(cells, pos, ofs, want, want, [[0]], 0, 0, 0)
  {
    hide Laid, Decided, CellLinked, SecPos;
    SectionLaid(cells, pos, ofs, want, 0);
    assert Est(cells, ofs, 0, 0) == 0 by {
      SectionLaid(cells, pos, ofs, want, 0);
    }
    forall i: nat, j: nat {:trigger cells[i][j]} | HasCell(cells, i, j) ensures Stored(want, cells[i][j]) {
      assert AllStored(want, cells[i]);
    }
    forall i: nat, j: nat {:trigger cells[i][j]} | HasCell(cells, i, j) && cells[i][j].e.Rel?
      ensures cells[i][j].pos in want
    {
      assert Stored(want, cells[i][j]);
    }
  }

  /** Buffer position of element k of a section; k may be the end. */
  ghost function PosAt(cells: seq<seq<Cell>>, pos: seq<int>, s: nat, k: nat): int
    requires s < |cells| == |pos| && k <= |cells[s]|
  {
    if k < |cells[s]| then cells[s][k].pos else pos[s]
  }

  lemma PosNext(cells: seq<seq<Cell>>, pos: seq<int>, ofs: seq<int>, want: map<int, int>, s: nat, k: nat)
    requires SectionsOk(cells, pos, ofs, want) && HasCell(cells, s, k)
    ensures |pos| == |cells| && PosAt(cells, pos, s, k + 1) == EndPos(cells[s][k])
    ensures cells[s][k].e.Start? ==> PosAt(cells, pos, s, k) < pos[s]
  {
    assert Laid(cells[s], s, pos[s], ofs[s]);
    Bounds(cells[s], s, pos[s], ofs[s], k);
  }

  lemma PosStart(cells: seq<seq<Cell>>, pos: seq<int>, ofs: seq<int>, want: map<int, int>, s: nat)
    requires SectionsOk(cells, pos, ofs, want) && s < |cells|
    ensures |pos| == |cells| && PosAt(cells, pos, s, 0) == SecPos(s)
  {
    assert Laid(cells[s], s, pos[s], ofs[s]);
  }

  /** The words of the element at hand. */
  lemma StoredNow(cells: seq<seq<Cell>>, pos: seq<int>, ofs: seq<int>, buf: map<int, int>, want: map<int, int>, t: seq<seq<int>>, s: nat, k: nat, adj: int)
    requires Linking(cells, pos, ofs, buf, want, t, s, k, adj) && HasCell(cells, s, k)
    ensures Stored(buf, cells[s][k]) && |pos| == |ofs| == |cells| && |t| == s + 1 && |t[s]| == k + 1 && t[s][k] == cells[s][k].est + adj
    ensures cells[s][k].e.Rel? ==> cells[s][k].pos in want && buf[cells[s][k].pos] == want[cells[s][k].pos]
    ensures t[s][k] >= 0 && (forall i' {:trigger t[i']} :: 0 <= i' < s ==> |t[i']| > |cells[i']|)
  {
    hide Stored, LinkedTo, AllDecided, Decided;
    assert !Before(s, k, s, k);
    SpotsPositive(cells, pos, ofs, buf, want, t, s, k, adj);
  }

  lemma SpotsPositive(cells: seq<seq<Cell>>, pos: seq<int>, ofs: seq<int>, buf: map<int, int>, want: map<int, int>, t: seq<seq<int>>, s: nat, k: nat, adj: int)
    requires Linking(cells, pos, ofs, buf, want, t, s, k, adj)
    ensures s < |t| && k < |t[s]| && t[s][k] >= 0
  {
    SpotPositive(cells, buf, t, s, k, s, k);
  }

  lemma {:induction false} SpotPositive(cells: seq<seq<Cell>>, buf: map<int, int>, t: seq<seq<int>>, s: nat, k: nat, i: nat, j: nat)
    requires Spots(cells, t, s, k) && LinkedTo(cells, buf, t, s, k) && ((i < s && j <= |cells[i]|) || (i == s && j <= k))
    ensures i < |t| && j < |t[i]| && t[i][j] >= 0
    decreases i, j
  {
    hide LinkedTo;
    if j > 0 {
      SpotPositive(cells, buf, t, s, k, i, j - 1);
      SpotGrows(cells, buf, t, s, k, i, j - 1);
    } else if i > 0 {
      SpotPositive(cells, buf, t, s, k, i - 1, |cells[i - 1]|);
    }
  }

  lemma SpotGrows(cells: seq<seq<Cell>>, buf: map<int, int>, t: seq<seq<int>>, s: nat, k: nat, i: nat, j: nat)
    requires Spots(cells, t, s, k) && LinkedTo(cells, buf, t, s, k) && HasCell(cells, i, j) && Before(i, j, s, k)
    ensures i < |t| && j + 1 < |t[i]| && t[i][j] <= t[i][j + 1]
  {
    assert CellLinked(buf, cells[i][j], t[i][j], t[i][j + 1]);
  }

  /** The label cell of a reference, if it has one. */
  lemma LabelFor(cells: seq<seq<Cell>>, want: map<int, int>, s: nat, k: nat) returns (i: nat, j: nat)
    requires LabelsKnown(cells, want) && HasCell(cells, s, k) && cells[s][k].e.Rel?
    ensures cells[s][k].pos in want && (want[cells[s][k].pos] >= 0 ==> IsLabel(cells, i, j, want[cells[s][k].pos]))
  {
    var v := want[cells[s][k].pos];
    i, j := 0, 0;
    if v >= 0 {
      assert HasLabel(cells, v);
      var i': nat, j': nat :| IsLabel(cells, i', j', v);
      i, j := i', j';
    }
  }

  lemma LabelIn(cells: seq<seq<Cell>>, i: nat, j: nat, v: int)
    requires IsLabel(cells, i, j, v)
    ensures HasCell(cells, i, j)
  {
  }

  /** Distance, where it makes sense. */
  ghost function DistanceOf(cells: seq<seq<Cell>>, ofs: seq<int>, t: seq<seq<int>>, s: nat, k: nat, i: nat, j: nat): int {
    if HasCell(cells, s, k) && HasCell(cells, i, j) && |ofs| == |cells| && s < |t| && k < |t[s]| && (Before(i, j, s, k) ==> i < |t| && j < |t[i]|)
    then Distance(cells, ofs, t, s, k, i, j) else 0
  }

  lemma Chosen(cells: seq<seq<Cell>>, ofs: seq<int>, t: seq<seq<int>>, s: nat, k: nat, shrink: int, v: int, i: nat, j: nat)
    requires HasCell(cells, s, k) && |ofs| == |cells| && s < |t| && k < |t[s]|
    requires v < 0 ==> shrink == 0
    requires v >= 0 ==> IsLabel(cells, i, j, v)
    requires v >= 0 ==> shrink == var save := Saving(LastOp(cells[s], k)); if save != 0 && -128 - save <= DistanceOf(cells, ofs, t, s, k, i, j) <= 127 then save else 0
    requires |t| == s + 1 && |t[s]| == k + 1 && (forall i' {:trigger t[i']} :: 0 <= i' < s ==> |t[i']| > |cells[i']|)
    ensures Decision(cells, ofs, t, s, k, shrink, v, i, j)
  {
  }

  /** Elements of fixed size need no work. */
  lemma StoredLinked(buf: map<int, int>, c: Cell, t: int, adj: int)
    requires Stored(buf, c) && t == c.est + adj && !c.e.Rel? && !c.e.Def? && !c.e.Align?
    ensures CellLinked(buf, c, t, EndEst(c) + adj)
  {
  }

  lemma DefLinked(buf: map<int, int>, c: Cell, t: int, adj: int)
    requires Stored(buf, c) && t == c.est + adj && c.e.Def?
    ensures c.pos in buf && CellLinked(buf[c.pos := buf[c.pos] + adj], c, t, EndEst(c) + adj) && Fixed(c, c.pos)
  {
  }

  lemma AlignLinked(buf: map<int, int>, c: Cell, t: int, adj: int, adj': int)
    requires Stored(buf, c) && t == c.est + adj && c.e.Align? && c.pos in buf && adj' == adj - And(buf[c.pos] + adj, c.e.mask)
    ensures CellLinked(buf, c, t, EndEst(c) + adj')
  {
    ClearLow(t + c.e.mask, c.e.mask);
  }

  /** The words of references still mean what they did. */
  lemma StillResolved(cells: seq<seq<Cell>>, h: seq<Event>, buf: map<int, int>, want: map<int, int>)
    requires EventsOk(h, cells) && Resolved(want, h) && Wanted(cells, buf, want)
    ensures Resolved(buf, h)
  {
    forall i: nat {:trigger h[i]} | i < |h| && h[i].Ref?
      ensures h[i].pos in buf && buf[h[i].pos] == Meaning(h, i) && (Target(h, i) == 0 ==> h[i].x.Lg? && h[i].x.n >= 10 && h[i].kind == Other)
    {
      assert Happened(cells, h[i]);
      var s: nat, k: nat :| IsCell(cells, s, k, h[i]);
      assert cells[s][k].e.Rel?;
    }
  }

  /** The state the second pass leaves. */
  ghost predicate LinkedState(act: seq<nat>, cells: seq<seq<Cell>>, pos: seq<int>, ofs: seq<int>, buf: map<int, int>, h: seq<Event>, t: seq<seq<int>>) {
    && AllLinked(cells, pos, ofs, buf, t) && EventsOk(h, cells) && Resolved(buf, h) && Positive(h) && Bytes(act)
    && forall s {:trigger cells[s]} :: 0 <= s < |cells| ==> Parsed(act, cells[s])
  }

  lemma FollowsStep(act: seq<nat>, p: nat, cs: seq<Cell>, k: nat)
    requires k <= |cs| && Follows(act, p, cs, k) && !Ends(Decode(act, p))
    ensures k < |cs| && !cs[k].e.Start? && Fits(Decode(act, p), cs[k].e) && p < |act| && Follows(act, p + Length(Decode(act, p)), cs, k + 1)
  {
  }

  lemma FollowsEnd(act: seq<nat>, p: nat, cs: seq<Cell>, k: nat)
    requires k <= |cs| && Follows(act, p, cs, k) && Ends(Decode(act, p))
    ensures k == |cs| || cs[k].e.Start?
  {
  }

  /** The code offset behind the last element. */
  ghost function CodeEnd(cells: seq<seq<Cell>>, t: seq<seq<int>>): int {
    if cells != [] && |t| == |cells| && |t[|t| - 1]| == |cells[|cells| - 1]| + 1 then t[|t| - 1][|cells[|cells| - 1]|] else 0
  }

  lemma LinkedSize(cells: seq<seq<Cell>>, pos: seq<int>, ofs: seq<int>, buf: map<int, int>, want: map<int, int>, t: seq<seq<int>>, adj: int)
    requires cells != [] && Linking(cells, pos, ofs, buf, want, t, |cells| - 1, |cells[|cells| - 1]|, adj)
    ensures |ofs| == |cells| && CodeEnd(cells, t) == ofs[|cells| - 1] + adj && Wanted(cells, buf, want)
  {
    hide LinkedTo, StoredFrom, AllDecided, SectionsOk;
    Sizes(cells, pos, ofs, want);
  }

  lemma ParsedStart(act: seq<nat>, cs: seq<Cell>)
    requires Parsed(act, cs)
    ensures cs == [] || cs[0].e.Start?
  {
  }
}
