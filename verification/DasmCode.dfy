/** Pass 3 of DynASM (dasm_x86.h): what the bytes are, and what the processor reads in them. */
module DasmCode {
  import opened DasmActions
  import opened DasmLabels
  import opened DasmCells
  import opened DasmLink

  // ---- little-endian numbers ---------------------------------------------------------------

  /** How many numbers there are of 1, 2 or 4 bytes. */
  function Numbers(size: nat): int {
    if size == 1 then 0x100 else if size == 2 then 0x1_0000 else 0x1_0000_0000
  }

  /** What the processor reads in 1, 2 or 4 bytes, unsigned and signed. */
  function Unsigned(b: seq<nat>): nat
    requires |b| == 1 || |b| == 2 || |b| == 4
  {
    if |b| == 1 then b[0]
    else if |b| == 2 then b[0] + 0x100 * b[1]
    else b[0] + 0x100 * b[1] + 0x1_0000 * b[2] + 0x100_0000 * b[3]
  }

  function Signed(b: seq<nat>): int
    requires |b| == 1 || |b| == 2 || |b| == 4
  {
    if Unsigned(b) < Numbers(|b|) / 2 then Unsigned(b) else Unsigned(b) - Numbers(|b|)
  }

  /** The bytes b hold v, as far as it has room. */
  ghost predicate Reads(b: seq<nat>, v: int) {
    && (|b| == 1 || |b| == 2 || |b| == 4) && (forall i {:trigger b[i]} :: 0 <= i < |b| ==> b[i] < 256)
    && Unsigned(b) == v % Numbers(|b|)
  }

  /** Both readings give back every value they have room for. */
  lemma ReadsBack(b: seq<nat>, v: int)
    requires Reads(b, v)
    ensures 0 <= v < Numbers(|b|) ==> Unsigned(b) == v
    ensures -Numbers(|b|) / 2 <= v < Numbers(|b|) / 2 ==> Signed(b) == v
  {
  }

  /** The size low bytes of n, lowest first, as dasmb, dasmw and dasmd write them. */
  function LE(n: int, size: nat): (r: seq<nat>)
    ensures |r| == size
    decreases size
  {
    if size == 0 then [] else [n % 256] + LE(n / 256, size - 1)
  }

  lemma LittleEndian(n: int, size: nat)
    requires size == 1 || size == 2 || size == 4
    ensures Reads(LE(n, size), n)
  {
    var a, b, c := n / 256, n / 256 / 256, n / 256 / 256 / 256;
    LowBytes(n, a, b, c);
    assert LE(c, 1) == [c % 256] + LE(c / 256, 0) && LE(a, 1) == [a % 256] + LE(b, 0) && LE(n, 1) == [n % 256] + LE(a, 0);
    assert LE(b, 2) == [b % 256] + LE(c, 1) && LE(n, 2) == [n % 256] + LE(a, 1) && LE(a, 3) == [a % 256] + LE(b, 2);
    assert LE(n, 4) == [n % 256] + LE(a, 3);
    hide LE;
  }

  lemma LowBytes(n: int, a: int, b: int, c: int)
    requires a == n / 256 && b == a / 256 && c == b / 256
    ensures n % 256 + 0x100 * (a % 256) == n % 0x1_0000
    ensures n % 256 + 0x100 * (a % 256) + 0x1_0000 * (b % 256) + 0x100_0000 * (c % 256) == n % 0x1_0000_0000
  {
    var w, x, y, z, d := n % 256, a % 256, b % 256, c % 256, c / 256;
    FromBytes(n, a, b, c, d, w, x, y, z);
  }

  lemma FromBytes(n: int, a: int, b: int, c: int, d: int, w: int, x: int, y: int, z: int)
    requires n == 256 * a + w && a == 256 * b + x && b == 256 * c + y && c == 256 * d + z
    requires 0 <= w < 256 && 0 <= x < 256 && 0 <= y < 256 && 0 <= z < 256
    ensures n % 0x1_0000 == w + 0x100 * x
    ensures n % 0x1_0000_0000 == w + 0x100 * x + 0x1_0000 * y + 0x100_0000 * z
  {
    Remainder16(n, b, w + 0x100 * x);
    Remainder32(n, d, w + 0x100 * x + 0x1_0000 * y + 0x100_0000 * z);
  }

  lemma Remainder16(n: int, q: int, r: int)
    requires n == 0x1_0000 * q + r && 0 <= r < 0x1_0000
    ensures n % 0x1_0000 == r
  {
  }

  lemma Remainder32(n: int, q: int, r: int)
    requires n == 0x1_0000_0000 * q + r && 0 <= r < 0x1_0000_0000
    ensures n % 0x1_0000_0000 == r
  {
  }

  predicate IsByte(c: Cell, v: nat) {
    c.e == Raw(v) || c.e == Esc(v)
  }

  /** The byte an element is, or -1. */
  function ByteOf(c: Cell): int {
    match c.e
    case Raw(v) => v
    case Esc(v) => v
    case _ => -1
  }

  /** Element k is a short branch. */
  ghost predicate ShortAt(buf: map<int, int>, cs: seq<Cell>, k: nat) {
    k < |cs| && cs[k].e.Rel? && cs[k].pos + 1 in buf && buf[cs[k].pos + 1] != 0
  }

  /** Element k is the opcode, or the prefix, of a short branch. */
  ghost predicate Rewritten(buf: map<int, int>, cs: seq<Cell>, k: nat) {
    ShortAt(buf, cs, k + 1) || (ShortAt(buf, cs, k + 2) && buf[cs[k + 2].pos + 1] == 4)
  }

  /** Where a reference leads, counted from the start of the code. */
  ghost function Aim(buf: map<int, int>, globs: seq<int>, base: int, c: Cell): int {
    if c.pos !in buf then 0
    else if buf[c.pos] >= 0 then (if buf[c.pos] in buf then buf[buf[c.pos]] else 0)
    else if 0 <= -buf[c.pos] - 10 < |globs| then globs[-buf[c.pos] - 10] - base
    else 0
  }

  ghost predicate Filled(code: seq<nat>, t: int, u: int, v: nat) {
    0 <= t && u <= |code| && forall x {:trigger code[x]} :: t <= x < u ==> code[x] == v
  }

  /** The bytes from t to u are those of element k. */
  ghost predicate Encoded(code: seq<nat>, cs: seq<Cell>, k: nat, buf: map<int, int>, globs: seq<int>, base: int, t: int, u: int)
    requires k < |cs|
  {
    var c := cs[k];
    && 0 <= t <= u <= |code|
    && match c.e
       case Start(_) => true
       case Def(_) => true
       case Raw(v) => !Rewritten(buf, cs, k) ==> Filled(code, t, u, v)
       case Esc(v) => !Rewritten(buf, cs, k) ==> Filled(code, t, u, v)
       case Imm(size, v) => u == t + size && Reads(code[t..u], v)
       case Space(fill, _) => Filled(code, t, u, fill)
       case Align(_) => Filled(code, t, u, 0x90)
       case Rel(_, _) =>
         if ShortAt(buf, cs, k) then
           && u >= 2 && code[u - 1] == (Aim(buf, globs, base, c) - u) % 256
           && code[u - 2] == if buf[c.pos + 1] == 3 then 0xEB else (LastOp(cs, k) - 0x10) % 256
         else u == t + 4 && Reads(code[t..u], Aim(buf, globs, base, c) - u)
  }

  /** Bytes from u on do not matter. */
  lemma EncodedFrame(code: seq<nat>, code': seq<nat>, cs: seq<Cell>, k: nat, buf: map<int, int>, globs: seq<int>, base: int, t: int, u: int)
    requires k < |cs| && Encoded(code, cs, k, buf, globs, base, t, u)
    requires u <= |code'| && forall x {:trigger code'[x]} :: 0 <= x < u ==> code'[x] == code[x]
    ensures Encoded(code', cs, k, buf, globs, base, t, u)
  {
    hide LastOp, Aim, ShortAt, Rewritten, Reads;
    assert code'[..u] == code[..u];
    assert code'[t..u] == code'[..u][t..] && code[t..u] == code[..u][t..];
  }

  // ---- opcodes ---------------------------------------------------------------------------

  /** op, pre and near describe the bytes before element k, as for Wf. */
  ghost predicate OpsAt(cs: seq<Cell>, k: nat, op: nat, pre: nat, near: bool) {
    && k <= |cs| && op == LastOp(cs, k)
    && (near ==> k >= 1 && IsByte(cs[k - 1], op))
    && (near && pre != 0 ==> k >= 2 && IsByte(cs[k - 2], pre))
  }

  /** A branch with a short form has its opcode right before it. */
  ghost predicate OpcodeThere(cs: seq<Cell>, k: nat) {
    && k < |cs|
    && (LastOp(cs, k) == 0xE9 ==> k >= 1 && IsByte(cs[k - 1], 0xE9))
    && (0x80 <= LastOp(cs, k) < 0x90 ==> k >= 2 && IsByte(cs[k - 1], LastOp(cs, k)) && IsByte(cs[k - 2], 0x0F))
  }

  lemma {:induction false} OpcodesFrom(act: seq<nat>, q: nat, cs: seq<Cell>, k: nat, j: nat, op: nat, pre: nat, near: bool)
    requires k <= j < |cs| && Follows(act, q, cs, k) && Wf(act, q, op, pre, near) && OpsAt(cs, k, op, pre, near)
    requires cs[j].e.Rel? && forall i {:trigger cs[i]} :: k <= i <= j ==> !cs[i].e.Start?
    ensures OpcodeThere(cs, j)
    decreases j - k
  {
    WfStep(act, q, op, pre, near);
    var a := Decode(act, q);
    assert !Ends(a) && Fits(a, cs[k].e);
    if k < j {
      var x := NextOp(act, q, op, pre, near);
      assert OpsAt(cs, k + 1, x.0, x.1, x.2);
      OpcodesFrom(act, q + Length(a), cs, k + 1, j, x.0, x.1, x.2);
    }
  }

  /** The start of the put of element j. */
  lemma {:induction false} PutOf(cs: seq<Cell>, j: nat) returns (i: nat)
    requires j < |cs| && cs[0].e.Start?
    ensures i <= j && cs[i].e.Start? && forall m {:trigger cs[m]} :: i < m <= j ==> !cs[m].e.Start?
  {
    if cs[j].e.Start? {
      i := j;
    } else {
      i := PutOf(cs, j - 1);
    }
  }

  lemma Opcodes(act: seq<nat>, cs: seq<Cell>, j: nat)
    requires Parsed(act, cs) && j < |cs| && cs[j].e.Rel?
    ensures OpcodeThere(cs, j)
  {
    var i := PutOf(cs, j);
    hide Wf, Follows;
    assert Wf(act, cs[i].e.p, 0, 0, false) && Follows(act, cs[i].e.p, cs, i + 1);
    OpcodesFrom(act, cs[i].e.p, cs, i + 1, j, 0, 0, false);
  }

  // ---- the third pass --------------------------------------------------------------------

  /** The bytes of element j of section i are at its spot. */
  ghost predicate EncodedAt(code: seq<nat>, cells: seq<seq<Cell>>, buf: map<int, int>, globs: seq<int>, base: int, t: seq<seq<int>>, i: nat, j: nat) {
    HasCell(cells, i, j) && i < |t| && j + 1 < |t[i]| && Encoded(code, cells[i], j, buf, globs, base, t[i][j], t[i][j + 1])
  }

  /** All elements before k of section s are in the code. */
  ghost predicate EncodedTo(code: seq<nat>, cells: seq<seq<Cell>>, buf: map<int, int>, globs: seq<int>, base: int, t: seq<seq<int>>, s: nat, k: nat) {
    && |t| == |cells| && s < |cells| && k <= |cells[s]| && (forall i {:trigger t[i]} :: 0 <= i < |t| ==> |t[i]| == |cells[i]| + 1)
    && |code| == t[s][k]
    && (forall i: nat, j: nat {:trigger EncodedAt(code, cells, buf, globs, base, t, i, j)} :: HasCell(cells, i, j) && Before(i, j, s, k) ==>
          EncodedAt(code, cells, buf, globs, base, t, i, j))
    && (k > 0 && ByteOf(cells[s][k - 1]) >= 0 ==> |code| > 0 && code[|code| - 1] == ByteOf(cells[s][k - 1]))
  }

  /** With n bytes written, element k keeps those before low: a short branch rewrites its opcode. */
  ghost predicate Keeps(cs: seq<Cell>, k: nat, buf: map<int, int>, n: int, low: int) {
    low == n || (low >= 0 && OpcodeThere(cs, k) && cs[k].e.Rel? && ShortAt(buf, cs, k) && buf[cs[k].pos + 1] == Saving(LastOp(cs, k)) == n - low + 2)
  }

  lemma EncodeStep(cells: seq<seq<Cell>>, pos: seq<int>, ofs: seq<int>, buf: map<int, int>, globs: seq<int>, base: int, t: seq<seq<int>>,
                   s: nat, k: nat, code: seq<nat>, code': seq<nat>, low: int)
    requires AllLinked(cells, pos, ofs, buf, t) && EncodedTo(code, cells, buf, globs, base, t, s, k) && HasCell(cells, s, k)
    requires |code'| == t[s][k + 1] && Keeps(cells[s], k, buf, |code|, low) && 0 <= low <= |code'| && code'[..low] == code[..low]
    requires Encoded(code', cells[s], k, buf, globs, base, t[s][k], t[s][k + 1])
    requires ByteOf(cells[s][k]) >= 0 ==> |code'| > 0 && code'[|code'| - 1] == ByteOf(cells[s][k])
    ensures EncodedTo(code', cells, buf, globs, base, t, s, k + 1)
  {
    hide AllLinked, Encoded, Keeps;
    forall i: nat, j: nat | HasCell(cells, i, j) && Before(i, j, s, k + 1)
      ensures EncodedAt(code', cells, buf, globs, base, t, i, j)
    {
      if i != s || j != k {
        assert EncodedAt(code, cells, buf, globs, base, t, i, j);
        EarlierCell(cells, pos, ofs, buf, globs, base, t, s, k, code, code', low, i, j);
      }
    }
  }

  lemma EarlierCell(cells: seq<seq<Cell>>, pos: seq<int>, ofs: seq<int>, buf: map<int, int>, globs: seq<int>, base: int, t: seq<seq<int>>,
                    s: nat, k: nat, code: seq<nat>, code': seq<nat>, low: int, i: nat, j: nat)
    requires AllLinked(cells, pos, ofs, buf, t) && |t| == |cells| && HasCell(cells, s, k) && HasCell(cells, i, j) && Before(i, j, s, k)
    requires |t[i]| == |cells[i]| + 1 && |t[s]| == |cells[s]| + 1 && |code| == t[s][k]
    requires Encoded(code, cells[i], j, buf, globs, base, t[i][j], t[i][j + 1])
    requires |code'| == t[s][k + 1] && Keeps(cells[s], k, buf, |code|, low) && 0 <= low <= |code'| && code'[..low] == code[..low]
    ensures Encoded(code', cells[i], j, buf, globs, base, t[i][j], t[i][j + 1])
  {
    hide LastOp, AllLinked, Between, Encoded;
    assert forall x {:trigger code'[x]} :: 0 <= x < low ==> code'[x] == code'[..low][x] == code[x];
    if low == |code| {
      EncodedEnd(code, cells[i], j, buf, globs, base, t[i][j], t[i][j + 1]);
      EncodedFrame(code, code', cells[i], j, buf, globs, base, t[i][j], t[i][j + 1]);
    } else {
      var n := |code| - low;
      BytesBefore(cells, pos, ofs, buf, t, s, k, n);
      if i == s && j + n >= k {
        RewrittenCell(cells[s], j, k, code, code', buf, globs, base, t[s][j], t[s][j + 1], n);
      } else {
        Shrinks(cells, pos, ofs, buf, t, i, j + 1, s, k - n);
        BetweenUp(cells, ofs, t, i, j + 1, s, k - n);
        EncodedFrame(code, code', cells[i], j, buf, globs, base, t[i][j], t[i][j + 1]);
      }
    }
  }

  lemma EncodedEnd(code: seq<nat>, cs: seq<Cell>, k: nat, buf: map<int, int>, globs: seq<int>, base: int, t: int, u: int)
    requires k < |cs| && Encoded(code, cs, k, buf, globs, base, t, u)
    ensures 0 <= t <= u <= |code|
  {
  }

  lemma BetweenUp(cells: seq<seq<Cell>>, ofs: seq<int>, t: seq<seq<int>>, i: nat, j: nat, s: nat, k: nat)
    requires Between(cells, ofs, t, i, j, s, k)
    ensures s < |t| && k < |t[s]| && i < |t| && j < |t[i]| && t[i][j] <= t[s][k]
  {
  }

  /** The n opcode bytes before a short branch take n places, and the branch takes 2 - n more. */
  lemma BytesBefore(cells: seq<seq<Cell>>, pos: seq<int>, ofs: seq<int>, buf: map<int, int>, t: seq<seq<int>>, s: nat, k: nat, n: nat)
    requires AllLinked(cells, pos, ofs, buf, t) && HasCell(cells, s, k) && cells[s][k].e.Rel? && OpcodeThere(cells[s], k)
    requires ShortAt(buf, cells[s], k) && buf[cells[s][k].pos + 1] == Saving(LastOp(cells[s], k)) == n + 2
    ensures (n == 1 || n == 2) && k >= n && s < |t| && k + 1 < |t[s]| && t[s][k - n] == t[s][k] - n && t[s][k + 1] == t[s][k] + 2 - n
    ensures forall m {:trigger t[s][m]} :: k - n <= m < k ==> t[s][m + 1] == t[s][m] + 1
    ensures forall m {:trigger cells[s][m]} :: k - n <= m < k ==> cells[s][m].e.Raw? || cells[s][m].e.Esc?
  {
    hide LastOp, AllLinked, Decided;
    CellDone(cells, pos, ofs, buf, t, s, k);
    CellDone(cells, pos, ofs, buf, t, s, k - 1);
    if n == 2 {
      CellDone(cells, pos, ofs, buf, t, s, k - 2);
    }
  }

  lemma RewrittenCell(cs: seq<Cell>, j: nat, k: nat, code: seq<nat>, code': seq<nat>, buf: map<int, int>, globs: seq<int>, base: int, t: int, u: int, n: nat)
    requires j < k < |cs| && j + n >= k && (n == 1 || n == 2) && ShortAt(buf, cs, k) && buf[cs[k].pos + 1] == n + 2
    requires cs[j].e.Raw? || cs[j].e.Esc?
    requires Encoded(code, cs, j, buf, globs, base, t, u) && u <= |code'|
    ensures Encoded(code', cs, j, buf, globs, base, t, u)
  {
    assert k == j + 1 || k == j + 2;
    assert Rewritten(buf, cs, j);
  }

  // ---- elements written ------------------------------------------------------------------

  /** An element of fixed size: more bytes at the end. */
  lemma AppendEncoded(code: seq<nat>, more: seq<nat>, cs: seq<Cell>, k: nat, buf: map<int, int>, globs: seq<int>, base: int, t: int, u: int)
    requires k < |cs| && |code| == t && t + |more| == u
    requires match cs[k].e
             case Start(_) => true
             case Def(_) => true
             case Raw(v) => more == [v]
             case Esc(v) => more == [v]
             case Imm(size, v) => |more| == size && Reads(more, v)
             case Space(fill, _) => forall x {:trigger more[x]} :: 0 <= x < |more| ==> more[x] == fill
             case Align(_) => forall x {:trigger more[x]} :: 0 <= x < |more| ==> more[x] == 0x90
             case Rel(_, _) => !ShortAt(buf, cs, k) && |more| == 4 && Reads(more, Aim(buf, globs, base, cs[k]) - u)
    ensures Encoded(code + more, cs, k, buf, globs, base, t, u)
  {
    hide LastOp, Rewritten, Aim, Reads;
    assert (code + more)[t..u] == more;
    assert forall x {:trigger (code + more)[x]} :: t <= x < u ==> (code + more)[x] == more[x - t];
  }

  /** A short branch: the opcode is rewritten and one byte of displacement follows. */
  lemma ShortEncoded(code: seq<nat>, code': seq<nat>, cs: seq<Cell>, k: nat, buf: map<int, int>, globs: seq<int>, base: int, t: int, u: int, low: int)
    requires k < |cs| && cs[k].e.Rel? && ShortAt(buf, cs, k) && |code| == t && OpcodeThere(cs, k)
    requires buf[cs[k].pos + 1] == Saving(LastOp(cs, k)) == t - low + 2 && u == t + 4 - buf[cs[k].pos + 1] && low >= 0
    requires code' == code[..low] + [if buf[cs[k].pos + 1] == 3 then 0xEB else (LastOp(cs, k) - 0x10) % 256, (Aim(buf, globs, base, cs[k]) - u) % 256]
    ensures |code'| == u && Keeps(cs, k, buf, |code|, low) && code'[..low] == code[..low] && Encoded(code', cs, k, buf, globs, base, t, u)
  {
    hide LastOp, Rewritten, Aim;
  }

  // ---- globals -------------------------------------------------------------------------

  /** Global m is defined by an element before k of section s, at address v. */
  ghost predicate GlobalDef(cells: seq<seq<Cell>>, base: int, t: seq<seq<int>>, s: nat, k: nat, m: nat, v: int) {
    exists i: nat, j: nat :: DefAt(cells, base, t, s, k, m, v, i, j)
  }

  ghost predicate DefAt(cells: seq<seq<Cell>>, base: int, t: seq<seq<int>>, s: nat, k: nat, m: nat, v: int, i: nat, j: nat) {
    IsDef(cells, m, i, j) && Before(i, j, s, k) && i < |t| && j < |t[i]| && v == base + t[i][j]
  }

  ghost predicate IsDef(cells: seq<seq<Cell>>, m: nat, i: nat, j: nat) {
    HasCell(cells, i, j) && cells[i][j].e == Def(Lg(m + 10))
  }

  /** Globals defined so far have their addresses, others are as before. */
  ghost predicate GlobalsTo(cells: seq<seq<Cell>>, globs0: seq<int>, globs: seq<int>, base: int, t: seq<seq<int>>, s: nat, k: nat) {
    && |globs| == |globs0|
    && forall m: nat {:trigger globs[m]} :: m < |globs| ==>
         || GlobalDef(cells, base, t, s, k, m, globs[m])
         || (globs[m] == globs0[m] && forall i: nat, j: nat {:trigger IsDef(cells, m, i, j)} :: Before(i, j, s, k) ==> !IsDef(cells, m, i, j))
  }

  lemma GlobalsStep(cells: seq<seq<Cell>>, globs0: seq<int>, globs: seq<int>, globs': seq<int>, base: int, t: seq<seq<int>>, s: nat, k: nat)
    requires GlobalsTo(cells, globs0, globs, base, t, s, k) && HasCell(cells, s, k) && s < |t| && k < |t[s]|
    requires match cells[s][k].e
             case Def(x) => (if x.Lg? && x.n >= 10 then x.n - 10 < |globs| && globs' == globs[x.n - 10 := base + t[s][k]] else globs' == globs)
             case _ => globs' == globs
    ensures GlobalsTo(cells, globs0, globs', base, t, s, k + 1)
  {
    forall m: nat {:trigger globs'[m]} | m < |globs'|
      ensures || GlobalDef(cells, base, t, s, k + 1, m, globs'[m])
              || (globs'[m] == globs0[m] && forall i: nat, j: nat {:trigger IsDef(cells, m, i, j)} :: Before(i, j, s, k + 1) ==> !IsDef(cells, m, i, j))
    {
      if IsDef(cells, m, s, k) {
        assert DefAt(cells, base, t, s, k + 1, m, globs'[m], s, k);
      } else {
        assert globs'[m] == globs[m];
        if GlobalDef(cells, base, t, s, k, m, globs[m]) {
          var i: nat, j: nat :| DefAt(cells, base, t, s, k, m, globs[m], i, j);
          assert DefAt(cells, base, t, s, k + 1, m, globs'[m], i, j);
        }
      }
    }
  }

  lemma GlobalsSection(cells: seq<seq<Cell>>, globs0: seq<int>, globs: seq<int>, base: int, t: seq<seq<int>>, s: nat)
    requires s < |cells| && GlobalsTo(cells, globs0, globs, base, t, s, |cells[s]|)
    ensures GlobalsTo(cells, globs0, globs, base, t, s + 1, 0)
  {
    forall m: nat {:trigger globs[m]} | m < |globs|
      ensures || GlobalDef(cells, base, t, s + 1, 0, m, globs[m])
              || (globs[m] == globs0[m] && forall i: nat, j: nat {:trigger IsDef(cells, m, i, j)} :: Before(i, j, s + 1, 0) ==> !IsDef(cells, m, i, j))
    {
      if GlobalDef(cells, base, t, s, |cells[s]|, m, globs[m]) {
        var i: nat, j: nat :| DefAt(cells, base, t, s, |cells[s]|, m, globs[m], i, j);
        assert DefAt(cells, base, t, s + 1, 0, m, globs[m], i, j);
      }
    }
  }

  /** This code does not define global m. */
  ghost predicate Foreign(cells: seq<seq<Cell>>, m: nat) {
    forall i: nat, j: nat {:trigger IsDef(cells, m, i, j)} :: !IsDef(cells, m, i, j)
  }

  lemma RefEvent(cells: seq<seq<Cell>>, h: seq<Event>, s: nat, k: nat) returns (r: nat)
    requires EventsOk(h, cells) && HasCell(cells, s, k) && cells[s][k].e.Rel?
    ensures r < |h| && h[r] == Ref(cells[s][k].pos, cells[s][k].e.name, cells[s][k].e.kind)
  {
    var c := cells[s][k];
    assert Ref(c.pos, c.e.name, c.e.kind) in h;
    r :| r < |h| && h[r] == Ref(c.pos, c.e.name, c.e.kind);
  }

  lemma DefEvent(cells: seq<seq<Cell>>, h: seq<Event>, s: nat, k: nat) returns (r: nat)
    requires EventsOk(h, cells) && HasCell(cells, s, k) && cells[s][k].e.Def?
    ensures r < |h| && h[r] == Defined(cells[s][k].pos, cells[s][k].e.name)
  {
    var c := cells[s][k];
    assert Defined(c.pos, c.e.name) in h;
    r :| r < |h| && h[r] == Defined(c.pos, c.e.name);
  }

  /** A negative word is the marker of a global that this code does not define. */
  lemma ExternalRef(cells: seq<seq<Cell>>, h: seq<Event>, buf: map<int, int>, s: nat, k: nat) returns (r: nat)
    requires EventsOk(h, cells) && Resolved(buf, h) && Positive(h) && HasCell(cells, s, k) && cells[s][k].e.Rel?
    ensures cells[s][k].pos in buf && r < |h| && h[r].x == cells[s][k].e.name
    ensures var x := cells[s][k].e.name;
            buf[cells[s][k].pos] < 0 ==> x.Lg? && x.n >= 10 && buf[cells[s][k].pos] == Marker(x.n) && Foreign(cells, x.n - 10)
  {
    r := RefEvent(cells, h, s, k);
    var x := cells[s][k].e.name;
    hide EventsOk, Target, LastDef, NextDef;
    TargetPositive(h, r);
    if Target(h, r) == 0 {
      var m: nat := x.n - 10;
      forall i: nat, j: nat ensures !IsDef(cells, m, i, j) {
        if IsDef(cells, m, i, j) {
          var d := DefEvent(cells, h, i, j);
          DefinedMeant(h, r, d);
        }
      }
    }
  }

  lemma TargetPositive(h: seq<Event>, r: nat)
    requires Positive(h) && r < |h| && h[r].Ref?
    ensures Target(h, r) >= 0
  {
    if Target(h, r) != 0 {
      var j := TargetExists(h, r);
    }
  }

  /** A reference to a label that is not local and defined anywhere means a definition. */
  lemma DefinedMeant(h: seq<Event>, r: nat, d: nat)
    requires Positive(h) && r < |h| && h[r].Ref? && d < |h| && h[d].Defined? && h[d].x == h[r].x && h[r].kind == Other
    ensures Target(h, r) != 0
  {
    if d < r {
      LastDefFound(h, r, d);
    } else {
      NextDefFound(h, r + 1, d);
    }
  }

  lemma {:induction false} LastDefFound(h: seq<Event>, r: nat, d: nat)
    requires Positive(h) && d < r <= |h| && h[d].Defined?
    ensures LastDef(h, r, h[d].x) != 0
  {
    if d + 1 < r {
      LastDefFound(h, r - 1, d);
    }
  }

  lemma {:induction false} NextDefFound(h: seq<Event>, r: nat, d: nat)
    requires Positive(h) && r <= d < |h| && h[d].Defined?
    ensures NextDef(h, r, h[d].x) != 0
    decreases d - r
  {
    if r < d {
      NextDefFound(h, r + 1, d);
    }
  }

  // ---- facts the loop of the third pass needs ---------------------------------------------

  /** References only name globals of the table. */
  ghost predicate InTable(h: seq<Event>, lgs: nat) {
    forall i {:trigger h[i]} :: 0 <= i < |h| && h[i].x.Lg? ==> h[i].x.n < lgs
  }

  /** The reference at hand: its word, its saving, and the bytes before it. */
  lemma RelFacts(act: seq<nat>, cells: seq<seq<Cell>>, pos: seq<int>, ofs: seq<int>, buf: map<int, int>, h: seq<Event>, lgs: nat, t: seq<seq<int>>, s: nat, k: nat)
    requires LinkedState(act, cells, pos, ofs, buf, h, t) && InTable(h, lgs) && HasCell(cells, s, k) && cells[s][k].e.Rel?
    ensures AllLinked(cells, pos, ofs, buf, t)
    ensures OpcodeThere(cells[s], k) && s < |t| && k + 1 < |t[s]| && cells[s][k].pos in buf && cells[s][k].pos + 1 in buf
    ensures var w, sh := buf[cells[s][k].pos], buf[cells[s][k].pos + 1];
            && t[s][k + 1] == t[s][k] + 4 - sh && (sh == 0 || (sh == Saving(LastOp(cells[s], k)) && w >= 0))
            && (sh != 0 ==> t[s][k] >= sh - 2) && (sh == 0 || sh == 3 || sh == 4)
            && (w >= 0 ==> w in buf)
            && (w < 0 ==> cells[s][k].e.name.Lg? && 10 <= -w < lgs && Foreign(cells, -w - 10))
  {
    hide LastOp, AllLinked, EventsOk, Resolved, Positive, Decided, Parsed;
    var r := ExternalRef(cells, h, buf, s, k);
    Opcodes(act, cells[s], k);
    CellDone(cells, pos, ofs, buf, t, s, k);
    ResolvedKnown(cells, h, buf);
    var i, j := LabelFor(cells, buf, s, k);
    var w, sh := buf[cells[s][k].pos], buf[cells[s][k].pos + 1];
    if w >= 0 {
      CellDone(cells, pos, ofs, buf, t, i, j);
      if sh != 0 {
        ShortReaches(cells, pos, ofs, buf, t, s, k, i, j);
        BytesBefore(cells, pos, ofs, buf, t, s, k, sh - 2);
        SpotNonNegative(cells, pos, ofs, buf, t, s, k - (sh - 2));
      }
    } else {
      MarkedLong(cells, ofs, buf, t, s, k);
    }
  }

  lemma MarkedLong(cells: seq<seq<Cell>>, ofs: seq<int>, buf: map<int, int>, t: seq<seq<int>>, s: nat, k: nat)
    requires HasCell(cells, s, k) && |ofs| == |cells| && s < |t| && k + 1 < |t[s]| && (forall i' {:trigger t[i']} :: 0 <= i' < s ==> |t[i']| > |cells[i']|)
    requires Decided(cells, ofs, buf, t, s, k) && buf[cells[s][k].pos] < 0
    ensures buf[cells[s][k].pos + 1] == 0
  {
  }

  lemma SpotNonNegative(cells: seq<seq<Cell>>, pos: seq<int>, ofs: seq<int>, buf: map<int, int>, t: seq<seq<int>>, s: nat, k: nat)
    requires AllLinked(cells, pos, ofs, buf, t) && s < |cells| && k <= |cells[s]|
    ensures s < |t| && k < |t[s]| && t[s][k] >= 0
  {
    hide AllLinked;
    Shrinks(cells, pos, ofs, buf, t, 0, 0, s, k);
    FirstSpot(cells, pos, ofs, buf, t);
  }

  lemma FirstSpot(cells: seq<seq<Cell>>, pos: seq<int>, ofs: seq<int>, buf: map<int, int>, t: seq<seq<int>>)
    requires AllLinked(cells, pos, ofs, buf, t)
    ensures |t| > 0 && |t[0]| > 0 && t[0][0] == 0
  {
  }

  /** The word of the element at hand, for elements that are no references. */
  lemma WordFacts(cells: seq<seq<Cell>>, pos: seq<int>, ofs: seq<int>, buf: map<int, int>, t: seq<seq<int>>, s: nat, k: nat)
    requires AllLinked(cells, pos, ofs, buf, t) && HasCell(cells, s, k)
    ensures |pos| == |cells| == |t| && |t[s]| == |cells[s]| + 1 && t[s][k] >= 0 && CellLinked(buf, cells[s][k], t[s][k], t[s][k + 1])
    ensures PosAt(cells, pos, s, k + 1) == EndPos(cells[s][k])
    ensures cells[s][k].e.Start? ==> PosAt(cells, pos, s, k) < pos[s]
  {
    SpotNonNegative(cells, pos, ofs, buf, t, s, k);
    AllShape(cells, pos, ofs, buf, t, s);
    CellDone(cells, pos, ofs, buf, t, s, k);
    Bounds(cells[s], s, pos[s], ofs[s], k);
  }

  lemma EncodeStart(cells: seq<seq<Cell>>, pos: seq<int>, ofs: seq<int>, buf: map<int, int>, t: seq<seq<int>>, globs: seq<int>, base: int)
    requires AllLinked(cells, pos, ofs, buf, t) && cells != []
    ensures EncodedTo([], cells, buf, globs, base, t, 0, 0) && GlobalsTo(cells, globs, globs, base, t, 0, 0)
  {
    FirstSpot(cells, pos, ofs, buf, t);
    AllRows(cells, pos, ofs, buf, t);
  }

  lemma AllRows(cells: seq<seq<Cell>>, pos: seq<int>, ofs: seq<int>, buf: map<int, int>, t: seq<seq<int>>)
    requires AllLinked(cells, pos, ofs, buf, t)
    ensures |t| == |cells| && forall i {:trigger t[i]} :: 0 <= i < |t| ==> |t[i]| == |cells[i]| + 1
  {
    hide Decided, CellLinked, Laid;
    forall i {:trigger t[i]} | 0 <= i < |t| ensures i < |cells| && |t[i]| == |cells[i]| + 1 {
    }
  }

  lemma EncodeNext(cells: seq<seq<Cell>>, pos: seq<int>, ofs: seq<int>, buf: map<int, int>, t: seq<seq<int>>, globs: seq<int>, base: int, code: seq<nat>, s: nat)
    requires AllLinked(cells, pos, ofs, buf, t) && s + 1 < |cells| && EncodedTo(code, cells, buf, globs, base, t, s, |cells[s]|)
    ensures EncodedTo(code, cells, buf, globs, base, t, s + 1, 0)
  {
    hide EncodedAt;
    SectionShrinks(cells, pos, ofs, buf, t, s + 1);
    hide AllLinked;
    forall i: nat, j: nat | HasCell(cells, i, j) && Before(i, j, s + 1, 0) ensures EncodedAt(code, cells, buf, globs, base, t, i, j) {
      assert Before(i, j, s, |cells[s]|);
    }
  }

  /** Every element is in the code. */
  ghost predicate AllEncoded(code: seq<nat>, cells: seq<seq<Cell>>, buf: map<int, int>, globs: seq<int>, base: int, t: seq<seq<int>>) {
    forall i: nat, j: nat {:trigger EncodedAt(code, cells, buf, globs, base, t, i, j)} :: HasCell(cells, i, j) ==>
      EncodedAt(code, cells, buf, globs, base, t, i, j)
  }

  lemma EncodeEnd(cells: seq<seq<Cell>>, buf: map<int, int>, t: seq<seq<int>>, globs: seq<int>, base: int, code: seq<nat>)
    requires cells != [] && EncodedTo(code, cells, buf, globs, base, t, |cells| - 1, |cells[|cells| - 1]|)
    ensures AllEncoded(code, cells, buf, globs, base, t) && |code| == CodeEnd(cells, t)
  {
    hide EncodedAt;
    forall i: nat, j: nat | HasCell(cells, i, j) ensures EncodedAt(code, cells, buf, globs, base, t, i, j) {
      assert Before(i, j, |cells| - 1, |cells[|cells| - 1]|);
    }
  }

  // ---- what the processor reads -------------------------------------------------------------

  /** A branch instruction and where it leads. */
  datatype Branch = Jump(target: int) | Cond(cc: nat, target: int) | NoBranch

  /** The branch instruction at code offset q: EB and 7x are short, E9 and 0F 8x long. */
  function BranchAt(code: seq<nat>, q: int): Branch {
    if q < 0 || q + 2 > |code| then NoBranch
    else if code[q] == 0xEB then Jump(q + 2 + Signed(code[q + 1..q + 2]))
    else if 0x70 <= code[q] < 0x80 then Cond(code[q] - 0x70, q + 2 + Signed(code[q + 1..q + 2]))
    else if code[q] == 0xE9 && q + 5 <= |code| then Jump(q + 5 + Signed(code[q + 1..q + 5]))
    else if code[q] == 0x0F && 0x80 <= code[q + 1] < 0x90 && q + 6 <= |code| then
      Cond(code[q + 1] - 0x80, q + 6 + Signed(code[q + 2..q + 6]))
    else NoBranch
  }

  /** In the code, every immediate operand reads as the value it was given, unsigned or signed,
      whenever that value is in range. */
  lemma ImmediateReads(code: seq<nat>, cells: seq<seq<Cell>>, buf: map<int, int>, globs: seq<int>, base: int, t: seq<seq<int>>, i: nat, j: nat)
    requires AllEncoded(code, cells, buf, globs, base, t) && HasCell(cells, i, j) && cells[i][j].e.Imm?
    ensures i < |t| && j + 1 < |t[i]| && 0 <= t[i][j] && t[i][j + 1] == t[i][j] + cells[i][j].e.size <= |code|
    ensures var b, n, v := code[t[i][j]..t[i][j + 1]], cells[i][j].e.size, cells[i][j].e.val;
            && |b| == n && (n == 1 || n == 2 || n == 4) && (forall x {:trigger b[x]} :: 0 <= x < n ==> b[x] < 256)
            && (0 <= v < Numbers(n) ==> Unsigned(b) == v) && (-Numbers(n) / 2 <= v < Numbers(n) / 2 ==> Signed(b) == v)
  {
    assert EncodedAt(code, cells, buf, globs, base, t, i, j);
    ReadsBack(code[t[i][j]..t[i][j + 1]], cells[i][j].e.val);
  }

  /** The instruction a branch at element k should be, with its label at v. */
  function Meant(op: nat, v: int): Branch {
    if op == 0xE9 then Jump(v) else if 0x80 <= op < 0x90 then Cond(op - 0x80, v) else NoBranch
  }

  /** Shortening keeps the meaning: for every branch with a short form, be it shortened or not,
      the code holds the same jump to the label. */
  lemma BranchMeaning(act: seq<nat>, cells: seq<seq<Cell>>, pos: seq<int>, ofs: seq<int>, buf: map<int, int>, h: seq<Event>, t: seq<seq<int>>,
                      globs: seq<int>, base: int, code: seq<nat>, s: nat, k: nat, i: nat, j: nat)
    requires LinkedState(act, cells, pos, ofs, buf, h, t) && AllEncoded(code, cells, buf, globs, base, t)
    requires HasCell(cells, s, k) && cells[s][k].e.Rel? && Saving(LastOp(cells[s], k)) != 0
    requires cells[s][k].pos in buf && IsLabel(cells, i, j, buf[cells[s][k].pos]) && |code| < 0x8000_0000
    ensures i < |t| && j < |t[i]| && s < |t| && k + 2 - Saving(LastOp(cells[s], k)) >= 0 && k < |t[s]|
    ensures BranchAt(code, t[s][k + 2 - Saving(LastOp(cells[s], k))]) == Meant(LastOp(cells[s], k), t[i][j])
  {
    hide LinkedState, AllLinked, AllEncoded, LastOp, BranchAt, Meant, Decided, Encoded, EncodedAt;
    var w := BranchFacts(act, cells, pos, ofs, buf, h, t, globs, base, code, s, k, i, j);
    var op := LastOp(cells[s], k);
    var u := t[s][k + 1];
    BranchRoom(cells, pos, ofs, buf, globs, base, code, t, s, k, i, j);
    if ShortAt(buf, cells[s], k) {
      ShortBranch(cells, buf, globs, base, code, t, s, k, t[i][j]);
    } else {
      LongBranch(cells, buf, globs, base, code, t, s, k, t[i][j]);
    }
  }

  /** The label and the branch, with the opcode before it. */
  lemma BranchFacts(act: seq<nat>, cells: seq<seq<Cell>>, pos: seq<int>, ofs: seq<int>, buf: map<int, int>, h: seq<Event>, t: seq<seq<int>>,
                    globs: seq<int>, base: int, code: seq<nat>, s: nat, k: nat, i: nat, j: nat) returns (n: nat)
    requires LinkedState(act, cells, pos, ofs, buf, h, t) && AllEncoded(code, cells, buf, globs, base, t)
    requires HasCell(cells, s, k) && cells[s][k].e.Rel? && Saving(LastOp(cells[s], k)) != 0
    requires cells[s][k].pos in buf && IsLabel(cells, i, j, buf[cells[s][k].pos])
    ensures AllLinked(cells, pos, ofs, buf, t)
    ensures n == Saving(LastOp(cells[s], k)) - 2 && (n == 1 || n == 2) && k >= n && OpcodeThere(cells[s], k)
    ensures s < |t| && k + 1 < |t[s]| && i < |t| && j < |t[i]| && t[s][k - n] == t[s][k] - n
    ensures cells[s][k].pos + 1 in buf && Aim(buf, globs, base, cells[s][k]) == t[i][j]
    ensures ShortAt(buf, cells[s], k) ==> buf[cells[s][k].pos + 1] == n + 2 && -128 <= t[i][j] - t[s][k + 1] <= 127 && t[s][k + 1] == t[s][k] + 2 - n
    ensures !ShortAt(buf, cells[s], k) ==> t[s][k + 1] == t[s][k] + 4 && !Rewritten(buf, cells[s], k - 1) && (n == 2 ==> !Rewritten(buf, cells[s], k - 2))
    ensures Encoded(code, cells[s], k, buf, globs, base, t[s][k], t[s][k + 1]) && Encoded(code, cells[s], k - 1, buf, globs, base, t[s][k - 1], t[s][k])
    ensures t[s][k - 1] == t[s][k] - 1 && (n == 2 ==> Encoded(code, cells[s], k - 2, buf, globs, base, t[s][k - 2], t[s][k - 1]))
  {
    hide AllLinked, LastOp, Decided, EventsOk, Resolved, Positive, Encoded, Parsed;
    n := Saving(LastOp(cells[s], k)) - 2;
    Opcodes(act, cells[s], k);
    CellDone(cells, pos, ofs, buf, t, s, k);
    CellDone(cells, pos, ofs, buf, t, i, j);
    CellDone(cells, pos, ofs, buf, t, s, k - 1);
    NonNegativeLabel(act, cells, pos, ofs, buf, h, t, i, j);
    assert EncodedAt(code, cells, buf, globs, base, t, s, k) && EncodedAt(code, cells, buf, globs, base, t, s, k - 1);
    if n == 2 {
      CellDone(cells, pos, ofs, buf, t, s, k - 2);
      assert EncodedAt(code, cells, buf, globs, base, t, s, k - 2);
    }
    if ShortAt(buf, cells[s], k) {
      ShortReaches(cells, pos, ofs, buf, t, s, k, i, j);
    } else if k + 1 < |cells[s]| && ShortAt(buf, cells[s], k + 1) && buf[cells[s][k + 1].pos + 1] == 4 {
      RelFacts4(act, cells, pos, ofs, buf, h, t, s, k + 1);
    }
  }

  /** The saving of a short branch is that of its opcode, which is right before it. */
  lemma RelFacts4(act: seq<nat>, cells: seq<seq<Cell>>, pos: seq<int>, ofs: seq<int>, buf: map<int, int>, h: seq<Event>, t: seq<seq<int>>, s: nat, k: nat)
    requires LinkedState(act, cells, pos, ofs, buf, h, t) && HasCell(cells, s, k) && ShortAt(buf, cells[s], k) && buf[cells[s][k].pos + 1] == 4
    ensures k >= 1 && (cells[s][k - 1].e.Raw? || cells[s][k - 1].e.Esc?)
  {
    hide AllLinked, LastOp, Decided, EventsOk, Resolved, Positive, Parsed;
    Opcodes(act, cells[s], k);
    CellDone(cells, pos, ofs, buf, t, s, k);
    ResolvedKnown(cells, h, buf);
    var i, j := LabelFor(cells, buf, s, k);
    if buf[cells[s][k].pos] >= 0 {
      ShortReaches(cells, pos, ofs, buf, t, s, k, i, j);
    } else {
      MarkedLong(cells, ofs, buf, t, s, k);
    }
  }

  lemma NonNegativeLabel(act: seq<nat>, cells: seq<seq<Cell>>, pos: seq<int>, ofs: seq<int>, buf: map<int, int>, h: seq<Event>, t: seq<seq<int>>, i: nat, j: nat)
    requires LinkedState(act, cells, pos, ofs, buf, h, t) && HasCell(cells, i, j)
    ensures cells[i][j].pos >= 0
  {
    hide EventsOk, Resolved, Positive, Parsed, CellLinked, Decided;
    AllShape(cells, pos, ofs, buf, t, i);
    Bounds(cells[i], i, pos[i], ofs[i], j);
    SecAbove(i);
  }

  /** Both ends of a branch lie in the code. */
  lemma BranchRoom(cells: seq<seq<Cell>>, pos: seq<int>, ofs: seq<int>, buf: map<int, int>, globs: seq<int>, base: int, code: seq<nat>, t: seq<seq<int>>,
                   s: nat, k: nat, i: nat, j: nat)
    requires AllLinked(cells, pos, ofs, buf, t) && AllEncoded(code, cells, buf, globs, base, t) && HasCell(cells, s, k) && HasCell(cells, i, j)
    ensures s < |t| && k + 1 < |t[s]| && i < |t| && j < |t[i]| && 0 <= t[s][k + 1] <= |code| && 0 <= t[i][j] <= |code|
  {
    hide AllLinked;
    assert EncodedAt(code, cells, buf, globs, base, t, s, k) && EncodedAt(code, cells, buf, globs, base, t, i, j);
  }

  lemma ShortBranch(cells: seq<seq<Cell>>, buf: map<int, int>, globs: seq<int>, base: int, code: seq<nat>, t: seq<seq<int>>, s: nat, k: nat, v: int)
    requires HasCell(cells, s, k) && cells[s][k].e.Rel? && ShortAt(buf, cells[s], k) && s < |t| && k + 1 < |t[s]|
    requires var op := LastOp(cells[s], k); var n := Saving(op) - 2;
             && (n == 1 || n == 2) && k >= n && buf[cells[s][k].pos + 1] == n + 2 && t[s][k - n] == t[s][k] - n && t[s][k + 1] == t[s][k] + 2 - n
    requires Aim(buf, globs, base, cells[s][k]) == v && -128 <= v - t[s][k + 1] <= 127
    requires Encoded(code, cells[s], k, buf, globs, base, t[s][k], t[s][k + 1])
    ensures k + 2 - Saving(LastOp(cells[s], k)) >= 0
    ensures BranchAt(code, t[s][k + 2 - Saving(LastOp(cells[s], k))]) == Meant(LastOp(cells[s], k), v)
  {
    hide LastOp, Aim, Rewritten;
    var u := t[s][k + 1];
    assert code[u - 1..u] == [(v - u) % 256];
    ReadsBack(code[u - 1..u], v - u);
  }

  lemma LongBranch(cells: seq<seq<Cell>>, buf: map<int, int>, globs: seq<int>, base: int, code: seq<nat>, t: seq<seq<int>>, s: nat, k: nat, v: int)
    requires HasCell(cells, s, k) && cells[s][k].e.Rel? && !ShortAt(buf, cells[s], k) && s < |t| && k + 1 < |t[s]| && OpcodeThere(cells[s], k)
    requires var op := LastOp(cells[s], k); var n := Saving(op) - 2;
             && (n == 1 || n == 2) && k >= n && t[s][k - n] == t[s][k] - n && t[s][k - 1] == t[s][k] - 1 && t[s][k + 1] == t[s][k] + 4
             && !Rewritten(buf, cells[s], k - 1) && (n == 2 ==> !Rewritten(buf, cells[s], k - 2))
             && (n == 2 ==> Encoded(code, cells[s], k - 2, buf, globs, base, t[s][k - 2], t[s][k - 1]))
    requires Aim(buf, globs, base, cells[s][k]) == v && -0x8000_0000 <= v - t[s][k + 1] < 0x8000_0000
    requires Encoded(code, cells[s], k, buf, globs, base, t[s][k], t[s][k + 1]) && Encoded(code, cells[s], k - 1, buf, globs, base, t[s][k - 1], t[s][k])
    ensures k + 2 - Saving(LastOp(cells[s], k)) >= 0
    ensures BranchAt(code, t[s][k + 2 - Saving(LastOp(cells[s], k))]) == Meant(LastOp(cells[s], k), v)
  {
    hide LastOp, Aim, Rewritten, Reads, Signed;
    var u := t[s][k + 1];
    ReadsBack(code[u - 4..u], v - u);
    assert code[u - 5] == ByteOf(cells[s][k - 1]) == LastOp(cells[s], k);
    if Saving(LastOp(cells[s], k)) == 4 {
      assert code[u - 6] == ByteOf(cells[s][k - 2]) == 0x0F;
    }
    hide Encoded, OpcodeThere;
  }
}
