/** The bins of the allocator (lj_alloc.c): 32 exact small bins and 32 bitwise tries. */
module AllocBins {
  import opened AllocBits
  import opened AllocRings
  import opened AllocTrie

  /** The address of small bin i, seen as a chunk. */
  function Bin(i: nat): Addr { -1000 - i }

  /** The head word of a chunk: its size and the in-use bits of it and of the chunk before it. */
  datatype Head = Head(size: nat, pinuse: bool, cinuse: bool)

  /** The head words give the sizes of the binned chunks. */
  ghost predicate HeadsAgree(heads: map<Addr, Head>, size: map<Addr, int>) {
    forall y {:trigger y in heads} {:trigger size[y]} :: y in size && y > 0 ==> y in heads && heads[y].size == size[y]
  }

  /** A chunk of this size belongs in a small bin. */
  predicate IsSmall(s: int) { s < 256 }

  ghost predicate HeadOk(size: map<Addr, int>, v: View, tip: map<int, Addr>, x: Addr)
    requires x in v.key
  {
    && x in size && 256 <= size[x] < WORD
    && v.key[x].bin == TreeIndex(size[x])
    && Spelled(SizeWord(size[x], v.key[x].bin), v.key[x].path)
    && size[x] in tip && tip[size[x]] == x
  }

  ghost predicate MemberOk(t: Tree, size: map<Addr, int>, v: View, tip: map<int, Addr>, y: Addr)
    requires y in size
  {
    && y > 0 && 256 <= size[y] < WORD
    && size[y] in tip && tip[size[y]] in v.key && tip[size[y]] in size && size[tip[size[y]]] == size[y]
    && (y !in v.key ==>
          && y in t.parent && t.parent[y] == 0
          && y in t.child0 && t.child0[y] == 0
          && y in t.child1 && t.child1[y] == 0
          && y in t.index && t.index[y] == TreeIndex(size[y]))
  }

  /** Each tree node heads the ring of its size, at a position its size spells. */
  ghost predicate LargeOk(t: Tree, size: map<Addr, int>, v: View, tip: map<int, Addr>) {
    && (forall x {:trigger v.key[x]} :: x in v.key ==> HeadOk(size, v, tip, x))
    && (forall y {:trigger size[y]} :: y in size && !IsSmall(size[y]) ==> MemberOk(t, size, v, tip, y))
    && (forall n {:trigger tip[n]} :: n in tip ==> tip[n] in v.key && tip[n] in size && size[tip[n]] == n)
  }

  /** Each marked small bin is the head of a ring of chunks of its size, and only those. */
  ghost predicate SmallOk(l: Links, smallmap: set<nat>, size: map<Addr, int>) {
    && (forall y {:trigger size[y]} :: y in size && IsSmall(size[y]) ==>
          && size[y] >= 0 && size[y] % 8 == 0 && size[y] / 8 in smallmap
          && (y > 0 || y == Bin(size[y] / 8)))
    && (forall i {:trigger i in smallmap} :: i in smallmap ==>
          i < 32 && Bin(i) in size && size[Bin(i)] == 8 * i && Bin(i) in l.fd && l.fd[Bin(i)] != Bin(i))
  }

  ghost predicate BinsOk(l: Links, t: Tree, smallmap: set<nat>, size: map<Addr, int>, v: View, tip: map<int, Addr>) {
    && RingsOk(l, size)
    && TreeOk(t, v)
    && LargeOk(t, size, v, tip)
    && SmallOk(l, smallmap, size)
  }

  /** The chunks in the bins, with their sizes. */
  ghost function Members(size: map<Addr, int>): map<Addr, int> {
    map y | y in size && y > 0 :: size[y]
  }

  /** a is a link word of a binned chunk; only large chunks have tree words. */
  ghost predicate LinkWord(size: map<Addr, int>, a: Addr) {
    exists y :: y in size && y + 16 <= a < y + (if IsSmall(size[y]) then 32 else 64)
  }

  lemma IsLinkWord(size: map<Addr, int>, y: Addr)
    requires y in size
    ensures LinkWord(size, y + 16) && LinkWord(size, y + 24)
    ensures !IsSmall(size[y]) ==>
      LinkWord(size, y + 32) && LinkWord(size, y + 40) && LinkWord(size, y + 48) && LinkWord(size, y + 56)
  {
  }

  /** Only link words of the chunks have been added to the words written. */
  ghost predicate LinksOnly(size: map<Addr, int>, before: set<Addr>, after: set<Addr>) {
    forall a {:trigger a in after} :: a in after && a !in before ==> LinkWord(size, a)
  }

  lemma NodeWords(size: map<Addr, int>, before: set<Addr>, x: Addr)
    requires x in size && !IsSmall(size[x])
    ensures LinksOnly(size, before, before + {x + 16, x + 24, x + 32, x + 40, x + 48, x + 56})
  {
    IsLinkWord(size, x);
  }

  lemma LinksThen(size: map<Addr, int>, a: set<Addr>, b: set<Addr>, c: set<Addr>)
    requires LinksOnly(size, a, b) && LinksOnly(size, b, c)
    ensures LinksOnly(size, a, c)
  {
    hide LinkWord;
  }

  // ---- closure of the trie ---------------------------------------------------

  lemma {:induction false} AncestorsPresent(v: View, i: nat, p: Path, a: Path)
    requires ViewOk(v) && Key(i, p) in v.pos && Anc(p, a)
    ensures Key(i, a) in v.pos
  {
    if p != a {
      assert Key(i, p.up) in v.pos by {
        match p
        case Left(q) => assert Key(i, Left(q)) in v.pos;
        case Right(q) => assert Key(i, Right(q)) in v.pos;
      }
      AncestorsPresent(v, i, p.up, a);
    }
  }

  lemma {:induction false} PathAnc(w: Word, d: nat, e: nat)
    requires e <= d
    ensures Anc(PathOf(w, d), PathOf(w, e))
  {
    if e < d {
      PathAnc(w, d - 1, e);
    }
  }

  /** If the path of a size runs into an empty slot without meeting the size, no
      node has that size. */
  lemma SizeAbsent(t: Tree, size: map<Addr, int>, v: View, tip: map<int, Addr>, s: int, d: nat)
    requires TreeOk(t, v) && LargeOk(t, size, v, tip) && 256 <= s < WORD
    requires var i := TreeIndex(s);
             var w := SizeWord(s, i);
             && Key(i, PathOf(w, d)) !in v.pos
             && (forall e: nat {:trigger PathOf(w, e)} :: e < d && Key(i, PathOf(w, e)) in v.pos ==>
                   v.pos[Key(i, PathOf(w, e))] in size && size[v.pos[Key(i, PathOf(w, e))]] != s)
    ensures s !in tip
  {
    if s in tip {
      var x := tip[s];
      var i := TreeIndex(s);
      var w := SizeWord(s, i);
      var k := v.key[x];
      assert HeadOk(size, v, tip, x);
      assert v.pos[k] == x;
      var e := Depth(k.path);
      assert k == Key(i, PathOf(w, e));
      if e >= d {
        PathAnc(w, e, d);
        AncestorsPresent(v, i, k.path, PathOf(w, d));
      }
    }
  }

  // ---- what the operations keep ----------------------------------------------

  lemma LargeAddHead(t: Tree, size: map<Addr, int>, v: View, tip: map<int, Addr>, x: Addr, s: int, k: Key, t': Tree)
    requires TreeOk(t, v) && LargeOk(t, size, v, tip)
    requires x > 0 && x !in size && x !in v.key && 256 <= s < WORD && s !in tip
    requires k.bin == TreeIndex(s) && Spelled(SizeWord(s, k.bin), k.path) && k !in v.pos
    requires forall y :: y in size && y !in v.key ==>
               && (y in t.parent ==> y in t'.parent && t'.parent[y] == t.parent[y])
               && (y in t.child0 ==> y in t'.child0 && t'.child0[y] == t.child0[y])
               && (y in t.child1 ==> y in t'.child1 && t'.child1[y] == t.child1[y])
               && (y in t.index ==> y in t'.index && t'.index[y] == t.index[y])
    ensures LargeOk(t', size[x := s], AddView(v, x, k), tip[s := x])
  {
    var size', v', tip' := size[x := s], AddView(v, x, k), tip[s := x];
    forall y | y in v'.key ensures HeadOk(size', v', tip', y) {
      if y != x {
        assert v.key[y] == v'.key[y];
        assert HeadOk(size, v, tip, y);
      }
    }
    forall y | y in size' && !IsSmall(size'[y]) ensures MemberOk(t', size', v', tip', y) {
      if y != x {
        assert size[y] == size'[y];
        assert MemberOk(t, size, v, tip, y);
      }
    }
    forall n | n in tip' ensures tip'[n] in v'.key && size'[tip'[n]] == n {
      if n != s {
        assert tip[n] == tip'[n];
      }
    }
  }

  lemma LargeAddMember(t: Tree, size: map<Addr, int>, v: View, tip: map<int, Addr>, x: Addr, s: int, t': Tree)
    requires LargeOk(t, size, v, tip)
    requires x > 0 && x !in size && x !in v.key && 256 <= s < WORD && s in tip
    requires t' == t.(parent := t.parent[x := 0], index := t.index[x := TreeIndex(s)],
                      child0 := t.child0[x := 0], child1 := t.child1[x := 0])
    ensures LargeOk(t', size[x := s], v, tip)
  {
    var size' := size[x := s];
    forall y | y in v.key ensures HeadOk(size', v, tip, y) {
      assert v.key[y] == v.key[y];
      assert HeadOk(size, v, tip, y);
    }
    forall y | y in size' && !IsSmall(size'[y]) ensures MemberOk(t', size', v, tip, y) {
      if y != x {
        assert size[y] == size'[y];
        assert MemberOk(t, size, v, tip, y);
      } else {
        assert tip[s] in v.key;
      }
    }
    forall n | n in tip ensures tip[n] in v.key && size'[tip[n]] == n {
    }
  }

  /** Chunks of small sizes come and go without touching the large bins. */
  lemma LargeFrame(t: Tree, size: map<Addr, int>, v: View, tip: map<int, Addr>, size': map<Addr, int>)
    requires LargeOk(t, size, v, tip)
    requires forall y :: y in size && !IsSmall(size[y]) ==> y in size' && size'[y] == size[y]
    requires forall y :: y in size' && !IsSmall(size'[y]) ==> y in size && size'[y] == size[y]
    ensures LargeOk(t, size', v, tip)
  {
    forall x | x in v.key ensures HeadOk(size', v, tip, x) {
      assert v.key[x] == v.key[x];
      assert HeadOk(size, v, tip, x);
    }
    forall y | y in size' && !IsSmall(size'[y]) ensures MemberOk(t, size', v, tip, y) {
      assert size[y] == size'[y];
      assert MemberOk(t, size, v, tip, y);
      var h := tip[size[y]];
      assert HeadOk(size, v, tip, h) by { assert v.key[h] == v.key[h]; }
    }
    forall n | n in tip ensures tip[n] in v.key && tip[n] in size' && size'[tip[n]] == n {
      var x := tip[n];
      assert v.key[x] == v.key[x];
      assert HeadOk(size, v, tip, x);
    }
  }

  // ---- small bins --------------------------------------------------------------

  function PushSmall(l: Links, marked: bool, b: Addr, p: Addr): Links
    requires marked ==> b in l.fd
  {
    if marked then PushAfter(l, b, p) else Links(l.fd[b := p][p := b], l.bk[b := p][p := b])
  }

  function PushSize(size: map<Addr, int>, marked: bool, b: Addr, p: Addr, s: int): map<Addr, int> {
    if marked then size[p := s] else size[b := s][p := s]
  }

  lemma SmallInsertRing(l: Links, smallmap: set<nat>, size: map<Addr, int>, p: Addr, s: nat)
    requires RingsOk(l, size) && SmallOk(l, smallmap, size)
    requires forall y {:trigger size[y]} :: y in size && !IsSmall(size[y]) ==> y > 0
    requires p > 0 && p !in size && IsSmall(s) && s % 8 == 0
    ensures s / 8 in smallmap ==> Bin(s / 8) in l.fd && l.fd[Bin(s / 8)] in size
    ensures RingsOk(PushSmall(l, s / 8 in smallmap, Bin(s / 8), p), PushSize(size, s / 8 in smallmap, Bin(s / 8), p, s))
  {
    hide RingsOk, SmallOk;
    var b := Bin(s / 8);
    MarkedBin(l, smallmap, size, s / 8);
    if s / 8 in smallmap {
      RingStep(l, size, b);
      PushRing(l, size, b, p);
    } else {
      UnmarkedBin(l, smallmap, size, s);
      StartRing(l, size, b, s);
      PushRing(SelfRing(l, b), size[b := s], b, p);
      assert PushAfter(SelfRing(l, b), b, p) == PushSmall(l, false, b, p);
    }
  }

  lemma MarkedBin(l: Links, smallmap: set<nat>, size: map<Addr, int>, i: nat)
    requires SmallOk(l, smallmap, size)
    ensures i in smallmap ==> i < 32 && Bin(i) in size && size[Bin(i)] == 8 * i
  {
  }

  lemma UnmarkedBin(l: Links, smallmap: set<nat>, size: map<Addr, int>, s: nat)
    requires SmallOk(l, smallmap, size) && IsSmall(s) && s % 8 == 0 && s / 8 !in smallmap
    requires forall y {:trigger size[y]} :: y in size && !IsSmall(size[y]) ==> y > 0
    ensures forall y :: y in size ==> size[y] != s
    ensures Bin(s / 8) !in size
  {
  }

  lemma RingStep(l: Links, size: map<Addr, int>, y: Addr)
    requires RingsOk(l, size) && y in size
    ensures y in l.fd && l.fd[y] in size && size[l.fd[y]] == size[y]
    ensures y in l.bk && l.bk[y] in size && size[l.bk[y]] == size[y]
  {
  }

  lemma SmallInsertOk(l: Links, smallmap: set<nat>, size: map<Addr, int>, p: Addr, s: nat)
    requires RingsOk(l, size) && SmallOk(l, smallmap, size)
    requires p > 0 && p !in size && IsSmall(s) && s % 8 == 0
    ensures s / 8 in smallmap ==> Bin(s / 8) in l.fd
    ensures SmallOk(PushSmall(l, s / 8 in smallmap, Bin(s / 8), p), smallmap + {s / 8},
                    PushSize(size, s / 8 in smallmap, Bin(s / 8), p, s))
  {
    var b := Bin(s / 8);
    var m := PushSmall(l, s / 8 in smallmap, b, p);
    var size' := PushSize(size, s / 8 in smallmap, b, p, s);
    forall i | i in smallmap + {s / 8}
      ensures i < 32 && Bin(i) in size' && size'[Bin(i)] == 8 * i && Bin(i) in m.fd && m.fd[Bin(i)] != Bin(i)
    {
      if i != s / 8 {
        assert Bin(i) != b;
      }
    }
    forall y | y in size' && IsSmall(size'[y])
      ensures size'[y] >= 0 && size'[y] % 8 == 0 && size'[y] / 8 in smallmap + {s / 8}
      ensures y > 0 || y == Bin(size'[y] / 8)
    {
      assert y == p || y == b || size'[y] == size[y];
    }
  }

  /** A chunk leaves its small bin; the last one takes the mark along. */
  function PopSmall(l: Links, p: Addr): Links
    requires p in l.fd && p in l.bk
  {
    if l.fd[p] == l.bk[p] then l else Detach(l, p)
  }

  function PopSize(size: map<Addr, int>, last: bool, p: Addr, s: int): map<Addr, int> {
    if last then Drop(size, s) else size - {p}
  }

  /** The only chunk in the bin of size s, besides the bin itself, goes. */
  lemma BinEmpties(size: map<Addr, int>, p: Addr, h: Addr, s: nat)
    requires p > 0 && p in size && size[p] == s && h <= 0
    requires forall z {:trigger size[z]} :: z in size && size[z] == s ==> z == p || z == h
    ensures Members(Drop(size, s)) == Members(size) - {p}
  {
    var a, b := Members(Drop(size, s)), Members(size) - {p};
    forall y {:trigger y in a} {:trigger y in b} ensures y in a <==> y in b {
      if y in size && y > 0 {
        assert size[y] == s ==> y == p;
      }
    }
  }

  lemma SmallRemoveLast(l: Links, smallmap: set<nat>, size: map<Addr, int>, p: Addr, s: nat)
    requires RingsOk(l, size) && SmallOk(l, smallmap, size)
    requires p > 0 && p in size && size[p] == s && IsSmall(s) && p in l.fd && p in l.bk && l.fd[p] == l.bk[p]
    ensures l.fd[p] == Bin(s / 8)
    ensures RingsOk(l, Drop(size, s)) && SmallOk(l, smallmap - {s / 8}, Drop(size, s))
    ensures Members(Drop(size, s)) == Members(size) - {p}
  {
    hide RingsOk, Members;
    Pair(l, size, p, Bin(s / 8));
    BinEmpties(size, p, Bin(s / 8), s);
    DropRing(l, size, s);
  }

  lemma SmallRemoveMore(l: Links, smallmap: set<nat>, size: map<Addr, int>, p: Addr, s: nat)
    requires RingsOk(l, size) && SmallOk(l, smallmap, size)
    requires p > 0 && p in size && size[p] == s && IsSmall(s) && p in l.fd && p in l.bk && l.fd[p] != l.bk[p]
    ensures l.fd[p] in size && l.bk[p] in size
    ensures RingsOk(Detach(l, p), size - {p}) && SmallOk(Detach(l, p), smallmap, size - {p})
    ensures Members(size - {p}) == Members(size) - {p}
  {
    Alone(l, size, p);
    LeaveRing(l, size, p);
    var f, b := l.fd[p], l.bk[p];
    assert f in size && b in size && size[b] == s && l.bk[f] == p && l.fd[b] == p;
    var m := Detach(l, p);
    forall i | i in smallmap
      ensures Bin(i) in m.fd && m.fd[Bin(i)] != Bin(i)
    {
      if Bin(i) == b {
        assert i == s / 8;
      }
    }
  }

  lemma PushMembers(size: map<Addr, int>, marked: bool, i: nat, p: Addr, s: int)
    requires p > 0 && (marked ==> Bin(i) in size)
    ensures var size' := PushSize(size, marked, Bin(i), p, s);
            Members(size') == Members(size)[p := s] && p in size' && Bin(i) in size' && size.Keys <= size'.Keys
  {
  }

  lemma PushLarge(t: Tree, size: map<Addr, int>, v: View, tip: map<int, Addr>, marked: bool, i: nat, p: Addr, s: int)
    requires LargeOk(t, size, v, tip) && p !in size && IsSmall(s)
    ensures LargeOk(t, PushSize(size, marked, Bin(i), p, s), v, tip)
  {
    hide LargeOk;
    LargePositive(t, size, v, tip);
    LargeFrame(t, size, v, tip, PushSize(size, marked, Bin(i), p, s));
  }

  lemma LargePositive(t: Tree, size: map<Addr, int>, v: View, tip: map<int, Addr>)
    requires LargeOk(t, size, v, tip)
    ensures forall y {:trigger size[y]} :: y in size && !IsSmall(size[y]) ==> y > 0
  {
  }

  lemma SmallInsert(l: Links, t: Tree, smallmap: set<nat>, size: map<Addr, int>, v: View, tip: map<int, Addr>,
                    p: Addr, s: nat)
    requires BinsOk(l, t, smallmap, size, v, tip)
    requires p > 0 && p !in size && IsSmall(s) && s % 8 == 0
    ensures s / 8 in smallmap ==> Bin(s / 8) in l.fd && l.fd[Bin(s / 8)] in size
    ensures var size' := PushSize(size, s / 8 in smallmap, Bin(s / 8), p, s);
            && BinsOk(PushSmall(l, s / 8 in smallmap, Bin(s / 8), p), t, smallmap + {s / 8}, size', v, tip)
            && Members(size') == Members(size)[p := s] && p in size' && Bin(s / 8) in size' && size.Keys <= size'.Keys
  {
    hide RingsOk, TreeOk, LargeOk, SmallOk, Members, PushSmall, PushSize;
    LargePositive(t, size, v, tip);
    assert s / 8 in smallmap ==> Bin(s / 8) in size by { MarkedBin(l, smallmap, size, s / 8); }
    PushMembers(size, s / 8 in smallmap, s / 8, p, s);
    PushLarge(t, size, v, tip, s / 8 in smallmap, s / 8, p, s);
    SmallInsertRing(l, smallmap, size, p, s);
    SmallInsertOk(l, smallmap, size, p, s);
  }

  lemma SmallRemove(l: Links, t: Tree, smallmap: set<nat>, size: map<Addr, int>, v: View, tip: map<int, Addr>,
                    p: Addr, s: nat)
    requires BinsOk(l, t, smallmap, size, v, tip)
    requires p > 0 && p in size && size[p] == s && IsSmall(s)
    ensures s % 8 == 0 && p in l.fd && p in l.bk && l.fd[p] in size && l.bk[p] in size
    ensures var last := l.fd[p] == l.bk[p];
            var size' := PopSize(size, last, p, s);
            && BinsOk(PopSmall(l, p), t, if last then smallmap - {s / 8} else smallmap, size', v, tip)
            && Members(size') == Members(size) - {p}
            && (last <==> l.fd[p] == Bin(s / 8) && l.bk[p] == Bin(s / 8))
  {
    assert l.fd[p] in size && l.bk[p] in size;
    var last := l.fd[p] == l.bk[p];
    if last {
      SmallRemoveLast(l, smallmap, size, p, s);
    } else {
      SmallRemoveMore(l, smallmap, size, p, s);
    }
    LargeFrame(t, size, v, tip, PopSize(size, last, p, s));
  }

  /** The first chunk of a marked bin. */
  lemma SmallFirst(l: Links, t: Tree, smallmap: set<nat>, size: map<Addr, int>, v: View, tip: map<int, Addr>, i: nat)
    requires BinsOk(l, t, smallmap, size, v, tip) && i in smallmap
    ensures i < 32 && Bin(i) in l.fd
    ensures var p := l.fd[Bin(i)];
            p in size && p > 0 && size[p] == 8 * i && p in l.bk && l.bk[p] == Bin(i)
  {
  }

  // ---- large bins --------------------------------------------------------------

  /** A child word is 0 exactly when the position below is empty, and points there otherwise. */
  lemma ChildOf(t: Tree, v: View, x: Addr)
    requires TreeOk(t, v) && x in v.key
    ensures x in t.child0 && x in t.child1 && v.key[x].bin < 32 && v.key[x] in v.pos && v.pos[v.key[x]] == x
    ensures var l := Key(v.key[x].bin, Left(v.key[x].path));
            if t.child0[x] == 0 then l !in v.pos else t.child0[x] in v.key && v.key[t.child0[x]] == l
    ensures var r := Key(v.key[x].bin, Right(v.key[x].path));
            if t.child1[x] == 0 then r !in v.pos else t.child1[x] in v.key && v.key[t.child1[x]] == r
  {
    assert NodeOk(t, v, x);
    var k := v.key[x];
    NoNode(v, Key(k.bin, Left(k.path)));
    NoNode(v, Key(k.bin, Right(k.path)));
  }

  lemma RootCount(t: Tree, v: View)
    requires TreeOk(t, v)
    ensures |t.root| == 32
  {
  }

  lemma RootOf(t: Tree, v: View, i: nat)
    requires TreeOk(t, v) && i < 32
    ensures i in t.marks <==> Key(i, Top) in v.pos
    ensures t.root[i] == 0 <==> Key(i, Top) !in v.pos
    ensures t.root[i] != 0 ==> t.root[i] in v.key && v.key[t.root[i]] == Key(i, Top)
  {
    NoNode(v, Key(i, Top));
  }

  lemma KeysAreMembers(t: Tree, size: map<Addr, int>, v: View, tip: map<int, Addr>, x: Addr)
    requires LargeOk(t, size, v, tip) && x in v.key
    ensures HeadOk(size, v, tip, x) && x in size
  {
    assert v.key[x] == v.key[x];
  }

  /** The small bins do not notice changes to large chunks. */
  lemma SmallFrame(l: Links, smallmap: set<nat>, size: map<Addr, int>, l': Links, size': map<Addr, int>)
    requires SmallOk(l, smallmap, size)
    requires forall y :: y in size' && IsSmall(size'[y]) ==> y in size && size'[y] == size[y]
    requires forall y {:trigger y in l'.fd} :: y in size && IsSmall(size[y]) && y in l.fd ==>
               y in size' && size'[y] == size[y] && y in l'.fd && (y < 0 ==> l'.fd[y] == l.fd[y])
    ensures SmallOk(l', smallmap, size')
  {
    forall i | i in smallmap
      ensures i < 32 && Bin(i) in size' && size'[Bin(i)] == 8 * i && Bin(i) in l'.fd && l'.fd[Bin(i)] != Bin(i)
    {
      assert IsSmall(size[Bin(i)]);
    }
  }

  /** A chunk of a new size becomes a tree node. */
  lemma LargeInsertHead(l: Links, t: Tree, smallmap: set<nat>, size: map<Addr, int>, v: View, tip: map<int, Addr>,
                        x: Addr, s: int, k: Key)
    requires BinsOk(l, t, smallmap, size, v, tip)
    requires x > 0 && x !in size && 256 <= s < WORD && s !in tip
    requires k.bin == TreeIndex(s) && Spelled(SizeWord(s, k.bin), k.path) && k !in v.pos
    requires k.path.Top? || Key(k.bin, k.path.up) in v.pos
    ensures |t.root| == 32
    ensures BinsOk(SelfRing(l, x), AddTree(t, Above(v.pos, k), k, x), smallmap, size[x := s], AddView(v, x, k), tip[s := x])
  {
    hide RingsOk, TreeOk, LargeOk, SmallOk;
    assert x !in v.key by { if x in v.key { KeysAreMembers(t, size, v, tip, x); } }
    RootCount(t, v);
    AddNode(t, v, x, k);
    InsertedRing(l, t, size, v, tip, x, s);
    InsertedSmall(l, smallmap, size, x, s);
    InsertedLarge(t, size, v, tip, x, s, k);
  }

  lemma InsertedRing(l: Links, t: Tree, size: map<Addr, int>, v: View, tip: map<int, Addr>, x: Addr, s: int)
    requires RingsOk(l, size) && LargeOk(t, size, v, tip)
    requires x !in size && 256 <= s && s !in tip
    ensures RingsOk(SelfRing(l, x), size[x := s])
  {
    hide RingsOk;
    assert forall y :: y in size && size[y] == s ==> MemberOk(t, size, v, tip, y);
    StartRing(l, size, x, s);
  }

  lemma InsertedSmall(l: Links, smallmap: set<nat>, size: map<Addr, int>, x: Addr, s: int)
    requires SmallOk(l, smallmap, size) && x > 0 && x !in size && 256 <= s
    ensures SmallOk(SelfRing(l, x), smallmap, size[x := s])
  {
    SmallFrame(l, smallmap, size, SelfRing(l, x), size[x := s]);
  }

  lemma InsertedLarge(t: Tree, size: map<Addr, int>, v: View, tip: map<int, Addr>, x: Addr, s: int, k: Key)
    requires TreeOk(t, v) && LargeOk(t, size, v, tip) && |t.root| == 32
    requires x > 0 && x !in size && x !in v.key && 256 <= s < WORD && s !in tip
    requires k.bin == TreeIndex(s) && Spelled(SizeWord(s, k.bin), k.path) && k !in v.pos
    requires k.path.Top? || Key(k.bin, k.path.up) in v.pos
    ensures LargeOk(AddTree(t, Above(v.pos, k), k, x), size[x := s], AddView(v, x, k), tip[s := x])
  {
    var u := Above(v.pos, k);
    var t' := AddTree(t, u, k, x);
    if !k.path.Top? {
      assert v.key[v.pos[Key(k.bin, k.path.up)]] == Key(k.bin, k.path.up);
    }
    LargeAddHead(t, size, v, tip, x, s, k, t');
  }

  /** A chunk of a known size joins the ring of the node of that size. */
  lemma LargeInsertMember(l: Links, t: Tree, smallmap: set<nat>, size: map<Addr, int>, v: View, tip: map<int, Addr>,
                          x: Addr, s: int, h: Addr)
    requires BinsOk(l, t, smallmap, size, v, tip)
    requires x > 0 && x !in size && 256 <= s < WORD && h in v.key && h in size && size[h] == s
    ensures h in l.fd && l.fd[h] in size && !IsSmall(size[l.fd[h]])
    ensures BinsOk(PushAfter(l, h, x), JoinTree(t, x, TreeIndex(s)), smallmap, size[x := s], v, tip)
  {
    assert x !in v.key by { if x in v.key { KeysAreMembers(t, size, v, tip, x); } }
    PushRing(l, size, h, x);
    var f := l.fd[h];
    assert f in size && size[f] == s;
    SmallFrame(l, smallmap, size, PushAfter(l, h, x), size[x := s]) by {
      KeysAreMembers(t, size, v, tip, h);
      assert h > 0 by { assert v.key[h] == v.key[h]; }
    }
    assert s in tip by { KeysAreMembers(t, size, v, tip, h); }
    LargeAddMember(t, size, v, tip, x, s, JoinTree(t, x, TreeIndex(s)));
    JoinTreeOk(t, v, x, TreeIndex(s));
  }

  function JoinTree(t: Tree, x: Addr, i: nat): Tree {
    t.(parent := t.parent[x := 0], index := t.index[x := i], child0 := t.child0[x := 0], child1 := t.child1[x := 0])
  }

  lemma JoinTreeOk(t: Tree, v: View, x: Addr, i: nat)
    requires TreeOk(t, v) && x !in v.key
    ensures TreeOk(JoinTree(t, x, i), v)
  {
    forall y | y in v.key ensures NodeOk(JoinTree(t, x, i), v, y) {
      assert NodeOk(t, v, y);
    }
  }

  // ---- removal from the large bins ------------------------------------------------

  /** How the words of a node show where it hangs. */
  lemma SlotOf(t: Tree, v: View, x: Addr)
    requires TreeOk(t, v) && x in v.key
    ensures NodeOk(t, v, x) && v.key[x].bin < 32 && |t.root| == 32 && x > 0
    ensures x == t.root[v.key[x].bin] <==> v.key[x].path.Top?
    ensures t.parent[x] == Above(v.pos, v.key[x]) && t.parent[x] != 0
    ensures !v.key[x].path.Top? ==>
              var u := t.parent[x];
              && u in v.key && u in t.child0 && u in t.child1 && u != x
              && v.key[u] == Key(v.key[x].bin, v.key[x].path.up)
              && (t.child0[u] == x <==> v.key[x].path.Left?)
              && (t.child1[u] == x <==> v.key[x].path.Right?)
  {
    assert NodeOk(t, v, x);
    var k := v.key[x];
    assert v.pos[k] == x;
    RootOf(t, v, k.bin);
    if !k.path.Top? {
      var q := Key(k.bin, k.path.up);
      var u := v.pos[q];
      assert v.key[u] == q;
      ChildOf(t, v, u);
    }
  }

  /** A chunk in a large ring that is not a tree node. */
  lemma LargeRemoveMember(l: Links, t: Tree, smallmap: set<nat>, size: map<Addr, int>, v: View, tip: map<int, Addr>, x: Addr)
    requires BinsOk(l, t, smallmap, size, v, tip)
    requires x > 0 && x in size && !IsSmall(size[x]) && x !in v.key
    ensures x in l.fd && x in l.bk && l.bk[x] != x
    ensures BinsOk(Detach(l, x), t, smallmap, size - {x}, v, tip)
  {
    assert MemberOk(t, size, v, tip, x);
    var h := tip[size[x]];
    assert h in v.key && h in size && size[h] == size[x] && h != x;
    Alone(l, size, x);
    LeaveRing(l, size, x);
    DetachSmall(l, smallmap, size, x);
    LargeWithoutMember(t, size, v, tip, x);
  }

  lemma LargeWithoutMember(t: Tree, size: map<Addr, int>, v: View, tip: map<int, Addr>, x: Addr)
    requires LargeOk(t, size, v, tip) && x in size && x !in v.key
    ensures LargeOk(t, size - {x}, v, tip)
  {
    var size' := size - {x};
    forall y | y in v.key ensures HeadOk(size', v, tip, y) {
      KeysAreMembers(t, size, v, tip, y);
    }
    forall y | y in size' && !IsSmall(size'[y]) ensures MemberOk(t, size', v, tip, y) {
      assert size'[y] == size[y];
      assert MemberOk(t, size, v, tip, y);
    }
    forall n | n in tip ensures tip[n] in v.key && tip[n] in size' && size'[tip[n]] == n {
    }
  }

  lemma DetachSmall(l: Links, smallmap: set<nat>, size: map<Addr, int>, x: Addr)
    requires Linked(l, size) && SmallOk(l, smallmap, size) && x > 0 && x in size && !IsSmall(size[x])
    ensures SmallOk(Detach(l, x), smallmap, size - {x})
  {
    RingStepLinked(l, size, x);
    SmallFrame(l, smallmap, size, Detach(l, x), size - {x});
  }

  lemma RingStepLinked(l: Links, size: map<Addr, int>, y: Addr)
    requires Linked(l, size) && y in size
    ensures y in l.fd && l.fd[y] in size && size[l.fd[y]] == size[y]
    ensures y in l.bk && l.bk[y] in size && size[l.bk[y]] == size[y]
  {
  }

  /** The nodes of one size: at most one, and every large chunk has one. */
  lemma OneHead(t: Tree, size: map<Addr, int>, v: View, tip: map<int, Addr>, x: Addr, y: Addr)
    requires LargeOk(t, size, v, tip) && x in v.key && y in size && x in size && size[y] == size[x] && x != y
    ensures y !in v.key && MemberOk(t, size, v, tip, y) && tip[size[y]] == x
  {
    KeysAreMembers(t, size, v, tip, x);
    if y in v.key {
      KeysAreMembers(t, size, v, tip, y);
    }
    assert !IsSmall(size[y]);
  }

  /** A tree node with other chunks of its size hands its place to one of them. */
  lemma LargePromote(l: Links, t: Tree, smallmap: set<nat>, size: map<Addr, int>, v: View, tip: map<int, Addr>, x: Addr)
    requires BinsOk(l, t, smallmap, size, v, tip)
    requires x in v.key && x in size && x in l.bk && x in l.fd && l.bk[x] != x
    ensures |t.root| == 32 && v.key[x].bin < 32 && x in t.parent && x in t.child0 && x in t.child1
    ensures var r := l.bk[x];
            && r in size && r !in v.key && MemberOk(t, size, v, tip, r) && size[r] == size[x]
            && BinsOk(Detach(l, x), SwapTree(t, x, r, v.key[x]), smallmap, size - {x}, SwapView(v, x, r), tip[size[x] := r])
  {
    hide LargeOk, TreeOk, SmallOk, RingsOk;
    var r := l.bk[x];
    KeysAreMembers(t, size, v, tip, x);
    SlotOf(t, v, x);
    RingStep(l, size, x);
    OneHead(t, size, v, tip, x, r);
    LeaveRing(l, size, x);
    DetachSmall(l, smallmap, size, x) by { assert RingsOk(l, size); Unring(l, size); }
    ReplaceNode(t, v, x, r);
    LargeSwap(t, size, v, tip, x, r);
  }

  lemma Unring(l: Links, size: map<Addr, int>)
    requires RingsOk(l, size)
    ensures Linked(l, size)
  {
  }

  /** The words of chunks outside the tree survive a swap. */
  lemma SwapFrame(t: Tree, v: View, x: Addr, r: Addr, y: Addr)
    requires TreeOk(t, v) && x in v.key && v.key[x].bin < 32 && |t.root| == 32
    requires x in t.parent && x in t.child0 && x in t.child1
    requires y != r && y !in v.key && y > 0
    ensures var s := SwapTree(t, x, r, v.key[x]);
            && (y in t.parent ==> y in s.parent && s.parent[y] == t.parent[y])
            && (y in t.child0 ==> y in s.child0 && s.child0[y] == t.child0[y])
            && (y in t.child1 ==> y in s.child1 && s.child1[y] == t.child1[y])
            && s.index == t.index
  {
    SlotOf(t, v, x);
    ChildOf(t, v, x);
  }

  lemma LargeSwap(t: Tree, size: map<Addr, int>, v: View, tip: map<int, Addr>, x: Addr, r: Addr)
    requires TreeOk(t, v) && LargeOk(t, size, v, tip)
    requires x in v.key && x in size && r in size && r !in v.key && size[r] == size[x] && r > 0
    requires |t.root| == 32 && v.key[x].bin < 32 && x in t.parent && x in t.child0 && x in t.child1
    ensures LargeOk(SwapTree(t, x, r, v.key[x]), size - {x}, SwapView(v, x, r), tip[size[x] := r])
  {
    hide SwapTree;
    var t', size', v', tip' := SwapTree(t, x, r, v.key[x]), size - {x}, SwapView(v, x, r), tip[size[x] := r];
    KeysAreMembers(t, size, v, tip, x);
    forall y | y in v'.key ensures HeadOk(size', v', tip', y) {
      if y != r {
        KeysAreMembers(t, size, v, tip, y);
      }
    }
    forall y | y in size' && !IsSmall(size'[y]) ensures MemberOk(t', size', v', tip', y) {
      assert size'[y] == size[y];
      assert MemberOk(t, size, v, tip, y);
      if y !in v'.key {
        SwapFrame(t, v, x, r, y);
      }
    }
    forall n | n in tip' ensures tip'[n] in v'.key && tip'[n] in size' && size'[tip'[n]] == n {
      if n != size[x] {
        assert tip[n] != x;
      }
    }
  }

  /** A tree node without children and without other chunks of its size. */
  lemma LargeRemoveLeaf(l: Links, t: Tree, smallmap: set<nat>, size: map<Addr, int>, v: View, tip: map<int, Addr>, x: Addr)
    requires BinsOk(l, t, smallmap, size, v, tip)
    requires x in v.key && x in size && x in l.bk && l.bk[x] == x
    requires x in t.child0 && x in t.child1 && t.child0[x] == 0 && t.child1[x] == 0
    ensures |t.root| == 32 && v.key[x].bin < 32 && x in t.parent
    ensures BinsOk(l, DropTree(t, x, v.key[x]), smallmap, size - {x}, DropView(v, x), tip - {size[x]})
  {
    hide LargeOk, TreeOk, SmallOk, RingsOk;
    SlotOf(t, v, x);
    RemoveLeaf(t, v, x);
    Alone(l, size, x);
    DropAlone(l, smallmap, t, size, v, tip, x);
    LargeDrop(t, size, v, tip, x);
  }

  lemma DropAlone(l: Links, smallmap: set<nat>, t: Tree, size: map<Addr, int>, v: View, tip: map<int, Addr>, x: Addr)
    requires RingsOk(l, size) && SmallOk(l, smallmap, size) && LargeOk(t, size, v, tip)
    requires x in v.key && x in size && x in l.bk && l.bk[x] == x
    ensures RingsOk(l, size - {x}) && SmallOk(l, smallmap, size - {x})
  {
    hide RingsOk, SmallOk, LargeOk;
    Alone(l, size, x);
    DropRing(l, size, size[x]);
    assert forall y :: y in size && y != x ==> size[y] != size[x];
    assert Drop(size, size[x]) == size - {x};
    KeysAreMembers(t, size, v, tip, x);
    SmallFrame(l, smallmap, size, l, size - {x});
  }

  lemma LargeDrop(t: Tree, size: map<Addr, int>, v: View, tip: map<int, Addr>, x: Addr)
    requires TreeOk(t, v) && LargeOk(t, size, v, tip) && x in v.key && x in size
    requires forall z :: z in size && size[z] == size[x] ==> z == x
    requires |t.root| == 32 && v.key[x].bin < 32 && x in t.parent
    ensures LargeOk(DropTree(t, x, v.key[x]), size - {x}, DropView(v, x), tip - {size[x]})
  {
    var t', size', v', tip' := DropTree(t, x, v.key[x]), size - {x}, DropView(v, x), tip - {size[x]};
    SlotOf(t, v, x);
    forall y | y in v'.key ensures HeadOk(size', v', tip', y) {
      KeysAreMembers(t, size, v, tip, y);
    }
    forall y | y in size' && !IsSmall(size'[y]) ensures MemberOk(t', size', v', tip', y) {
      assert size'[y] == size[y];
      assert MemberOk(t, size, v, tip, y);
    }
    forall n | n in tip' ensures tip'[n] in v'.key && tip'[n] in size' && size'[tip'[n]] == n {
    }
  }
  /** A tree node that is alone in its ring is replaced by a leaf from below it. */
  lemma LargeRemoveInner(l: Links, t: Tree, smallmap: set<nat>, size: map<Addr, int>, v: View, tip: map<int, Addr>,
                         x: Addr, r: Addr)
    requires BinsOk(l, t, smallmap, size, v, tip)
    requires x in v.key && x in size && x in l.bk && l.bk[x] == x
    requires r in v.key && r != x && v.key[r].bin == v.key[x].bin && Anc(v.key[r].path, v.key[x].path)
    requires r in t.child0 && r in t.child1 && t.child0[r] == 0 && t.child1[r] == 0
    ensures |t.root| == 32 && v.key[x].bin < 32 && r in t.parent && x in v.key
    ensures var t1 := DropTree(t, r, v.key[r]);
            && x in t1.parent && x in t1.child0 && x in t1.child1
            && BinsOk(l, SwapTree(t1, x, r, v.key[x]), smallmap, size - {x}, SwapView(DropView(v, r), x, r), tip - {size[x]})
  {
    hide LargeOk, TreeOk, SmallOk, RingsOk;
    SlotOf(t, v, x);
    SlotOf(t, v, r);
    RemoveLeaf(t, v, r);
    DropAlone(l, smallmap, t, size, v, tip, x);
    Alone(l, size, x);
    LargeInner(t, size, v, tip, x, r);
  }

  lemma LargeInner(t: Tree, size: map<Addr, int>, v: View, tip: map<int, Addr>, x: Addr, r: Addr)
    requires TreeOk(t, v) && LargeOk(t, size, v, tip) && x in v.key && x in size
    requires forall z :: z in size && size[z] == size[x] ==> z == x
    requires r in v.key && r != x && v.key[r].bin == v.key[x].bin && Anc(v.key[r].path, v.key[x].path)
    requires |t.root| == 32 && v.key[x].bin < 32 && r in t.parent
    requires TreeOk(DropTree(t, r, v.key[r]), DropView(v, r))
    ensures var t1 := DropTree(t, r, v.key[r]);
            && x in t1.parent && x in t1.child0 && x in t1.child1
            && TreeOk(SwapTree(t1, x, r, v.key[x]), SwapView(DropView(v, r), x, r))
            && LargeOk(SwapTree(t1, x, r, v.key[x]), size - {x}, SwapView(DropView(v, r), x, r), tip - {size[x]})
  {
    hide TreeOk, LargeOk, SwapTree, DropTree;
    var t1, v1 := DropTree(t, r, v.key[r]), DropView(v, r);
    SlotOf(t, v, r);
    SlotOf(t1, v1, x);
    assert t1.index == t.index by { DropIndex(t, r, v.key[r]); }
    ReplaceNode(t1, v1, x, r);
    var t', size', v', tip' := SwapTree(t1, x, r, v.key[x]), size - {x}, SwapView(v1, x, r), tip - {size[x]};
    InnerHeads(t, size, v, tip, x, r);
    forall y | y in size' && !IsSmall(size'[y]) ensures MemberOk(t', size', v', tip', y) {
      InnerMember(t, size, v, tip, x, r, y);
    }
    assert LargeOk(t', size', v', tip') by { InnerAll(t, t', size, v, tip, x, r); }
  }

  lemma DropIndex(t: Tree, r: Addr, k: Key)
    requires |t.root| == 32 && k.bin < 32 && r in t.parent
    ensures DropTree(t, r, k).index == t.index
  {
  }

  lemma InnerHeads(t: Tree, size: map<Addr, int>, v: View, tip: map<int, Addr>, x: Addr, r: Addr)
    requires LargeOk(t, size, v, tip) && x in v.key && x in size
    requires forall z :: z in size && size[z] == size[x] ==> z == x
    requires r in v.key && r != x && v.key[r].bin == v.key[x].bin && Anc(v.key[r].path, v.key[x].path)
    ensures var v' := SwapView(DropView(v, r), x, r);
            forall y :: y in v'.key ==> HeadOk(size - {x}, v', tip - {size[x]}, y)
  {
    var v' := SwapView(DropView(v, r), x, r);
    KeysAreMembers(t, size, v, tip, r);
    forall y | y in v'.key ensures HeadOk(size - {x}, v', tip - {size[x]}, y) {
      KeysAreMembers(t, size, v, tip, y);
      if y == r {
        SpelledAnc(SizeWord(size[r], v.key[r].bin), v.key[r].path, v.key[x].path);
      }
    }
  }

  lemma InnerMember(t: Tree, size: map<Addr, int>, v: View, tip: map<int, Addr>, x: Addr, r: Addr, y: Addr)
    requires TreeOk(t, v) && LargeOk(t, size, v, tip) && x in v.key && x in size && r in v.key && r != x
    requires forall z :: z in size && size[z] == size[x] ==> z == x
    requires |t.root| == 32 && v.key[r].bin < 32 && v.key[x].bin < 32 && r in t.parent
    requires TreeOk(DropTree(t, r, v.key[r]), DropView(v, r))
    requires y in size && y != x && !IsSmall(size[y])
    ensures var t1, v1 := DropTree(t, r, v.key[r]), DropView(v, r);
            && x in t1.parent && x in t1.child0 && x in t1.child1
            && MemberOk(SwapTree(t1, x, r, v.key[x]), size - {x}, SwapView(v1, x, r), tip - {size[x]}, y)
  {
    hide TreeOk, SwapTree;
    var t1, v1 := DropTree(t, r, v.key[r]), DropView(v, r);
    SlotOf(t1, v1, x);
    SlotOf(t, v, r);
    assert MemberOk(t, size, v, tip, y);
    if y !in v.key {
      SwapFrame(t1, v1, x, r, y);
    }
  }

  lemma InnerAll(t: Tree, t': Tree, size: map<Addr, int>, v: View, tip: map<int, Addr>, x: Addr, r: Addr)
    requires LargeOk(t, size, v, tip) && x in v.key && x in size && r in v.key && r != x
    requires forall z :: z in size && size[z] == size[x] ==> z == x
    requires var v' := SwapView(DropView(v, r), x, r);
             && (forall y :: y in v'.key ==> HeadOk(size - {x}, v', tip - {size[x]}, y))
             && (forall y :: y in size && y != x && !IsSmall(size[y]) ==> MemberOk(t', size - {x}, v', tip - {size[x]}, y))
    ensures LargeOk(t', size - {x}, SwapView(DropView(v, r), x, r), tip - {size[x]})
  {
    hide MemberOk, HeadOk;
    forall n | n in tip - {size[x]}
      ensures tip[n] in SwapView(DropView(v, r), x, r).key && tip[n] in size - {x} && size[tip[n]] == n
    {
    }
  }
  /** One step of a walk down a trie along the bits of a size. */
  lemma Descend(t: Tree, v: View, x: Addr, i: nat, w: Word, d: nat)
    requires TreeOk(t, v) && x in v.key && v.key[x] == Key(i, PathOf(w, d))
    ensures x in t.child0 && x in t.child1
    ensures var c := if TopBit(ShiftN(w, d)) == 1 then t.child1[x] else t.child0[x];
            var k := Key(i, PathOf(w, d + 1));
            if c == 0 then k !in v.pos else c in v.key && v.key[c] == k
    ensures Key(i, PathOf(w, d)) in v.pos && v.pos[Key(i, PathOf(w, d))] == x
  {
    ChildOf(t, v, x);
  }

  /** Positions of one tree that lie deeper than d. */
  ghost function Deeper(v: View, d: nat): set<Addr> {
    set y | y in v.key && Depth(v.key[y].path) > d
  }

  lemma DeeperShrinks(v: View, c: Addr, d: nat)
    requires c in v.key && Depth(v.key[c].path) == d + 1
    ensures Deeper(v, d + 1) < Deeper(v, d)
  {
    assert c in Deeper(v, d) && c !in Deeper(v, d + 1);
  }

  lemma SpelledPath(w: Word, d: nat)
    ensures Spelled(w, PathOf(w, d))
  {
  }

  /** Before a new node is linked in, clearing its own words leaves the tree as it is. */
  lemma ClearWords(l: Links, t: Tree, smallmap: set<nat>, size: map<Addr, int>, v: View, tip: map<int, Addr>, x: Addr, i: nat)
    requires BinsOk(l, t, smallmap, size, v, tip) && x !in size
    ensures BinsOk(l, t.(index := t.index[x := i], child0 := t.child0[x := 0], child1 := t.child1[x := 0]),
                   smallmap, size, v, tip)
  {
    hide RingsOk, SmallOk;
    var t' := t.(index := t.index[x := i], child0 := t.child0[x := 0], child1 := t.child1[x := 0]);
    assert x !in v.key by { if x in v.key { KeysAreMembers(t, size, v, tip, x); } }
    forall y | y in v.key ensures NodeOk(t', v, y) {
      assert NodeOk(t, v, y);
    }
    LargeWords(t, t', size, v, tip, x);
  }

  lemma LargeWords(t: Tree, t': Tree, size: map<Addr, int>, v: View, tip: map<int, Addr>, x: Addr)
    requires LargeOk(t, size, v, tip) && x !in size && t'.parent == t.parent
    requires forall y :: y != x && y in t.child0 ==> y in t'.child0 && t'.child0[y] == t.child0[y]
    requires forall y :: y != x && y in t.child1 ==> y in t'.child1 && t'.child1[y] == t.child1[y]
    requires forall y :: y != x && y in t.index ==> y in t'.index && t'.index[y] == t.index[y]
    ensures LargeOk(t', size, v, tip)
  {
    forall y | y in v.key ensures HeadOk(size, v, tip, y) {
      KeysAreMembers(t, size, v, tip, y);
    }
    forall y | y in size && !IsSmall(size[y]) ensures MemberOk(t', size, v, tip, y) {
      assert size[y] == size[y];
      assert MemberOk(t, size, v, tip, y);
    }
    forall n | n in tip ensures tip[n] in v.key && tip[n] in size && size[tip[n]] == n {
    }
  }

  lemma MembersAdd(size: map<Addr, int>, x: Addr, s: int)
    requires x > 0
    ensures Members(size[x := s]) == Members(size)[x := s]
  {
  }

  lemma MembersDrop(size: map<Addr, int>, x: Addr)
    ensures Members(size - {x}) == Members(size) - {x}
  {
  }

  lemma AddShape(t: Tree, u: Addr, k: Key, x: Addr)
    requires |t.root| == 32 && k.bin < 32 && u != x
    requires x in t.child0 && t.child0[x] == 0 && x in t.child1 && t.child1[x] == 0 && x in t.index && t.index[x] == k.bin
    ensures AddTree(t, u, k, x) ==
            SetSlot(t, u, k, x).(marks := if k.path.Top? then t.marks + {k.bin} else t.marks, parent := t.parent[x := u])
  {
    var s := SetSlot(t, u, k, x);
    assert s.child0[x := 0] == s.child0 && s.child1[x := 0] == s.child1 && s.index[x := k.bin] == s.index;
  }

  lemma BinsParts(l: Links, t: Tree, smallmap: set<nat>, size: map<Addr, int>, v: View, tip: map<int, Addr>)
    requires BinsOk(l, t, smallmap, size, v, tip)
    ensures RingsOk(l, size) && TreeOk(t, v) && LargeOk(t, size, v, tip) && SmallOk(l, smallmap, size)
    ensures |t.root| == 32
  {
  }

  lemma HeadSize(heads: map<Addr, Head>, size: map<Addr, int>, y: Addr)
    requires HeadsAgree(heads, size) && y in size && y > 0
    ensures y in heads && heads[y].size == size[y]
  {
  }

  lemma NewRoot(l: Links, t: Tree, smallmap: set<nat>, size: map<Addr, int>, v: View, tip: map<int, Addr>, x: Addr, s: int)
    requires BinsOk(l, t, smallmap, size, v, tip) && x > 0 && x !in size && 256 <= s < WORD
    requires x in t.child0 && t.child0[x] == 0 && x in t.child1 && t.child1[x] == 0
    requires x in t.index && t.index[x] == TreeIndex(s) && TreeIndex(s) !in t.marks
    ensures |t.root| == 32
    ensures var i := TreeIndex(s);
            BinsOk(Links(l.fd[x := x], l.bk[x := x]),
                   t.(marks := t.marks + {i}, root := t.root[i := x], parent := t.parent[x := RootSlot(i)]),
                   smallmap, size[x := s], AddView(v, x, Key(i, Top)), tip[s := x])
  {
    hide RingsOk, SmallOk, LargeOk, TreeIndex, SizeWord;
    var i := TreeIndex(s);
    assert PathOf(SizeWord(s, i), 0) == Top;
    RootOf(t, v, i);
    SizeAbsent(t, size, v, tip, s, 0);
    LargeInsertHead(l, t, smallmap, size, v, tip, x, s, Key(i, Top));
    AddShape(t, RootSlot(i), Key(i, Top), x);
  }

  lemma NewLeaf(l: Links, t: Tree, smallmap: set<nat>, size: map<Addr, int>, v: View, tip: map<int, Addr>, x: Addr, s: int,
                d: nat, u: Addr)
    requires BinsOk(l, t, smallmap, size, v, tip) && x > 0 && x !in size && 256 <= s < WORD
    requires x in t.child0 && t.child0[x] == 0 && x in t.child1 && t.child1[x] == 0
    requires x in t.index && t.index[x] == TreeIndex(s)
    requires var i := TreeIndex(s);
             var w := SizeWord(s, i);
             && u in v.key && v.key[u] == Key(i, PathOf(w, d)) && u in size && size[u] != s
             && Key(i, PathOf(w, d + 1)) !in v.pos
             && (forall e: nat {:trigger PathOf(w, e)} :: e < d && Key(i, PathOf(w, e)) in v.pos ==>
                   v.pos[Key(i, PathOf(w, e))] in size && size[v.pos[Key(i, PathOf(w, e))]] != s)
    ensures |t.root| == 32
    ensures var i := TreeIndex(s);
            var w := SizeWord(s, i);
            var m := t.(parent := t.parent[x := u]);
            BinsOk(Links(l.fd[x := x], l.bk[x := x]),
                   if TopBit(ShiftN(w, d)) == 1 then m.(child1 := t.child1[u := x]) else m.(child0 := t.child0[u := x]),
                   smallmap, size[x := s], AddView(v, x, Key(i, PathOf(w, d + 1))), tip[s := x])
  {
    hide RingsOk, SmallOk, LargeOk, TreeOk, TreeIndex, SizeWord;
    var i := TreeIndex(s);
    var w := SizeWord(s, i);
    var k := Key(i, PathOf(w, d + 1));
    Descend(t, v, u, i, w, d);
    SizeAbsent(t, size, v, tip, s, d + 1);
    SpelledPath(w, d + 1);
    RootCount(t, v);
    LargeInsertHead(l, t, smallmap, size, v, tip, x, s, k);
    assert Above(v.pos, k) == u;
    AddShape(t, u, k, x);
  }

  lemma SlotEmpty(l: Links, t: Tree, smallmap: set<nat>, size: map<Addr, int>, v: View, tip: map<int, Addr>,
                  x: Addr, i: nat, w: Word, d: nat)
    requires BinsOk(l, t, smallmap, size, v, tip) && x in v.key && v.key[x] == Key(i, PathOf(w, d))
    requires x in t.child0 && x in t.child1
    requires (if TopBit(ShiftN(w, d)) == 1 then t.child1[x] else t.child0[x]) == 0
    ensures Key(i, PathOf(w, d + 1)) !in v.pos
  {
    hide RingsOk, SmallOk, LargeOk, TreeOk;
    Descend(t, v, x, i, w, d);
  }

  lemma ParentWord(t: Tree, size: map<Addr, int>, v: View, tip: map<int, Addr>, x: Addr)
    requires TreeOk(t, v) && LargeOk(t, size, v, tip) && x in size && !IsSmall(size[x])
    ensures x in t.parent && (t.parent[x] == 0 <==> x !in v.key)
  {
    if x in v.key {
      SlotOf(t, v, x);
    } else {
      assert MemberOk(t, size, v, tip, x);
    }
  }

  lemma MemberWords(t: Tree, size: map<Addr, int>, v: View, tip: map<int, Addr>, r: Addr)
    requires r in size && MemberOk(t, size, v, tip, r) && r !in v.key
    ensures r > 0 && r in t.child0 && t.child0[r] == 0 && r in t.child1 && t.child1[r] == 0
  {
  }

  lemma AloneIsHead(l: Links, t: Tree, size: map<Addr, int>, v: View, tip: map<int, Addr>, x: Addr)
    requires RingsOk(l, size) && LargeOk(t, size, v, tip) && x in size && !IsSmall(size[x]) && x in l.bk && l.bk[x] == x
    ensures x in v.key
  {
    Alone(l, size, x);
    assert MemberOk(t, size, v, tip, x);
    assert tip[size[x]] == x;
  }

  lemma LargeNodes(t: Tree, size: map<Addr, int>, v: View, tip: map<int, Addr>)
    requires LargeOk(t, size, v, tip)
    ensures forall y {:trigger y in v.key} :: y in v.key ==> y in size && !IsSmall(size[y])
  {
    forall y | y in v.key ensures y in size && !IsSmall(size[y]) {
      KeysAreMembers(t, size, v, tip, y);
    }
  }

  lemma SameKey(t: Tree, v: View, x: Addr, y: Addr)
    requires TreeOk(t, v) && x in v.key && y in v.key && v.key[x] == v.key[y]
    ensures x == y
  {
    assert v.pos[v.key[x]] == x && v.pos[v.key[y]] == y;
  }

  /** Cutting off the leaf r leaves its own child words and the parent word of x alone. */
  lemma LeafWords(t: Tree, v: View, r: Addr, x: Addr)
    requires TreeOk(t, v) && r in v.key && x in v.key && r != x
    requires r in t.child0 && r in t.child1 && t.child0[r] == 0 && t.child1[r] == 0
    ensures |t.root| == 32 && v.key[r].bin < 32 && r in t.parent && r > 0
    ensures var t1 := DropTree(t, r, v.key[r]);
            && r in t1.child0 && r in t1.child1 && t1.child0[r] == 0 && t1.child1[r] == 0
            && t1.parent == t.parent
  {
    SlotOf(t, v, r);
  }
}
