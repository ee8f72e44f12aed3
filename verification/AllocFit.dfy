/** Best fit in the bitwise tries (lj_alloc.c): why the walks of tmalloc_large and
    tmalloc_small meet the smallest large chunk that fits. */
module AllocFit {
  import opened AllocBits
  import opened AllocRings
  import opened AllocTrie
  import opened AllocBins

  /** Every binned chunk is below the size at which compute_tree_index truncates. */
  ghost predicate InRange(size: map<Addr, int>) {
    forall y {:trigger size[y]} :: y in size ==> size[y] < 0x100_0000_0000
  }

  /** Node y lies in the subtree of node t. */
  ghost predicate Under(v: View, t: Addr, y: Addr) {
    t in v.key && y in v.key && v.key[y].bin == v.key[t].bin && Anc(v.key[y].path, v.key[t].path)
  }

  /** Node y is at least as large as every node in the subtree of t. */
  ghost predicate Beyond(size: map<Addr, int>, v: View, t: Addr, y: Addr)
    requires y in size && v.key.Keys <= size.Keys
  {
    forall z {:trigger Under(v, t, z)} :: Under(v, t, z) ==> size[z] <= size[y]
  }

  /** Node y cannot beat the remainder found so far, or the walk from t will deal with it. */
  ghost predicate Covered(size: map<Addr, int>, v: View, nb: int, rsize: int, t: Addr, y: Addr)
    requires y in size && v.key.Keys <= size.Keys
  {
    size[y] - nb >= rsize || (t != 0 && (Under(v, t, y) || Beyond(size, v, t, y)))
  }

  lemma KeysInSize(t: Tree, size: map<Addr, int>, v: View, tip: map<int, Addr>)
    requires LargeOk(t, size, v, tip)
    ensures v.key.Keys <= size.Keys
  {
    LargeNodes(t, size, v, tip);
    forall y | y in v.key.Keys ensures y in size.Keys {
      assert y in v.key;
    }
  }

  lemma WordLess(i: nat, s1: nat, s2: nat)
    requires i < 32 && 256 <= s1 < 0x100_0000_0000 && 256 <= s2 < 0x100_0000_0000
    requires TreeIndex(s1) == i && TreeIndex(s2) == i && SizeWord(s1, i) < SizeWord(s2, i)
    ensures s1 < s2
  {
    hide SizeWord, TreeIndex, MinSize;
    TreeIndexRange(s1);
    TreeIndexRange(s2);
    if s2 < s1 {
      SizeWordMono(i, s2, s1);
    }
  }

  lemma IndexLess(s1: nat, s2: nat)
    requires 256 <= s1 < 0x100_0000_0000 && 256 <= s2 < 0x100_0000_0000 && TreeIndex(s1) < TreeIndex(s2)
    ensures s1 < s2
  {
    hide TreeIndex, MinSize;
    TreeIndexRange(s1);
    TreeIndexRange(s2);
    if TreeIndex(s1) + 1 < TreeIndex(s2) {
      MinSizeMono(TreeIndex(s1) + 1, TreeIndex(s2));
    }
  }

  /** Nodes left of a position are smaller than nodes right of it. */
  lemma LeftRight(t: Tree, size: map<Addr, int>, v: View, tip: map<int, Addr>, y: Addr, z: Addr, i: nat, q: Path)
    requires LargeOk(t, size, v, tip) && InRange(size) && y in v.key && z in v.key && i < 32
    requires v.key[y].bin == i && v.key[z].bin == i && Anc(v.key[y].path, Left(q)) && Anc(v.key[z].path, Right(q))
    ensures y in size && z in size && size[y] < size[z]
  {
    hide LargeOk, SizeWord, TreeIndex;
    KeysAreMembers(t, size, v, tip, y);
    KeysAreMembers(t, size, v, tip, z);
    SpelledAnc(SizeWord(size[y], i), v.key[y].path, Left(q));
    SpelledAnc(SizeWord(size[z], i), v.key[z].path, Right(q));
    LeftIsSmaller(SizeWord(size[y], i), SizeWord(size[z], i), q);
    WordLess(i, size[y], size[z]);
  }

  /** A node beside the path of a request is smaller or larger than the request. */
  lemma BesidePath(t: Tree, size: map<Addr, int>, v: View, tip: map<int, Addr>, y: Addr, nb: nat, d: nat)
    requires LargeOk(t, size, v, tip) && InRange(size) && y in v.key && 256 <= nb < 0x100_0000_0000
    requires v.key[y].bin == TreeIndex(nb)
    ensures y in size
    ensures var w := SizeWord(nb, TreeIndex(nb));
            var q := PathOf(w, d);
            && (TopBit(ShiftN(w, d)) == 1 && Anc(v.key[y].path, Left(q)) ==> size[y] < nb)
            && (TopBit(ShiftN(w, d)) == 0 && Anc(v.key[y].path, Right(q)) ==> nb < size[y])
  {
    hide LargeOk, SizeWord, TreeIndex;
    KeysAreMembers(t, size, v, tip, y);
    var i := TreeIndex(nb);
    var w, u := SizeWord(nb, i), SizeWord(size[y], i);
    var q := PathOf(w, d);
    SpelledPath(w, d + 1);
    if TopBit(ShiftN(w, d)) == 1 && Anc(v.key[y].path, Left(q)) {
      SpelledAnc(u, v.key[y].path, Left(q));
      LeftIsSmaller(u, w, q);
      WordLess(i, size[y], nb);
    }
    if TopBit(ShiftN(w, d)) == 0 && Anc(v.key[y].path, Right(q)) {
      SpelledAnc(u, v.key[y].path, Right(q));
      LeftIsSmaller(w, u, q);
      WordLess(i, nb, size[y]);
    }
  }

  /** Everything below a node is below one of its children, which exist. */
  lemma ChildCases(t: Tree, v: View, x: Addr, y: Addr)
    requires TreeOk(t, v) && Under(v, x, y) && y != x
    ensures x in t.child0 && x in t.child1
    ensures (t.child0[x] != 0 && Under(v, t.child0[x], y)) || (t.child1[x] != 0 && Under(v, t.child1[x], y))
  {
    var k := v.key[x];
    ChildOf(t, v, x);
    assert v.key[y].path != k.path by {
      if v.key[y].path == k.path { SameKey(t, v, x, y); }
    }
    AncStep(v.key[y].path, k.path);
    assert v.pos[v.key[y]] == y;
    if Anc(v.key[y].path, Left(k.path)) {
      AncestorsPresent(v, k.bin, v.key[y].path, Left(k.path));
    } else {
      AncestorsPresent(v, k.bin, v.key[y].path, Right(k.path));
    }
  }

  lemma ChildUnder(t: Tree, v: View, x: Addr, c: Addr, z: Addr)
    requires TreeOk(t, v) && x in v.key && x in t.child0 && x in t.child1
    requires c != 0 && (c == t.child0[x] || c == t.child1[x]) && Under(v, c, z)
    ensures Under(v, x, z) && z != x
  {
    ChildOf(t, v, x);
    AncTrans(v.key[z].path, v.key[c].path, v.key[x].path);
    AncDepth(v.key[z].path, v.key[c].path);
  }

  // ---- the walk along the bits of the request ---------------------------------

  /** rst hangs to the right of the path of the request, at depth e. */
  ghost predicate Untaken(v: View, rst: Addr, i: nat, w: Word, e: nat) {
    rst in v.key && v.key[rst] == Key(i, Right(PathOf(w, e))) && TopBit(ShiftN(w, e)) == 0
  }

  /** Node y cannot beat the remainder found so far, is still below t, or will be
      dealt with from the deepest untaken right subtree. */
  ghost predicate Covered1(size: map<Addr, int>, v: View, nb: int, rsize: int, t: Addr, rst: Addr, y: Addr)
    requires y in size && v.key.Keys <= size.Keys
  {
    (t != 0 && Under(v, t, y)) || Covered(size, v, nb, rsize, rst, y)
  }

  /** Whatever an older untaken subtree has to offer is beyond a newer one. */
  lemma OlderIsBeyond(t: Tree, size: map<Addr, int>, v: View, tip: map<int, Addr>, i: nat, w: Word,
                      rst: Addr, e: nat, x: Addr, d: nat, rt: Addr, y: Addr)
    requires TreeOk(t, v) && LargeOk(t, size, v, tip) && InRange(size) && v.key.Keys <= size.Keys && y in size && i < 32
    requires Untaken(v, rst, i, w, e) && e < d
    requires x in v.key && v.key[x] == Key(i, PathOf(w, d)) && Untaken(v, rt, i, w, d)
    requires Under(v, rst, y) || Beyond(size, v, rst, y)
    ensures Beyond(size, v, rt, y)
  {
    hide TreeOk, LargeOk;
    PathAnc(w, d, e + 1);
    forall z | Under(v, rt, z) ensures size[z] <= size[y] {
      AncTrans(v.key[z].path, v.key[rt].path, v.key[x].path);
      AncTrans(v.key[z].path, v.key[x].path, Left(PathOf(w, e)));
      if Under(v, rst, y) {
        LeftRight(t, size, v, tip, z, y, i, PathOf(w, e));
      } else {
        assert Under(v, rst, rst);
        LeftRight(t, size, v, tip, z, rst, i, PathOf(w, e));
      }
    }
  }

  /** One step down from x keeps every fitting node of the bin covered. */
  lemma StepDown(t: Tree, size: map<Addr, int>, v: View, tip: map<int, Addr>, nb: nat, rsize: int,
                 x: Addr, d: nat, rst: Addr, e: nat, y: Addr)
    requires TreeOk(t, v) && LargeOk(t, size, v, tip) && InRange(size) && v.key.Keys <= size.Keys
    requires 256 <= nb < 0x100_0000_0000 && y in v.key && size[y] >= nb && v.key[y].bin == TreeIndex(nb)
    requires x in v.key && v.key[x] == Key(TreeIndex(nb), PathOf(SizeWord(nb, TreeIndex(nb)), d))
    requires rst != 0 ==> Untaken(v, rst, TreeIndex(nb), SizeWord(nb, TreeIndex(nb)), e) && e < d
    requires Covered1(size, v, nb, rsize, x, rst, y)
    requires size[x] >= nb ==> size[x] - nb >= rsize
    ensures x in t.child0 && x in t.child1
    ensures var w := SizeWord(nb, TreeIndex(nb));
            var c := if TopBit(ShiftN(w, d)) == 1 then t.child1[x] else t.child0[x];
            var rt := t.child1[x];
            Covered1(size, v, nb, rsize, c, if rt != 0 && rt != c then rt else rst, y)
  {
    hide TreeOk, LargeOk, SizeWord, TreeIndex, Beyond;
    var i, w := TreeIndex(nb), SizeWord(nb, TreeIndex(nb));
    var one := TopBit(ShiftN(w, d)) == 1;
    ChildOf(t, v, x);
    var rt := t.child1[x];
    var c := if one then rt else t.child0[x];
    ChildrenDiffer(t, v, x);
    var rst' := if rt != 0 && rt != c then rt else rst;
    if Covered(size, v, nb, rsize, rst, y) && size[y] - nb < rsize {
      if rst' != rst {
        OlderIsBeyond(t, size, v, tip, i, w, rst, e, x, d, rt, y);
      }
    } else if Under(v, x, y) && y != x {
      ChildCases(t, v, x, y);
      BesidePath(t, size, v, tip, y, nb, d);
    }
  }

  lemma ChildrenDiffer(t: Tree, v: View, x: Addr)
    requires TreeOk(t, v) && x in v.key
    ensures x in t.child0 && x in t.child1 && (t.child0[x] == t.child1[x] ==> t.child0[x] == 0)
  {
    ChildOf(t, v, x);
  }

  // ---- the leftmost walk ---------------------------------------------------------

  /** The walk goes on to the left child if there is one, else to the right child. */
  function LeftmostChild(t: Tree, x: Addr): Addr
    requires x in t.child0 && x in t.child1
  {
    if t.child0[x] != 0 then t.child0[x] else t.child1[x]
  }

  lemma StepLeft(t: Tree, size: map<Addr, int>, v: View, tip: map<int, Addr>, nb: int, rsize: int, x: Addr, y: Addr)
    requires TreeOk(t, v) && LargeOk(t, size, v, tip) && InRange(size) && v.key.Keys <= size.Keys
    requires x in v.key && y in v.key && size[y] >= nb && Covered(size, v, nb, rsize, x, y)
    requires size[x] - nb >= rsize
    ensures x in t.child0 && x in t.child1
    ensures Covered(size, v, nb, rsize, LeftmostChild(t, x), y)
  {
    hide TreeOk, LargeOk;
    ChildOf(t, v, x);
    var c := LeftmostChild(t, x);
    assert Under(v, x, x);
    if size[y] - nb < rsize {
      if Under(v, x, y) {
        ChildCases(t, v, x, y);
        if !Under(v, c, y) {
          forall z | Under(v, c, z) ensures size[z] <= size[y] {
            LeftRight(t, size, v, tip, z, y, v.key[x].bin, v.key[x].path);
          }
        }
      }
    }
  }

  /** Below a child is below the node. */
  lemma LeftmostUnder(t: Tree, v: View, x: Addr, z: Addr)
    requires TreeOk(t, v) && x in v.key && x in t.child0 && x in t.child1
    requires LeftmostChild(t, x) != 0 && Under(v, LeftmostChild(t, x), z)
    ensures Under(v, x, z)
  {
    ChildUnder(t, v, x, LeftmostChild(t, x), z);
  }

  // ---- other bins ----------------------------------------------------------------

  /** A node in an earlier bin than the request is too small. */
  lemma EarlierBin(t: Tree, size: map<Addr, int>, v: View, tip: map<int, Addr>, y: Addr, nb: nat)
    requires LargeOk(t, size, v, tip) && InRange(size) && y in v.key && 256 <= nb < 0x100_0000_0000
    requires v.key[y].bin < TreeIndex(nb)
    ensures y in size && size[y] < nb
  {
    hide TreeIndex;
    KeysAreMembers(t, size, v, tip, y);
    IndexLess(size[y], nb);
  }

  lemma LaterBinFits(t: Tree, size: map<Addr, int>, v: View, tip: map<int, Addr>, y: Addr, nb: nat)
    requires LargeOk(t, size, v, tip) && InRange(size) && y in v.key && 256 <= nb < 0x100_0000_0000
    requires v.key[y].bin > TreeIndex(nb)
    ensures y in size && size[y] > nb
  {
    hide TreeIndex;
    KeysAreMembers(t, size, v, tip, y);
    IndexLess(nb, size[y]);
  }

  /** A node in a later bin is larger than every node in an earlier one. */
  lemma LaterBin(t: Tree, size: map<Addr, int>, v: View, tip: map<int, Addr>, y: Addr, z: Addr)
    requires LargeOk(t, size, v, tip) && InRange(size) && y in v.key && z in v.key && v.key[z].bin < v.key[y].bin
    ensures y in size && z in size && size[z] < size[y]
  {
    hide TreeIndex;
    KeysAreMembers(t, size, v, tip, y);
    KeysAreMembers(t, size, v, tip, z);
    IndexLess(size[z], size[y]);
  }

  /** The fitting nodes of the bin of the request are covered. */
  ghost predicate BinCovered(size: map<Addr, int>, v: View, nb: nat, rsize: int, t: Addr, rst: Addr) {
    v.key.Keys <= size.Keys &&
    forall y {:trigger y in v.key} :: y in v.key && v.key[y].bin == TreeIndex(nb) && size[y] >= nb ==>
      Covered1(size, v, nb, rsize, t, rst, y)
  }

  /** Every fitting node of the bins lo to hi is covered by rsize and the walk from t. */
  ghost predicate AllCovered(size: map<Addr, int>, v: View, nb: nat, rsize: int, t: Addr, lo: nat, hi: nat) {
    v.key.Keys <= size.Keys &&
    forall y {:trigger y in v.key} :: y in v.key && lo <= v.key[y].bin <= hi && size[y] >= nb ==>
      Covered(size, v, nb, rsize, t, y)
  }

  /** Everything the walk from t can still meet fits. */
  ghost predicate AllFit(size: map<Addr, int>, v: View, nb: nat, t: Addr) {
    forall z {:trigger Under(v, t, z)} :: Under(v, t, z) ==> z in size && size[z] >= nb
  }

  lemma RootCovers(t: Tree, size: map<Addr, int>, v: View, tip: map<int, Addr>, nb: nat, rsize: int, r: Addr)
    requires TreeOk(t, v) && LargeOk(t, size, v, tip) && r != 0 && r in v.key && v.key[r] == Key(TreeIndex(nb), Top)
    ensures BinCovered(size, v, nb, rsize, r, 0)
  {
    hide TreeOk, LargeOk, TreeIndex;
    KeysInSize(t, size, v, tip);
    forall y | y in v.key && v.key[y].bin == TreeIndex(nb) && size[y] >= nb
      ensures Covered1(size, v, nb, rsize, r, 0, y)
    {
      AncTop(v.key[y].path);
    }
  }

  lemma BitsStep(t: Tree, size: map<Addr, int>, v: View, tip: map<int, Addr>, nb: nat, rsize0: int, rsize: int,
                 x: Addr, d: nat, rst: Addr, e: nat)
    requires TreeOk(t, v) && LargeOk(t, size, v, tip) && InRange(size) && BinCovered(size, v, nb, rsize0, x, rst)
    requires 256 <= nb < 0x100_0000_0000 && rsize <= rsize0
    requires x in v.key && x in size && v.key[x] == Key(TreeIndex(nb), PathOf(SizeWord(nb, TreeIndex(nb)), d))
    requires rst != 0 ==> Untaken(v, rst, TreeIndex(nb), SizeWord(nb, TreeIndex(nb)), e) && e < d
    requires size[x] >= nb ==> size[x] - nb >= rsize
    ensures x in t.child0 && x in t.child1
    ensures var w := SizeWord(nb, TreeIndex(nb));
            var c := if TopBit(ShiftN(w, d)) == 1 then t.child1[x] else t.child0[x];
            var rt := t.child1[x];
            BinCovered(size, v, nb, rsize, c, if rt != 0 && rt != c then rt else rst)
  {
    hide TreeOk, LargeOk, TreeIndex, SizeWord, InRange, Beyond, Under;
    ChildOf(t, v, x);
    var w := SizeWord(nb, TreeIndex(nb));
    var c := if TopBit(ShiftN(w, d)) == 1 then t.child1[x] else t.child0[x];
    var rt := t.child1[x];
    forall y | y in v.key && v.key[y].bin == TreeIndex(nb) && size[y] >= nb
      ensures Covered1(size, v, nb, rsize, c, if rt != 0 && rt != c then rt else rst, y)
    {
      assert Covered1(size, v, nb, rsize0, x, rst, y);
      StepDown(t, size, v, tip, nb, rsize, x, d, rst, e, y);
    }
  }

  /** When the walk along the bits runs out, only the untaken subtree is left, and all of it fits. */
  lemma BitsEnd(t: Tree, size: map<Addr, int>, v: View, tip: map<int, Addr>, nb: nat, rsize: int, rst: Addr, e: nat)
    requires LargeOk(t, size, v, tip) && InRange(size) && BinCovered(size, v, nb, rsize, 0, rst)
    requires 256 <= nb < 0x100_0000_0000
    requires rst != 0 ==> Untaken(v, rst, TreeIndex(nb), SizeWord(nb, TreeIndex(nb)), e)
    ensures AllCovered(size, v, nb, rsize, rst, TreeIndex(nb), TreeIndex(nb))
    ensures rst != 0 ==> AllFit(size, v, nb, rst)
  {
    hide LargeOk, TreeIndex, SizeWord, InRange, Beyond, Covered;
    forall y | y in v.key && v.key[y].bin == TreeIndex(nb) && size[y] >= nb
      ensures Covered(size, v, nb, rsize, rst, y)
    {
      assert Covered1(size, v, nb, rsize, 0, rst, y);
    }
    if rst != 0 {
      forall z | Under(v, rst, z) ensures z in size && size[z] >= nb {
        BesidePath(t, size, v, tip, z, nb, e);
      }
    }
  }

  /** A perfect fit covers everything. */
  lemma PerfectFit(size: map<Addr, int>, v: View, nb: nat, t: Addr, lo: nat, hi: nat)
    requires v.key.Keys <= size.Keys
    ensures AllCovered(size, v, nb, 0, t, lo, hi)
  {
  }

  /** What the bin of the request leaves over covers the later bins as well, unless
      that bin had nothing to offer. */
  lemma OtherBins(t: Tree, size: map<Addr, int>, v: View, tip: map<int, Addr>, nb: nat, rsize: int, x: Addr, c: Addr)
    requires LargeOk(t, size, v, tip) && InRange(size) && 256 <= nb < 0x100_0000_0000
    requires AllCovered(size, v, nb, rsize, x, TreeIndex(nb), TreeIndex(nb))
    requires c != 0 ==> c in v.key && c in size && size[c] - nb == rsize && v.key[c].bin == TreeIndex(nb)
    requires x != 0 ==> x in v.key && v.key[x].bin == TreeIndex(nb)
    requires x != 0 || c != 0
    ensures AllCovered(size, v, nb, rsize, x, 0, 31)
  {
    hide LargeOk, TreeIndex, InRange;
    forall y | y in v.key && size[y] >= nb ensures Covered(size, v, nb, rsize, x, y) {
      if v.key[y].bin < TreeIndex(nb) {
        EarlierBin(t, size, v, tip, y, nb);
      } else if v.key[y].bin > TreeIndex(nb) {
        if c != 0 {
          LaterBin(t, size, v, tip, y, c);
        } else {
          forall z | Under(v, x, z) ensures size[z] <= size[y] {
            LaterBin(t, size, v, tip, y, z);
          }
        }
      }
    }
  }

  /** The bin of the request has nothing that fits: the next non-empty bin covers the rest. */
  lemma NextBin(t: Tree, size: map<Addr, int>, v: View, tip: map<int, Addr>, nb: nat, i: nat, x: Addr)
    requires TreeOk(t, v) && LargeOk(t, size, v, tip) && InRange(size) && 256 <= nb < 0x100_0000_0000
    requires AllCovered(size, v, nb, WORD - nb, 0, TreeIndex(nb), TreeIndex(nb))
    requires forall j {:trigger j in t.marks} :: j in t.marks && j > TreeIndex(nb) ==> x != 0 && j >= i
    requires x != 0 ==> x in v.key && v.key[x] == Key(i, Top) && i > TreeIndex(nb)
    ensures AllCovered(size, v, nb, WORD - nb, x, 0, 31)
    ensures x != 0 ==> AllFit(size, v, nb, x)
  {
    hide LargeOk, TreeIndex, TreeOk;
    forall y | y in v.key && size[y] >= nb ensures Covered(size, v, nb, WORD - nb, x, y) {
      KeysAreMembers(t, size, v, tip, y);
      AncTop(v.key[y].path);
      if v.key[y].bin < TreeIndex(nb) {
        EarlierBin(t, size, v, tip, y, nb);
      } else if v.key[y].bin > TreeIndex(nb) {
        BinMarked(t, v, y);
        if v.key[y].bin > i {
          forall z | Under(v, x, z) ensures size[z] <= size[y] {
            LaterBin(t, size, v, tip, y, z);
          }
        }
      }
    }
    if x != 0 {
      forall z | Under(v, x, z) ensures z in size && size[z] >= nb {
        LaterBinFits(t, size, v, tip, z, nb);
      }
    }
  }

  lemma BinMarked(t: Tree, v: View, y: Addr)
    requires TreeOk(t, v) && y in v.key
    ensures v.key[y].bin in t.marks
  {
    assert v.pos[v.key[y]] == y;
    AncTop(v.key[y].path);
    AncestorsPresent(v, v.key[y].bin, v.key[y].path, Top);
  }

  lemma LeftmostStep(t: Tree, size: map<Addr, int>, v: View, tip: map<int, Addr>, nb: nat, rsize0: int, rsize: int, x: Addr)
    requires TreeOk(t, v) && LargeOk(t, size, v, tip) && InRange(size) && x in v.key && x in size
    requires AllCovered(size, v, nb, rsize0, x, 0, 31) && 0 <= rsize <= rsize0 && (rsize != 0 ==> AllFit(size, v, nb, x))
    requires size[x] >= nb ==> size[x] - nb >= rsize
    ensures x in t.child0 && x in t.child1
    ensures var c := LeftmostChild(t, x);
            AllCovered(size, v, nb, rsize, c, 0, 31) && (c != 0 && rsize != 0 ==> AllFit(size, v, nb, c))
  {
    hide TreeOk, LargeOk, InRange;
    ChildOf(t, v, x);
    var c := LeftmostChild(t, x);
    forall y | y in v.key && 0 <= v.key[y].bin <= 31 && size[y] >= nb ensures Covered(size, v, nb, rsize, c, y) {
      assert Covered(size, v, nb, rsize0, x, y);
      if rsize != 0 {
        assert Under(v, x, x);
        StepLeft(t, size, v, tip, nb, rsize, x, y);
      }
    }
    if c != 0 && rsize != 0 {
      forall z | Under(v, c, z) ensures z in size && size[z] >= nb {
        LeftmostUnder(t, v, x, z);
      }
    }
  }

  /** Nothing is left to walk: the remainder found is the smallest of all. */
  lemma BestFound(t: Tree, size: map<Addr, int>, v: View, tip: map<int, Addr>, nb: nat, rsize: int, y: Addr)
    requires TreeOk(t, v) && LargeOk(t, size, v, tip) && AllCovered(size, v, nb, rsize, 0, 0, 31)
    requires y in size && !IsSmall(size[y]) && size[y] >= nb
    ensures size[y] - nb >= rsize
  {
    hide TreeOk;
    assert MemberOk(t, size, v, tip, y);
    var h := tip[size[y]];
    assert Covered(size, v, nb, rsize, 0, h) by { ChildOf(t, v, h); }
  }

  /** A node is in the bin of its size. */
  lemma NodeInBin(t: Tree, size: map<Addr, int>, v: View, tip: map<int, Addr>, x: Addr)
    requires LargeOk(t, size, v, tip) && x in v.key
    ensures x in size && v.key[x].bin == TreeIndex(size[x])
  {
  }

  lemma NodeIsWord(t: Tree, size: map<Addr, int>, v: View, tip: map<int, Addr>, x: Addr)
    requires LargeOk(t, size, v, tip) && x in v.key
    ensures x in size && 256 <= size[x] < WORD
  {
    KeysAreMembers(t, size, v, tip, x);
  }

  lemma LargeIsWord(t: Tree, size: map<Addr, int>, v: View, tip: map<int, Addr>, y: Addr)
    requires LargeOk(t, size, v, tip) && y in size && !IsSmall(size[y])
    ensures size[y] < WORD
  {
    assert MemberOk(t, size, v, tip, y);
  }

  lemma RightUntaken(t: Tree, v: View, x: Addr, rt: Addr, c: Addr, i: nat, w: Word, d: nat)
    requires TreeOk(t, v) && x in v.key && v.key[x] == Key(i, PathOf(w, d)) && x in t.child0 && x in t.child1
    requires rt == t.child1[x] && rt != 0 && rt != c
    requires c == if TopBit(ShiftN(w, d)) == 1 then t.child1[x] else t.child0[x]
    ensures Untaken(v, rt, i, w, d)
  {
    ChildOf(t, v, x);
  }

  lemma MarksBelow32(t: Tree, v: View)
    requires TreeOk(t, v)
    ensures forall i :: i in t.marks ==> i < 32
  {
  }

  lemma EmptyBin(t: Tree, size: map<Addr, int>, v: View, tip: map<int, Addr>, nb: nat)
    requires TreeOk(t, v) && LargeOk(t, size, v, tip) && |t.root| == 32 && t.root[TreeIndex(nb)] == 0
    ensures AllCovered(size, v, nb, WORD - nb, 0, TreeIndex(nb), TreeIndex(nb))
  {
    hide TreeOk, LargeOk, TreeIndex;
    KeysInSize(t, size, v, tip);
    RootOf(t, v, TreeIndex(nb));
    forall y | y in v.key ensures v.key[y].bin != TreeIndex(nb) {
      BinMarked(t, v, y);
    }
  }

  /** From the root of the first non-empty bin every large chunk is covered. */
  lemma FirstBin(t: Tree, size: map<Addr, int>, v: View, tip: map<int, Addr>, nb: nat, i: nat, x: Addr)
    requires TreeOk(t, v) && LargeOk(t, size, v, tip) && InRange(size) && nb <= 256
    requires x in v.key && v.key[x] == Key(i, Top) && forall j :: j in t.marks ==> i <= j
    ensures AllCovered(size, v, nb, WORD - nb, x, 0, 31) && AllFit(size, v, nb, x)
  {
    hide LargeOk, TreeOk;
    KeysInSize(t, size, v, tip);
    SlotOf(t, v, x);
    forall y | y in v.key && size[y] >= nb ensures Covered(size, v, nb, WORD - nb, x, y) {
      AncTop(v.key[y].path);
      BinMarked(t, v, y);
      if v.key[y].bin > i {
        forall z | Under(v, x, z) ensures size[z] <= size[y] {
          LaterBin(t, size, v, tip, y, z);
        }
      }
    }
    forall z | Under(v, x, z) ensures z in size && size[z] >= nb {
      KeysAreMembers(t, size, v, tip, z);
    }
  }
}
