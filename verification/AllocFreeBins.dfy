/** The bins of the allocator as one mutable object (lj_alloc.c): the insert and
    unlink macros and the searches of tmalloc_large and tmalloc_small. */
module AllocFreeBins {
  import opened AllocBits
  import opened AllocRings
  import opened AllocTrie
  import opened AllocBins
  import opened AllocFit

  class FreeBins {
    var smallmap: set<nat>
    var links: Links
    var tree: Tree
    ghost var size: map<Addr, int>
    ghost var view: View
    ghost var tip: map<int, Addr>
    /** Every link word stored to so far. */
    ghost var wrote: set<Addr>

    /** init_bins: everything is empty, and each small bin is linked to itself. */
    constructor ()
      ensures Valid() && Members(size) == map[]
      ensures wrote == {}
    {
      smallmap := {};
      links := Links(map i: nat | i < 32 :: Bin(i) := Bin(i), map i: nat | i < 32 :: Bin(i) := Bin(i));
      tree := Tree(seq(32, _ => 0), {}, map[], map[], map[], map[]);
      size := map[];
      view := View(map[], map[]);
      tip := map[];
      wrote := {};
    }

    ghost predicate Valid()
      reads this
    {
      BinsOk(links, tree, smallmap, size, view, tip)
    }

    /** The word stores since the state `before` went to link words of the given chunks. */
    ghost predicate WroteOnly(before: set<Addr>, chunks: map<Addr, int>)
      reads this
    {
      LinksOnly(chunks, before, wrote)
    }

    /** insert_small_chunk */
    method InsertSmall(p: Addr, s: nat)
      requires Valid() && p > 0 && p !in size && IsSmall(s) && s % 8 == 0
      modifies this
      ensures Valid() && Members(size) == Members(old(size))[p := s]
      ensures WroteOnly(old(wrote), size)
    {
      hide BinsOk, Members, LinkWord;
      var i := s / 8;
      var b := Bin(i);
      var f := b;
      SmallInsert(links, tree, smallmap, size, view, tip, p, s);
      size := PushSize(size, i in smallmap, b, p, s);
      if i !in smallmap {
        smallmap := smallmap + {i};
      } else {
        smallmap := smallmap + {i};
        f := links.fd[b];
      }
      links := Links(links.fd[b := p], links.bk[f := p]);
      links := Links(links.fd[p := f], links.bk[p := b]);
      IsLinkWord(size, b);
      IsLinkWord(size, f);
      IsLinkWord(size, p);
      wrote := wrote + {b + 16, f + 24, p + 16, p + 24};
    }

    /** unlink_small_chunk */
    method UnlinkSmall(p: Addr, s: nat)
      requires Valid() && p > 0 && p in size && size[p] == s && IsSmall(s)
      modifies this
      ensures Valid() && Members(size) == Members(old(size)) - {p}
      ensures WroteOnly(old(wrote), old(size))
    {
      hide BinsOk, Members, LinkWord;
      SmallRemove(links, tree, smallmap, size, view, tip, p, s);
      var f, b := links.fd[p], links.bk[p];
      var i := s / 8;
      IsLinkWord(size, f);
      IsLinkWord(size, b);
      size := PopSize(size, f == b, p, s);
      if f == b {
        smallmap := smallmap - {i};
      } else {
        links := Links(links.fd, links.bk[f := b]);
        links := Links(links.fd[b := f], links.bk);
        wrote := wrote + {f + 24, b + 16};
      }
    }

    /** unlink_first_small_chunk: the chunk behind the bin leaves. */
    method UnlinkFirstSmall(b: Addr, p: Addr, i: nat)
      requires Valid() && i in smallmap && b == Bin(i) && b in links.fd && p == links.fd[b]
      modifies this
      ensures p in old(size) && p > 0 && old(size)[p] == 8 * i
      ensures Valid() && Members(size) == Members(old(size)) - {p}
      ensures WroteOnly(old(wrote), old(size))
    {
      hide BinsOk, Members, LinkWord;
      SmallFirst(links, tree, smallmap, size, view, tip, i);
      SmallRemove(links, tree, smallmap, size, view, tip, p, 8 * i);
      var f := links.fd[p];
      IsLinkWord(size, f);
      IsLinkWord(size, links.bk[p]);
      size := PopSize(size, f == b, p, 8 * i);
      if b == f {
        smallmap := smallmap - {i};
      } else {
        links := Links(links.fd[b := f], links.bk);
        links := Links(links.fd, links.bk[f := b]);
        wrote := wrote + {b + 16, f + 24};
      }
    }

    /** insert_large_chunk */
    method InsertLarge(x: Addr, s: nat, heads: map<Addr, Head>)
      requires Valid() && x > 0 && x !in size && !IsSmall(s) && s < WORD && HeadsAgree(heads, size)
      modifies this
      ensures Valid() && Members(size) == Members(old(size))[x := s]
      ensures WroteOnly(old(wrote), size)
    {
      hide BinsOk, Members, LinksOnly, HeadsAgree, SizeWord, TreeIndex, TreeOk, LargeOk, SmallOk, RingsOk;
      var i := TreeIndex(s);
      ClearWords(links, tree, smallmap, size, view, tip, x, i);
      tree := tree.(index := tree.index[x := i], child0 := tree.child0[x := 0], child1 := tree.child1[x := 0]);
      MembersAdd(size, x, s);
      NodeWords(size[x := s], wrote, x);
      ghost var w0 := wrote;
      wrote := wrote + {x + 16, x + 24, x + 32, x + 40, x + 48, x + 56};
      BinsParts(links, tree, smallmap, size, view, tip);
      RootOf(tree, view, i);
      if i !in tree.marks {
        NewRoot(links, tree, smallmap, size, view, tip, x, s);
        view := AddView(view, x, Key(i, Top));
        tip := tip[s := x];
        size := size[x := s];
        tree := tree.(marks := tree.marks + {i});
        tree := tree.(root := tree.root[i := x]);
        tree := tree.(parent := tree.parent[x := RootSlot(i)]);
        links := Links(links.fd[x := x], links.bk[x := x]);
      } else {
        ghost var w1 := wrote;
        var t, k;
        ghost var d;
        t, k, d := FindSlot(s, i, heads);
        if heads[t].size != s {
          LinkLeaf(x, s, i, t, k, d);
        } else {
          LinkMember(x, s, i, t);
        }
        LinksThen(size, w0, w1, wrote);
      }
    }

    /** Every node above depth d on the path of size s has another size. */
    ghost predicate PassedBy(s: nat, i: nat, w: Word, d: nat)
      reads this
    {
      forall e: nat {:trigger PathOf(w, e)} :: e < d && Key(i, PathOf(w, e)) in view.pos ==>
        view.pos[Key(i, PathOf(w, e))] in size && size[view.pos[Key(i, PathOf(w, e))]] != s
    }

    /** The walk of insert_large_chunk: down from the root of bin i along the bits of
        s, to the node of size s or to the node whose next child word is empty. */
    method FindSlot(s: nat, i: nat, heads: map<Addr, Head>) returns (t: Addr, k: Word, ghost d: nat)
      requires Valid() && !IsSmall(s) && s < WORD && HeadsAgree(heads, size) && i == TreeIndex(s)
      requires |tree.root| == 32 && tree.root[i] in view.key && view.key[tree.root[i]] == Key(i, Top)
      ensures t in view.key && t in size && t in heads && heads[t].size == size[t] && t > 0 && !IsSmall(size[t])
      ensures view.key[t] == Key(i, PathOf(SizeWord(s, i), d)) && k == ShiftN(SizeWord(s, i), d)
      ensures size[t] != s ==>
                && t in tree.child0 && t in tree.child1
                && (if TopBit(k) == 1 then tree.child1[t] else tree.child0[t]) == 0
      ensures PassedBy(s, i, SizeWord(s, i), d)
    {
      hide BinsOk, SizeWord, TreeIndex, HeadsAgree, HeadOk, NodeOk, TreeOk, LargeOk, RingsOk, SmallOk;
      ghost var w := SizeWord(s, i);
      BinsParts(links, tree, smallmap, size, view, tip);
      LargeNodes(tree, size, view, tip);
      t := tree.root[i];
      k := SizeWord(s, i);
      d := 0;
      while true
        invariant t in view.key && view.key[t] == Key(i, PathOf(w, d)) && k == ShiftN(w, d)
        invariant PassedBy(s, i, w, d)
        decreases Deeper(view, d)
      {
        BinsParts(links, tree, smallmap, size, view, tip);
        KeysAreMembers(tree, size, view, tip, t);
        SlotOf(tree, view, t);
        HeadSize(heads, size, t);
        Descend(tree, view, t, i, w, d);
        if heads[t].size == s {
          return;
        }
        var c := if TopBit(k) == 1 then tree.child1[t] else tree.child0[t];
        if c == 0 {
          return;
        }
        DeeperShrinks(view, c, d);
        k := Shl1(k);
        t := c;
        d := d + 1;
      }
    }

    /** The new node is hung below t, in the child word chosen by the next bit. */
    method LinkLeaf(x: Addr, s: nat, i: nat, t: Addr, k: Word, ghost d: nat)
      requires Valid() && x > 0 && x !in size && !IsSmall(s) && s < WORD && i == TreeIndex(s)
      requires x in tree.child0 && tree.child0[x] == 0 && x in tree.child1 && tree.child1[x] == 0
      requires x in tree.index && tree.index[x] == i
      requires t in view.key && t in size && size[t] != s && !IsSmall(size[t])
      requires view.key[t] == Key(i, PathOf(SizeWord(s, i), d)) && k == ShiftN(SizeWord(s, i), d)
      requires t in tree.child0 && t in tree.child1
      requires (if TopBit(k) == 1 then tree.child1[t] else tree.child0[t]) == 0
      requires PassedBy(s, i, SizeWord(s, i), d)
      modifies this
      ensures Valid() && size == old(size)[x := s] && WroteOnly(old(wrote), size)
    {
      hide BinsOk, LinkWord, SizeWord, TreeIndex;
      SlotEmpty(links, tree, smallmap, size, view, tip, t, i, SizeWord(s, i), d);
      NewLeaf(links, tree, smallmap, size, view, tip, x, s, d, t);
      view := AddView(view, x, Key(i, PathOf(SizeWord(s, i), d + 1)));
      tip := tip[s := x];
      size := size[x := s];
      IsLinkWord(size, t);
      if TopBit(k) == 1 {
        tree := tree.(child1 := tree.child1[t := x]);
        wrote := wrote + {t + 40};
      } else {
        tree := tree.(child0 := tree.child0[t := x]);
        wrote := wrote + {t + 32};
      }
      tree := tree.(parent := tree.parent[x := t]);
      links := Links(links.fd[x := x], links.bk[x := x]);
    }

    /** The new chunk joins the ring of the node t of its size. */
    method LinkMember(x: Addr, s: nat, i: nat, t: Addr)
      requires Valid() && x > 0 && x !in size && !IsSmall(s) && s < WORD && i == TreeIndex(s)
      requires x in tree.child0 && tree.child0[x] == 0 && x in tree.child1 && tree.child1[x] == 0
      requires x in tree.index && tree.index[x] == i
      requires t in view.key && t in size && size[t] == s
      modifies this
      ensures Valid() && size == old(size)[x := s] && WroteOnly(old(wrote), size)
    {
      hide BinsOk, LinkWord, TreeIndex;
      LargeInsertMember(links, tree, smallmap, size, view, tip, x, s, t);
      assert JoinTree(tree, x, i) == tree.(parent := tree.parent[x := 0]) by {
        assert tree.child0[x := 0] == tree.child0 && tree.child1[x := 0] == tree.child1 && tree.index[x := i] == tree.index;
      }
      var f := links.fd[t];
      size := size[x := s];
      IsLinkWord(size, t);
      IsLinkWord(size, f);
      links := Links(links.fd[t := x], links.bk[f := x]);
      links := Links(links.fd[x := f], links.bk[x := t]);
      tree := tree.(parent := tree.parent[x := 0]);
      wrote := wrote + {t + 16, f + 24};
    }

    /** Every tree node of the view v is a large binned chunk. */
    ghost predicate NodesAreLarge(v: View)
      reads this`size
    {
      forall y {:trigger y in v.key} :: y in v.key ==> y in size && !IsSmall(size[y])
    }

    /** The second half of unlink_large_chunk: the word that points at x is redirected
        to r (0 if nothing replaces x), and r takes over the parent and the children. */
    method ReplaceInTree(x: Addr, xp: Addr, r: Addr, ghost v: View)
      requires TreeOk(tree, v) && x in v.key && x in tree.parent && xp == tree.parent[x] && NodesAreLarge(v)
      requires r != 0 ==> r > 0 && r !in v.key && r in tree.child0 && r in tree.child1 && tree.child0[r] == 0 && tree.child1[r] == 0
      requires r != 0 ==> r in size && !IsSmall(size[r])
      modifies this`tree, this`wrote
      ensures |old(tree).root| == 32 && v.key[x].bin < 32 && NodeOk(old(tree), v, x)
      ensures tree == if r != 0 then SwapTree(old(tree), x, r, v.key[x]) else DropTree(old(tree), x, v.key[x])
      ensures WroteOnly(old(wrote), size)
    {
      hide TreeOk, LinkWord;
      SlotOf(tree, v, x);
      ChildOf(tree, v, x);
      ghost var t0, k := tree, v.key[x];
      var i := tree.index[x];
      if x == tree.root[i] {
        tree := tree.(root := tree.root[i := r]);
        if r == 0 {
          tree := tree.(marks := tree.marks - {i});
        }
      } else {
        assert xp in v.key;
        IsLinkWord(size, xp);
        if tree.child0[xp] == x {
          tree := tree.(child0 := tree.child0[xp := r]);
          wrote := wrote + {xp + 32};
        } else {
          tree := tree.(child1 := tree.child1[xp := r]);
          wrote := wrote + {xp + 40};
        }
      }
      if r != 0 {
        assert tree == SetSlot(t0, xp, k, r);
        assert r != xp && x != r;
        AdoptChildren(x, xp, r, t0, k);
      }
    }

    method AdoptChildren(x: Addr, xp: Addr, r: Addr, ghost t0: Tree, ghost k: Key)
      requires |t0.root| == 32 && k.bin < 32 && tree == SetSlot(t0, xp, k, r) && r != xp && x != r && r != 0 && x != xp
      requires x in t0.child0 && x in t0.child1 && x in t0.parent && t0.parent[x] == xp
      requires r in t0.child0 && r in t0.child1 && t0.child0[r] == 0 && t0.child1[r] == 0
      requires t0.child0[x] != 0 ==> t0.child0[x] in size && !IsSmall(size[t0.child0[x]])
      requires t0.child1[x] != 0 ==> t0.child1[x] in size && !IsSmall(size[t0.child1[x]])
      requires r in size && !IsSmall(size[r])
      modifies this`tree, this`wrote
      ensures tree == SwapTree(t0, x, r, k)
      ensures WroteOnly(old(wrote), size)
    {
      hide LinkWord;
      IsLinkWord(size, r);
      ghost var s := tree;
      tree := tree.(parent := tree.parent[r := xp]);
      var c0 := tree.child0[x];
      assert c0 == t0.child0[x];
      if c0 != 0 {
        IsLinkWord(size, c0);
        tree := tree.(child0 := tree.child0[r := c0]);
        tree := tree.(parent := tree.parent[c0 := r]);
        wrote := wrote + {c0 + 48};
      } else {
        assert s.child0[r := 0] == s.child0;
      }
      var c1 := tree.child1[x];
      assert c1 == t0.child1[x];
      if c1 != 0 {
        IsLinkWord(size, c1);
        tree := tree.(child1 := tree.child1[r := c1]);
        tree := tree.(parent := tree.parent[c1 := r]);
        wrote := wrote + {c1 + 48};
      } else {
        assert s.child1[r := 0] == s.child1;
      }
      wrote := wrote + {r + 32, r + 40, r + 48};
    }

    /** The first half of unlink_large_chunk for a node without other chunks of its
        size: a leaf below x, preferring right children, is cut off and returned. */
    method CutLeaf(x: Addr) returns (r: Addr)
      requires Valid() && x in view.key && NodesAreLarge(view)
      modifies this`tree, this`wrote
      ensures x in old(tree).child0 && x in old(tree).child1
      ensures r == 0 ==> tree == old(tree) && tree.child0[x] == 0 && tree.child1[x] == 0
      ensures r != 0 ==>
                && r in view.key && r != x && view.key[r].bin == view.key[x].bin && Anc(view.key[r].path, view.key[x].path)
                && r in old(tree).child0 && r in old(tree).child1 && old(tree).child0[r] == 0 && old(tree).child1[r] == 0
                && |old(tree).root| == 32 && view.key[r].bin < 32 && r in old(tree).parent
                && tree == DropTree(old(tree), r, view.key[r])
      ensures WroteOnly(old(wrote), size)
    {
      hide BinsOk, TreeOk, LinkWord, RingsOk, LargeOk, SmallOk;
      BinsParts(links, tree, smallmap, size, view, tip);
      ChildOf(tree, view, x);
      var rp, side := x, true;
      r := tree.child1[x];
      if r == 0 {
        side := false;
        r := tree.child0[x];
      }
      if r != 0 {
        ChildOf(tree, view, r);
        while tree.child1[r] != 0 || tree.child0[r] != 0
          invariant tree == old(tree) && wrote == old(wrote) && TreeOk(tree, view)
          invariant r in view.key && rp in view.key && r in tree.child0 && r in tree.child1
          invariant rp in tree.child0 && rp in tree.child1
          invariant view.key[r].bin == view.key[x].bin && Anc(view.key[rp].path, view.key[x].path)
          invariant view.key[r].path == if side then Right(view.key[rp].path) else Left(view.key[rp].path)
          invariant view.key[rp].bin == view.key[x].bin
          decreases Deeper(view, Depth(view.key[r].path))
        {
          ChildOf(tree, view, r);
          ghost var was := r;
          rp := r;
          if tree.child1[r] != 0 {
            side := true;
            r := tree.child1[r];
          } else {
            side := false;
            r := tree.child0[r];
          }
          ChildOf(tree, view, r);
          DeeperShrinks(view, r, Depth(view.key[was].path));
        }
        SlotOf(tree, view, r);
        AncDepth(view.key[rp].path, view.key[x].path);
        assert rp == tree.parent[r] by {
          ChildOf(tree, view, rp);
          SameKey(tree, view, rp, tree.parent[r]);
        }
        IsLinkWord(size, rp);
        if side {
          tree := tree.(child1 := tree.child1[rp := 0]);
          wrote := wrote + {rp + 40};
        } else {
          tree := tree.(child0 := tree.child0[rp := 0]);
          wrote := wrote + {rp + 32};
        }
      }
    }

    /** unlink_large_chunk */
    method UnlinkLarge(x: Addr)
      requires Valid() && x > 0 && x in size && !IsSmall(size[x])
      modifies this
      ensures Valid() && Members(size) == Members(old(size)) - {x}
      ensures WroteOnly(old(wrote), old(size))
    {
      hide BinsOk, Members, LinkWord, MemberOk, HeadOk, NodeOk, LargeOk, TreeOk, SmallOk, RingsOk;
      BinsParts(links, tree, smallmap, size, view, tip);
      ParentWord(tree, size, view, tip, x);
      LargeNodes(tree, size, view, tip);
      RingStep(links, size, x);
      MembersDrop(size, x);
      var xp := tree.parent[x];
      if links.bk[x] != x {
        var f := links.fd[x];
        var r := links.bk[x];
        IsLinkWord(size, f);
        IsLinkWord(size, r);
        ghost var l0 := links;
        links := Links(links.fd, links.bk[f := r]);
        links := Links(links.fd[r := f], links.bk);
        wrote := wrote + {f + 24, r + 16};
        assert links == Detach(l0, x);
        if xp != 0 {
          LargePromote(l0, tree, smallmap, size, view, tip, x);
          MemberWords(tree, size, view, tip, r);
          ReplaceInTree(x, xp, r, view);
          tip := tip[size[x] := r];
          view := SwapView(view, x, r);
        } else {
          LargeRemoveMember(l0, tree, smallmap, size, view, tip, x);
        }
        size := size - {x};
      } else {
        AloneIsHead(links, tree, size, view, tip, x);
        ghost var t0 := tree;
        var r := CutLeaf(x);
        if r != 0 {
          LargeRemoveInner(links, t0, smallmap, size, view, tip, x, r);
          RemoveLeaf(t0, view, r);
          LeafWords(t0, view, r, x);
          view := DropView(view, r);
        } else {
          LargeRemoveLeaf(links, t0, smallmap, size, view, tip, x);
        }
        ReplaceInTree(x, xp, r, view);
        view := if r != 0 then SwapView(view, x, r) else DropView(view, x);
        tip := tip - {size[x]};
        size := size - {x};
      }
    }

    /** v and rsize are the best remainder seen so far; without one, rsize is -nb. */
    ghost predicate Candidate(nb: nat, v: Addr, rsize: int)
      reads this
    {
      if v == 0 then rsize == WORD - nb
      else v > 0 && v in view.key && v in size && nb <= size[v] < WORD && rsize == size[v] - nb
    }

    /** Bin indices mean what they should for the request and for every chunk. */
    ghost predicate Ordered(nb: nat)
      reads this`size
    {
      InRange(size) && nb < 0x100_0000_0000
    }

    /** The first loop of tmalloc_large: down the bin of the request along its bits. */
    method WalkBits(nb: nat, heads: map<Addr, Head>) returns (t: Addr, v: Addr, rsize: Word)
      requires Valid() && HeadsAgree(heads, size) && 256 <= nb < WORD
      requires |tree.root| == 32 && tree.root[TreeIndex(nb)] != 0
      ensures Candidate(nb, v, rsize) && (v != 0 ==> view.key[v].bin == TreeIndex(nb))
      ensures t != 0 ==> t in view.key && view.key[t].bin == TreeIndex(nb)
      ensures Ordered(nb) ==> AllCovered(size, view, nb, rsize, t, TreeIndex(nb), TreeIndex(nb))
      ensures Ordered(nb) && t != 0 && rsize != 0 ==> AllFit(size, view, nb, t)
    {
      hide BinsOk, TreeOk, LargeOk, SmallOk, RingsOk, HeadsAgree, TreeIndex, SizeWord, HeadOk, NodeOk,
           MemberOk, InRange, BinCovered, AllCovered, AllFit;
      var idx := TreeIndex(nb);
      ghost var w := SizeWord(nb, idx);
      ghost var d, e := 0, 0;
      var rst: Addr := 0;
      v, rsize := 0, Sub(0, nb);
      t := tree.root[idx];
      var sizebits := SizeWord(nb, idx);
      BinsParts(links, tree, smallmap, size, view, tip);
      LargeNodes(tree, size, view, tip);
      RootOf(tree, view, idx);
      KeysInSize(tree, size, view, tip);
      RootCovers(tree, size, view, tip, nb, rsize, t);
      while true
        invariant t in view.key && view.key[t] == Key(idx, PathOf(w, d)) && sizebits == ShiftN(w, d)
        invariant rst != 0 ==> Untaken(view, rst, idx, w, e) && e < d
        invariant Candidate(nb, v, rsize) && (v != 0 ==> view.key[v].bin == idx)
        invariant Ordered(nb) ==> BinCovered(size, view, nb, rsize, t, rst)
        decreases Deeper(view, d)
      {
        SlotOf(tree, view, t);
        HeadSize(heads, size, t);
        Descend(tree, view, t, idx, w, d);
        NodeIsWord(tree, size, view, tip, t);
        var trem := Sub(heads[t].size, nb);
        ghost var rsize0 := rsize;
        if trem < rsize {
          v := t;
          rsize := trem;
          if rsize == 0 {
            PerfectFit(size, view, nb, t, idx, idx);
            return;
          }
        }
        ghost var x, rst0, e0 := t, rst, e;
        var rt := tree.child1[t];
        t := if TopBit(sizebits) == 1 then tree.child1[t] else tree.child0[t];
        if rt != 0 && rt != t {
          RightUntaken(tree, view, x, rt, t, idx, w, d);
          rst := rt;
          e := d;
        }
        if Ordered(nb) {
          BitsStep(tree, size, view, tip, nb, rsize0, rsize, x, d, rst0, e0);
        }
        if t == 0 {
          if Ordered(nb) {
            BitsEnd(tree, size, view, tip, nb, rsize, rst, e);
          }
          t := rst;
          return;
        }
        DeeperShrinks(view, t, d);
        sizebits := Shl1(sizebits);
        d := d + 1;
      }
    }

    /** lj_ffs: the lowest bit that is set. */
    method LowestBit(bits: set<nat>) returns (i: nat)
      requires bits != {} && forall j :: j in bits ==> j < 32
      ensures i in bits && forall j :: j in bits ==> i <= j
    {
      i := 0;
      while i !in bits
        invariant forall j :: j in bits ==> i <= j
        decreases 32 - i
      {
        i := i + 1;
      }
    }

    /** Bin indices mean what they should, and some chunk may fit. */
    ghost predicate Sought(nb: nat)
      reads this`size
    {
      InRange(size) && exists y :: y in size && size[y] >= nb
    }

    lemma IsSought(nb: nat, y: Addr)
      requires InRange(size) && y in size && size[y] >= nb
      ensures Sought(nb)
    {
    }

    lemma SoughtOrdered(nb: nat)
      requires Sought(nb)
      ensures Ordered(nb)
    {
    }

    /** The last loop of tmalloc_large: down the leftmost branch from t. */
    method WalkLeftmost(nb: nat, heads: map<Addr, Head>, t0: Addr, v0: Addr, rsize0: Word, ghost lo: nat) returns (v: Addr, rsize: Word)
      requires Valid() && HeadsAgree(heads, size) && 0 < nb < WORD && Candidate(nb, v0, rsize0)
      requires t0 != 0 ==> t0 in view.key && view.key[t0].bin >= lo
      requires v0 != 0 ==> view.key[v0].bin >= lo
      requires Sought(nb) ==>
                 AllCovered(size, view, nb, rsize0, t0, 0, 31) && (t0 != 0 && rsize0 != 0 ==> AllFit(size, view, nb, t0))
      ensures Candidate(nb, v, rsize) && (v0 != 0 ==> v != 0) && (v != 0 ==> view.key[v].bin >= lo)
      ensures Sought(nb) ==> AllCovered(size, view, nb, rsize, 0, 0, 31)
    {
      hide BinsOk, TreeOk, LargeOk, SmallOk, RingsOk, HeadsAgree, HeadOk, NodeOk, MemberOk, InRange, AllCovered, AllFit;
      var t := t0;
      v, rsize := v0, rsize0;
      BinsParts(links, tree, smallmap, size, view, tip);
      LargeNodes(tree, size, view, tip);
      while t != 0
        invariant t != 0 ==> t in view.key && view.key[t].bin >= lo
        invariant Candidate(nb, v, rsize) && (v0 != 0 ==> v != 0) && (v != 0 ==> view.key[v].bin >= lo)
        invariant Sought(nb) ==>
                    AllCovered(size, view, nb, rsize, t, 0, 31) && (t != 0 && rsize != 0 ==> AllFit(size, view, nb, t))
        decreases t != 0, if t in view.key then Deeper(view, Depth(view.key[t].path)) else {}
      {
        SlotOf(tree, view, t);
        HeadSize(heads, size, t);
        ChildOf(tree, view, t);
        NodeIsWord(tree, size, view, tip, t);
        ghost var was := rsize;
        var trem := Sub(heads[t].size, nb);
        if trem < rsize {
          rsize := trem;
          v := t;
        }
        if Sought(nb) {
          LeftmostStep(tree, size, view, tip, nb, was, rsize, t);
        }
        var c := LeftmostChild(tree, t);
        if c != 0 {
          DeeperShrinks(view, c, Depth(view.key[t].path));
        }
        t := c;
      }
    }

    /** The root of the first marked bin behind that of the request, if there is one. */
    method LaterRoot(nb: nat) returns (t: Addr)
      requires Valid() && 256 <= nb < WORD
      requires Ordered(nb) ==> AllCovered(size, view, nb, WORD - nb, 0, TreeIndex(nb), TreeIndex(nb))
      ensures t != 0 ==> t in view.key && view.key[t].bin > TreeIndex(nb)
      ensures Ordered(nb) ==> AllCovered(size, view, nb, WORD - nb, t, 0, 31) && (t != 0 ==> AllFit(size, view, nb, t))
    {
      hide BinsOk, TreeOk, LargeOk, SmallOk, RingsOk, TreeIndex, InRange, AllCovered, AllFit;
      BinsParts(links, tree, smallmap, size, view, tip);
      var idx := TreeIndex(nb);
      ghost var j := 0;
      t := 0;
      var later := set i | i in tree.marks && i > idx;
      assert forall i {:trigger i in tree.marks} :: i in tree.marks && i > idx ==> i in later;
      if later != {} {
        MarksBelow32(tree, view);
        var i := LowestBit(later);
        t := tree.root[i];
        RootOf(tree, view, i);
        j := i;
      }
      if Ordered(nb) {
        NextBin(tree, size, view, tip, nb, j, t);
      }
    }

    /** The search of tmalloc_large: the smallest large chunk of size at least nb. */
    method FindLarge(nb: nat, heads: map<Addr, Head>) returns (v: Addr, rsize: Word)
      requires Valid() && HeadsAgree(heads, size) && 256 <= nb < WORD
      ensures Candidate(nb, v, rsize) && (v != 0 ==> TreeIndex(nb) <= TreeIndex(size[v]))
      ensures InRange(size) ==>
                forall y :: y in size && !IsSmall(size[y]) && size[y] >= nb ==> v != 0 && size[v] <= size[y]
    {
      hide BinsOk, TreeOk, LargeOk, SmallOk, RingsOk, HeadsAgree, TreeIndex, SizeWord, HeadOk, NodeOk, MemberOk,
           AllCovered, AllFit, InRange, Sought;
      BinsParts(links, tree, smallmap, size, view, tip);
      KeysInSize(tree, size, view, tip);
      v, rsize := 0, Sub(0, nb);
      var idx := TreeIndex(nb);
      var t := tree.root[idx];
      RootOf(tree, view, idx);
      if t != 0 {
        t, v, rsize := WalkBits(nb, heads);
      } else if Ordered(nb) {
        EmptyBin(tree, size, view, tip, nb);
      }
      if t != 0 || v != 0 {
        if Ordered(nb) {
          OtherBins(tree, size, view, tip, nb, rsize, t, v);
        }
      } else {
        t := LaterRoot(nb);
      }
      if Sought(nb) {
        SoughtOrdered(nb);
      }
      v, rsize := WalkLeftmost(nb, heads, t, v, rsize, idx);
      if v != 0 {
        NodeInBin(tree, size, view, tip, v);
      }
      forall y | InRange(size) && y in size && !IsSmall(size[y]) && size[y] >= nb
        ensures v != 0 && size[v] <= size[y]
      {
        assert Sought(nb) by {
          IsSought(nb, y);
        }
        BestFound(tree, size, view, tip, nb, rsize, y);
        LargeIsWord(tree, size, view, tip, y);
      }
    }

    /** The search of tmalloc_small: the smallest large chunk of all. */
    method FindSmallest(nb: nat, heads: map<Addr, Head>) returns (v: Addr, rsize: Word)
      requires Valid() && HeadsAgree(heads, size) && 0 < nb <= 256 && tree.marks != {}
      ensures v != 0 && Candidate(nb, v, rsize)
      ensures InRange(size) ==> forall y :: y in size && !IsSmall(size[y]) ==> size[v] <= size[y]
    {
      hide BinsOk, TreeOk, LargeOk, SmallOk, RingsOk, TreeIndex, SizeWord, HeadOk, NodeOk, MemberOk, AllCovered, AllFit,
           HeadsAgree;
      BinsParts(links, tree, smallmap, size, view, tip);
      LargeNodes(tree, size, view, tip);
      MarksBelow32(tree, view);
      var i := LowestBit(tree.marks);
      var t := tree.root[i];
      RootOf(tree, view, i);
      SlotOf(tree, view, t);
      ChildOf(tree, view, t);
      NodeIsWord(tree, size, view, tip, t);
      HeadSize(heads, size, t);
      v := t;
      rsize := Sub(heads[t].size, nb);
      if InRange(size) {
        FirstBin(tree, size, view, tip, nb, i, t);
        LeftmostStep(tree, size, view, tip, nb, WORD - nb, rsize, t);
      }
      v, rsize := WalkLeftmost(nb, heads, LeftmostChild(tree, t), v, rsize, 0);
      forall y | InRange(size) && y in size && !IsSmall(size[y])
        ensures size[v] <= size[y]
      {
        assert size[t] >= nb;
        BestFound(tree, size, view, tip, nb, rsize, y);
      }
    }
  }
}
