/** luaL_ref and luaL_unref (lib_aux.c): integer references to Lua values in a table, whose
    released slots form a list threaded through the table itself. */
module Refs {
  datatype Value = Nil | Int(n: int) | Object(id: nat)

  /** A table at its integer keys; keys that are not there have the value nil. */
  type Table = t: map<int, Value> | forall k {:trigger t[k]} :: k in t ==> t[k] != Nil witness map[]

  const FREELIST_REF: int := 0
  const LUA_REFNIL: int := -1

  function RawGet(t: Table, k: int): Value { if k in t then t[k] else Nil }

  function RawSet(t: Table, k: int, v: Value): Table {
    if v == Nil then t - {k} else t[k := v]
  }

  /** lua_tointeger, which makes 0 of nil */
  function ToInteger(v: Value): int { if v.Int? then v.n else 0 }

  /** What lua_objlen may answer (section 2.5.5 of the Lua 5.1 Reference Manual). */
  predicate Border(t: Table, n: nat) {
    (n == 0 || RawGet(t, n) != Nil) && RawGet(t, n + 1) == Nil
  }

  /** luaL_ref of a value other than nil, if the length operator answers len: the reference. */
  function NewRef(t: Table, len: nat): int {
    var first := ToInteger(RawGet(t, FREELIST_REF));
    if first != 0 then first else len + 1
  }

  /** The table after luaL_ref has stored v. */
  function Stored(t: Table, v: Value, len: nat): Table {
    var first := ToInteger(RawGet(t, FREELIST_REF));
    RawSet(if first != 0 then RawSet(t, FREELIST_REF, RawGet(t, first)) else t, NewRef(t, len), v)
  }

  /** The table after luaL_unref. */
  function Released(t: Table, ref: int): Table {
    RawSet(RawSet(t, ref, RawGet(t, FREELIST_REF)), FREELIST_REF, Int(ref))
  }

  // ---- the invariant -------------------------------------------------------------------

  ghost predicate Distinct(free: seq<int>) {
    forall i, j :: 0 <= i < j < |free| ==> free[i] != free[j]
  }

  /** Free reference i holds the next one; the last one is nil. */
  ghost predicate LinkedAt(t: Table, free: seq<int>, i: nat) {
    i < |free| ==> RawGet(t, free[i]) == if i + 1 < |free| then Int(free[i + 1]) else Nil
  }

  /** The list of free references starts at slot 0. */
  ghost predicate Threaded(t: Table, free: seq<int>) {
    && RawGet(t, FREELIST_REF) == (if free == [] then Nil else Int(free[0]))
    && forall i: nat :: LinkedAt(t, free, i)
  }

  ghost predicate Covered(live: map<int, Value>, free: seq<int>, n: nat) {
    forall k {:trigger k in live} :: 1 <= k <= n && k !in live ==> k in free
  }

  /** References 1 to n have been handed out; each one is either live, and its slot holds the
      value it stands for, or free. */
  ghost predicate RefsOk(t: Table, live: map<int, Value>, free: seq<int>, n: nat) {
    && Threaded(t, free) && Distinct(free)
    && (forall i {:trigger free[i]} :: 0 <= i < |free| ==> 1 <= free[i] <= n && free[i] !in live)
    && (forall k {:trigger live[k]} :: k in live ==> 1 <= k <= n && live[k] != Nil && RawGet(t, k) == live[k])
    && Covered(live, free, n)
    && (forall k {:trigger RawGet(t, k)} :: RawGet(t, k) != Nil ==> 0 <= k <= n)
  }

  /** The table has a nil hole exactly while references are free, and then just one, at the
      end of the list. */
  lemma Holes(t: Table, live: map<int, Value>, free: seq<int>, n: nat)
    requires RefsOk(t, live, free, n)
    ensures (exists k :: 1 <= k <= n && RawGet(t, k) == Nil) <==> free != []
    ensures forall k :: 1 <= k <= n && RawGet(t, k) == Nil ==> k == free[|free| - 1]
  {
    forall k | 1 <= k <= n && RawGet(t, k) == Nil ensures free != [] && k == free[|free| - 1] {
      assert k !in live;
      var i: nat :| i < |free| && free[i] == k;
      assert LinkedAt(t, free, i);
    }
    if free != [] {
      var k := free[|free| - 1];
      assert LinkedAt(t, free, |free| - 1);
      assert RawGet(t, k) == Nil && 1 <= k <= n;
    }
  }

  /** Without a hole the length operator has no choice; with one, it has. */
  lemma ExactLength(t: Table, live: map<int, Value>, free: seq<int>, n: nat, len: nat)
    requires RefsOk(t, live, free, n) && Border(t, len)
    ensures free == [] ==> len == n
    ensures free != [] ==> len == n || len + 1 == free[|free| - 1]
  {
    Holes(t, live, free, n);
    if len < n {
      assert RawGet(t, len + 1) == Nil;
    }
  }

  lemma StoredGet(t: Table, v: Value, len: nat)
    requires v != Nil
    ensures var first, ref := ToInteger(RawGet(t, FREELIST_REF)), NewRef(t, len);
            forall j {:trigger RawGet(Stored(t, v, len), j)} :: RawGet(Stored(t, v, len), j) ==
              if j == ref then v else if j == FREELIST_REF && first != 0 then RawGet(t, first) else RawGet(t, j)
  {
  }

  lemma ReleasedGet(t: Table, ref: int)
    requires ref != FREELIST_REF
    ensures forall j {:trigger RawGet(Released(t, ref), j)} :: RawGet(Released(t, ref), j) ==
              if j == FREELIST_REF then Int(ref) else if j == ref then RawGet(t, FREELIST_REF) else RawGet(t, j)
  {
  }

  /** A new reference is none of the live ones, and no live reference loses its value. */
  lemma StoredOk(t: Table, live: map<int, Value>, free: seq<int>, n: nat, v: Value, len: nat)
    requires RefsOk(t, live, free, n) && v != Nil && Border(t, len)
    ensures NewRef(t, len) > 0 && NewRef(t, len) !in live
    ensures var ref := NewRef(t, len);
            RefsOk(Stored(t, v, len), live[ref := v], if free == [] then [] else free[1..], if free == [] then n + 1 else n)
  {
    StoredGet(t, v, len);
    if free == [] {
      ExactLength(t, live, free, n, len);
      hide RawGet, RawSet, Stored, Border;
    } else {
      hide RawGet, RawSet, Stored, Border;
      ReusedOk(t, live, free, n, v, len);
    }
  }

  lemma ReusedOk(t: Table, live: map<int, Value>, free: seq<int>, n: nat, v: Value, len: nat)
    requires RefsOk(t, live, free, n) && v != Nil && free != []
    ensures NewRef(t, len) == free[0] && RefsOk(Stored(t, v, len), live[free[0] := v], free[1..], n)
  {
    hide RawSet, Stored, Border;
    StoredGet(t, v, len);
    CoveredRest(live, free, n, v);
    hide RawGet, Covered;
    var t', rest := Stored(t, v, len), free[1..];
    assert LinkedAt(t, free, 0);
    forall i: nat ensures LinkedAt(t', rest, i) {
      assert LinkedAt(t, free, i + 1);
      assert i < |rest| ==> rest[i] == free[i + 1] != free[0];
    }
  }

  lemma CoveredRest(live: map<int, Value>, free: seq<int>, n: nat, v: Value)
    requires Covered(live, free, n) && free != []
    ensures Covered(live[free[0] := v], free[1..], n)
  {
    var live', rest := live[free[0] := v], free[1..];
    forall k {:trigger k in live'} | 1 <= k <= n && k !in live' ensures k in rest {
      assert k !in live;
      assert k in [free[0]] + rest;
    }
  }

  /** Releasing a live reference keeps all the others. */
  lemma ReleasedOk(t: Table, live: map<int, Value>, free: seq<int>, n: nat, ref: int)
    requires RefsOk(t, live, free, n) && ref in live
    ensures RefsOk(Released(t, ref), live - {ref}, [ref] + free, n)
  {
    hide RawSet, Released;
    assert 1 <= ref <= n && live[ref] != Nil;
    ReleasedGet(t, ref);
    CoveredMore(live, free, n, ref);
    hide RawGet, Covered;
    var t', all := Released(t, ref), [ref] + free;
    forall i: nat ensures LinkedAt(t', all, i) {
      if 0 < i < |all| {
        assert LinkedAt(t, free, i - 1);
        assert all[i] == free[i - 1] != ref;
      }
    }
  }

  lemma CoveredMore(live: map<int, Value>, free: seq<int>, n: nat, ref: int)
    requires Covered(live, free, n) && ref in live
    ensures Covered(live - {ref}, [ref] + free, n)
  {
    var live' := live - {ref};
    forall k {:trigger k in live'} | 1 <= k <= n && k !in live' ensures k in [ref] + free {
      if k != ref {
        assert k !in live && k in free;
      }
    }
  }

  // ---- runs ------------------------------------------------------------------------------

  datatype Op = Ref(v: Value, len: nat) | Unref(ref: int)

  datatype State = State(t: Table, live: map<int, Value>)

  /** What the caller may do: the length is a border, and only live references are released. */
  predicate Allowed(s: State, op: Op) {
    match op
    case Ref(_, len) => Border(s.t, len)
    case Unref(ref) => ref >= 0 ==> ref in s.live
  }

  function Next(s: State, op: Op): State {
    match op
    case Ref(v, len) => if v == Nil then s else State(Stored(s.t, v, len), s.live[NewRef(s.t, len) := v])
    case Unref(ref) => if ref < 0 then s else State(Released(s.t, ref), s.live - {ref})
  }

  function After(ops: seq<Op>): State {
    if ops == [] then State(map[], map[]) else Next(After(ops[..|ops| - 1]), ops[|ops| - 1])
  }

  /** Every operation of the run was allowed when it came. */
  ghost predicate AllAllowed(ops: seq<Op>) {
    forall i {:trigger ops[i]} :: 0 <= i < |ops| ==> Allowed(After(ops[..i]), ops[i])
  }

  /** The largest number of references that were live at the same time. */
  function Peak(ops: seq<Op>): nat {
    if ops == [] then 0
    else var p, n := Peak(ops[..|ops| - 1]), |After(ops).live|; if n > p then n else p
  }

  /** Over any run from the empty table, live references still map to their values, and no more
      references are in use than were ever live at once. */
  lemma {:induction false} AnyRun(ops: seq<Op>) returns (free: seq<int>)
    requires AllAllowed(ops)
    ensures RefsOk(After(ops).t, After(ops).live, free, Peak(ops)) && |After(ops).live| + |free| == Peak(ops)
    decreases |ops|
  {
    if ops == [] {
      free := [];
    } else {
      var before, op := ops[..|ops| - 1], ops[|ops| - 1];
      forall i | 0 <= i < |before| ensures Allowed(After(before[..i]), before[i]) {
        assert before[..i] == ops[..i] && before[i] == ops[i];
      }
      free := AnyRun(before);
      var s, n := After(before), Peak(before);
      assert Allowed(s, op) && After(ops) == Next(s, op);
      match op {
        case Ref(v, len) =>
          if v != Nil {
            StoredOk(s.t, s.live, free, n, v, len);
            assert |s.live[NewRef(s.t, len) := v]| == |s.live| + 1;
            free := if free == [] then [] else free[1..];
          }
        case Unref(ref) =>
          if ref >= 0 {
            ReleasedOk(s.t, s.live, free, n, ref);
            FewerLive(s.live, ref);
            free := [ref] + free;
          }
      }
    }
  }

  lemma FewerLive(live: map<int, Value>, ref: int)
    requires ref in live
    ensures |live - {ref}| == |live| - 1
  {
    assert (live - {ref}).Keys == live.Keys - {ref};
  }

  /** Releasing a reference that is not live breaks this: after a second release the next two
      values get the same reference. */
  lemma DoubleRelease(v: Value, w: Value)
    requires v != Nil && w != Nil
    ensures var ops := [Ref(v, 0), Unref(1), Unref(1), Ref(v, 0), Ref(w, 1)];
            && Allowed(After(ops[..0]), ops[0]) && Allowed(After(ops[..1]), ops[1]) && !Allowed(After(ops[..2]), ops[2])
            && NewRef(After(ops[..3]).t, 0) == 1 && NewRef(After(ops[..4]).t, 1) == 1
  {
    var ops := [Ref(v, 0), Unref(1), Unref(1), Ref(v, 0), Ref(w, 1)];
    assert ops[..0] == [] && After([]) == State(map[], map[]);
    assert ops[..1][..0] == ops[..0] && ops[..1] == [Ref(v, 0)];
    assert After(ops[..1]) == State(map[1 := v], map[1 := v]);
    assert ops[..2][..1] == ops[..1] && ops[..2][1] == Unref(1);
    assert After(ops[..2]).t == map[0 := Int(1)];
    assert ops[..3][..2] == ops[..2] && ops[..3][2] == Unref(1);
    assert After(ops[..3]).t == map[0 := Int(1), 1 := Int(1)];
    assert ops[..4][..3] == ops[..3] && ops[..4][3] == Ref(v, 0);
    assert Stored(After(ops[..3]).t, v, 0) == map[0 := Int(1), 1 := v];
  }

  // ---- the functions themselves ------------------------------------------------------------

  class RefTable {
    var t: Table
    /** The references handed out and not released, with their values. */
    ghost var live: map<int, Value>
    ghost var free: seq<int>
    ghost var n: nat

    ghost predicate Valid()
      reads this
    {
      RefsOk(t, live, free, n)
    }

    constructor ()
      ensures Valid() && live == map[] && n == 0
    {
      t, live, free, n := map[], map[], [], 0;
    }

    /** luaL_ref; objlen is what the length operator answers. */
    method Ref(v: Value, objlen: nat) returns (ref: int)
      requires Valid() && Border(t, objlen)
      modifies this
      ensures Valid() && (v == Nil ==> ref == LUA_REFNIL && unchanged(this))
      ensures v != Nil ==> ref > 0 && ref !in old(live) && live == old(live)[ref := v]
      ensures v != Nil ==> t == Stored(old(t), v, objlen) && n == if old(free) == [] then old(n) + 1 else old(n)
    {
      if v == Nil {
        return LUA_REFNIL;
      }
      StoredOk(t, live, free, n, v, objlen);
      ref := ToInteger(RawGet(t, FREELIST_REF));
      if ref != 0 {
        t := RawSet(t, FREELIST_REF, RawGet(t, ref));
      } else {
        ref := objlen;
        ref := ref + 1;
      }
      t := RawSet(t, ref, v);
      n := if free == [] then n + 1 else n;
      live, free := live[ref := v], if free == [] then [] else free[1..];
    }

    /** luaL_unref, for a live reference or none at all */
    method Unref(ref: int)
      requires Valid() && (ref >= 0 ==> ref in live)
      modifies this
      ensures Valid() && live == (if ref >= 0 then old(live) - {ref} else old(live)) && n == old(n)
      ensures t == if ref >= 0 then Released(old(t), ref) else old(t)
    {
      if ref >= 0 {
        ReleasedOk(t, live, free, n, ref);
        t := RawSet(t, ref, RawGet(t, FREELIST_REF));
        t := RawSet(t, FREELIST_REF, Int(ref));
        live, free := live - {ref}, [ref] + free;
      }
    }

    /** lua_rawgeti with a live reference gives the value back. */
    method Fetch(ref: int) returns (v: Value)
      requires Valid() && ref in live
      ensures v == live[ref]
    {
      v := RawGet(t, ref);
    }
  }
}
