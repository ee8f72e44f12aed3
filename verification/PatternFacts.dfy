/** Laws of Lua pattern matching: what is matched, in which order, and how deep it nests. */
module PatternFacts {
  import opened Pattern

  // ---- captures lie inside the subject -----------------------------------------------------

  /** Captures start and end no later than s. */
  ghost predicate CapsOk(caps: seq<Cap>, s: nat) {
    && |caps| <= LUA_MAXCAPTURES
    && forall i {:trigger caps[i]} :: 0 <= i < |caps| ==> caps[i].init <= s && caps[i].len >= CAP_POSITION && caps[i].init + caps[i].len <= s
  }

  /** A match that starts at s with caps ends inside the subject and only adds captures. */
  ghost predicate Inside(src: Bytes, s: nat, caps: seq<Cap>, o: Outcome) {
    o.Hit? ==>
      && s <= o.e <= |src| && CapsOk(o.caps, o.e) && |caps| <= |o.caps|
      && forall i {:trigger o.caps[i]} :: 0 <= i < |caps| ==> o.caps[i].init == caps[i].init && (caps[i].len != CAP_UNFINISHED ==> o.caps[i] == caps[i])
  }

  lemma InsideLater(src: Bytes, s: nat, s': nat, caps: seq<Cap>, caps': seq<Cap>, o: Outcome)
    requires Inside(src, s', caps', o) && s <= s' && |caps| <= |caps'|
    requires forall i {:trigger caps'[i]} :: 0 <= i < |caps| ==> caps'[i].init == caps[i].init && (caps[i].len != CAP_UNFINISHED ==> caps'[i] == caps[i])
    ensures Inside(src, s, caps, o)
  {
  }

  lemma {:induction false} CallInside(x: Text, p: nat, s: nat, caps: seq<Cap>, d: nat, o: Outcome)
    requires s <= |x.src| && CapsOk(caps, s) && o in Call(x, p, s, caps, d)
    ensures Inside(x.src, s, caps, o)
    decreases |x.pat| - p, 2
  {
    if d < LJ_MAX_XLEVEL {
      HitsInside(x, p, s, caps, d + 1, o);
    }
  }

  lemma {:induction false} HitsInside(x: Text, p: nat, s: nat, caps: seq<Cap>, d: nat, o: Outcome)
    requires s <= |x.src| && CapsOk(caps, s) && o in Outcomes(x, p, s, caps, d)
    ensures Inside(x.src, s, caps, o)
    decreases |x.pat| - p, 1
  {
    hide ItemAt, Repetitions, InSet, Run, Depth, LastOpen, CheckCapture;
    match ItemAt(x.pat, p)
    case End =>
    case AtEnd =>
    case Malformed(_) =>
    case Open(what, next) =>
      if |caps| < LUA_MAXCAPTURES {
        var caps' := caps + [Cap(s, what)];
        CallInside(x, next, s, caps', d, o);
        InsideLater(x.src, s, s, caps, caps', o);
      }
    case Close(next) =>
      if LastOpen(caps).Some? {
        var l := LastOpen(caps).value;
        var caps' := caps[l := Cap(caps[l].init, s - caps[l].init)];
        CallInside(x, next, s, caps', d, o);
        InsideLater(x.src, s, s, caps, caps', o);
      }
    case Balance(b, e, next) =>
      var s' := Balanced(x.src, s + 1, b, e, 1).value;
      LaterOk(caps, s, s');
      HitsInside(x, next, s', caps, d, o);
    case Frontier(open, next) =>
      HitsInside(x, next, s, caps, d, o);
    case Back(digit, next) =>
      if CheckCapture(caps, digit).Some? {
        var l := CheckCapture(caps, digit).value;
        LaterOk(caps, s, s + caps[l].len);
        HitsInside(x, next, s + caps[l].len, caps, d, o);
      }
    case Item(ep, rep, next) => ItemInside(x, p, ep, rep, next, s, caps, d, o);
  }

  lemma LaterOk(caps: seq<Cap>, s: nat, s': nat)
    requires CapsOk(caps, s) && s <= s'
    ensures CapsOk(caps, s')
  {
  }

  lemma {:induction false} ItemInside(x: Text, p: nat, ep: nat, rep: Rep, next: nat, s: nat, caps: seq<Cap>, d: nat, o: Outcome)
    requires p < next <= |x.pat| && s <= |x.src| && CapsOk(caps, s) && o in Repetitions(x, p, ep, rep, next, s, caps, d)
    ensures Inside(x.src, s, caps, o)
    decreases |x.pat| - p, 0
  {
    hide Outcomes, ItemAt, InSet;
    var m := s < |x.src| && Single(x.pat, p, ep, x.src[s]);
    match rep
    case Once =>
      LaterOk(caps, s, s + 1);
      HitsInside(x, next, s + 1, caps, d, o);
    case Optional =>
      if m && o in Call(x, next, s + 1, caps, d) {
        LaterOk(caps, s, s + 1);
        CallInside(x, next, s + 1, caps, d, o);
      } else {
        HitsInside(x, next, s, caps, d, o);
      }
    case Longest => DescendingInside(x, next, s, Run(x, p, ep, s), caps, d, o);
    case OnceOrMore =>
      LaterOk(caps, s, s + 1);
      DescendingInside(x, next, s + 1, Run(x, p, ep, s + 1), caps, d, o);
    case Shortest => AscendingInside(x, next, s, Run(x, p, ep, s), caps, d, o);
  }

  lemma DescendingSplit(x: Text, next: nat, s: nat, n: nat, caps: seq<Cap>, d: nat, o: Outcome)
    ensures o in Descending(x, next, s, n, caps, d) <==> o in Call(x, next, s + n, caps, d) || (n > 0 && o in Descending(x, next, s, n - 1, caps, d))
  {
    hide Call, Outcomes;
  }

  lemma AscendingSplit(x: Text, next: nat, s: nat, n: nat, caps: seq<Cap>, d: nat, o: Outcome)
    ensures o in Ascending(x, next, s, n, caps, d) <==> o in Call(x, next, s, caps, d) || (n > 0 && o in Ascending(x, next, s + 1, n - 1, caps, d))
  {
    hide Call, Outcomes;
  }

  lemma {:induction false} DescendingInside(x: Text, next: nat, s: nat, n: nat, caps: seq<Cap>, d: nat, o: Outcome)
    requires s + n <= |x.src| && CapsOk(caps, s) && o in Descending(x, next, s, n, caps, d)
    ensures Inside(x.src, s, caps, o)
    decreases |x.pat| - next, 3, n
  {
    hide Call, Outcomes, ItemAt, Repetitions, CapsOk, Inside, Descending, Ascending;
    DescendingSplit(x, next, s, n, caps, d, o);
    if o in Call(x, next, s + n, caps, d) {
      LaterOk(caps, s, s + n);
      CallInside(x, next, s + n, caps, d, o);
      InsideLater(x.src, s, s + n, caps, caps, o);
    } else {
      DescendingInside(x, next, s, n - 1, caps, d, o);
    }
  }

  lemma {:induction false} AscendingInside(x: Text, next: nat, s: nat, n: nat, caps: seq<Cap>, d: nat, o: Outcome)
    requires s + n <= |x.src| && CapsOk(caps, s) && o in Ascending(x, next, s, n, caps, d)
    ensures Inside(x.src, s, caps, o)
    decreases |x.pat| - next, 3, n
  {
    hide Call, Outcomes, ItemAt, Repetitions, CapsOk, Inside, Descending, Ascending;
    AscendingSplit(x, next, s, n, caps, d, o);
    if o in Call(x, next, s, caps, d) {
      CallInside(x, next, s, caps, d, o);
    } else {
      LaterOk(caps, s, s + 1);
      AscendingInside(x, next, s + 1, n - 1, caps, d, o);
      InsideLater(x.src, s, s + 1, caps, caps, o);
    }
  }

  // ---- the language of a pattern ------------------------------------------------------------

  predicate Allowed(rep: Rep, n: nat) {
    match rep
    case Once => n == 1
    case Optional => n <= 1
    case Longest => true
    case OnceOrMore => n >= 1
    case Shortest => true
  }

  /** n characters from s on match the item at p. */
  ghost predicate Repeats(x: Text, p: nat, ep: nat, s: nat, n: nat) {
    s + n <= |x.src| && forall k {:trigger x.src[k]} :: s <= k < s + n ==> Single(x.pat, p, ep, x.src[k])
  }

  /** The text from s to t is balanced: it starts with b and the first return to depth zero is
      its end. */
  ghost predicate IsBalanced(src: Bytes, s: nat, t: nat, b: nat, e: nat) {
    && s + 1 < t <= |src| && src[s] == b && Depth(src[s + 1..t], b, e) == -1
    && forall k {:trigger src[s + 1..k]} :: s + 1 <= k < t ==> Depth(src[s + 1..k], b, e) >= 0
  }

  /** The pattern from p on matches from s to e, turning caps into caps', in some way. */
  ghost predicate Accepts(x: Text, p: nat, s: nat, caps: seq<Cap>, e: nat, caps': seq<Cap>)
    decreases |x.pat| - p
  {
    match ItemAt(x.pat, p)
    case End => e == s && caps' == caps
    case AtEnd => s == |x.src| && e == s && caps' == caps
    case Open(what, next) => |caps| < LUA_MAXCAPTURES && Accepts(x, next, s, caps + [Cap(s, what)], e, caps')
    case Close(next) =>
      LastOpen(caps).Some? &&
      (var l := LastOpen(caps).value; Accepts(x, next, s, caps[l := Cap(caps[l].init, s - caps[l].init)], e, caps'))
    case Balance(b, c, next) => exists t: nat :: IsBalanced(x.src, s, t, b, c) && Accepts(x, next, t, caps, e, caps')
    case Frontier(open, next) =>
      && !InSet(x.pat, open, next - 1, if s == 0 then 0 else At(x.src, s - 1)) && InSet(x.pat, open, next - 1, At(x.src, s))
      && Accepts(x, next, s, caps, e, caps')
    case Back(digit, next) =>
      CheckCapture(caps, digit).Some? &&
      (var c := caps[CheckCapture(caps, digit).value]; Again(x.src, c, s) && Accepts(x, next, s + c.len, caps, e, caps'))
    case Item(ep, rep, next) => exists n: nat :: Allowed(rep, n) && Repeats(x, p, ep, s, n) && Accepts(x, next, s + n, caps, e, caps')
    case Malformed(_) => false
  }

  lemma RunLongest(x: Text, p: nat, ep: nat, s: nat, n: nat)
    requires s <= |x.src|
    ensures Repeats(x, p, ep, s, n) <==> n <= Run(x, p, ep, s)
  {
    var k := s + Run(x, p, ep, s);
    assert k < |x.src| ==> !Single(x.pat, p, ep, x.src[k]);
  }

  lemma RepeatsMore(x: Text, p: nat, ep: nat, s: nat, n: nat)
    requires s < |x.src| && Single(x.pat, p, ep, x.src[s]) && Repeats(x, p, ep, s + 1, n)
    ensures Repeats(x, p, ep, s, n + 1)
  {
  }

  lemma RepeatsNone(x: Text, p: nat, ep: nat, s: nat)
    ensures s <= |x.src| ==> Repeats(x, p, ep, s, 0)
  {
  }

  lemma BalancedIs(src: Bytes, s: nat, b: nat, e: nat, t: nat)
    requires s < |src| && src[s] == b
    ensures Balanced(src, s + 1, b, e, 1) == Some(t) <==> IsBalanced(src, s, t, b, e)
  {
    assert src[s + 1..s + 1] == [];
    BalancedFirst(src, s, s + 1, b, e, 1);
    if IsBalanced(src, s, t, b, e) {
      assert Depth(src[s + 1..t], b, e) == -1;
    }
  }

  /** Everything a match can come to is in the language of the pattern, whatever the depth. */
  lemma {:induction false} Sound(x: Text, p: nat, s: nat, caps: seq<Cap>, d: nat, e: nat, caps': seq<Cap>)
    requires s <= |x.src| && CapsOk(caps, s) && Hit(e, caps') in Outcomes(x, p, s, caps, d)
    ensures Accepts(x, p, s, caps, e, caps')
    decreases |x.pat| - p, 1
  {
    hide ItemAt, Repetitions, InSet, Run, Depth, LastOpen, CheckCapture;
    match ItemAt(x.pat, p)
    case End =>
    case AtEnd =>
    case Malformed(_) =>
    case Open(what, next) =>
      if |caps| < LUA_MAXCAPTURES {
        SoundCall(x, next, s, caps + [Cap(s, what)], d, e, caps');
      }
    case Close(next) =>
      if LastOpen(caps).Some? {
        var l := LastOpen(caps).value;
        SoundCall(x, next, s, caps[l := Cap(caps[l].init, s - caps[l].init)], d, e, caps');
      }
    case Balance(b, c, next) =>
      var t := Balanced(x.src, s + 1, b, c, 1).value;
      LaterOk(caps, s, t);
      Sound(x, next, t, caps, d, e, caps');
      BalancedIs(x.src, s, b, c, t);
    case Frontier(open, next) => Sound(x, next, s, caps, d, e, caps');
    case Back(digit, next) =>
      if CheckCapture(caps, digit).Some? {
        var l := CheckCapture(caps, digit).value;
        LaterOk(caps, s, s + caps[l].len);
        Sound(x, next, s + caps[l].len, caps, d, e, caps');
      }
    case Item(ep, rep, next) =>
      var n := SoundItem(x, p, ep, rep, next, s, caps, d, e, caps');
  }

  lemma {:induction false} SoundCall(x: Text, p: nat, s: nat, caps: seq<Cap>, d: nat, e: nat, caps': seq<Cap>)
    requires s <= |x.src| && CapsOk(caps, s) && Hit(e, caps') in Call(x, p, s, caps, d)
    ensures Accepts(x, p, s, caps, e, caps')
    decreases |x.pat| - p, 2
  {
    if d < LJ_MAX_XLEVEL {
      Sound(x, p, s, caps, d + 1, e, caps');
    }
  }

  lemma {:induction false} SoundItem(x: Text, p: nat, ep: nat, rep: Rep, next: nat, s: nat, caps: seq<Cap>, d: nat, e: nat, caps': seq<Cap>) returns (n: nat)
    requires s <= |x.src| && CapsOk(caps, s) && p < next <= |x.pat| && Hit(e, caps') in Repetitions(x, p, ep, rep, next, s, caps, d)
    ensures Allowed(rep, n) && Repeats(x, p, ep, s, n) && Accepts(x, next, s + n, caps, e, caps')
    decreases |x.pat| - p, 0
  {
    hide CapsOk, Descending, Ascending, Run, Repeats, Single, Outcomes, ItemAt, InSet, Accepts;
    var m := s < |x.src| && Single(x.pat, p, ep, x.src[s]);
    RepeatsNone(x, p, ep, s);
    RepeatsNone(x, p, ep, s + 1);
    if m {
      RepeatsMore(x, p, ep, s, 0);
    }
    match rep
    case Once =>
      LaterOk(caps, s, s + 1);
      Sound(x, next, s + 1, caps, d, e, caps');
      n := 1;
    case Optional =>
      if m && Hit(e, caps') in Call(x, next, s + 1, caps, d) {
        LaterOk(caps, s, s + 1);
        SoundCall(x, next, s + 1, caps, d, e, caps');
        n := 1;
      } else {
        Sound(x, next, s, caps, d, e, caps');
        n := 0;
      }
    case Longest =>
      n := SoundDescending(x, next, s, Run(x, p, ep, s), caps, d, e, caps');
      RunLongest(x, p, ep, s, n);
    case OnceOrMore =>
      LaterOk(caps, s, s + 1);
      var k := SoundDescending(x, next, s + 1, Run(x, p, ep, s + 1), caps, d, e, caps');
      RunLongest(x, p, ep, s + 1, k);
      RepeatsMore(x, p, ep, s, k);
      n := k + 1;
    case Shortest =>
      n := SoundAscending(x, next, s, Run(x, p, ep, s), caps, d, e, caps');
      RunLongest(x, p, ep, s, n);
  }

  lemma {:induction false} SoundDescending(x: Text, next: nat, s: nat, n: nat, caps: seq<Cap>, d: nat, e: nat, caps': seq<Cap>) returns (k: nat)
    requires s + n <= |x.src| && CapsOk(caps, s) && Hit(e, caps') in Descending(x, next, s, n, caps, d)
    ensures k <= n && Accepts(x, next, s + k, caps, e, caps')
    decreases |x.pat| - next, 3, n
  {
    hide Call, Outcomes, ItemAt, Repetitions, Accepts, CapsOk, Descending, Ascending;
    DescendingSplit(x, next, s, n, caps, d, Hit(e, caps'));
    if Hit(e, caps') in Call(x, next, s + n, caps, d) {
      LaterOk(caps, s, s + n);
      SoundCall(x, next, s + n, caps, d, e, caps');
      k := n;
    } else {
      k := SoundDescending(x, next, s, n - 1, caps, d, e, caps');
    }
  }

  lemma {:induction false} SoundAscending(x: Text, next: nat, s: nat, n: nat, caps: seq<Cap>, d: nat, e: nat, caps': seq<Cap>) returns (k: nat)
    requires s + n <= |x.src| && CapsOk(caps, s) && Hit(e, caps') in Ascending(x, next, s, n, caps, d)
    ensures k <= n && Accepts(x, next, s + k, caps, e, caps')
    decreases |x.pat| - next, 3, n
  {
    hide Call, Outcomes, ItemAt, Repetitions, Accepts, CapsOk, Descending, Ascending;
    AscendingSplit(x, next, s, n, caps, d, Hit(e, caps'));
    if Hit(e, caps') in Call(x, next, s, caps, d) {
      SoundCall(x, next, s, caps, d, e, caps');
      k := 0;
    } else {
      LaterOk(caps, s, s + 1);
      var j := SoundAscending(x, next, s + 1, n - 1, caps, d, e, caps');
      k := j + 1;
    }
  }

  // ---- nesting depth -------------------------------------------------------------------------

  /** How many items of the pattern from p on make match call itself. */
  ghost function Nest(pat: Bytes, p: nat): (n: nat)
    ensures n == 0 || p + n <= |pat|
    decreases |pat| - p
  {
    match ItemAt(pat, p)
    case Open(_, next) => 1 + Nest(pat, next)
    case Close(next) => 1 + Nest(pat, next)
    case Balance(_, _, next) => Nest(pat, next)
    case Frontier(_, next) => Nest(pat, next)
    case Back(_, next) => Nest(pat, next)
    case Item(_, rep, next) => (if rep == Once then 0 else 1) + Nest(pat, next)
    case _ => 0
  }

  /** With enough depth left, everything in the language of the pattern is among the outcomes. */
  lemma {:induction false} Complete(x: Text, p: nat, s: nat, caps: seq<Cap>, d: nat, e: nat, caps': seq<Cap>)
    requires s <= |x.src| && CapsOk(caps, s) && Accepts(x, p, s, caps, e, caps') && d + Nest(x.pat, p) <= LJ_MAX_XLEVEL
    ensures Hit(e, caps') in Outcomes(x, p, s, caps, d)
    decreases |x.pat| - p
  {
    hide ItemAt, Repetitions, InSet, Run, Balanced, Depth, LastOpen, CheckCapture;
    match ItemAt(x.pat, p)
    case End =>
    case AtEnd =>
    case Open(what, next) => Complete(x, next, s, caps + [Cap(s, what)], d + 1, e, caps');
    case Close(next) =>
      var l := LastOpen(caps).value;
      Complete(x, next, s, caps[l := Cap(caps[l].init, s - caps[l].init)], d + 1, e, caps');
    case Balance(b, c, next) =>
      var t: nat :| IsBalanced(x.src, s, t, b, c) && Accepts(x, next, t, caps, e, caps');
      BalancedIs(x.src, s, b, c, t);
      LaterOk(caps, s, t);
      Complete(x, next, t, caps, d, e, caps');
    case Frontier(open, next) => Complete(x, next, s, caps, d, e, caps');
    case Back(digit, next) =>
      var c := caps[CheckCapture(caps, digit).value];
      LaterOk(caps, s, s + c.len);
      Complete(x, next, s + c.len, caps, d, e, caps');
    case Item(ep, rep, next) =>
      var n: nat :| Allowed(rep, n) && Repeats(x, p, ep, s, n) && Accepts(x, next, s + n, caps, e, caps');
      LaterOk(caps, s, s + n);
      Complete(x, next, s + n, caps, if rep == Once || (rep == Optional && n == 0) then d else d + 1, e, caps');
      CompleteItem(x, p, ep, rep, next, s, n, caps, d, Hit(e, caps'));
  }

  lemma CompleteItem(x: Text, p: nat, ep: nat, rep: Rep, next: nat, s: nat, n: nat, caps: seq<Cap>, d: nat, o: Outcome)
    requires s <= |x.src| && p < next <= |x.pat| && (rep != Once ==> d < LJ_MAX_XLEVEL)
    requires Allowed(rep, n) && Repeats(x, p, ep, s, n)
    requires o in Outcomes(x, next, s + n, caps, if rep == Once || (rep == Optional && n == 0) then d else d + 1)
    ensures o in Repetitions(x, p, ep, rep, next, s, caps, d)
  {
    hide Outcomes, ItemAt, InSet;
    RunLongest(x, p, ep, s, n);
    match rep
    case Once => assert Single(x.pat, p, ep, x.src[s]);
    case Optional =>
      assert n == 1 ==> Single(x.pat, p, ep, x.src[s]);
      assert n == 1 ==> o in Call(x, next, s + 1, caps, d);
    case Longest => InDescending(x, next, s, n, Run(x, p, ep, s), caps, d, o);
    case OnceOrMore =>
      assert Single(x.pat, p, ep, x.src[s]);
      RunLongest(x, p, ep, s + 1, n - 1);
      InDescending(x, next, s + 1, n - 1, Run(x, p, ep, s + 1), caps, d, o);
    case Shortest => InAscending(x, next, s, n, Run(x, p, ep, s), caps, d, o);
  }

  lemma {:induction false} InDescending(x: Text, next: nat, s: nat, n: nat, m: nat, caps: seq<Cap>, d: nat, o: Outcome)
    requires n <= m && o in Call(x, next, s + n, caps, d)
    ensures o in Descending(x, next, s, m, caps, d)
    decreases m
  {
    hide Call, Outcomes, ItemAt, Repetitions, CapsOk, Descending, Ascending;
    DescendingSplit(x, next, s, m, caps, d, o);
    if n < m {
      InDescending(x, next, s, n, m - 1, caps, d, o);
    }
  }

  lemma {:induction false} InAscending(x: Text, next: nat, s: nat, n: nat, m: nat, caps: seq<Cap>, d: nat, o: Outcome)
    requires n <= m && o in Call(x, next, s + n, caps, d)
    ensures o in Ascending(x, next, s, m, caps, d)
    decreases m
  {
    hide Call, Outcomes, ItemAt, Repetitions, CapsOk, Descending, Ascending;
    AscendingSplit(x, next, s, m, caps, d, o);
    if n > 0 {
      InAscending(x, next, s + 1, n - 1, m - 1, caps, d, o);
    }
  }

  /** Nowhere is the rest of the pattern refused as too complex. */
  ghost predicate Free(x: Text, p: nat, caps: seq<Cap>, d: nat) {
    forall t: nat {:trigger Outcomes(x, p, t, caps, d)} :: Raise(TooComplex) !in Outcomes(x, p, t, caps, d)
  }

  /** With enough depth left, no attempt is refused as too complex. */
  lemma {:induction false} NeverTooComplex(x: Text, p: nat, s: nat, caps: seq<Cap>, d: nat)
    requires d + Nest(x.pat, p) <= LJ_MAX_XLEVEL
    ensures Raise(TooComplex) !in Outcomes(x, p, s, caps, d)
    decreases |x.pat| - p, 1
  {
    hide ItemAt, Repetitions, InSet, Run, Depth, LastOpen, CheckCapture, Balanced;
    NotMalformed(x.pat, p);
    match ItemAt(x.pat, p)
    case End =>
    case AtEnd =>
    case Malformed(_) =>
    case Open(what, next) =>
      NeverTooComplex(x, next, s, caps + [Cap(s, what)], d + 1);
    case Close(next) =>
      if LastOpen(caps).Some? {
        var l := LastOpen(caps).value;
        NeverTooComplex(x, next, s, caps[l := Cap(caps[l].init, s - caps[l].init)], d + 1);
      }
    case Balance(b, c, next) =>
      if Balanced(x.src, s + 1, b, c, 1).Some? {
        NeverTooComplex(x, next, Balanced(x.src, s + 1, b, c, 1).value, caps, d);
      }
    case Frontier(open, next) => NeverTooComplex(x, next, s, caps, d);
    case Back(digit, next) =>
      if CheckCapture(caps, digit).Some? && Again(x.src, caps[CheckCapture(caps, digit).value], s) {
        NeverTooComplex(x, next, s + caps[CheckCapture(caps, digit).value].len, caps, d);
      }
    case Item(ep, rep, next) =>
      var d' := if rep == Once then d else d + 1;
      forall t: nat ensures Raise(TooComplex) !in Outcomes(x, next, t, caps, d) {
        NeverTooComplex(x, next, t, caps, d);
      }
      forall t: nat ensures Raise(TooComplex) !in Outcomes(x, next, t, caps, d') {
        NeverTooComplex(x, next, t, caps, d');
      }
      assert Free(x, next, caps, d');
      ItemNotComplex(x, p, ep, rep, next, s, caps, d);
  }

  lemma NotMalformed(pat: Bytes, p: nat)
    ensures ItemAt(pat, p).Malformed? ==> ItemAt(pat, p).error != TooComplex
  {
  }

  lemma ItemNotComplex(x: Text, p: nat, ep: nat, rep: Rep, next: nat, s: nat, caps: seq<Cap>, d: nat)
    requires p < next <= |x.pat| && (rep != Once ==> d < LJ_MAX_XLEVEL)
    requires Free(x, next, caps, d) && (rep != Once ==> Free(x, next, caps, d + 1))
    ensures Raise(TooComplex) !in Repetitions(x, p, ep, rep, next, s, caps, d)
  {
    hide Outcomes, InSet, Single;
    if rep != Once {
      CallFree(x, next, s + 1, caps, d);
      DescendingFree(x, next, s, Run(x, p, ep, s), caps, d);
      AscendingFree(x, next, s, Run(x, p, ep, s), caps, d);
      DescendingFree(x, next, s + 1, Run(x, p, ep, s + 1), caps, d);
    }
  }

  lemma CallFree(x: Text, next: nat, s: nat, caps: seq<Cap>, d: nat)
    requires d < LJ_MAX_XLEVEL && Free(x, next, caps, d + 1)
    ensures Raise(TooComplex) !in Call(x, next, s, caps, d)
  {
    hide Outcomes;
  }

  lemma {:induction false} DescendingFree(x: Text, next: nat, s: nat, n: nat, caps: seq<Cap>, d: nat)
    requires d < LJ_MAX_XLEVEL && Free(x, next, caps, d + 1)
    ensures Raise(TooComplex) !in Descending(x, next, s, n, caps, d)
    decreases n
  {
    hide Outcomes, Call, Free, Descending, Ascending;
    DescendingSplit(x, next, s, n, caps, d, Raise(TooComplex));
    CallFree(x, next, s + n, caps, d);
    if n > 0 {
      DescendingFree(x, next, s, n - 1, caps, d);
    }
  }

  lemma {:induction false} AscendingFree(x: Text, next: nat, s: nat, n: nat, caps: seq<Cap>, d: nat)
    requires d < LJ_MAX_XLEVEL && Free(x, next, caps, d + 1)
    ensures Raise(TooComplex) !in Ascending(x, next, s, n, caps, d)
    decreases n
  {
    hide Outcomes, Call, Free, Descending, Ascending;
    AscendingSplit(x, next, s, n, caps, d, Raise(TooComplex));
    CallFree(x, next, s, caps, d);
    if n > 0 {
      AscendingFree(x, next, s + 1, n - 1, caps, d);
    }
  }

  // ---- errors --------------------------------------------------------------------------------

  /** Which captures are still open. */
  ghost predicate HasShape(caps: seq<Cap>, open: seq<bool>) {
    |caps| == |open| && forall i {:trigger caps[i]} {:trigger open[i]} :: 0 <= i < |caps| ==> (open[i] <==> caps[i].len == CAP_UNFINISHED)
  }

  function LastTrue(open: seq<bool>): (r: Option<nat>)
    ensures r.Some? ==> r.value < |open| && open[r.value] && forall i {:trigger open[i]} :: r.value < i < |open| ==> !open[i]
    ensures r.None? ==> forall i {:trigger open[i]} :: 0 <= i < |open| ==> !open[i]
  {
    if open == [] then None
    else if open[|open| - 1] then Some(|open| - 1)
    else LastTrue(open[..|open| - 1])
  }

  /** The first thing that is wrong with the pattern from p on, whatever the subject: an item that
      cannot be read, or captures that do not fit. */
  function Fault(pat: Bytes, p: nat, open: seq<bool>): Option<Error>
    decreases |pat| - p
  {
    match ItemAt(pat, p)
    case End => None
    case AtEnd => None
    case Malformed(error) => Some(error)
    case Open(what, next) =>
      if |open| >= LUA_MAXCAPTURES then Some(TooManyCaptures) else Fault(pat, next, open + [what == CAP_UNFINISHED])
    case Close(next) => if LastTrue(open).None? then Some(NoOpenCapture) else Fault(pat, next, open[LastTrue(open).value := false])
    case Balance(_, _, next) => Fault(pat, next, open)
    case Frontier(_, next) => Fault(pat, next, open)
    case Back(digit, next) =>
      var l: int := digit - '1' as int;
      if l < 0 || l >= |open| || open[l] then Some(InvalidCapture) else Fault(pat, next, open)
    case Item(_, _, next) => Fault(pat, next, open)
  }

  /** A match says that the rest of the pattern has no fault, an error is its first fault. */
  predicate Agrees(o: Outcome, fault: Option<Error>) {
    match o
    case Hit(_, _) => fault == None
    case Raise(error) => error == TooComplex || fault == Some(error)
  }

  lemma OpensOne(caps: seq<Cap>, open: seq<bool>, s: nat, what: int)
    requires HasShape(caps, open)
    ensures HasShape(caps + [Cap(s, what)], open + [what == CAP_UNFINISHED])
  {
  }

  lemma ClosesOne(caps: seq<Cap>, open: seq<bool>, s: nat)
    requires HasShape(caps, open) && CapsOk(caps, s)
    ensures LastOpen(caps) == LastTrue(open)
    ensures LastOpen(caps).Some? ==> var l := LastOpen(caps).value;
              HasShape(caps[l := Cap(caps[l].init, s - caps[l].init)], open[l := false]) && CapsOk(caps[l := Cap(caps[l].init, s - caps[l].init)], s)
  {
    var a, b := LastOpen(caps), LastTrue(open);
    assert a.Some? ==> open[a.value] && caps[a.value].len == CAP_UNFINISHED;
    assert b.Some? ==> open[b.value] && caps[b.value].len == CAP_UNFINISHED;
  }

  lemma SameShape(caps: seq<Cap>, open: seq<bool>)
    requires HasShape(caps, open)
    ensures |caps| == |open|
  {
  }

  lemma CheckShape(caps: seq<Cap>, open: seq<bool>, digit: nat)
    requires HasShape(caps, open)
    ensures var l: int := digit - '1' as int; CheckCapture(caps, digit) == if l < 0 || l >= |open| || open[l] then None else Some(l)
  {
  }

  /** Every outcome agrees with the pattern: errors do not depend on the subject or on the captures'
      places, and never stand beside a match. */
  lemma {:induction false} OutcomesAgree(x: Text, p: nat, s: nat, caps: seq<Cap>, open: seq<bool>, d: nat, o: Outcome)
    requires s <= |x.src| && CapsOk(caps, s) && HasShape(caps, open) && o in Outcomes(x, p, s, caps, d)
    ensures Agrees(o, Fault(x.pat, p, open))
    decreases |x.pat| - p, 1
  {
    hide ItemAt, Repetitions, InSet, Run, Depth, LastOpen, LastTrue, CheckCapture, CapsOk, HasShape;
    SameShape(caps, open);
    match ItemAt(x.pat, p)
    case End =>
    case AtEnd =>
    case Malformed(_) =>
    case Open(what, next) =>
      if |caps| < LUA_MAXCAPTURES {
        OpensOne(caps, open, s, what);
        OpensInside(caps, s, what);
        CallAgrees(x, next, s, caps + [Cap(s, what)], open + [what == CAP_UNFINISHED], d, o);
      }
    case Close(next) =>
      ClosesOne(caps, open, s);
      if LastOpen(caps).Some? {
        var l := LastOpen(caps).value;
        CallAgrees(x, next, s, caps[l := Cap(caps[l].init, s - caps[l].init)], open[l := false], d, o);
      }
    case Balance(b, e, next) =>
      var t := Balanced(x.src, s + 1, b, e, 1).value;
      LaterOk(caps, s, t);
      OutcomesAgree(x, next, t, caps, open, d, o);
    case Frontier(_, next) => OutcomesAgree(x, next, s, caps, open, d, o);
    case Back(digit, next) =>
      CheckShape(caps, open, digit);
      if CheckCapture(caps, digit).Some? {
        var l := CheckCapture(caps, digit).value;
        LaterOk(caps, s, s + caps[l].len);
        OutcomesAgree(x, next, s + caps[l].len, caps, open, d, o);
      }
    case Item(ep, rep, next) => ItemAgrees(x, p, ep, rep, next, s, caps, open, d, o);
  }

  lemma OpensInside(caps: seq<Cap>, s: nat, what: int)
    requires CapsOk(caps, s) && |caps| < LUA_MAXCAPTURES && (what == CAP_POSITION || what == CAP_UNFINISHED)
    ensures CapsOk(caps + [Cap(s, what)], s)
  {
  }

  lemma {:induction false} CallAgrees(x: Text, p: nat, s: nat, caps: seq<Cap>, open: seq<bool>, d: nat, o: Outcome)
    requires s <= |x.src| && CapsOk(caps, s) && HasShape(caps, open) && o in Call(x, p, s, caps, d)
    ensures Agrees(o, Fault(x.pat, p, open))
    decreases |x.pat| - p, 2
  {
    if d < LJ_MAX_XLEVEL {
      OutcomesAgree(x, p, s, caps, open, d + 1, o);
    }
  }

  lemma {:induction false} ItemAgrees(x: Text, p: nat, ep: nat, rep: Rep, next: nat, s: nat, caps: seq<Cap>, open: seq<bool>, d: nat, o: Outcome)
    requires p < next <= |x.pat| && s <= |x.src| && CapsOk(caps, s) && HasShape(caps, open) && o in Repetitions(x, p, ep, rep, next, s, caps, d)
    ensures Agrees(o, Fault(x.pat, next, open))
    decreases |x.pat| - p, 0
  {
    hide Outcomes, ItemAt, InSet, CapsOk, HasShape, Fault, Agrees;
    var m := s < |x.src| && Single(x.pat, p, ep, x.src[s]);
    match rep
    case Once =>
      LaterOk(caps, s, s + 1);
      OutcomesAgree(x, next, s + 1, caps, open, d, o);
    case Optional =>
      if m && o in Call(x, next, s + 1, caps, d) {
        LaterOk(caps, s, s + 1);
        CallAgrees(x, next, s + 1, caps, open, d, o);
      } else {
        OutcomesAgree(x, next, s, caps, open, d, o);
      }
    case Longest => DescendingAgrees(x, next, s, Run(x, p, ep, s), caps, open, d, o);
    case OnceOrMore =>
      LaterOk(caps, s, s + 1);
      DescendingAgrees(x, next, s + 1, Run(x, p, ep, s + 1), caps, open, d, o);
    case Shortest => AscendingAgrees(x, next, s, Run(x, p, ep, s), caps, open, d, o);
  }

  lemma {:induction false} DescendingAgrees(x: Text, next: nat, s: nat, n: nat, caps: seq<Cap>, open: seq<bool>, d: nat, o: Outcome)
    requires s + n <= |x.src| && CapsOk(caps, s) && HasShape(caps, open) && o in Descending(x, next, s, n, caps, d)
    ensures Agrees(o, Fault(x.pat, next, open))
    decreases |x.pat| - next, 3, n
  {
    hide Call, Outcomes, CapsOk, HasShape, Descending, Fault, Agrees;
    DescendingSplit(x, next, s, n, caps, d, o);
    if o in Call(x, next, s + n, caps, d) {
      LaterOk(caps, s, s + n);
      CallAgrees(x, next, s + n, caps, open, d, o);
    } else {
      DescendingAgrees(x, next, s, n - 1, caps, open, d, o);
    }
  }

  lemma {:induction false} AscendingAgrees(x: Text, next: nat, s: nat, n: nat, caps: seq<Cap>, open: seq<bool>, d: nat, o: Outcome)
    requires s + n <= |x.src| && CapsOk(caps, s) && HasShape(caps, open) && o in Ascending(x, next, s, n, caps, d)
    ensures Agrees(o, Fault(x.pat, next, open))
    decreases |x.pat| - next, 3, n
  {
    hide Call, Outcomes, CapsOk, HasShape, Ascending, Fault, Agrees;
    AscendingSplit(x, next, s, n, caps, d, o);
    if o in Call(x, next, s, caps, d) {
      CallAgrees(x, next, s, caps, open, d, o);
    } else {
      LaterOk(caps, s, s + 1);
      AscendingAgrees(x, next, s + 1, n - 1, caps, open, d, o);
    }
  }

  // ---- what match answers ----------------------------------------------------------------------

  /** For patterns below the depth limit, the outcomes are decided by the language of the pattern:
      from depth zero there is a match with captures caps' up to e among them if and only if the
      pattern describes one. */
  lemma ShortPatternExact(x: Text, p: nat, s: nat, e: nat, caps': seq<Cap>)
    requires s <= |x.src| && p <= |x.pat| && |x.pat| - p < LJ_MAX_XLEVEL
    ensures Hit(e, caps') in Call(x, p, s, [], 0) <==> Accepts(x, p, s, [], e, caps')
    ensures Raise(TooComplex) !in Call(x, p, s, [], 0)
  {
    NeverTooComplex(x, p, s, [], 1);
    if Hit(e, caps') in Call(x, p, s, [], 0) {
      Sound(x, p, s, [], 1, e, caps');
    }
    if Accepts(x, p, s, [], e, caps') {
      Complete(x, p, s, [], 1, e, caps');
    }
  }

  /** The pattern from p on describes some match at s. */
  ghost predicate Meant(x: Text, p: nat, s: nat) {
    exists e: nat, caps' :: Accepts(x, p, s, [], e, caps')
  }

  /** What match returns is the first outcome. For patterns below the depth limit it is a match if
      and only if the pattern describes one, and then one the pattern describes; if it is an error,
      that is the first fault of the pattern, for every subject. */
  lemma FirstOutcome(x: Text, p: nat, s: nat)
    requires s <= |x.src| && p <= |x.pat| && |x.pat| - p < LJ_MAX_XLEVEL
    ensures var os := Call(x, p, s, [], 0);
            && (Meant(x, p, s) <==> os != [] && os[0].Hit?)
            && (os != [] && os[0].Hit? ==> Accepts(x, p, s, [], os[0].e, os[0].caps))
            && (os != [] && os[0].Raise? ==> Fault(x.pat, p, []) == Some(os[0].error))
            && (Meant(x, p, s) ==> Fault(x.pat, p, []) == None)
  {
    hide Call, Accepts, Fault;
    var os := Call(x, p, s, [], 0);
    if os != [] {
      assert os[0] in os;
      CallAgrees(x, p, s, [], [], 0, os[0]);
      if os[0].Hit? {
        ShortPatternExact(x, p, s, os[0].e, os[0].caps);
      } else {
        ShortPatternExact(x, p, s, 0, []);
      }
    }
    if Meant(x, p, s) {
      var e: nat, caps' :| Accepts(x, p, s, [], e, caps');
      ShortPatternExact(x, p, s, e, caps');
      CallAgrees(x, p, s, [], [], 0, Hit(e, caps'));
    }
  }

  // ---- preference -----------------------------------------------------------------------------

  /** A greedy item takes as many repetitions as let the rest of the pattern come to anything. */
  lemma {:induction false} Greedy(x: Text, next: nat, s: nat, n: nat, caps: seq<Cap>, d: nat) returns (k: nat)
    requires Descending(x, next, s, n, caps, d) != []
    ensures k <= n && Call(x, next, s + k, caps, d) != [] && Descending(x, next, s, n, caps, d)[0] == Call(x, next, s + k, caps, d)[0]
    ensures forall t: nat {:trigger Call(x, next, t, caps, d)} :: s + k < t <= s + n ==> Call(x, next, t, caps, d) == []
    decreases n
  {
    hide Call, Outcomes;
    if Call(x, next, s + n, caps, d) != [] {
      k := n;
    } else {
      k := Greedy(x, next, s, n - 1, caps, d);
    }
  }

  /** A lazy item takes as few. */
  lemma {:induction false} Lazy(x: Text, next: nat, s: nat, n: nat, caps: seq<Cap>, d: nat) returns (k: nat)
    requires Ascending(x, next, s, n, caps, d) != []
    ensures k <= n && Call(x, next, s + k, caps, d) != [] && Ascending(x, next, s, n, caps, d)[0] == Call(x, next, s + k, caps, d)[0]
    ensures forall t: nat {:trigger Call(x, next, t, caps, d)} :: s <= t < s + k ==> Call(x, next, t, caps, d) == []
    decreases n
  {
    hide Call, Outcomes;
    if Call(x, next, s, caps, d) != [] {
      k := 0;
    } else {
      var j := Lazy(x, next, s + 1, n - 1, caps, d);
      k := j + 1;
      assert s + k == s + 1 + j;
      forall t: nat | s <= t < s + k ensures Call(x, next, t, caps, d) == [] {
        if t > s {
          assert s + 1 <= t < s + 1 + j;
        }
      }
    }
  }

  // ---- plain patterns -------------------------------------------------------------------------

  /** lj_str_haspattern */
  predicate IsSpecial(c: nat) {
    c == '^' as nat || c == '$' as nat || c == '*' as nat || c == '+' as nat || c == '?' as nat || c == '.' as nat
    || c == '(' as nat || c == '[' as nat || c == '%' as nat || c == '-' as nat
  }

  ghost predicate Plain(pat: Bytes) {
    forall i {:trigger pat[i]} :: 0 <= i < |pat| ==> !IsSpecial(pat[i])
  }

  ghost predicate Occurs(src: Bytes, q: nat, t: Bytes) {
    q + |t| <= |src| && src[q..q + |t|] == t
  }
}
