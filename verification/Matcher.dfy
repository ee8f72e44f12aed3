/** The backtracking matcher of lib_string.c and its mutable match state. */
module Matcher {
  import opened Pattern
  import opened PatternFacts

  /** The pointer match returns, or an error thrown on the way. */
  datatype Attempt = Found(e: nat) | NoMatch | Error(error: Error)

  function First(o: seq<Outcome>): Option<Outcome> {
    if o == [] then None else Some(o[0])
  }

  /** An attempt comes to the first of the outcomes o, with captures caps. */
  predicate Fits(r: Attempt, o: seq<Outcome>, caps: seq<Cap>) {
    match r
    case Found(e) => First(o) == Some(Hit(e, caps))
    case NoMatch => o == []
    case Error(x) => First(o) == Some(Raise(x))
  }

  class MatchState {
    const src: Bytes
    const pat: Bytes
    var level: nat
    var depth: nat
    const capture: array<Cap>

    constructor (subject: Bytes, pattern: Bytes)
      ensures src == subject && pat == pattern && level == 0 && depth == 0 && Shape() && fresh(capture)
    {
      src, pat := subject, pattern;
      level, depth := 0, 0;
      capture := new Cap[LUA_MAXCAPTURES](_ => Cap(0, 0));
    }

    predicate Shape()
      reads this
    {
      capture.Length == LUA_MAXCAPTURES && level <= LUA_MAXCAPTURES
    }

    /** The captures in use. */
    function Caps(): seq<Cap>
      requires Shape()
      reads this, capture
    {
      capture[..level]
    }

    function X(): Text { Text(src, pat) }

    /** What a call leaves: a failed attempt restores level, depth and captures. */
    ghost predicate After(r: Attempt, o: seq<Outcome>, caps: seq<Cap>, d: nat)
      reads this, capture
    {
      && Shape() && Fits(r, o, Caps())
      && (!r.Error? ==> depth == d)
      && (r.NoMatch? ==> Caps() == caps)
    }

    /** classend */
    method EndOfClass(p: nat) returns (r: Result<nat>)
      requires At(pat, p) != 0
      ensures r == ClassEnd(pat, p)
    {
      var q := p + 1;
      if At(pat, p) == '%' as nat {
        if At(pat, q) == 0 {
          return Err(EndsWithPercent);
        }
        return Ok(q + 1);
      } else if At(pat, p) == '[' as nat {
        if At(pat, q) == '^' as nat {
          q := q + 1;
        }
        var first := true;
        while first || At(pat, q) != ']' as nat
          invariant q <= |pat|
          invariant Closing(pat, FirstMember(pat, p)) == if !first && At(pat, q) == ']' as nat then Some(q) else Closing(pat, q)
          decreases |pat| - q, first
        {
          first := false;
          if At(pat, q) == 0 {
            return Err(MissingBracket);
          }
          q := q + 1;
          if At(pat, q - 1) == '%' as nat && At(pat, q) != 0 {
            q := q + 1;
          }
        }
        return Ok(q + 1);
      } else {
        return Ok(q);
      }
    }

    /** matchbracketclass, for brackets at p0 and ec */
    method MatchBracketClass(c: nat, p0: nat, ec: nat) returns (r: bool)
      ensures r == InSet(pat, p0, ec, c)
    {
      hide MatchClass, Members;
      var sig, p := true, p0;
      if At(pat, p + 1) == '^' as nat {
        sig := false;
        p := p + 1;
      }
      p := p + 1;
      while p < ec
        invariant AnyHas(Members(pat, FirstMember(pat, p0), ec), c) == AnyHas(Members(pat, p, ec), c)
        invariant sig == !Negated(pat, p0)
        decreases ec - p
      {
        MembersStep(pat, p, ec);
        if At(pat, p) == '%' as nat {
          p := p + 1;
          if MatchClass(c, At(pat, p)) {
            return sig;
          }
        } else if At(pat, p + 1) == '-' as nat && p + 2 < ec {
          p := p + 2;
          if At(pat, p - 2) <= c <= At(pat, p) {
            return sig;
          }
        } else if At(pat, p) == c {
          return sig;
        }
        p := p + 1;
      }
      NoMembers(pat, p, ec);
      return !sig;
    }

    /** singlematch */
    method SingleMatch(c: nat, p: nat, ep: nat) returns (r: bool)
      requires At(pat, p) != 0 && ClassEnd(pat, p) == Ok(ep)
      ensures r == Single(pat, p, ep, c)
    {
      if At(pat, p) == '.' as nat {
        return true;
      } else if At(pat, p) == '%' as nat {
        return MatchClass(c, At(pat, p + 1));
      } else if At(pat, p) == '[' as nat {
        r := MatchBracketClass(c, p, ep - 1);
      } else {
        return At(pat, p) == c;
      }
    }

    /** matchbalance, for the characters at p */
    method MatchBalance(s0: nat, p: nat) returns (r: Attempt)
      requires s0 <= |src|
      ensures At(pat, p) == 0 || At(pat, p + 1) == 0 ==> r == Error(Unbalanced)
      ensures At(pat, p) != 0 && At(pat, p + 1) != 0 ==>
                r == if At(src, s0) != At(pat, p) then NoMatch
                     else match Balanced(src, s0 + 1, At(pat, p), At(pat, p + 1), 1) case None => NoMatch case Some(s') => Found(s')
    {
      if At(pat, p) == 0 || At(pat, p + 1) == 0 {
        return Error(Unbalanced);
      }
      if At(src, s0) != At(pat, p) {
        return NoMatch;
      }
      var b, e, cont, s := At(pat, p), At(pat, p + 1), 1, s0 + 1;
      while s < |src|
        invariant s <= |src| && cont >= 1
        invariant Balanced(src, s0 + 1, b, e, 1) == Balanced(src, s, b, e, cont)
      {
        if src[s] == e {
          cont := cont - 1;
          if cont == 0 {
            return Found(s + 1);
          }
        } else if src[s] == b {
          cont := cont + 1;
        }
        s := s + 1;
      }
      return NoMatch;
    }

    // ---- backtracking -----------------------------------------------------------------------

    /** max_expand: as many repetitions as there are, then fewer. */
    method MaxExpand(s: nat, p: nat, ep: nat) returns (r: Attempt)
      requires Shape() && s <= |src| && CapsOk(Caps(), s) && p < ep < |pat| && At(pat, p) != 0 && ClassEnd(pat, p) == Ok(ep)
      modifies this, capture
      ensures After(r, Descending(X(), ep + 1, s, Run(X(), p, ep, s), old(Caps()), old(depth)), old(Caps()), old(depth))
      decreases |pat| - ep, 1
    {
      hide Outcomes, Call, CapsOk, Single, ItemAt, ClassEnd, Ascending, Descending;
      ghost var caps, d := Caps(), depth;
      var i: int := 0;
      var more := s < |src|;
      while more
        invariant 0 <= i && s + i <= |src| && Run(X(), p, ep, s) == i + (if more then Run(X(), p, ep, s + i) else 0)
        invariant (more ==> s + i < |src|) && Shape() && Caps() == caps && depth == d
        decreases |src| - i, more
      {
        more := SingleMatch(src[s + i], p, ep);
        if more {
          i := i + 1;
          more := s + i < |src|;
        }
      }
      ghost var n: nat := i;
      while i >= 0
        invariant -1 <= i <= n && Shape() && Caps() == caps && depth == d && CapsOk(Caps(), s)
        invariant First(Descending(X(), ep + 1, s, n, caps, d)) == if i >= 0 then First(Descending(X(), ep + 1, s, i, caps, d)) else None
      {
        LaterOk(Caps(), s, s + i);
        DescendingStep(X(), ep + 1, s, i, caps, d);
        r := Match(s + i, ep + 1);
        if !r.NoMatch? {
          return;
        }
        i := i - 1;
      }
      return NoMatch;
    }

    /** min_expand: no repetition, then more. */
    method MinExpand(s0: nat, p: nat, ep: nat) returns (r: Attempt)
      requires Shape() && s0 <= |src| && CapsOk(Caps(), s0) && p < ep < |pat| && At(pat, p) != 0 && ClassEnd(pat, p) == Ok(ep)
      modifies this, capture
      ensures After(r, Ascending(X(), ep + 1, s0, Run(X(), p, ep, s0), old(Caps()), old(depth)), old(Caps()), old(depth))
      decreases |pat| - ep, 1
    {
      hide Outcomes, Call, CapsOk, Single, ItemAt, ClassEnd, Ascending, Descending;
      ghost var caps, d := Caps(), depth;
      var s := s0;
      while true
        invariant s0 <= s <= |src| && Shape() && Caps() == caps && depth == d && CapsOk(Caps(), s)
        invariant First(Ascending(X(), ep + 1, s0, Run(X(), p, ep, s0), caps, d)) == First(Ascending(X(), ep + 1, s, Run(X(), p, ep, s), caps, d))
        decreases |src| - s
      {
        AscendingStep(X(), p, ep, s, caps, d);
        r := Match(s, ep + 1);
        if !r.NoMatch? {
          return;
        }
        var more := s < |src|;
        if more {
          more := SingleMatch(src[s], p, ep);
        }
        if !more {
          return NoMatch;
        }
        LaterOk(Caps(), s, s + 1);
        s := s + 1;
      }
    }

    /** start_capture */
    method StartCapture(s: nat, p: nat, what: int) returns (r: Attempt)
      requires Shape() && s <= |src| && CapsOk(Caps(), s) && p <= |pat| && (what == CAP_POSITION || what == CAP_UNFINISHED)
      modifies this, capture
      ensures After(r, if |old(Caps())| >= LUA_MAXCAPTURES then [Raise(TooManyCaptures)] else Call(X(), p, s, old(Caps()) + [Cap(s, what)], old(depth)), old(Caps()), old(depth))
      decreases |pat| - p, 3
    {
      ghost var caps := Caps();
      if level >= LUA_MAXCAPTURES {
        return Error(TooManyCaptures);
      }
      capture[level] := Cap(s, what);
      level := level + 1;
      assert Caps() == caps + [Cap(s, what)];
      r := Match(s, p);
      if r.NoMatch? {
        level := level - 1;
        assert Caps() == (caps + [Cap(s, what)])[..|caps|] == caps;
      }
    }

    /** capture_to_close */
    method CaptureToClose() returns (r: Option<nat>)
      requires Shape()
      ensures r == LastOpen(Caps())
    {
      var l: int := level;
      l := l - 1;
      while l >= 0
        invariant -1 <= l < level && LastOpen(Caps()) == LastOpen(Caps()[..l + 1])
      {
        assert Caps()[..l + 1][..l] == Caps()[..l];
        if capture[l].len == CAP_UNFINISHED {
          return Some(l);
        }
        l := l - 1;
      }
      return None;
    }

    /** end_capture */
    method EndCapture(s: nat, p: nat) returns (r: Attempt)
      requires Shape() && s <= |src| && CapsOk(Caps(), s) && p <= |pat|
      modifies this, capture
      ensures After(r, match LastOpen(old(Caps()))
                       case None => [Raise(NoOpenCapture)]
                       case Some(l) => Call(X(), p, s, old(Caps())[l := Cap(old(Caps())[l].init, s - old(Caps())[l].init)], old(depth)), old(Caps()), old(depth))
      decreases |pat| - p, 3
    {
      ghost var caps := Caps();
      var open := CaptureToClose();
      if open.None? {
        return Error(NoOpenCapture);
      }
      var l := open.value;
      capture[l] := Cap(capture[l].init, s - capture[l].init);
      assert Caps() == caps[l := Cap(caps[l].init, s - caps[l].init)];
      r := Match(s, p);
      if r.NoMatch? {
        capture[l] := Cap(capture[l].init, CAP_UNFINISHED);
        assert Caps() == caps;
      }
    }

    /** match_capture: where the text of the capture ends when it occurs again at s. */
    method MatchCapture(s: nat, digit: nat) returns (r: Attempt)
      requires Shape() && s <= |src| && CapsOk(Caps(), s)
      ensures r == match CheckCapture(Caps(), digit)
                   case None => Error(InvalidCapture)
                   case Some(l) => if Again(src, Caps()[l], s) then Found(s + Caps()[l].len) else NoMatch
    {
      var l: int := digit - '1' as int;
      if l < 0 || l >= level || capture[l].len == CAP_UNFINISHED {
        return Error(InvalidCapture);
      }
      var c := capture[l];
      // as an unsigned number the length of a position is larger than any other
      if c.len >= 0 && |src| - s >= c.len && src[c.init..c.init + c.len] == src[s..s + c.len] {
        return Found(s + c.len);
      } else {
        return NoMatch;
      }
    }

    /** match */
    method Match(s0: nat, p0: nat) returns (r: Attempt)
      requires Shape() && s0 <= |src| && CapsOk(Caps(), s0) && p0 <= |pat|
      modifies this, capture
      ensures After(r, Call(X(), p0, s0, old(Caps()), old(depth)), old(Caps()), old(depth))
      decreases |pat| - p0, 2
    {
      ghost var caps := Caps();
      ghost var d: nat := depth;
      depth := depth + 1;
      if depth > LJ_MAX_XLEVEL {
        return Error(TooComplex);
      }
      var s: nat, p: nat, again := s0, p0, true;
      r := NoMatch;
      while again
        invariant s <= |src| && p0 <= p <= |pat|
        invariant again ==> Shape() && Caps() == caps && depth == d + 1 && CapsOk(Caps(), s)
        invariant again ==> First(Outcomes(X(), p0, s0, caps, d + 1)) == First(Outcomes(X(), p, s, caps, d + 1))
        invariant !again ==> After(r, Outcomes(X(), p0, s0, caps, d + 1), caps, d + 1)
        decreases |pat| - p, again
      {
        ghost var s1, p1 := s, p;
        again, s, p, r := MatchItem(s, p);
        if again {
          LaterOk(Caps(), s1, s);
        }
      }
      if !r.Error? {
        depth := depth - 1;
      }
    }

    /** One round of match: either it is decided, or match goes on with another s and p. */
    method MatchItem(s: nat, p: nat) returns (again: bool, s': nat, p': nat, r: Attempt)
      requires Shape() && s <= |src| && CapsOk(Caps(), s) && p <= |pat|
      modifies this, capture
      ensures again ==> p < p' <= |pat| && s <= s' <= |src| && Shape() && Caps() == old(Caps()) && depth == old(depth)
      ensures again ==> First(Outcomes(X(), p, s, old(Caps()), old(depth))) == First(Outcomes(X(), p', s', old(Caps()), old(depth)))
      ensures !again ==> After(r, Outcomes(X(), p, s, old(Caps()), old(depth)), old(Caps()), old(depth)) && s' == s && p' == p
      decreases |pat| - p, 1
    {
      again, s', p', r := false, s, p, NoMatch;
      var c, c' := At(pat, p), At(pat, p + 1);
      if c == '(' as nat {
        if c' == ')' as nat {
          r := StartCapture(s, p + 2, CAP_POSITION);
        } else {
          r := StartCapture(s, p + 1, CAP_UNFINISHED);
        }
      } else if c == ')' as nat {
        r := EndCapture(s, p + 1);
      } else if c == '%' as nat && c' == 'b' as nat {
        var t := MatchBalance(s, p + 2);
        if t.Found? {
          again, s', p' := true, t.e, p + 4;
        } else {
          r := t;
        }
      } else if c == '%' as nat && c' == 'f' as nat {
        again, p', r := MatchFrontier(s, p);
      } else if c == '%' as nat && IsDigit(c') {
        var t := MatchCapture(s, c');
        if t.Found? {
          again, s', p' := true, t.e, p + 2;
        } else {
          r := t;
        }
      } else if c == 0 {
        r := Found(s);
      } else if c == '$' as nat && c' == 0 {
        r := if s == |src| then Found(s) else NoMatch;
      } else {
        again, s', p', r := MatchSingle(s, p);
      }
    }

    /** The frontier item %f. */
    method MatchFrontier(s: nat, p: nat) returns (again: bool, p': nat, r: Attempt)
      requires Shape() && s <= |src| && p <= |pat| && At(pat, p) == '%' as nat && At(pat, p + 1) == 'f' as nat
      ensures again ==> p < p' <= |pat| && First(Outcomes(X(), p, s, Caps(), depth)) == First(Outcomes(X(), p', s, Caps(), depth))
      ensures !again ==> After(r, Outcomes(X(), p, s, Caps(), depth), Caps(), depth) && p' == p
    {
      hide Outcomes, ItemAt, InSet, ClassEnd, CapsOk;
      FrontierOutcomes(X(), p, s, Caps(), depth);
      again, p' := false, p;
      if At(pat, p + 2) != '[' as nat {
        return false, p, Error(MissingFrontier);
      }
      var ep := EndOfClass(p + 2);
      if ep.Err? {
        return false, p, Error(ep.error);
      }
      var before := MatchBracketClass(if s == 0 then 0 else At(src, s - 1), p + 2, ep.value - 1);
      var after := MatchBracketClass(At(src, s), p + 2, ep.value - 1);
      if before || !after {
        return false, p, NoMatch;
      }
      return true, ep.value, NoMatch;
    }

    /** A single-character item with its suffix. */
    method MatchSingle(s: nat, p: nat) returns (again: bool, s': nat, p': nat, r: Attempt)
      requires Shape() && s <= |src| && CapsOk(Caps(), s) && p < |pat| && At(pat, p) != 0
      requires ItemAt(pat, p).Item? || (ItemAt(pat, p).Malformed? && ClassEnd(pat, p) == Err(ItemAt(pat, p).error))
      modifies this, capture
      ensures again ==> p < p' <= |pat| && s <= s' <= |src| && Shape() && Caps() == old(Caps()) && depth == old(depth)
      ensures again ==> First(Outcomes(X(), p, s, old(Caps()), old(depth))) == First(Outcomes(X(), p', s', old(Caps()), old(depth)))
      ensures !again ==> After(r, Outcomes(X(), p, s, old(Caps()), old(depth)), old(Caps()), old(depth)) && s' == s && p' == p
      decreases |pat| - p, 0
    {
      hide Outcomes, Run, Single, InSet, Call;
      again, s', p', r := false, s, p, NoMatch;
      SingleOutcomes(X(), p, s, Caps(), depth);
      var end := EndOfClass(p);
      if end.Err? {
        r := Error(end.error);
        return;
      }
      var ep := end.value;
      var m := s < |src|;
      if m {
        m := SingleMatch(src[s], p, ep);
      }
      var suffix := At(pat, ep);
      if suffix == '?' as nat {
        if m {
          LaterOk(Caps(), s, s + 1);
          r := Match(s + 1, ep + 1);
          if !r.NoMatch? {
            return;
          }
        }
        again, p' := true, ep + 1;
      } else if suffix == '*' as nat {
        r := MaxExpand(s, p, ep);
      } else if suffix == '+' as nat {
        if m {
          LaterOk(Caps(), s, s + 1);
          r := MaxExpand(s + 1, p, ep);
        }
      } else if suffix == '-' as nat {
        r := MinExpand(s, p, ep);
      } else if m {
        again, s', p' := true, s + 1, ep;
      }
    }
  }

  /** The outcomes of a single-character item. */
  lemma SingleOutcomes(x: Text, p: nat, s: nat, caps: seq<Cap>, d: nat)
    requires At(x.pat, p) != 0
    requires ItemAt(x.pat, p).Item? || (ItemAt(x.pat, p).Malformed? && ClassEnd(x.pat, p) == Err(ItemAt(x.pat, p).error))
    ensures match ClassEnd(x.pat, p)
            case Err(e) => Outcomes(x, p, s, caps, d) == [Raise(e)]
            case Ok(ep) =>
              var c := At(x.pat, ep);
              var rep := if c == '?' as nat then Optional else if c == '*' as nat then Longest else if c == '+' as nat then OnceOrMore
                         else if c == '-' as nat then Shortest else Once;
              var next := if rep == Once then ep else ep + 1;
              next <= |x.pat| && Outcomes(x, p, s, caps, d) == Repetitions(x, p, ep, rep, next, s, caps, d)
  {
  }

  lemma MembersStep(pat: Bytes, p: nat, ec: nat)
    requires p < ec
    ensures var ms := Members(pat, p, ec);
            ms != [] && (if At(pat, p) == '%' as nat then ms[0] == Class(At(pat, p + 1)) && ms[1..] == Members(pat, p + 2, ec)
                         else if At(pat, p + 1) == '-' as nat && p + 2 < ec then ms[0] == Range(At(pat, p), At(pat, p + 2)) && ms[1..] == Members(pat, p + 3, ec)
                         else ms[0] == Char(At(pat, p)) && ms[1..] == Members(pat, p + 1, ec))
  {
  }

  lemma NoMembers(pat: Bytes, p: nat, ec: nat)
    requires p >= ec
    ensures Members(pat, p, ec) == []
  {
  }

  /** What one more attempt of min_expand leaves to try. */
  lemma AscendingStep(x: Text, p: nat, ep: nat, s: nat, caps: seq<Cap>, d: nat)
    ensures var o := Ascending(x, ep + 1, s, Run(x, p, ep, s), caps, d);
            var c := Call(x, ep + 1, s, caps, d);
            && (c != [] ==> First(o) == First(c))
            && (c == [] && s < |x.src| && Single(x.pat, p, ep, x.src[s]) ==> o == Ascending(x, ep + 1, s + 1, Run(x, p, ep, s + 1), caps, d))
            && (c == [] && !(s < |x.src| && Single(x.pat, p, ep, x.src[s])) ==> o == [])
  {
    hide Outcomes, Call, Single;
  }

  lemma DescendingStep(x: Text, next: nat, s: nat, n: nat, caps: seq<Cap>, d: nat)
    ensures var o := Descending(x, next, s, n, caps, d);
            var c := Call(x, next, s + n, caps, d);
            && (c != [] ==> First(o) == First(c))
            && (c == [] ==> o == if n == 0 then [] else Descending(x, next, s, n - 1, caps, d))
  {
    hide Outcomes, Call;
  }

  /** The outcomes of a frontier item. */
  lemma FrontierOutcomes(x: Text, p: nat, s: nat, caps: seq<Cap>, d: nat)
    requires At(x.pat, p) == '%' as nat && At(x.pat, p + 1) == 'f' as nat
    ensures if At(x.pat, p + 2) != '[' as nat then Outcomes(x, p, s, caps, d) == [Raise(MissingFrontier)]
            else match ClassEnd(x.pat, p + 2)
                 case Err(e) => Outcomes(x, p, s, caps, d) == [Raise(e)]
                 case Ok(ep) =>
                   Outcomes(x, p, s, caps, d) ==
                     if InSet(x.pat, p + 2, ep - 1, if s == 0 then 0 else At(x.src, s - 1)) || !InSet(x.pat, p + 2, ep - 1, At(x.src, s)) then []
                     else Outcomes(x, ep, s, caps, d)
  {
    hide InSet;
  }
}
