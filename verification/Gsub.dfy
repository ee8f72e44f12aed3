/** string.find, string.match, string.gmatch and string.gsub of lib_string.c. */
module Gsub {
  import opened Pattern
  import opened PatternFacts
  import opened Matcher

  // ---- plain patterns -----------------------------------------------------------------------

  /** A character that string.find takes for a plain one, but match does not. */
  predicate IsTrap(c: nat) { c == 0 || c == ')' as nat }

  ghost predicate Quiet(pat: Bytes) {
    forall i {:trigger pat[i]} :: 0 <= i < |pat| ==> !IsTrap(pat[i])
  }

  lemma PlainItem(pat: Bytes, p: nat)
    requires Plain(pat) && p < |pat| && !IsTrap(pat[p])
    ensures ItemAt(pat, p) == Item(p + 1, Once, p + 1) && forall c: nat {:trigger Single(pat, p, p + 1, c)} :: Single(pat, p, p + 1, c) == (pat[p] == c)
  {
    assert !IsSpecial(pat[p]);
    if p + 1 < |pat| {
      assert !IsSpecial(pat[p + 1]);
    }
  }

  lemma OccursStep(src: Bytes, q: nat, t: Bytes)
    requires t != [] && q < |src|
    ensures Occurs(src, q, t) <==> src[q] == t[0] && Occurs(src, q + 1, t[1..])
  {
    if q + |t| <= |src| {
      assert src[q..q + |t|] == [src[q]] + src[q + 1..q + 1 + |t[1..]|];
      assert t == [t[0]] + t[1..];
    }
  }

  lemma {:induction false} PlainOutcomes(x: Text, p: nat, q: nat, d: nat)
    requires Plain(x.pat) && Quiet(x.pat) && p <= |x.pat| && q <= |x.src|
    ensures Outcomes(x, p, q, [], d) == if Occurs(x.src, q, x.pat[p..]) then [Hit(q + |x.pat| - p, [])] else []
    decreases |x.pat| - p
  {
    if p < |x.pat| {
      PlainItem(x.pat, p);
      assert x.pat[p..][1..] == x.pat[p + 1..];
      if q < |x.src| {
        OccursStep(x.src, q, x.pat[p..]);
        if x.src[q] == x.pat[p] {
          PlainOutcomes(x, p + 1, q + 1, d);
        }
      }
    } else {
      assert x.src[q..q] == [] == x.pat[p..];
    }
  }

  /** On the part of a plain pattern before its first trap, match gets to the trap. */
  lemma {:induction false} PlainToTrap(pat: Bytes, k: nat, p: nat, d: nat)
    requires Plain(pat) && k < |pat| && p <= k && Quiet(pat[..k])
    ensures Outcomes(Text(pat[..k], pat), p, p, [], d) == Outcomes(Text(pat[..k], pat), k, k, [], d)
    decreases k - p
  {
    if p < k {
      assert pat[..k][p] == pat[p];
      PlainItem(pat, p);
      PlainToTrap(pat, k, p + 1, d);
    }
  }

  /** Plain search and match agree on where the pattern is found. */
  ghost predicate Agree(src: Bytes, pat: Bytes, q: nat) {
    Call(Text(src, pat), 0, q, [], 0) == if Occurs(src, q, pat) then [Hit(q + |pat|, [])] else []
  }

  /** string.find searches plainly for a pattern without special characters. That is what match
      would do if and only if there is no zero and no closing parenthesis in it: match stops at
      the one, and refuses the other. */
  lemma PlainExact(pat: Bytes)
    requires Plain(pat)
    ensures (forall src: Bytes, q: nat :: q <= |src| ==> Agree(src, pat, q)) <==> Quiet(pat)
  {
    if Quiet(pat) {
      forall src: Bytes, q: nat | q <= |src| ensures Agree(src, pat, q) {
        PlainOutcomes(Text(src, pat), 0, q, 1);
        assert pat[0..] == pat;
      }
    } else {
      var k := FirstTrap(pat, 0);
      PlainToTrap(pat, k, 0, 1);
      var x := Text(pat[..k], pat);
      assert Outcomes(x, k, k, [], 1) != [];
      assert !Agree(pat[..k], pat, 0);
    }
  }

  lemma FirstTrap(pat: Bytes, k: nat) returns (r: nat)
    requires !Quiet(pat) && k <= |pat| && Quiet(pat[..k])
    ensures r < |pat| && IsTrap(pat[r]) && Quiet(pat[..r])
    decreases |pat| - k
  {
    assert k < |pat| by {
      assert pat[..|pat|] == pat;
    }
    if IsTrap(pat[k]) {
      r := k;
    } else {
      assert forall i {:trigger pat[..k + 1][i]} :: 0 <= i < k ==> pat[..k + 1][i] == pat[..k][i];
      r := FirstTrap(pat, k + 1);
    }
  }

  /** lj_str_haspattern */
  method HasPattern(pat: Bytes) returns (r: bool)
    ensures r == !Plain(pat)
  {
    var i := 0;
    while i < |pat|
      invariant i <= |pat| && forall j {:trigger pat[j]} :: 0 <= j < i ==> !IsSpecial(pat[j])
    {
      var c := pat[i];
      i := i + 1;
      if IsPunct(c) && IsSpecial(c) {
        return true;
      }
    }
    return false;
  }

  /** lj_str_find: the first place where t occurs. */
  method PlainFind(src: Bytes, from: nat, t: Bytes) returns (r: Option<nat>)
    requires from <= |src|
    ensures match r
            case None => forall q {:trigger Occurs(src, q, t)} :: from <= q <= |src| ==> !Occurs(src, q, t)
            case Some(at) => from <= at <= |src| && Occurs(src, at, t) && forall q {:trigger Occurs(src, q, t)} :: from <= q < at ==> !Occurs(src, q, t)
  {
    if from + |t| <= |src| {
      if |t| == 0 {
        return Some(from);
      }
      var q := from;
      while q + |t| <= |src|
        invariant from <= q <= |src| && forall q' {:trigger Occurs(src, q', t)} :: from <= q' < q ==> !Occurs(src, q', t)
        decreases |src| - q
      {
        OccursStep(src, q, t);
        if src[q] == t[0] && src[q + 1..q + |t|] == t[1..] {
          return Some(q);
        }
        q := q + 1;
      }
    }
    return None;
  }

  // ---- values of captures ---------------------------------------------------------------------

  /** What a capture is to a Lua program: a text or a position. */
  datatype Value = Str(s: Bytes) | Pos(n: nat)

  /** push_onecapture, for the match from s to e */
  function OneCapture(src: Bytes, caps: seq<Cap>, i: nat, s: nat, e: nat): Result<Value>
    requires s <= e <= |src| && CapsOk(caps, e)
  {
    if i >= |caps| then
      (if i == 0 then Ok(Str(src[s..e])) else Err(InvalidCapture))
    else if caps[i].len == CAP_UNFINISHED then Err(UnfinishedCapture)
    else if caps[i].len == CAP_POSITION then Ok(Pos(caps[i].init + 1))
    else Ok(Str(src[caps[i].init..caps[i].init + caps[i].len]))
  }

  /** The captures from i on, up to n of them. */
  function Captures(src: Bytes, caps: seq<Cap>, i: nat, n: nat, s: nat, e: nat): (r: Result<seq<Value>>)
    requires s <= e <= |src| && CapsOk(caps, e)
    ensures r.Ok? && i <= n ==> |r.value| == n - i
    decreases n - i
  {
    if i >= n then Ok([])
    else
      match OneCapture(src, caps, i, s, e)
      case Err(x) => Err(x)
      case Ok(v) =>
        match Captures(src, caps, i + 1, n, s, e)
        case Err(x) => Err(x)
        case Ok(vs) => Ok([v] + vs)
  }

  /** push_captures: the whole match if there are no captures and it is asked for. */
  function AllCaptures(src: Bytes, caps: seq<Cap>, whole: bool, s: nat, e: nat): Result<seq<Value>>
    requires s <= e <= |src| && CapsOk(caps, e)
  {
    Captures(src, caps, 0, if |caps| == 0 && whole then 1 else |caps|, s, e)
  }

  // ---- searching ------------------------------------------------------------------------------

  /** The first place in src from which the pattern comes to anything, tried from start on, is
      at, and what it comes to there is r. */
  ghost predicate FirstAttempt(x: Text, p: nat, start: nat, last: nat, at: nat, r: Attempt, caps: seq<Cap>) {
    && (forall q: nat {:trigger Call(x, p, q, [], 0)} :: start <= q <= last && (r.NoMatch? || q < at) ==> Call(x, p, q, [], 0) == [])
    && (!r.NoMatch? ==> start <= at <= last && Fits(r, Call(x, p, at, [], 0), caps))
  }

  /** The loop of str_find_aux over the starts of a match. */
  method Search(ms: MatchState, start: nat, p: nat, anchor: bool) returns (at: nat, r: Attempt)
    requires ms.Shape() && start <= |ms.src| && p <= |ms.pat|
    modifies ms, ms.capture
    ensures ms.Shape() && FirstAttempt(ms.X(), p, start, if anchor then start else |ms.src|, at, r, ms.Caps())
    ensures r.Found? ==> at <= r.e <= |ms.src| && CapsOk(ms.Caps(), r.e)
  {
    at := start;
    ghost var last := if anchor then start else |ms.src|;
    while true
      invariant ms.Shape() && start <= at <= last
      invariant forall q: nat {:trigger Call(ms.X(), p, q, [], 0)} :: start <= q < at ==> Call(ms.X(), p, q, [], 0) == []
      decreases |ms.src| - at
    {
      r := TryAt(ms, at, p);
      if !r.NoMatch? {
        return;
      }
      if at >= |ms.src| || anchor {
        return;
      }
      at := at + 1;
    }
  }

  /** One attempt with a fresh match state. */
  method TryAt(ms: MatchState, at: nat, p: nat) returns (r: Attempt)
    requires ms.Shape() && at <= |ms.src| && p <= |ms.pat|
    modifies ms, ms.capture
    ensures ms.Shape() && Fits(r, Call(ms.X(), p, at, [], 0), ms.Caps())
    ensures r.Found? ==> at <= r.e <= |ms.src| && CapsOk(ms.Caps(), r.e)
  {
    hide Call;
    ms.level, ms.depth := 0, 0;
    assert ms.Caps() == [];
    r := ms.Match(at, p);
    if r.Found? {
      CallInside(ms.X(), p, at, [], 0, Hit(r.e, ms.Caps()));
    }
  }

  /** What string.find and string.match return. */
  datatype Reply = Nothing | Located(first: nat, last: nat, captures: seq<Value>) | Matched(captures: seq<Value>) | Failed(error: Error)

  /** Where a search starts: init counts from one, or from the end if it is negative. */
  function StartOf(len: nat, init: int): (r: nat)
    ensures r <= len
  {
    var start := if init < 0 then init + len else init - 1;
    if start < 0 then 0 else if start > len then len else start
  }

  /** What str_find_aux makes of an attempt. */
  function ReplyOf(src: Bytes, find: bool, at: nat, r: Attempt, caps: seq<Cap>): Reply
    requires r.Found? ==> at <= r.e <= |src| && CapsOk(caps, r.e)
  {
    match r
    case NoMatch => Nothing
    case Error(x) => Failed(x)
    case Found(e) =>
      match AllCaptures(src, caps, !find, at, e)
      case Err(x) => Failed(x)
      case Ok(vs) => if find then Located(at + 1, e, vs) else Matched(vs)
  }

  /** A reply tells of the first attempt that comes to anything. */
  ghost predicate Answers(x: Text, start: nat, find: bool, reply: Reply) {
    exists at: nat, r: Attempt, caps: seq<Cap> :: AnswersWith(x, start, find, reply, at, r, caps)
  }

  ghost predicate AnswersWith(x: Text, start: nat, find: bool, reply: Reply, at: nat, r: Attempt, caps: seq<Cap>) {
    var anchor := At(x.pat, 0) == '^' as nat;
    && FirstAttempt(x, if anchor then 1 else 0, start, if anchor then start else |x.src|, at, r, caps)
    && (r.Found? ==> at <= r.e <= |x.src| && CapsOk(caps, r.e))
    && reply == ReplyOf(x.src, find, at, r, caps)
  }

  /** A plain search found the first occurrence, or there is none. */
  ghost predicate AnswersPlain(src: Bytes, pat: Bytes, start: nat, reply: Reply) {
    match reply
    case Nothing => forall q {:trigger Occurs(src, q, pat)} :: start <= q <= |src| ==> !Occurs(src, q, pat)
    case Located(first, last, caps) =>
      && first >= start + 1 && last == first - 1 + |pat| && caps == [] && Occurs(src, first - 1, pat)
      && forall q {:trigger Occurs(src, q, pat)} :: start <= q < first - 1 ==> !Occurs(src, q, pat)
    case _ => false
  }

  /** str_find_aux */
  method StrFind(src: Bytes, pat: Bytes, init: int, plain: bool, find: bool) returns (reply: Reply)
    ensures find && (plain || Plain(pat)) ==> AnswersPlain(src, pat, StartOf(|src|, init), reply)
    ensures !(find && (plain || Plain(pat))) ==> Answers(Text(src, pat), StartOf(|src|, init), find, reply)
  {
    var start := if init < 0 then init + |src| else init - 1;
    if start < 0 {
      start := 0;
    }
    var st: nat := start;
    if st > |src| {
      st := |src|;
    }
    var special := true;
    if find && !plain {
      special := HasPattern(pat);
    }
    if find && (plain || !special) {
      var q := PlainFind(src, st, pat);
      if q.None? {
        return Nothing;
      }
      return Located(q.value + 1, q.value + |pat|, []);
    } else {
      var anchor := At(pat, 0) == '^' as nat;
      var ms := new MatchState(src, pat);
      var at, r := Search(ms, st, if anchor then 1 else 0, anchor);
      reply := ReplyOf(src, find, at, r, ms.Caps());
      assert AnswersWith(Text(src, pat), st, find, reply, at, r, ms.Caps());
    }
  }

  /** For patterns that are plain and quiet the two ways to search say the same. */
  lemma PlainAnswers(src: Bytes, pat: Bytes, start: nat, reply: Reply)
    requires Plain(pat) && Quiet(pat) && start <= |src|
    requires AnswersPlain(src, pat, start, reply)
    ensures Answers(Text(src, pat), start, true, reply)
  {
    hide Call;
    var x := Text(src, pat);
    NotAnchored(pat);
    forall q: nat | q <= |src| ensures Call(x, 0, q, [], 0) == if Occurs(src, q, pat) then [Hit(q + |pat|, [])] else [] {
      PlainExact(pat);
      assert Agree(src, pat, q);
    }
    if reply.Nothing? {
      assert AnswersWith(x, start, true, reply, start, NoMatch, []);
    } else {
      assert AnswersWith(x, start, true, reply, reply.first - 1, Found(reply.last), []);
    }
  }

  lemma NotAnchored(pat: Bytes)
    requires Plain(pat)
    ensures At(pat, 0) != '^' as nat
  {
    if |pat| > 0 {
      assert !IsSpecial(pat[0]);
    }
  }

  // ---- gmatch -----------------------------------------------------------------------------------

  /** The first attempt from pos on that comes to anything, and its captures. */
  ghost predicate Yields(src: Bytes, pat: Bytes, pos: nat, at: nat, r: Attempt, caps: seq<Cap>, captures: Result<seq<Value>>) {
    && FirstAttempt(Text(src, pat), 0, pos, |src|, at, r, caps)
    && (r.Found? ==> at <= r.e <= |src| && CapsOk(caps, r.e) && captures == AllCaptures(src, caps, true, at, r.e))
  }

  /** string_gmatch_aux: the next match from position pos on. An empty match is stepped over, so
      that every call makes progress. */
  method GMatch(src: Bytes, pat: Bytes, pos: nat) returns (next: nat, at: nat, r: Attempt, captures: Result<seq<Value>>)
    ensures r.Found? ==> pos <= at <= r.e <= |src| && pos < next && r.e <= next <= r.e + 1 && (next == r.e + 1 <==> r.e == at)
    ensures pos > |src| ==> r.NoMatch?
    ensures pos <= |src| ==> exists caps :: Yields(src, pat, pos, at, r, caps, captures)
    ensures !r.Found? ==> next == pos
  {
    next, at, captures := pos, pos, Ok([]);
    if pos > |src| {
      return next, at, NoMatch, captures;
    }
    var ms := new MatchState(src, pat);
    at, r := Search(ms, pos, 0, false);
    if r.Found? {
      captures := AllCaptures(src, ms.Caps(), true, at, r.e);
      next := if r.e == at then r.e + 1 else r.e;
    }
    assert Yields(src, pat, pos, at, r, ms.Caps(), captures);
  }

  // ---- gsub -------------------------------------------------------------------------------------

  /** What a replacement function or table gives. */
  datatype Given = Nil | False | Replaced(text: Bytes) | Unfit

  /** The third argument of gsub: a template, a table, or a function (of any captures). */
  datatype Replacement = Template(news: Bytes) | Table(get: Value -> Given) | Function(call: seq<Value> -> Given)

  /** The digits of a number. */
  function Decimal(n: nat): Bytes {
    if n < 10 then ['0' as nat + n] else Decimal(n / 10) + ['0' as nat + n % 10]
  }

  function TextOf(v: Value): Bytes {
    match v
    case Str(s) => s
    case Pos(n) => Decimal(n)
  }

  /** What the template says at i, for the match from s to e, and how far it is read. */
  function TemplateStep(news: Bytes, i: nat, src: Bytes, caps: seq<Cap>, s: nat, e: nat): Result<(Bytes, nat)>
    requires i < |news| && s <= e <= |src| && CapsOk(caps, e)
  {
    if news[i] != '%' as nat then Ok(([news[i]], i + 1))
    else
      var c := At(news, i + 1);
      if !IsDigit(c) then Ok(([c], i + 2))
      else if c == '0' as nat then Ok((src[s..e], i + 2))
      else
        match OneCapture(src, caps, c - '1' as nat, s, e)
        case Err(x) => Err(x)
        case Ok(v) => Ok((TextOf(v), i + 2))
  }

  /** add_s: the template from i on, filled in. */
  function Fill(news: Bytes, i: nat, src: Bytes, caps: seq<Cap>, s: nat, e: nat): Result<Bytes>
    requires s <= e <= |src| && CapsOk(caps, e)
    decreases |news| - i
  {
    if i >= |news| then Ok([])
    else
      match TemplateStep(news, i, src, caps, s, e)
      case Err(x) => Err(x)
      case Ok((t, j)) =>
        match Fill(news, if j > i then j else i + 1, src, caps, s, e)
        case Err(x) => Err(x)
        case Ok(rest) => Ok(t + rest)
  }

  /** add_value after the call: nil and false keep the matched text. */
  function Keep(g: Given, src: Bytes, s: nat, e: nat): Result<Bytes>
    requires s <= e <= |src|
  {
    match g
    case Nil => Ok(src[s..e])
    case False => Ok(src[s..e])
    case Replaced(t) => Ok(t)
    case Unfit => Err(BadReplacement)
  }

  /** add_value: what the match from s to e is replaced with. */
  function NewText(repl: Replacement, src: Bytes, caps: seq<Cap>, s: nat, e: nat): Result<Bytes>
    requires s <= e <= |src| && CapsOk(caps, e)
  {
    match repl
    case Template(news) => Fill(news, 0, src, caps, s, e)
    case Table(get) =>
      (match OneCapture(src, caps, 0, s, e)
       case Err(x) => Err(x)
       case Ok(v) => Keep(get(v), src, s, e))
    case Function(call) =>
      (match AllCaptures(src, caps, true, s, e)
       case Err(x) => Err(x)
       case Ok(vs) => Keep(call(vs), src, s, e))
  }

  /** A piece of the result: a match from s to e and its new text, or a character kept. */
  datatype Piece = New(s: nat, e: nat, text: Bytes) | Kept(at: nat, c: nat)

  function Old(src: Bytes, piece: Piece): Bytes {
    match piece
    case New(s, e, _) => if s <= e <= |src| then src[s..e] else []
    case Kept(_, c) => [c]
  }

  function Now(piece: Piece): Bytes {
    match piece
    case New(_, _, text) => text
    case Kept(_, c) => [c]
  }

  function OldText(src: Bytes, pieces: seq<Piece>): Bytes {
    if pieces == [] then [] else OldText(src, pieces[..|pieces| - 1]) + Old(src, pieces[|pieces| - 1])
  }

  function Output(pieces: seq<Piece>): Bytes {
    if pieces == [] then [] else Output(pieces[..|pieces| - 1]) + Now(pieces[|pieces| - 1])
  }

  function Count(pieces: seq<Piece>): nat {
    if pieces == [] then 0 else Count(pieces[..|pieces| - 1]) + (if pieces[|pieces| - 1].New? then 1 else 0)
  }

  /** One piece: a match of the pattern with the text that replaces it, or a character of the
      subject. */
  ghost predicate GoodPiece(x: Text, p: nat, repl: Replacement, piece: Piece) {
    match piece
    case New(s, e, text) =>
      && s <= e <= |x.src|
      && exists caps :: Replaces(x, p, repl, s, e, text, caps)
    case Kept(at, c) => at < |x.src| && c == x.src[at]
  }

  ghost predicate Replaces(x: Text, p: nat, repl: Replacement, s: nat, e: nat, text: Bytes, caps: seq<Cap>) {
    s <= e <= |x.src| && CapsOk(caps, e) && First(Call(x, p, s, [], 0)) == Some(Hit(e, caps)) && NewText(repl, x.src, caps, s, e) == Ok(text)
  }

  /** Where a piece starts and ends in the subject. */
  function StartAt(piece: Piece): nat {
    match piece case New(s, _, _) => s case Kept(at, _) => at
  }

  function EndAt(piece: Piece): nat {
    match piece case New(_, e, _) => e case Kept(at, _) => at + 1
  }

  /** The pieces cover the subject up to pos, each starting where the one before ended; every
      match is the preferred one at its place, and a character is kept only where there is no
      match, or behind an empty match. */
  ghost predicate Pieces(x: Text, p: nat, repl: Replacement, pieces: seq<Piece>, pos: nat) {
    && (if pieces == [] then pos == 0 else StartAt(pieces[0]) == 0 && pos == EndAt(pieces[|pieces| - 1]))
    && (forall i {:trigger pieces[i]} :: 0 <= i < |pieces| ==> GoodPiece(x, p, repl, pieces[i]))
    && (forall i {:trigger pieces[i]} :: 0 < i < |pieces| ==> StartAt(pieces[i]) == EndAt(pieces[i - 1]))
    && (forall i {:trigger pieces[i]} :: 0 <= i < |pieces| && pieces[i].Kept? ==>
          Call(x, p, pieces[i].at, [], 0) == [] || (i > 0 && pieces[i - 1] == New(pieces[i].at, pieces[i].at, Now(pieces[i - 1]))))
    && (forall i {:trigger pieces[i]} :: 0 < i < |pieces| && pieces[i].New? ==> !(pieces[i - 1].New? && pieces[i - 1].s == pieces[i - 1].e))
  }

  /** add_s */
  method AddTemplate(news: Bytes, src: Bytes, caps: seq<Cap>, s: nat, e: nat) returns (r: Result<Bytes>)
    requires s <= e <= |src| && CapsOk(caps, e)
    ensures r == Fill(news, 0, src, caps, s, e)
  {
    var b: Bytes := [];
    var i := 0;
    Grouped([], [], Fill(news, 0, src, caps, s, e));
    while i < |news|
      invariant Fill(news, 0, src, caps, s, e) == match Fill(news, i, src, caps, s, e) case Err(x) => Err(x) case Ok(rest) => Ok(b + rest)
      decreases |news| - i
    {
      ghost var b0, i0 := b, i;
      if news[i] != '%' as nat {
        b := b + [news[i]];
      } else {
        i := i + 1;
        var c := At(news, i);
        if !IsDigit(c) {
          b := b + [c];
        } else if c == '0' as nat {
          b := b + src[s..e];
        } else {
          var v := OneCapture(src, caps, c - '1' as nat, s, e);
          if v.Err? {
            return Err(v.error);
          }
          b := b + TextOf(v.value);
        }
      }
      i := i + 1;
      Grouped(b0, b, Fill(news, i, src, caps, s, e));
    }
    assert b + [] == b;
    return Ok(b);
  }

  lemma Grouped(b0: Bytes, b: Bytes, rest: Result<Bytes>)
    requires b0 <= b
    ensures rest.Ok? ==> [] + rest.value == rest.value
    ensures rest.Ok? ==> b + rest.value == b0 + (b[|b0|..] + rest.value)
  {
  }

  /** add_value */
  method AddValue(repl: Replacement, src: Bytes, caps: seq<Cap>, s: nat, e: nat) returns (r: Result<Bytes>)
    requires s <= e <= |src| && CapsOk(caps, e)
    ensures r == NewText(repl, src, caps, s, e)
  {
    match repl {
      case Template(news) => r := AddTemplate(news, src, caps, s, e);
      case Table(get) =>
        var v := OneCapture(src, caps, 0, s, e);
        r := if v.Err? then Err(v.error) else Keep(get(v.value), src, s, e);
      case Function(call) =>
        var vs := AllCaptures(src, caps, true, s, e);
        r := if vs.Err? then Err(vs.error) else Keep(call(vs.value), src, s, e);
    }
  }

  /** Why gsub fails: an attempt at s throws, or the replacement for its match does. */
  ghost predicate Fails(x: Text, p: nat, repl: Replacement, s: nat, error: Error) {
    || First(Call(x, p, s, [], 0)) == Some(Raise(error))
    || exists e: nat, caps :: FailsAt(x, p, repl, s, e, caps, error)
  }

  ghost predicate FailsAt(x: Text, p: nat, repl: Replacement, s: nat, e: nat, caps: seq<Cap>, error: Error) {
    s <= e <= |x.src| && CapsOk(caps, e) && First(Call(x, p, s, [], 0)) == Some(Hit(e, caps)) && NewText(repl, x.src, caps, s, e) == Err(error)
  }

  /** When the loop of gsub is over at pos: the limit is reached, the pattern was anchored, or
      the end of the subject has been tried. */
  ghost predicate Over(x: Text, p: nat, pieces: seq<Piece>, pos: nat, limit: int, anchor: bool) {
    || Count(pieces) >= limit
    || (anchor && pieces != [])
    || (pos == |x.src| && (Call(x, p, pos, [], 0) == [] || (pieces != [] && pieces[|pieces| - 1].New? && EndAt(pieces[|pieces| - 1]) == pos && pieces[|pieces| - 1].s == pos)))
  }

  /** What gsub has done, with the pattern from p on: the result is the output of the pieces and
      the rest of the subject from pos on, which is not looked at; n is the number of matches.
      Every round but the last takes something of the subject. */
  ghost predicate Substituted(x: Text, p: nat, anchor: bool, repl: Replacement, limit: int, r: Result<(Bytes, nat)>, pieces: seq<Piece>, pos: nat, rounds: nat) {
    && pos <= |x.src| && Pieces(x, p, repl, pieces, pos) && rounds <= pos + 1 && (anchor ==> rounds <= 1)
    && match r
       case Ok((text, n)) => text == Output(pieces) + x.src[pos..] && n == Count(pieces) && Over(x, p, pieces, pos, limit, anchor) && (n == 0 || n <= limit)
       case Err(error) => Fails(x, p, repl, pos, error)
  }

  /** A match at s and its new text, if there is one. */
  method NextMatch(ms: MatchState, s: nat, p: nat, repl: Replacement) returns (r: Result<Option<(nat, Bytes)>>)
    requires ms.Shape() && s <= |ms.src| && p <= |ms.pat|
    modifies ms, ms.capture
    ensures ms.Shape()
    ensures match r
            case Err(x) => Fails(ms.X(), p, repl, s, x)
            case Ok(None) => Call(ms.X(), p, s, [], 0) == []
            case Ok(Some((e, text))) => GoodPiece(ms.X(), p, repl, New(s, e, text))
  {
    hide Call, NewText;
    var r1 := TryAt(ms, s, p);
    match r1 {
      case Error(x) => r := Err(x);
      case NoMatch => r := Ok(None);
      case Found(e) =>
        ghost var caps := ms.Caps();
        var v := AddValue(repl, ms.src, ms.Caps(), s, e);
        if v.Err? {
          assert FailsAt(ms.X(), p, repl, s, e, caps, v.error);
          r := Err(v.error);
        } else {
          assert Replaces(ms.X(), p, repl, s, e, v.value, caps);
          r := Ok(Some((e, v.value)));
        }
    }
  }

  /** string_gsub */
  method GSub(src: Bytes, pattern: Bytes, repl: Replacement, limit: int) returns (r: Result<(Bytes, nat)>, ghost pieces: seq<Piece>, ghost pos: nat, ghost rounds: nat)
    ensures var anchor := At(pattern, 0) == '^' as nat;
            Substituted(Text(src, pattern), if anchor then 1 else 0, anchor, repl, limit, r, pieces, pos, rounds)
  {
    hide Call, Pieces, Output, Count, Fails, GoodPiece;
    var anchor := At(pattern, 0) == '^' as nat;
    var p: nat := if anchor then 1 else 0;
    ghost var x := Text(src, pattern);
    var n: nat := 0;
    var b: Bytes := [];
    var s: nat := 0;
    pieces, pos, rounds := [], 0, 0;
    NoPieces(x, p, repl);
    var ms := new MatchState(src, pattern);
    var more := true;
    while more && n < limit
      invariant ms.Shape() && fresh(ms) && fresh(ms.capture) && ms.src == src && ms.pat == pattern && s == pos <= |src| && Pieces(x, p, repl, pieces, pos)
      invariant b == Output(pieces) && n == Count(pieces) && (n == 0 || n <= limit)
      invariant !more ==> Over(x, p, pieces, pos, limit, anchor)
      invariant more ==> rounds <= pos && (anchor ==> rounds == 0) && !EmptyLast(pieces)
      invariant rounds <= pos + 1 && (anchor ==> rounds <= 1)
      decreases |src| - s, more
    {
      rounds := rounds + 1;
      var found := NextMatch(ms, s, p, repl);
      if found.Err? {
        return Err(found.error), pieces, pos, rounds;
      }
      var e := s;
      if found.value.Some? {
        n := n + 1;
        e := found.value.value.0;
        GoodNew(x, p, repl, s, e, found.value.value.1);
        AddNew(x, p, repl, pieces, s, e, found.value.value.1);
        pieces, pos := pieces + [New(s, e, found.value.value.1)], e;
        b := b + found.value.value.1;
      }
      if e > s {
        s := e;
      } else if s < |src| {
        AddKept(x, p, repl, pieces, s);
        b := b + [src[s]];
        pieces, pos := pieces + [Kept(s, src[s])], s + 1;
        s := s + 1;
      } else {
        more := false;
      }
      if anchor {
        more := false;
      }
    }
    return Ok((b + src[s..], n)), pieces, pos, rounds;
  }

  lemma GoodNew(x: Text, p: nat, repl: Replacement, s: nat, e: nat, text: Bytes)
    requires GoodPiece(x, p, repl, New(s, e, text))
    ensures s <= e <= |x.src|
  {
  }

  ghost predicate EmptyLast(pieces: seq<Piece>) {
    pieces != [] && pieces[|pieces| - 1].New? && pieces[|pieces| - 1].s == pieces[|pieces| - 1].e
  }

  lemma NoPieces(x: Text, p: nat, repl: Replacement)
    ensures Pieces(x, p, repl, [], 0) && Output([]) == [] && Count([]) == 0
  {
  }

  lemma AddPiece(x: Text, p: nat, repl: Replacement, pieces: seq<Piece>, pos: nat, piece: Piece)
    requires Pieces(x, p, repl, pieces, pos) && GoodPiece(x, p, repl, piece) && StartAt(piece) == pos
    requires piece.Kept? ==> Call(x, p, pos, [], 0) == [] || (EmptyLast(pieces) && pieces[|pieces| - 1].s == pos)
    requires piece.New? ==> !EmptyLast(pieces)
    ensures Pieces(x, p, repl, pieces + [piece], EndAt(piece))
    ensures Output(pieces + [piece]) == Output(pieces) + Now(piece) && Count(pieces + [piece]) == Count(pieces) + (if piece.New? then 1 else 0)
  {
    hide Call, GoodPiece;
    var more := pieces + [piece];
    assert more[..|more| - 1] == pieces;
    forall i {:trigger more[i]} | 0 <= i < |more|
      ensures GoodPiece(x, p, repl, more[i])
      ensures i > 0 ==> StartAt(more[i]) == EndAt(more[i - 1])
      ensures more[i].Kept? ==> Call(x, p, more[i].at, [], 0) == [] || (i > 0 && more[i - 1] == New(more[i].at, more[i].at, Now(more[i - 1])))
      ensures i > 0 && more[i].New? ==> !(more[i - 1].New? && more[i - 1].s == more[i - 1].e)
    {
      if i < |pieces| {
        assert more[i] == pieces[i] && (i > 0 ==> more[i - 1] == pieces[i - 1]);
      }
    }
  }

  lemma AddNew(x: Text, p: nat, repl: Replacement, pieces: seq<Piece>, s: nat, e: nat, text: Bytes)
    requires Pieces(x, p, repl, pieces, s) && GoodPiece(x, p, repl, New(s, e, text)) && !EmptyLast(pieces)
    ensures Pieces(x, p, repl, pieces + [New(s, e, text)], e)
    ensures Output(pieces + [New(s, e, text)]) == Output(pieces) + text && Count(pieces + [New(s, e, text)]) == Count(pieces) + 1
  {
    AddPiece(x, p, repl, pieces, s, New(s, e, text));
  }

  lemma AddKept(x: Text, p: nat, repl: Replacement, pieces: seq<Piece>, s: nat)
    requires Pieces(x, p, repl, pieces, s) && s < |x.src| && (Call(x, p, s, [], 0) == [] || (EmptyLast(pieces) && pieces[|pieces| - 1].s == s))
    ensures Pieces(x, p, repl, pieces + [Kept(s, x.src[s])], s + 1)
    ensures Output(pieces + [Kept(s, x.src[s])]) == Output(pieces) + [x.src[s]] && Count(pieces + [Kept(s, x.src[s])]) == Count(pieces)
  {
    AddPiece(x, p, repl, pieces, s, Kept(s, x.src[s]));
  }

  // ---- conservation -----------------------------------------------------------------------------

  /** Output so far, mapped back to the originals, is the part of the subject read so far. */
  lemma {:induction false} Conserves(x: Text, p: nat, repl: Replacement, pieces: seq<Piece>, pos: nat)
    requires Pieces(x, p, repl, pieces, pos)
    ensures pos <= |x.src| && OldText(x.src, pieces) == x.src[..pos]
    decreases |pieces|
  {
    hide Call, NewText, CapsOk, Replaces;
    if pieces != [] {
      var less, last := pieces[..|pieces| - 1], pieces[|pieces| - 1];
      assert GoodPiece(x, p, repl, last);
      PrefixPieces(x, p, repl, pieces, pos);
      Conserves(x, p, repl, less, StartAt(last));
      assert x.src[..pos] == x.src[..StartAt(last)] + x.src[StartAt(last)..pos];
    }
  }

  lemma PrefixPieces(x: Text, p: nat, repl: Replacement, pieces: seq<Piece>, pos: nat)
    requires Pieces(x, p, repl, pieces, pos) && pieces != []
    ensures Pieces(x, p, repl, pieces[..|pieces| - 1], StartAt(pieces[|pieces| - 1]))
  {
    hide Call, GoodPiece;
    var less := pieces[..|pieces| - 1];
    forall i {:trigger less[i]} | 0 <= i < |less|
      ensures GoodPiece(x, p, repl, less[i])
      ensures i > 0 ==> StartAt(less[i]) == EndAt(less[i - 1])
      ensures less[i].Kept? ==> Call(x, p, less[i].at, [], 0) == [] || (i > 0 && less[i - 1] == New(less[i].at, less[i].at, Now(less[i - 1])))
      ensures i > 0 && less[i].New? ==> !(less[i - 1].New? && less[i - 1].s == less[i - 1].e)
    {
      assert less[i] == pieces[i] && (i > 0 ==> less[i - 1] == pieces[i - 1]);
    }
  }

  /** The replacement keeps every match: the template is %0, or nil or false is given always. */
  ghost predicate Neutral(repl: Replacement) {
    match repl
    case Template(news) => news == ['%' as nat, '0' as nat]
    case Table(get) => forall v {:trigger get(v)} :: get(v).Nil? || get(v).False?
    case Function(call) => forall vs {:trigger call(vs)} :: call(vs).Nil? || call(vs).False?
  }

  lemma NeutralText(repl: Replacement, src: Bytes, caps: seq<Cap>, s: nat, e: nat)
    requires Neutral(repl) && s <= e <= |src| && CapsOk(caps, e) && NewText(repl, src, caps, s, e).Ok?
    ensures NewText(repl, src, caps, s, e) == Ok(src[s..e])
  {
    if repl.Template? {
      assert Fill(repl.news, 2, src, caps, s, e) == Ok([]);
      assert TemplateStep(repl.news, 0, src, caps, s, e) == Ok((src[s..e], 2));
      assert src[s..e] + [] == src[s..e];
    }
  }

  /** Replacing every match by itself gives the subject back, whatever the pattern. */
  lemma {:induction false} NeutralOutput(x: Text, p: nat, repl: Replacement, pieces: seq<Piece>, pos: nat)
    requires Pieces(x, p, repl, pieces, pos) && Neutral(repl)
    ensures pos <= |x.src| && Output(pieces) + x.src[pos..] == x.src
  {
    Conserves(x, p, repl, pieces, pos);
    SameTexts(x, p, repl, pieces, pos);
  }

  lemma {:induction false} SameTexts(x: Text, p: nat, repl: Replacement, pieces: seq<Piece>, pos: nat)
    requires Pieces(x, p, repl, pieces, pos) && Neutral(repl)
    ensures Output(pieces) == OldText(x.src, pieces)
    decreases |pieces|
  {
    hide Call, NewText, CapsOk;
    if pieces != [] {
      var last := pieces[|pieces| - 1];
      assert GoodPiece(x, p, repl, last);
      PrefixPieces(x, p, repl, pieces, pos);
      SameTexts(x, p, repl, pieces[..|pieces| - 1], StartAt(last));
      if last.New? {
        var caps :| Replaces(x, p, repl, last.s, last.e, last.text, caps);
        NeutralText(repl, x.src, caps, last.s, last.e);
      }
    }
  }

  /** There are at most as many matches as places in the subject. */
  lemma {:induction false} CountBound(x: Text, p: nat, repl: Replacement, pieces: seq<Piece>, pos: nat)
    requires Pieces(x, p, repl, pieces, pos)
    ensures Count(pieces) <= pos + (if EmptyLast(pieces) then 1 else 0)
    decreases |pieces|
  {
    if pieces != [] {
      hide Count, Pieces;
      var last := pieces[|pieces| - 1];
      LastPiece(x, p, repl, pieces, pos);
      PrefixPieces(x, p, repl, pieces, pos);
      CountBound(x, p, repl, pieces[..|pieces| - 1], StartAt(last));
      CountLast(pieces);
    }
  }

  lemma LastPiece(x: Text, p: nat, repl: Replacement, pieces: seq<Piece>, pos: nat)
    requires Pieces(x, p, repl, pieces, pos) && pieces != []
    ensures var last := pieces[|pieces| - 1];
            StartAt(last) <= EndAt(last) == pos && (last.New? ==> !EmptyLast(pieces[..|pieces| - 1]))
  {
    hide Call, NewText, CapsOk, Replaces;
    assert GoodPiece(x, p, repl, pieces[|pieces| - 1]);
  }

  lemma CountLast(pieces: seq<Piece>)
    requires pieces != []
    ensures Count(pieces) == Count(pieces[..|pieces| - 1]) + (if pieces[|pieces| - 1].New? then 1 else 0)
  {
  }

  /** Whatever the pattern, the anchor and the limit: replacing every match by itself gives the
      subject back, unless it fails, and the loop runs at most once more than the subject has
      characters. */
  lemma GsubIdentity(x: Text, p: nat, anchor: bool, repl: Replacement, limit: int, r: Result<(Bytes, nat)>, pieces: seq<Piece>, pos: nat, rounds: nat)
    requires Substituted(x, p, anchor, repl, limit, r, pieces, pos, rounds)
    ensures rounds <= |x.src| + 1
    ensures r.Ok? ==> r.value.1 <= |x.src| + 1
    ensures r.Ok? && Neutral(repl) ==> r.value.0 == x.src
  {
    hide Call, Pieces, Output, Count, Over, Fails;
    CountBound(x, p, repl, pieces, pos);
    if Neutral(repl) {
      NeutralOutput(x, p, repl, pieces, pos);
    }
  }
}
