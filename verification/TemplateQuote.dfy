/** Text in a generated chunk (main.c): quoting in a long bracket, and how the lexer reads it back
    (section 2.1 of the Lua 5.1 Reference Manual). */
module TemplateQuote {
  datatype Option<T> = None | Some(value: T)

  const CR: char := '\r'
  const NL: char := '\n'

  /** n equal signs. */
  function Equals(n: nat): (r: string)
    ensures |r| == n && forall i :: 0 <= i < n ==> r[i] == '='
  {
    seq(n, i => '=')
  }

  /** The end of the run of equal signs from i on. */
  function RunEnd(s: string, i: nat): (j: nat)
    requires i <= |s|
    ensures i <= j <= |s| && (j < |s| ==> s[j] != '=') && forall k {:trigger s[k]} :: i <= k < j ==> s[k] == '='
    decreases |s| - i
  {
    if i < |s| && s[i] == '=' then RunEnd(s, i + 1) else i
  }

  /** A closing bracket of level k stands at i. */
  predicate ClosesAt(s: string, i: nat, k: nat) {
    i < |s| && s[i] == ']' && RunEnd(s, i + 1) == i + 1 + k && i + 1 + k < |s| && s[i + 1 + k] == ']'
  }

  ghost predicate HasLevel(text: string, k: nat) {
    exists i: nat :: ClosesAt(text, i, k)
  }

  /** n is the lowest level above those of all closing brackets in the text. */
  ghost predicate IsLevel(text: string, n: nat) {
    && (forall i: nat, k: nat {:trigger ClosesAt(text, i, k)} :: ClosesAt(text, i, k) ==> k < n)
    && (n > 0 ==> HasLevel(text, n - 1))
  }

  lemma LevelUnique(text: string, m: nat, n: nat)
    requires IsLevel(text, m) && IsLevel(text, n)
    ensures m == n
  {
  }

  function Max(a: nat, b: nat): nat { if a >= b then a else b }

  /** The lowest level above all closing brackets that stand at i or later. */
  function LevelFrom(text: string, i: nat): nat
    decreases |text| - i
  {
    if i >= |text| then 0
    else
      var j := RunEnd(text, i + 1);
      Max(if text[i] == ']' && j < |text| && text[j] == ']' then j - i else 0, LevelFrom(text, i + 1))
  }

  function Level(text: string): nat { LevelFrom(text, 0) }

  lemma {:induction false} LevelFromIs(text: string, i: nat)
    ensures forall i': nat, k: nat {:trigger ClosesAt(text, i', k)} :: i <= i' && ClosesAt(text, i', k) ==> k < LevelFrom(text, i)
    ensures LevelFrom(text, i) > 0 ==> HasLevel(text, LevelFrom(text, i) - 1)
    decreases |text| - i
  {
    if i < |text| {
      LevelFromIs(text, i + 1);
      var j := RunEnd(text, i + 1);
      if text[i] == ']' && j < |text| && text[j] == ']' {
        assert ClosesAt(text, i, j - i - 1) && HasLevel(text, j - i - 1);
      }
    }
  }

  lemma LevelIs(text: string)
    ensures IsLevel(text, Level(text))
  {
    LevelFromIs(text, 0);
  }

  /** The search for the level in flush_text_buffer. */
  method FindLevel(text: string) returns (maxEquals: nat)
    ensures IsLevel(text, maxEquals) && maxEquals == Level(text)
  {
    maxEquals := 0;
    var i := 0;
    while i < |text|
      invariant i <= |text|
      invariant forall i': nat, k: nat {:trigger ClosesAt(text, i', k)} :: i' < i && ClosesAt(text, i', k) ==> k < maxEquals
      invariant maxEquals > 0 ==> HasLevel(text, maxEquals - 1)
    {
      if text[i] == ']' {
        var equals := 0;
        var j := i + 1;
        while j < |text| && text[j] == '='
          invariant i + 1 <= j <= |text| && equals == j - i - 1 && RunEnd(text, i + 1) == RunEnd(text, j)
        {
          equals := equals + 1;
          j := j + 1;
        }
        if j < |text| && text[j] == ']' {
          assert ClosesAt(text, i, equals) && HasLevel(text, equals);
          if equals >= maxEquals {
            maxEquals := equals + 1;
          }
        }
      }
      i := i + 1;
    }
    LevelIs(text);
    LevelUnique(text, maxEquals, Level(text));
  }

  // ---- reading ----------------------------------------------------------------------------------

  predicate IsEol(c: char) { c == NL || c == CR }

  /** lex_newline: behind a line end, which may be a pair of different characters. */
  function PastNewline(s: string, i: nat): (j: nat)
    requires i < |s|
    ensures i < j <= i + 2 && j <= |s| && forall k {:trigger s[k]} :: i < k < j ==> IsEol(s[k])
  {
    if i + 1 < |s| && IsEol(s[i + 1]) && s[i + 1] != s[i] then i + 2 else i + 1
  }

  /** lex_longstring behind the opening bracket: the contents, and where reading goes on. */
  function ReadBody(s: string, i: nat, n: nat): Option<(string, nat)>
    requires i <= |s|
    decreases |s| - i
  {
    if i == |s| then None
    else if s[i] == ']' then
      var j := RunEnd(s, i + 1);
      if j < |s| && s[j] == ']' && j == i + 1 + n then Some(("", j + 1)) else Before(s[i..j], ReadBody(s, j, n))
    else if IsEol(s[i]) then Before([NL], ReadBody(s, PastNewline(s, i), n))
    else Before([s[i]], ReadBody(s, i + 1, n))
  }

  function Before(t: string, r: Option<(string, nat)>): Option<(string, nat)> {
    match r
    case None => None
    case Some((u, j)) => Some((t + u, j))
  }

  /** A long string that starts at i: an opening bracket, and a first line end that is skipped. */
  function ReadLong(s: string, i: nat): Option<(string, nat)> {
    if i >= |s| || s[i] != '[' then None
    else
      var j := RunEnd(s, i + 1);
      if j >= |s| || s[j] != '[' then None
      else
        var start := if j + 1 < |s| && IsEol(s[j + 1]) then PastNewline(s, j + 1) else j + 1;
        ReadBody(s, start, j - i - 1)
  }

  /** The long bracket of level n around a text. */
  function Bracket(text: string, n: nat): string {
    "[" + Equals(n) + "[" + text + "]" + Equals(n) + "]"
  }

  /** The text can be quoted at level n: it has no carriage return, no line end at the start, and
      does not end in what could begin the closing bracket. */
  predicate Quotable(text: string, n: nat) {
    && CR !in text && (text != "" ==> text[0] != NL)
    && !EndsOpen(text, n)
  }

  predicate EndsOpen(text: string, n: nat) {
    |text| >= n + 1 && text[|text| - n - 1] == ']' && forall k {:trigger text[k]} :: |text| - n <= k < |text| ==> text[k] == '='
  }

  lemma {:induction false} RunEndIs(s: string, i: nat, j: nat)
    requires i <= j <= |s| && (j < |s| ==> s[j] != '=') && forall k {:trigger s[k]} :: i <= k < j ==> s[k] == '='
    ensures RunEnd(s, i) == j
    decreases j - i
  {
    if i < j {
      RunEndIs(s, i + 1, j);
    }
  }

  /** The closing bracket of level n stands at e. */
  ghost predicate Closed(s: string, e: nat, n: nat) {
    e + n + 1 < |s| && s[e] == ']' && s[e + n + 1] == ']' && forall k {:trigger s[k]} :: e < k <= e + n ==> s[k] == '='
  }

  /** Reading gets no further than a closing bracket ahead. */
  lemma {:induction false} ReadBound(s: string, i: nat, n: nat, e: nat)
    requires i <= e && Closed(s, e, n)
    ensures ReadBody(s, i, n).Some? && |ReadBody(s, i, n).value.0| <= e - i
    decreases |s| - i
  {
    if i == e {
      RunEndIs(s, i + 1, e + n + 1);
    } else if s[i] == ']' {
      var j := RunEnd(s, i + 1);
      assert j <= e;
      ReadBound(s, j, n, e);
    } else if IsEol(s[i]) {
      ReadBound(s, PastNewline(s, i), n, e);
    } else {
      ReadBound(s, i + 1, n, e);
    }
  }

  lemma {:induction false} ReadNoReturn(s: string, i: nat, n: nat)
    requires i <= |s| && ReadBody(s, i, n).Some?
    ensures CR !in ReadBody(s, i, n).value.0
    decreases |s| - i
  {
    if s[i] == ']' {
      var j := RunEnd(s, i + 1);
      if !(j < |s| && s[j] == ']' && j == i + 1 + n) {
        ReadNoReturn(s, j, n);
        assert forall c :: c in s[i..j] ==> c == ']' || c == '=';
      }
    } else if IsEol(s[i]) {
      ReadNoReturn(s, PastNewline(s, i), n);
    } else {
      ReadNoReturn(s, i + 1, n);
    }
  }

  /** The text stands in s from start on. */
  ghost predicate Stands(s: string, text: string, start: nat) {
    start + |text| < |s| && forall k {:trigger s[k]} :: start <= k < start + |text| ==> s[k] == text[k - start]
  }

  /** From i on the rest of a quotable text is read as it is. */
  lemma {:induction false} ReadExact(s: string, text: string, n: nat, start: nat, i: nat)
    requires IsLevel(text, n) && CR !in text && !EndsOpen(text, n)
    requires Stands(s, text, start) && start <= i <= start + |text| && Closed(s, start + |text|, n)
    ensures ReadBody(s, i, n) == Some((text[i - start..], start + |text| + n + 2))
    decreases |s| - i
  {
    hide IsLevel, EndsOpen;
    var e := start + |text|;
    if i == e {
      RunEndIs(s, i + 1, e + n + 1);
      assert text[i - start..] == "";
    } else {
      var p := i - start;
      assert s[i] == text[p] && text[p] in text;
      if s[i] == ']' {
        var j := RunEnd(s, i + 1);
        assert j <= e;
        NotClosed(s, text, n, start, i, j);
        ReadExact(s, text, n, start, j);
        assert s[i..j] + text[j - start..] == text[p..];
      } else {
        NotPaired(s, text, start, i, n);
        ReadExact(s, text, n, start, i + 1);
        assert [s[i]] + text[p + 1..] == text[p..];
      }
    }
  }

  lemma NotPaired(s: string, text: string, start: nat, i: nat, n: nat)
    requires Stands(s, text, start) && CR !in text && start <= i < start + |text| && Closed(s, start + |text|, n)
    ensures s[i] != CR && (IsEol(s[i]) ==> PastNewline(s, i) == i + 1)
  {
    assert s[i] in text;
    if i + 1 < start + |text| {
      assert s[i + 1] in text;
    }
  }

  lemma NotClosed(s: string, text: string, n: nat, start: nat, i: nat, j: nat)
    requires IsLevel(text, n) && !EndsOpen(text, n) && Stands(s, text, start)
    requires start <= i < start + |text| && s[i] == ']' && j == RunEnd(s, i + 1) <= start + |text|
    ensures !(s[j] == ']' && j == i + 1 + n)
  {
    var p := i - start;
    assert forall k {:trigger text[k]} :: p + 1 <= k < j - start ==> text[k] == s[start + k] == '=';
    if j < start + |text| {
      RunEndIs(text, p + 1, j - start);
      assert s[j] == ']' ==> ClosesAt(text, p, j - i - 1);
    }
  }

  /** Behind the opening bracket the body is read, without a first line end. */
  lemma LongIs(text: string, n: nat, rest: string)
    ensures var s, start := Bracket(text, n) + rest, n + 2;
            && start < |s| && Stands(s, text, start) && Closed(s, start + |text|, n)
            && ReadLong(s, 0) == ReadBody(s, if IsEol(s[start]) then PastNewline(s, start) else start, n)
  {
    Layout(text, n, rest);
    RunEndIs(Bracket(text, n) + rest, 1, n + 1);
  }

  /** Quoting round-trips exactly for the texts that are quotable at their level. */
  lemma QuoteRoundTrip(text: string, n: nat, rest: string)
    requires IsLevel(text, n)
    ensures ReadLong(Bracket(text, n) + rest, 0) == Some((text, |Bracket(text, n)|)) <==> Quotable(text, n)
  {
    var s := Bracket(text, n) + rest;
    var start, e := n + 2, n + 2 + |text|;
    LongIs(text, n, rest);
    hide Bracket, ReadLong, IsLevel, ReadBody;
    assert text != "" ==> s[start] == text[0];
    assert text == "" ==> s[start] == ']';
    if IsEol(s[start]) {
      ReadBound(s, PastNewline(s, start), n, e);
      assert text[0] == CR ==> CR in text;
    } else {
      ReadBound(s, start, n, e);
      ReadNoReturn(s, start, n);
      if EndsOpen(text, n) {
        OpenEnd(s, text, n, start);
        ReadBound(s, start, n, e - n - 1);
      } else if CR !in text {
        ReadExact(s, text, n, start, start);
        assert text[0..] == text;
        BracketSize(text, n);
      }
    }
  }

  lemma BracketSize(text: string, n: nat)
    ensures |Bracket(text, n)| == |text| + 2 * n + 4
  {
  }

  lemma Layout(text: string, n: nat, rest: string)
    ensures var s, e := Bracket(text, n) + rest, n + 2 + |text|;
            && |Bracket(text, n)| == e + n + 2 && |s| >= e + n + 2 && s[0] == '[' && s[n + 1] == '[' && s[n + 2..e] == text && Closed(s, e, n)
            && (forall k {:trigger s[k]} :: 1 <= k < n + 1 ==> s[k] == '=')
            && (forall k {:trigger s[k]} :: n + 2 <= k < e ==> s[k] == text[k - n - 2])
  {
  }

  lemma OpenEnd(s: string, text: string, n: nat, start: nat)
    requires EndsOpen(text, n) && Stands(s, text, start) && Closed(s, start + |text|, n)
    ensures Closed(s, start + |text| - n - 1, n)
  {
    var e := start + |text| - n - 1;
    forall k {:trigger s[k]} | e < k <= e + n ensures s[k] == '=' {
      assert text[k - start] == '=';
    }
  }

  // ---- a long bracket inside a chunk -----------------------------------------------------------------

  function Later(r: Option<(string, nat)>, d: nat): Option<(string, nat)> {
    match r
    case None => None
    case Some((u, j)) => Some((u, j + d))
  }

  lemma {:induction false} RunShift(pre: string, s: string, i: nat)
    requires i <= |s|
    ensures RunEnd(pre + s, |pre| + i) == |pre| + RunEnd(s, i)
    decreases |s| - i
  {
    if i < |s| && s[i] == '=' {
      RunShift(pre, s, i + 1);
    }
  }

  lemma PastShift(pre: string, s: string, i: nat)
    requires i < |s|
    ensures PastNewline(pre + s, |pre| + i) == |pre| + PastNewline(s, i)
  {
  }

  /** One step of reading. */
  lemma BodyStep(s: string, i: nat, n: nat, j: nat)
    requires i < |s| && j == (if s[i] == ']' then RunEnd(s, i + 1) else if IsEol(s[i]) then PastNewline(s, i) else i + 1)
    ensures ReadBody(s, i, n) == if s[i] == ']' && j < |s| && s[j] == ']' && j == i + 1 + n then Some(("", j + 1))
                                 else Before(if IsEol(s[i]) then [NL] else s[i..j], ReadBody(s, j, n))
  {
    assert s[i..i + 1] == [s[i]];
  }

  lemma SliceShift(pre: string, s: string, i: nat, j: nat)
    requires i <= j <= |s|
    ensures (pre + s)[|pre| + i..|pre| + j] == s[i..j]
    ensures (i < |s| ==> (pre + s)[|pre| + i] == s[i]) && (j < |s| ==> (pre + s)[|pre| + j] == s[j])
  {
  }

  lemma LaterBefore(t: string, r: Option<(string, nat)>, d: nat)
    ensures Later(Before(t, r), d) == Before(t, Later(r, d))
  {
  }

  lemma {:induction false} BodyShift(pre: string, s: string, i: nat, n: nat)
    requires i <= |s|
    ensures ReadBody(pre + s, |pre| + i, n) == Later(ReadBody(s, i, n), |pre|)
    decreases |s| - i
  {
    if i < |s| {
      hide RunEnd, PastNewline, ReadBody, Before;
      var s' := pre + s;
      RunShift(pre, s, i + 1);
      PastShift(pre, s, i);
      var j := if s[i] == ']' then RunEnd(s, i + 1) else if IsEol(s[i]) then PastNewline(s, i) else i + 1;
      SliceShift(pre, s, i, j);
      LaterBefore(if IsEol(s[i]) then [NL] else s[i..j], ReadBody(s, j, n), |pre|);
      BodyStep(s, i, n, j);
      BodyStep(s', |pre| + i, n, |pre| + j);
      BodyShift(pre, s, j, n);
    }
  }

  lemma LongShift(pre: string, s: string)
    ensures ReadLong(pre + s, |pre|) == Later(ReadLong(s, 0), |pre|)
  {
    hide ReadBody;
    if s != "" && s[0] == '[' {
      RunShift(pre, s, 1);
      var j := RunEnd(s, 1);
      if j < |s| && s[j] == '[' {
        BodyShift(pre, s, if j + 1 < |s| && IsEol(s[j + 1]) then PastNewline(s, j + 1) else j + 1, j - 1);
      }
    }
  }

  /** Quoting round-trips wherever the long bracket stands. */
  lemma QuoteRoundTripAt(pre: string, text: string, n: nat, rest: string)
    requires IsLevel(text, n)
    ensures ReadLong(pre + Bracket(text, n) + rest, |pre|) == Some((text, |pre| + |Bracket(text, n)|)) <==> Quotable(text, n)
  {
    hide ReadLong, Bracket, IsLevel, Quotable;
    QuoteRoundTrip(text, n, rest);
    LongShift(pre, Bracket(text, n) + rest);
    assert pre + Bracket(text, n) + rest == pre + (Bracket(text, n) + rest);
  }
}
