/** The scanner of the template compiler (main.c): what it takes for text and code. */
module TemplateScan {
  const BACKSLASH: char := '\\'
  const NEWLINE: char := '\n'

  /** The scanner between two characters: finished pieces, the piece it is in, characters that may
      begin a separator, and whether a backslash waits for its character. Pieces are text and
      code in turn. */
  datatype Scan = Scan(pieces: seq<string>, cur: string, pending: string, esc: bool)

  predicate InCode(pieces: seq<string>) { |pieces| % 2 == 1 }

  /** What a backslash and the character behind it stand for. */
  function Escape(sep: string, code: bool, c: char): string {
    if !code && c == NEWLINE then ""
    else if |sep| > 0 && c == sep[0] then [c]
    else [BACKSLASH, c]
  }

  /** One round of the scanning loop. */
  function Step(sep: string, st: Scan, c: char): Scan {
    if st.esc then st.(cur := st.cur + Escape(sep, InCode(st.pieces), c), esc := false)
    else if c == BACKSLASH then st.(esc := true)
    else
      var m := st.pending + [c];
      if |m| <= |sep| && m == sep[..|m|] then
        (if |m| == |sep| then Scan(st.pieces + [st.cur], "", "", false) else st.(pending := m))
      else st.(cur := st.cur + m, pending := "")
  }

  /** What is left over at the end of the input belongs to the last piece. */
  function Finish(st: Scan): seq<string> {
    st.pieces + [st.cur + (if st.esc then [BACKSLASH] else "") + st.pending]
  }

  function Run(sep: string, st: Scan, input: string, i: nat): Scan
    requires i <= |input|
    decreases |input| - i
  {
    if i == |input| then st else Run(sep, Step(sep, st, input[i]), input, i + 1)
  }

  lemma RunStep(sep: string, st: Scan, input: string, i: nat)
    requires i < |input|
    ensures Run(sep, st, input, i) == Run(sep, Step(sep, st, input[i]), input, i + 1)
  {
  }

  const START: Scan := Scan([], "", "", false)

  /** The pieces the scanner finds. */
  function Scanned(sep: string, input: string): seq<string> {
    Finish(Run(sep, START, input, 0))
  }

  lemma {:induction false} RunMore(sep: string, st: Scan, input: string, i: nat, c: char)
    requires i <= |input|
    ensures Run(sep, st, input + [c], i) == Step(sep, Run(sep, st, input, i), c)
    decreases |input| - i
  {
    if i < |input| {
      assert (input + [c])[i] == input[i];
      RunMore(sep, Step(sep, st, input[i]), input, i + 1, c);
    } else {
      assert (input + [c])[i] == c;
      assert Run(sep, Step(sep, st, c), input + [c], i + 1) == Step(sep, st, c);
    }
  }

  // ---- the leftmost split -------------------------------------------------------------------------

  /** An unescaped separator stands at i. */
  predicate SepAt(sep: string, input: string, i: nat) {
    sep != "" && BACKSLASH !in sep && i + |sep| <= |input| && input[i..i + |sep|] == sep
  }

  /** The pieces between leftmost, non-overlapping separators, from i on. */
  function SplitFrom(sep: string, input: string, i: nat, code: bool, cur: string): seq<string>
    decreases |input| - i
  {
    if i >= |input| then [cur]
    else if input[i] == BACKSLASH then
      (if i + 1 == |input| then [cur + [BACKSLASH]] else SplitFrom(sep, input, i + 2, code, cur + Escape(sep, code, input[i + 1])))
    else if SepAt(sep, input, i) then [cur] + SplitFrom(sep, input, i + |sep|, !code, "")
    else SplitFrom(sep, input, i + 1, code, cur + [input[i]])
  }

  function Split(sep: string, input: string): seq<string> {
    SplitFrom(sep, input, 0, false, "")
  }

  function Join(pieces: seq<string>, sep: string): string {
    if pieces == [] then "" else if |pieces| == 1 then pieces[0] else pieces[0] + sep + Join(pieces[1..], sep)
  }

  predicate Occurs(t: string, sep: string, k: nat) {
    k + |sep| <= |t| && t[k..k + |sep|] == sep
  }

  /** sep occurs in t only at its end. */
  ghost predicate OnlyAtEnd(sep: string, t: string) {
    forall k: nat {:trigger Occurs(t, sep, k)} :: Occurs(t, sep, k) ==> k + |sep| == |t|
  }

  ghost predicate Absent(sep: string, t: string) {
    forall k: nat {:trigger Occurs(t, sep, k)} :: !Occurs(t, sep, k)
  }

  lemma JoinFirst(first: string, rest: seq<string>, sep: string)
    requires rest != []
    ensures Join([first] + rest, sep) == first + sep + Join(rest, sep)
  {
    assert ([first] + rest)[1..] == rest;
  }

  lemma SplitStep(sep: string, input: string, i: nat, code: bool, cur: string)
    requires i < |input| && BACKSLASH !in input
    ensures if SepAt(sep, input, i) then i + |sep| <= |input| && |sep| > 0 && SplitFrom(sep, input, i, code, cur) == [cur] + SplitFrom(sep, input, i + |sep|, !code, "")
            else SplitFrom(sep, input, i, code, cur) == SplitFrom(sep, input, i + 1, code, cur + [input[i]])
    ensures SepAt(sep, input, i) ==> input[i..] == sep + input[i + |sep|..]
    ensures !SepAt(sep, input, i) ==> cur + input[i..] == cur + [input[i]] + input[i + 1..]
  {
    hide SplitFrom;
    assert input[i] in input;
    SplitNext(sep, input, i, code, cur);
  }

  /** Without backslashes the split is what its name says: joined with the separator the pieces are
      the input again. */
  lemma {:induction false} SplitJoins(sep: string, input: string, i: nat, code: bool, cur: string)
    requires BACKSLASH !in input && i <= |input|
    ensures SplitFrom(sep, input, i, code, cur) != [] && Join(SplitFrom(sep, input, i, code, cur), sep) == cur + input[i..]
    decreases |input| - i
  {
    if i < |input| {
      hide SplitFrom, Join, SepAt;
      SplitStep(sep, input, i, code, cur);
      if SepAt(sep, input, i) {
        SplitJoins(sep, input, i + |sep|, !code, "");
        JoinFirst(cur, SplitFrom(sep, input, i + |sep|, !code, ""), sep);
        assert cur + sep + ("" + input[i + |sep|..]) == cur + (sep + input[i + |sep|..]);
      } else {
        SplitJoins(sep, input, i + 1, code, cur + [input[i]]);
      }
    } else {
      assert cur + input[i..] == cur;
    }
  }

  lemma OccursSep(sep: string, input: string, a: nat, t: string, k: nat)
    requires sep != "" && BACKSLASH !in sep && a + |t| <= |input| && t == input[a..a + |t|]
    ensures Occurs(t, sep, k) ==> SepAt(sep, input, a + k)
  {
    if k + |sep| <= |t| {
      var u, w := t[k..k + |sep|], input[a + k..a + k + |sep|];
      forall j {:trigger u[j]} | 0 <= j < |sep| ensures u[j] == w[j] {
        assert t[k + j] == input[a..a + |t|][k + j];
      }
      assert u == w;
    }
  }

  /** No separator starts between two finds. */
  lemma {:induction false} SplitLeftmost(sep: string, input: string, i: nat, code: bool, cur: string)
    requires sep != "" && BACKSLASH !in input && BACKSLASH !in sep && |cur| <= i <= |input| && cur == input[i - |cur|..i]
    requires forall k: nat {:trigger SepAt(sep, input, k)} :: i - |cur| <= k < i ==> !SepAt(sep, input, k)
    ensures var ps := SplitFrom(sep, input, i, code, cur);
            && ps != [] && (forall m {:trigger ps[m]} :: 0 <= m < |ps| - 1 ==> OnlyAtEnd(sep, ps[m] + sep))
            && Absent(sep, ps[|ps| - 1])
    decreases |input| - i
  {
    var a: nat := i - |cur|;
    if i == |input| {
      forall k: nat ensures !Occurs(cur, sep, k) {
        OccursSep(sep, input, a, cur, k);
      }
    } else {
      assert input[i] in input;
      if SepAt(sep, input, i) {
        SplitLeftmost(sep, input, i + |sep|, !code, "");
        assert cur + sep == input[a..i + |sep|];
        forall k: nat ensures Occurs(cur + sep, sep, k) ==> k + |sep| == |cur + sep| {
          OccursSep(sep, input, a, cur + sep, k);
        }
        var rest := SplitFrom(sep, input, i + |sep|, !code, "");
        assert SplitFrom(sep, input, i, code, cur) == [cur] + rest;
      } else {
        SplitLeftmost(sep, input, i + 1, code, cur + [input[i]]);
      }
    }
  }

  // ---- when the scanner splits right --------------------------------------------------------------

  /** One character, repeated. */
  ghost predicate Uniform(sep: string) {
    forall k {:trigger sep[k]} :: 0 <= k < |sep| ==> sep[k] == sep[0]
  }

  lemma NoShortSep(sep: string, input: string, i: nat)
    requires (|sep| <= 1 || sep[0] == BACKSLASH) && i < |input| && input[i] != BACKSLASH && !(|sep| == 1 && sep[0] == input[i])
    ensures !SepAt(sep, input, i)
  {
    if sep != "" {
      assert sep[0] in sep;
      assert i + |sep| <= |input| ==> input[i..i + |sep|][0] == input[i];
    }
  }

  /** For separators of at most one character nothing is ever pending. */
  lemma {:induction false} ShortSplits(sep: string, pieces: seq<string>, cur: string, input: string, i: nat)
    requires i <= |input| && (|sep| <= 1 || sep[0] == BACKSLASH)
    ensures Finish(Run(sep, Scan(pieces, cur, "", false), input, i)) == pieces + SplitFrom(sep, input, i, InCode(pieces), cur)
    decreases |input| - i
  {
    var st := Scan(pieces, cur, "", false);
    if i < |input| {
      var c := input[i];
      if c == BACKSLASH {
        if i + 1 < |input| {
          assert Step(sep, Step(sep, st, c), input[i + 1]) == Scan(pieces, cur + Escape(sep, InCode(pieces), input[i + 1]), "", false);
          ShortSplits(sep, pieces, cur + Escape(sep, InCode(pieces), input[i + 1]), input, i + 2);
        } else {
          assert Run(sep, Step(sep, st, c), input, i + 1) == st.(esc := true);
          assert cur + [BACKSLASH] + "" == cur + [BACKSLASH];
        }
      } else if |sep| == 1 && sep[0] == c {
        assert "" + [c] == sep == input[i..i + 1];
        ShortSplits(sep, pieces + [cur], "", input, i + 1);
        assert pieces + [cur] + SplitFrom(sep, input, i + 1, !InCode(pieces), "") == pieces + ([cur] + SplitFrom(sep, input, i + 1, !InCode(pieces), ""));
      } else {
        NoShortSep(sep, input, i);
        assert Step(sep, st, c) == Scan(pieces, cur + [c], "", false) by {
          assert "" + [c] == [c];
          assert |sep| > 0 ==> sep[..1] == [sep[0]];
        }
        ShortSplits(sep, pieces, cur + [c], input, i + 1);
      }
    } else {
      assert cur + "" + "" == cur;
    }
  }

  /** Where no separator starts, the split goes on by one character. */
  lemma {:induction false} Advance(sep: string, input: string, i: nat, n: nat, code: bool, cur: string)
    requires BACKSLASH !in input && i + n <= |input| && forall k {:trigger SepAt(sep, input, k)} :: i <= k < i + n ==> !SepAt(sep, input, k)
    ensures SplitFrom(sep, input, i, code, cur) == SplitFrom(sep, input, i + n, code, cur + input[i..i + n])
    decreases n
  {
    if n > 0 {
      assert input[i] in input && !SepAt(sep, input, i);
      Advance(sep, input, i + 1, n - 1, code, cur + [input[i]]);
      assert cur + [input[i]] + input[i + 1..i + n] == cur + input[i..i + n];
    } else {
      assert cur + input[i..i] == cur;
    }
  }

  /** The characters pending are the last ones read, and begin the separator. */
  ghost predicate PendingOk(sep: string, m: nat, input: string, i: nat) {
    m <= i <= |input| && (m < |sep| || m == 0) && m <= |sep| && input[i - m..i] == sep[..m]
  }

  /** For separators of one repeated character, and inputs without backslashes, no separator is
      overlooked. */
  lemma {:induction false} UniformSplits(sep: string, pieces: seq<string>, cur: string, m: nat, input: string, i: nat)
    requires (Uniform(sep) || BACKSLASH in sep) && BACKSLASH !in input && PendingOk(sep, m, input, i)
    ensures Finish(Run(sep, Scan(pieces, cur, sep[..m], false), input, i)) == pieces + SplitFrom(sep, input, i - m, InCode(pieces), cur)
    decreases |input| - i
  {
    hide Uniform, Run, Step, SplitFrom, Finish;
    var st := Scan(pieces, cur, sep[..m], false);
    if i < |input| {
      var c := input[i];
      RunStep(sep, st, input, i);
      if m < |sep| && c == sep[m] {
        PendingMore(sep, m, input, i);
        Match(sep, m, c, st, input);
        if m + 1 == |sep| {
          UniformSplits(sep, pieces + [cur], "", 0, input, i + 1);
          SepFound(sep, m, input, i, InCode(pieces), cur);
          assert sep[..0] == "";
          assert pieces + [cur] + SplitFrom(sep, input, i + 1, !InCode(pieces), "") == pieces + ([cur] + SplitFrom(sep, input, i + 1, !InCode(pieces), ""));
        } else {
          UniformSplits(sep, pieces, cur, m + 1, input, i + 1);
        }
      } else {
        assert c in input;
        NoSepBehind(sep, m, input, i);
        Advance(sep, input, i - m, m + 1, InCode(pieces), cur);
        Mismatch(sep, m, c, st);
        assert input[i - m..i + 1] == sep[..m] + [c];
        assert sep[..0] == "" == input[i + 1..i + 1];
        UniformSplits(sep, pieces, cur + (sep[..m] + [c]), 0, input, i + 1);
      }
    } else {
      UniformEnd(sep, pieces, cur, m, input);
    }
  }

  lemma UniformEnd(sep: string, pieces: seq<string>, cur: string, m: nat, input: string)
    requires BACKSLASH !in input && PendingOk(sep, m, input, |input|)
    ensures Finish(Run(sep, Scan(pieces, cur, sep[..m], false), input, |input|)) == pieces + SplitFrom(sep, input, |input| - m, InCode(pieces), cur)
  {
    hide Run, SplitFrom, Finish, SepAt, InCode;
    PendingTail(sep, m, input, InCode(pieces), cur);
    AtEnd(sep, pieces, cur, sep[..m], input);
  }

  /** What is pending at the end of the input belongs to the last piece. */
  lemma PendingTail(sep: string, m: nat, input: string, code: bool, cur: string)
    requires BACKSLASH !in input && PendingOk(sep, m, input, |input|)
    ensures SplitFrom(sep, input, |input| - m, code, cur) == [cur + sep[..m]]
  {
    hide SplitFrom, SepAt;
    NoRoom(sep, m, input);
    TailSplit(sep, input, |input| - m, code, cur);
    assert input[|input| - m..] == sep[..m];
  }

  lemma {:induction false} TailSplit(sep: string, input: string, i: nat, code: bool, cur: string)
    requires BACKSLASH !in input && i <= |input| && forall k: nat {:trigger SepAt(sep, input, k)} :: i <= k < |input| ==> !SepAt(sep, input, k)
    ensures SplitFrom(sep, input, i, code, cur) == [cur + input[i..]]
    decreases |input| - i
  {
    if i < |input| {
      assert input[i] in input && !SepAt(sep, input, i);
      TailSplit(sep, input, i + 1, code, cur + [input[i]]);
      assert cur + [input[i]] + input[i + 1..] == cur + input[i..];
    } else {
      assert cur + input[i..] == cur;
    }
  }

  lemma NoRoom(sep: string, m: nat, input: string)
    requires PendingOk(sep, m, input, |input|)
    ensures forall k: nat {:trigger SepAt(sep, input, k)} :: |input| - m <= k < |input| ==> !SepAt(sep, input, k)
  {
  }

  lemma AtEnd(sep: string, pieces: seq<string>, cur: string, tail: string, input: string)
    ensures Finish(Run(sep, Scan(pieces, cur, tail, false), input, |input|)) == pieces + [cur + tail]
  {
    assert cur + "" + tail == cur + tail;
  }

  lemma Match(sep: string, m: nat, c: char, st: Scan, input: string)
    requires m < |sep| && c == sep[m] && c in input && BACKSLASH !in input && st.pending == sep[..m] && !st.esc
    ensures Step(sep, st, c) == if m + 1 == |sep| then Scan(st.pieces + [st.cur], "", "", false) else st.(pending := sep[..m + 1])
  {
    assert sep[..m] + [c] == sep[..m + 1];
  }

  lemma PendingMore(sep: string, m: nat, input: string, i: nat)
    requires PendingOk(sep, m, input, i) && i < |input| && m < |sep| && input[i] == sep[m]
    ensures sep[..m] + [input[i]] == sep[..m + 1] && input[i - m..i + 1] == sep[..m + 1]
    ensures PendingOk(sep, if m + 1 < |sep| then m + 1 else 0, input, i + 1)
  {
    assert input[i - m..i + 1] == input[i - m..i] + [input[i]];
    assert sep[..0] == "" == input[i + 1..i + 1];
  }

  lemma SepFound(sep: string, m: nat, input: string, i: nat, code: bool, cur: string)
    requires BACKSLASH !in input && m <= i < |input| && m + 1 == |sep| && input[i - m..i + 1] == sep[..m + 1]
    ensures sep[..m + 1] == sep && SplitFrom(sep, input, i - m, code, cur) == [cur] + SplitFrom(sep, input, i + 1, !code, "")
  {
    assert forall x :: x in sep ==> x in input[i - m..i + 1];
    assert input[i - m] in input;
  }

  lemma Mismatch(sep: string, m: nat, c: char, st: Scan)
    requires m <= |sep| && (m < |sep| ==> c != sep[m]) && c != BACKSLASH && st.pending == sep[..m] && !st.esc
    ensures Step(sep, st, c) == Scan(st.pieces, st.cur + (sep[..m] + [c]), "", false)
  {
    assert m + 1 <= |sep| ==> sep[..m + 1][m] == sep[m];
  }

  lemma NoSepBehind(sep: string, m: nat, input: string, i: nat)
    requires (Uniform(sep) || BACKSLASH in sep) && m <= i < |input| && m <= |sep| && (m < |sep| ==> input[i] != sep[m]) && (m < |sep| || sep == "")
    ensures forall k: nat {:trigger SepAt(sep, input, k)} :: i - m <= k < i + 1 ==> !SepAt(sep, input, k)
  {
    forall k: nat | i - m <= k < i + 1 ensures !SepAt(sep, input, k) {
      if sep != "" {
        assert k + |sep| <= |input| ==> input[k..k + |sep|][i - k] == input[i];
        assert Uniform(sep) ==> sep[i - k] == sep[0] == sep[m];
      }
    }
  }

  // ---- and when it does not -----------------------------------------------------------------------

  /** With a separator of two or more characters a backslash between its parts reorders the input:
      what waits for the rest of the separator comes behind the escaped character. */
  lemma ReorderCounterexample(sep: string)
    requires |sep| >= 2 && sep[0] != BACKSLASH
    ensures exists input :: Scanned(sep, input) != Split(sep, input)
  {
    var a := if sep[0] == 'x' then 'y' else 'x';
    var input := [sep[0], BACKSLASH, a];
    var s1 := Scan([], "", [sep[0]], false);
    assert sep[..1] == [sep[0]] && "" + [sep[0]] == [sep[0]];
    RunStep(sep, START, input, 0);
    RunStep(sep, s1, input, 1);
    RunStep(sep, s1.(esc := true), input, 2);
    assert "" + [BACKSLASH, a] == [BACKSLASH, a];
    assert Run(sep, START, input, 0) == Scan([], [BACKSLASH, a], [sep[0]], false);
    assert Scanned(sep, input)[0][0] == BACKSLASH;
    NotHere(sep, input);
    SplitEscape(sep, input, 1, false, [sep[0]]);
    assert Split(sep, input) == SplitFrom(sep, input, 1, false, "" + [sep[0]]);
    assert SplitFrom(sep, input, 3, false, [sep[0]] + Escape(sep, false, a)) == [[sep[0]] + Escape(sep, false, a)];
    assert Split(sep, input)[0][0] == sep[0];
  }

  lemma SplitEscape(sep: string, input: string, i: nat, code: bool, cur: string)
    requires i + 1 < |input| && input[i] == BACKSLASH
    ensures SplitFrom(sep, input, i, code, cur) == SplitFrom(sep, input, i + 2, code, cur + Escape(sep, code, input[i + 1]))
  {
  }

  lemma NotHere(sep: string, input: string)
    requires |sep| >= 2 && |input| >= 2 && input[1] == BACKSLASH
    ensures !SepAt(sep, input, 0)
  {
    assert |sep| <= |input| ==> input[0..|sep|][1] == BACKSLASH;
    assert sep[1] in sep;
  }

  /** The scanner splits every input at its leftmost unescaped separators if and only if the
      separator has at most one character (or can never be found). */
  lemma ScanExact(sep: string)
    ensures (forall input :: Scanned(sep, input) == Split(sep, input)) <==> |sep| <= 1 || sep[0] == BACKSLASH
  {
    if |sep| <= 1 || sep[0] == BACKSLASH {
      forall input ensures Scanned(sep, input) == Split(sep, input) {
        ShortSplits(sep, [], "", input, 0);
        assert [] + SplitFrom(sep, input, 0, false, "") == Split(sep, input);
      }
    } else {
      ReorderCounterexample(sep);
    }
  }

  /** With fewer characters left than the separator needs, no piece ends. */
  lemma {:induction false} TooShort(sep: string, st: Scan, input: string, i: nat)
    requires i <= |input| && |st.pending| + |input| - i < |sep|
    ensures Run(sep, st, input, i).pieces == st.pieces
    decreases |input| - i
  {
    if i < |input| {
      TooShort(sep, Step(sep, st, input[i]), input, i + 1);
    }
  }

  /** Reading the first k characters of a separator that are all alike. */
  lemma {:induction false} Prefix(sep: string, input: string, k: nat, m: nat)
    requires m <= k < |sep| && k <= |input| && input[..k] == sep[..k] && BACKSLASH !in sep
    ensures Run(sep, START, input, 0) == Run(sep, Scan([], "", sep[..m], false), input, m)
    decreases m
  {
    if m > 0 {
      Prefix(sep, input, k, m - 1);
      assert input[..k][m - 1] == sep[..k][m - 1];
      assert sep[m - 1] in sep;
      assert sep[..m - 1] + [sep[m - 1]] == sep[..m];
    } else {
      assert sep[..0] == "";
    }
  }

  /** A separator that is not one repeated character is overlooked behind its own first character. */
  lemma OverlookCounterexample(sep: string, k: nat)
    requires k < |sep| && sep[k] != sep[0] && BACKSLASH !in sep && forall j {:trigger sep[j]} :: 0 <= j < k ==> sep[j] == sep[0]
    ensures BACKSLASH !in [sep[0]] + sep && Scanned(sep, [sep[0]] + sep) != Split(sep, [sep[0]] + sep)
  {
    hide Scanned, Split, Uniform;
    ScansOne(sep, k);
    SplitsTwo(sep, k);
    SecondOnly(sep, k);
  }

  /** The scanner finds no separator. */
  lemma ScansOne(sep: string, k: nat)
    requires 0 < k < |sep| && sep[k] != sep[0] && BACKSLASH !in sep && forall j {:trigger sep[j]} :: 0 <= j < k ==> sep[j] == sep[0]
    ensures |Scanned(sep, [sep[0]] + sep)| == 1
  {
    hide Run, Step, SplitFrom, Uniform, SepAt;
    var input := [sep[0]] + sep;
    AfterFirst(sep, k);
    Prefix(sep, input, k, k);
    var st := Scan([], "", sep[..k], false);
    Mismatch(sep, k, input[k], st);
    RunStep(sep, st, input, k);
    TooShort(sep, Step(sep, st, input[k]), input, k + 1);
  }

  lemma AfterFirst(sep: string, k: nat)
    requires 0 < k < |sep| && sep[k] != sep[0] && BACKSLASH !in sep && forall j {:trigger sep[j]} :: 0 <= j < k ==> sep[j] == sep[0]
    ensures var input := [sep[0]] + sep; input[..k] == sep[..k] && input[k] == sep[0] != BACKSLASH
  {
    assert sep[0] in sep && sep[k - 1] == sep[0];
  }

  /** The split finds it behind the first character. */
  lemma SplitsTwo(sep: string, k: nat)
    requires 0 < k < |sep| && sep[k] != sep[0] && BACKSLASH !in sep && sep[k - 1] == sep[0]
    ensures |Split(sep, [sep[0]] + sep)| >= 2
  {
    hide SplitFrom, SepAt;
    var input := [sep[0]] + sep;
    SecondOnly(sep, k);
    SplitNext(sep, input, 0, false, "");
    SplitNext(sep, input, 1, false, "" + [sep[0]]);
    SplitJoins(sep, input, 1 + |sep|, true, "");
  }

  lemma SecondOnly(sep: string, k: nat)
    requires 0 < k < |sep| && sep[k] != sep[0] && BACKSLASH !in sep && sep[k - 1] == sep[0]
    ensures var input := [sep[0]] + sep; !SepAt(sep, input, 0) && SepAt(sep, input, 1) && BACKSLASH !in input && input[0] != BACKSLASH && input[1] != BACKSLASH
  {
    var input := [sep[0]] + sep;
    assert sep[0] in sep;
    assert input[0..|sep|][k] == input[k] == sep[k - 1];
    assert input[1..1 + |sep|] == sep;
  }

  lemma SplitNext(sep: string, input: string, i: nat, code: bool, cur: string)
    requires i < |input| && input[i] != BACKSLASH
    ensures SplitFrom(sep, input, i, code, cur) == if SepAt(sep, input, i) then [cur] + SplitFrom(sep, input, i + |sep|, !code, "") else SplitFrom(sep, input, i + 1, code, cur + [input[i]])
  {
  }

  lemma FirstOther(sep: string, j: nat) returns (k: nat)
    requires j <= |sep| && !Uniform(sep) && forall i {:trigger sep[i]} :: 0 <= i < j ==> sep[i] == sep[0]
    ensures k < |sep| && sep[k] != sep[0] && forall i {:trigger sep[i]} :: 0 <= i < k ==> sep[i] == sep[0]
    decreases |sep| - j
  {
    if j < |sep| && sep[j] != sep[0] {
      k := j;
    } else {
      k := FirstOther(sep, j + 1);
    }
  }

  /** Without backslashes the scanner splits every input at its leftmost separators if and only if
      the separator is one repeated character (or can never be found). */
  lemma ScanExactPlain(sep: string)
    ensures (forall input :: BACKSLASH !in input ==> Scanned(sep, input) == Split(sep, input)) <==> Uniform(sep) || BACKSLASH in sep
  {
    if Uniform(sep) || BACKSLASH in sep {
      forall input | BACKSLASH !in input ensures Scanned(sep, input) == Split(sep, input) {
        assert sep[..0] == "" == input[0..0];
        UniformSplits(sep, [], "", 0, input, 0);
        assert [] + SplitFrom(sep, input, 0, false, "") == Split(sep, input);
      }
    } else {
      var k := FirstOther(sep, 0);
      OverlookCounterexample(sep, k);
    }
  }
}
