/** When the line map of the template compiler (main.c) is complete. Line ends among the code that
    is left over at the end of a template go to the chunk, but not to the map. */
module TemplateMap {
  import opened TemplateExpand
  import opened TemplateScan

  /** The map has an entry for every line of the chunk. */
  predicate Complete(o: Out) { |o.lines| == 1 + Newlines(o.text) }

  /** It has exactly if the template does not end in code and within a separator, after a line end
      of that; there is one entry too few for each line end left over. */
  lemma CompleteExactly(sep: string, input: string, o: Out)
    requires ChunkOk(sep, input, o)
    ensures Complete(o) <==> NEWLINE !in LeftOver(sep, input)
    ensures 1 + Newlines(o.text) - |o.lines| == Newlines(LeftOver(sep, input))
  {
    hide LeftOver, Newlines;
    NewlinesBoth("", LeftOver(sep, input));
  }

  // ---- which separators allow it -----------------------------------------------------------------

  /** What waits is the beginning of the separator, and not all of it. */
  lemma {:induction false} Beginning(sep: string, input: string)
    ensures var st := Run(sep, START, input, 0);
            && (st.pending == "" || |st.pending| < |sep|) && st.pending == sep[..|st.pending|]
            && BACKSLASH !in st.pending && (sep == "" || BACKSLASH in sep ==> st.pieces == [])
    decreases |input|
  {
    if input != "" {
      var less, c := input[..|input| - 1], input[|input| - 1];
      assert input == less + [c];
      Beginning(sep, less);
      RunMore(sep, START, less, 0, c);
      hide Run;
      StepBeginning(sep, Run(sep, START, less, 0), c);
    }
  }

  lemma StepBeginning(sep: string, st: Scan, c: char)
    requires (st.pending == "" || |st.pending| < |sep|) && st.pending == sep[..|st.pending|] && BACKSLASH !in st.pending
    requires sep == "" || BACKSLASH in sep ==> st.pieces == []
    ensures var st' := Step(sep, st, c);
            && (st'.pending == "" || |st'.pending| < |sep|) && st'.pending == sep[..|st'.pending|] && BACKSLASH !in st'.pending
            && (sep == "" || BACKSLASH in sep ==> st'.pieces == [])
  {
    var m := st.pending + [c];
    assert c != BACKSLASH ==> BACKSLASH !in m;
    assert |m| == |sep| && m == sep[..|m|] ==> m == sep;
  }

  /** After a template that ends outside of a separator, the beginning of one waits. */
  lemma {:induction false} ReadPart(sep: string, pre: string, k: nat)
    requires k < |sep| && BACKSLASH !in sep && Run(sep, START, pre, 0).pending == "" && !Run(sep, START, pre, 0).esc
    ensures Run(sep, START, pre + sep[..k], 0) == Run(sep, START, pre, 0).(pending := sep[..k])
    decreases k
  {
    if k == 0 {
      assert pre + sep[..0] == pre && sep[..0] == "";
    } else {
      ReadPart(sep, pre, k - 1);
      RunMore(sep, START, pre + sep[..k - 1], 0, sep[k - 1]);
      assert pre + sep[..k - 1] + [sep[k - 1]] == pre + sep[..k];
      assert sep[..k - 1] + [sep[k - 1]] == sep[..k];
      assert sep[k - 1] in sep;
    }
  }

  lemma ReadSep(sep: string)
    requires sep != "" && BACKSLASH !in sep
    ensures Run(sep, START, sep, 0) == Scan([""], "", "", false)
  {
    var k := |sep| - 1;
    ReadPart(sep, "", k);
    assert "" + sep[..k] == sep[..k];
    RunMore(sep, START, sep[..k], 0, sep[k]);
    assert sep[..k] + [sep[k]] == sep == sep[..|sep|];
    assert sep[k] in sep;
  }

  /** A separator, and then all of it but its last character. */
  function Witness(sep: string): string
    requires sep != ""
  {
    sep + sep[..|sep| - 1]
  }

  lemma WitnessLeft(sep: string)
    requires sep != "" && BACKSLASH !in sep
    ensures LeftOver(sep, Witness(sep)) == sep[..|sep| - 1]
  {
    ReadSep(sep);
    ReadPart(sep, sep, |sep| - 1);
  }

  /** Every template has a complete map if and only if the separator is empty, or cannot be found,
      or has no line end before its last character. */
  lemma CompleteSeparators(sep: string)
    ensures (forall input :: NEWLINE !in LeftOver(sep, input)) <==> sep == "" || BACKSLASH in sep || NEWLINE !in sep[..|sep| - 1]
  {
    if sep == "" || BACKSLASH in sep || NEWLINE !in sep[..|sep| - 1] {
      forall input ensures NEWLINE !in LeftOver(sep, input) {
        Beginning(sep, input);
        var st := Run(sep, START, input, 0);
        assert forall c :: c in st.pending && |st.pending| < |sep| ==> c in sep[..|sep| - 1];
      }
    } else {
      WitnessLeft(sep);
      assert NEWLINE in LeftOver(sep, Witness(sep));
    }
  }

  lemma ExampleRun()
    ensures Run("\n%", START, "\n%x\n", 0) == Scan([""], "x", "\n", false)
  {
    ReadSep("\n%");
    RunMore("\n%", START, "\n%", 0, 'x');
    assert "\n%" + ['x'] == "\n%x" && "" + ("" + ['x']) == "x";
    hide Run;
    ExampleEnd();
  }

  lemma ExampleEnd()
    requires Run("\n%", START, "\n%x", 0) == Scan([""], "x", "", false)
    ensures Run("\n%", START, "\n%x\n", 0) == Scan([""], "x", "\n", false)
  {
    hide Run;
    RunMore("\n%", START, "\n%x", 0, '\n');
    assert "\n%x" + ['\n'] == "\n%x\n" && "\n%"[..1] == "\n" && "" + ['\n'] == "\n";
  }

  lemma ExampleText()
    ensures Chunk(["", "x\n"]) == "\nx\n"
  {
    assert Rendered([]) == "" && Done(0, "") == "\n" && Last(1, "x\n") == "x\n";
    hide Rendered, Chunk, Done, Last;
    RenderedMore([], "");
    ChunkIs([""], "x\n");
    assert [] + [""] == [""] && [""] + ["x\n"] == ["", "x\n"];
    assert "" + "\n" + "x\n" == "\nx\n";
  }

  lemma ExampleLines()
    ensures Newlines("\n") == 1 && Newlines("\nx\n") == 2
  {
    assert Newlines("") == 0;
    hide Newlines;
    NewlinesMore("", '\n');
    NewlinesMore("\n", 'x');
    NewlinesMore("\nx", '\n');
    assert "" + ['\n'] == "\n" && "\n" + ['x'] == "\nx" && "\nx" + ['\n'] == "\nx\n";
  }

  /** A chunk of three lines with two entries. */
  lemma MapCounterexample(o: Out)
    requires ChunkOk("\n%", "\n%x\n", o)
    ensures o.text == "\nx\n" && Newlines(o.text) == 2 && |o.lines| == 2
  {
    hide Run, Chunk, Newlines;
    ExampleRun();
    assert "x" + "" + "\n" == "x\n" && [""] + ["x\n"] == ["", "x\n"];
    ExampleText();
    ExampleLines();
    CompleteExactly("\n%", "\n%x\n", o);
  }
}
