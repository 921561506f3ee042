/**
 * NormalizeSongName on the inputs of internal/utils/utilString_test.go and
 * internal/utils/utils_test/utilString_test.go, and on an input that shows
 * the function is not idempotent. Each case follows the pipeline step by
 * step: the no-break spaces, the dash pattern, the comma pattern, the fields.
 *
 * Each case is cut into small step lemmas, one match or one cut of the scan
 * at a time, so that each step is checked separately; a case names its
 * input through a parameter (`requires s == "…"`) for the same reason.
 */
module SongNameCases {
  import opened GoStrings
  import opened SongName

  /** The scan copies a stretch that holds no separator and does not end in a space of `\s`. */
  lemma Plain(x: string, y: string, sep: char, cls: SpaceClass)
    requires cls == Regex && !IsSpace(sep) && sep !in x && (x == [] || !RegexSpace(x[|x| - 1]))
    ensures ReplacePattern(x + y, sep, cls) == x + ReplacePattern(y, sep, cls)
  {
    var s := x + y;
    assert s[..|x|] == x && s[|x|..] == y;
    ReplacePatternPlain(s, |x|, sep, cls);
  }

  /** The scan turns spaces, the separator and spaces that a non-space follows into the separator. */
  lemma Squeeze(a: string, b: string, y: string, sep: char, cls: SpaceClass)
    requires cls == Regex && !IsSpace(sep) && AllInClass(a, Regex) && AllInClass(b, Regex) && (y == [] || !RegexSpace(y[0]))
    ensures ReplacePattern(a + ([sep] + (b + y)), sep, cls) == [sep] + ReplacePattern(y, sep, cls)
  {
    var s := a + ([sep] + (b + y));
    var k, n := |a|, |a| + 1 + |b|;
    assert s[..k] == a && s[k + 1..n] == b && s[n..] == y && s[k] == sep;
    ReplacePatternMatch(s, k, n, sep, cls);
  }

  /** Join with ' ' puts one space between a word and the join of the words after it. */
  lemma JoinStep(w: string, ws: seq<string>)
    requires ws != []
    ensures Join([w] + ws, " ") == w + (" " + Join(ws, " "))
  {
    JoinCons(w, ws, " ");
  }

  lemma CaseNoBreakSpacesSpaceFacts()
    ensures NoBreakSpace !in "Song Name"
    ensures NoBreakSpace !in "-"
    ensures NoBreakSpace !in "Artist"
  {
  }

  lemma CaseNoBreakSpacesSpaceInputCut0()
    ensures "Song Name\U{A0}-\U{A0}Artist" == "Song Name" + "\U{A0}-\U{A0}Artist"
  {
  }

  lemma CaseNoBreakSpacesSpaceInputCut1()
    ensures "\U{A0}-\U{A0}Artist" == "\U{A0}" + "-\U{A0}Artist"
  {
  }

  lemma CaseNoBreakSpacesSpaceInputCut2()
    ensures "-\U{A0}Artist" == "-" + "\U{A0}Artist"
  {
  }

  lemma CaseNoBreakSpacesSpaceInputCut3()
    ensures "\U{A0}Artist" == "\U{A0}" + "Artist"
  {
  }

  lemma CaseNoBreakSpacesSpaceInput(s: string)
    requires s == "Song Name\U{A0}-\U{A0}Artist"
    ensures s == "Song Name" + ("\U{A0}" + ("-" + ("\U{A0}" + "Artist")))
  {
    CaseNoBreakSpacesSpaceInputCut0(); CaseNoBreakSpacesSpaceInputCut1(); CaseNoBreakSpacesSpaceInputCut2(); CaseNoBreakSpacesSpaceInputCut3();
  }

  lemma CaseNoBreakSpacesSpaceOutputCut0()
    ensures "Song Name - Artist" == "Song Name" + " - Artist"
  {
  }

  lemma CaseNoBreakSpacesSpaceOutputCut1()
    ensures " - Artist" == " " + "- Artist"
  {
  }

  lemma CaseNoBreakSpacesSpaceOutputCut2()
    ensures "- Artist" == "-" + " Artist"
  {
  }

  lemma CaseNoBreakSpacesSpaceOutputCut3()
    ensures " Artist" == " " + "Artist"
  {
  }

  lemma CaseNoBreakSpacesSpaceOutput(s: string)
    requires s == "Song Name - Artist"
    ensures s == "Song Name" + (" " + ("-" + (" " + "Artist")))
  {
    CaseNoBreakSpacesSpaceOutputCut0(); CaseNoBreakSpacesSpaceOutputCut1(); CaseNoBreakSpacesSpaceOutputCut2(); CaseNoBreakSpacesSpaceOutputCut3();
  }

  lemma CaseNoBreakSpacesSpace(s: string)
    requires s == "Song Name\U{A0}-\U{A0}Artist"
    ensures ReplaceAll(s, [NoBreakSpace], " ") == "Song Name - Artist"
  {
    CaseNoBreakSpacesSpaceFacts();
    var q2 := "Artist";
    ReplaceAllCharAbsent(q2, NoBreakSpace, ' ');
    var q1 := "-" + ("\U{A0}" + q2);
    ReplaceAllCharStep("-", NoBreakSpace, ' ', q2);
    var q0 := "Song Name" + ("\U{A0}" + q1);
    ReplaceAllCharStep("Song Name", NoBreakSpace, ' ', q1);
    CaseNoBreakSpacesSpaceInput(s);
    CaseNoBreakSpacesSpaceOutput("Song Name - Artist");
  }

  lemma CaseNoBreakSpacesDashLink0(cls: SpaceClass)
    requires cls == Regex
    ensures ReplacePattern("Song Name" + (" " + ("-" + (" " + "Artist"))), '-', cls) == "Song Name" + ReplacePattern(" " + ("-" + (" " + "Artist")), '-', cls)
  {
    assert '-' !in "Song Name" && !RegexSpace("Song Name"[8]);
    Plain("Song Name", " " + ("-" + (" " + "Artist")), '-', cls);
  }

  lemma CaseNoBreakSpacesDashLink1(cls: SpaceClass)
    requires cls == Regex
    ensures ReplacePattern(" " + ("-" + (" " + ("Artist"))), '-', cls) == "-" + ReplacePattern("Artist", '-', cls)
  {
    assert AllInClass(" ", Regex) && AllInClass(" ", Regex);
    assert !RegexSpace(("Artist")[0]);
    Squeeze(" ", " ", "Artist", '-', cls);
  }

  lemma CaseNoBreakSpacesDashLink2(cls: SpaceClass)
    requires cls == Regex
    ensures ReplacePattern("Artist", '-', cls) == "Artist"
  {
    assert '-' !in "Artist";
    ReplacePatternFree("Artist", '-', cls);
  }

  lemma CaseNoBreakSpacesDashInputCut0()
    ensures "Song Name - Artist" == "Song Name" + " - Artist"
  {
  }

  lemma CaseNoBreakSpacesDashInputCut1()
    ensures " - Artist" == " " + "- Artist"
  {
  }

  lemma CaseNoBreakSpacesDashInputCut2()
    ensures "- Artist" == "-" + " Artist"
  {
  }

  lemma CaseNoBreakSpacesDashInputCut3()
    ensures " Artist" == " " + "Artist"
  {
  }

  lemma CaseNoBreakSpacesDashInput(s: string)
    requires s == "Song Name - Artist"
    ensures s == "Song Name" + (" " + ("-" + (" " + "Artist")))
  {
    CaseNoBreakSpacesDashInputCut0(); CaseNoBreakSpacesDashInputCut1(); CaseNoBreakSpacesDashInputCut2(); CaseNoBreakSpacesDashInputCut3();
  }

  lemma CaseNoBreakSpacesDashOutputCut0()
    ensures "Song Name-Artist" == "Song Name" + "-Artist"
  {
  }

  lemma CaseNoBreakSpacesDashOutputCut1()
    ensures "-Artist" == "-" + "Artist"
  {
  }

  lemma CaseNoBreakSpacesDashOutput(s: string)
    requires s == "Song Name-Artist"
    ensures s == "Song Name" + ("-" + "Artist")
  {
    CaseNoBreakSpacesDashOutputCut0(); CaseNoBreakSpacesDashOutputCut1();
  }

  lemma CaseNoBreakSpacesDash(s: string, cls: SpaceClass)
    requires cls == Regex && s == "Song Name - Artist"
    ensures ReplacePattern(s, '-', cls) == "Song Name-Artist"
  {
    CaseNoBreakSpacesDashInput(s);
    CaseNoBreakSpacesDashOutput("Song Name-Artist");
    CaseNoBreakSpacesDashLink0(cls);
    CaseNoBreakSpacesDashLink1(cls);
    CaseNoBreakSpacesDashLink2(cls);
  }

  lemma CaseNoBreakSpacesComma(s: string, cls: SpaceClass)
    requires cls == Regex && s == "Song Name-Artist"
    ensures ReplacePattern(s, ',', cls) == "Song Name-Artist"
  {
    ReplacePatternFree(s, ',', cls);
  }

  lemma CaseNoBreakSpacesFieldsFacts()
    ensures Word("Song")
    ensures AllSpace(" ")
    ensures Word("Name-Artist")
  {
  }

  lemma CaseNoBreakSpacesFieldsInputCut0()
    ensures "Song Name-Artist" == "Song" + " Name-Artist"
  {
  }

  lemma CaseNoBreakSpacesFieldsInputCut1()
    ensures " Name-Artist" == " " + "Name-Artist"
  {
  }

  lemma CaseNoBreakSpacesFieldsInputCut2()
    ensures "Name-Artist" == "Name-Artist" + ""
  {
  }

  lemma CaseNoBreakSpacesFieldsInput(s: string)
    requires s == "Song Name-Artist"
    ensures s == "Song" + (" " + ("Name-Artist" + ""))
  {
    CaseNoBreakSpacesFieldsInputCut0(); CaseNoBreakSpacesFieldsInputCut1(); CaseNoBreakSpacesFieldsInputCut2();
  }

  lemma CaseNoBreakSpacesFields(s: string)
    requires s == "Song Name-Artist"
    ensures Fields(s) == ["Song", "Name-Artist"]
  {
    CaseNoBreakSpacesFieldsFacts();
    var f3 := "";
    var f2 := "Name-Artist" + f3;
    FieldsAfterWord("Name-Artist", f3);
    var f1 := " " + f2;
    FieldsAfterSpaces(" ", f2);
    var f0 := "Song" + f1;
    FieldsAfterWord("Song", f1);
    CaseNoBreakSpacesFieldsInput(s);
  }

  lemma CaseNoBreakSpacesJoinOutputCut0()
    ensures "Song Name-Artist" == "Song" + " Name-Artist"
  {
  }

  lemma CaseNoBreakSpacesJoinOutputCut1()
    ensures " Name-Artist" == " " + "Name-Artist"
  {
  }

  lemma CaseNoBreakSpacesJoinOutput(s: string)
    requires s == "Song Name-Artist"
    ensures s == "Song" + (" " + "Name-Artist")
  {
    CaseNoBreakSpacesJoinOutputCut0(); CaseNoBreakSpacesJoinOutputCut1();
  }

  lemma CaseNoBreakSpacesJoin()
    ensures Join(["Song", "Name-Artist"], " ") == "Song Name-Artist"
  {
    var j1 := ["Name-Artist"];
    var j0 := ["Song"] + j1;
    JoinStep("Song", j1);
    assert ["Song", "Name-Artist"] == j0;
    CaseNoBreakSpacesJoinOutput("Song Name-Artist");
  }

  /** utilString_test.go line 12: no-break spaces around a dash. */
  lemma CaseNoBreakSpaces(s: string)
    requires s == "Song Name\U{A0}-\U{A0}Artist"
    ensures NormalizeSongName(s) == "Song Name-Artist"
  {
    CaseNoBreakSpacesSpace(s);
    CaseNoBreakSpacesDash("Song Name - Artist", Regex);
    CaseNoBreakSpacesComma("Song Name-Artist", Regex);
    CaseNoBreakSpacesFields("Song Name-Artist");
    CaseNoBreakSpacesJoin();
    NormalizeVia(s, Regex, "Song Name - Artist", "Song Name-Artist", "Song Name-Artist", ["Song", "Name-Artist"]);
  }

  lemma CasePaddedDashSpace(s: string)
    requires s == " Song  Name  -  Artist "
    ensures ReplaceAll(s, [NoBreakSpace], " ") == s
  {
    assert NoBreakSpace !in " Song  Name  -  Artist ";
    NoBreakSpaceAbsent(s);
  }

  lemma CasePaddedDashDashLink0(cls: SpaceClass)
    requires cls == Regex
    ensures ReplacePattern(" Song  Name" + ("  " + ("-" + ("  " + "Artist "))), '-', cls) == " Song  Name" + ReplacePattern("  " + ("-" + ("  " + "Artist ")), '-', cls)
  {
    assert '-' !in " Song  Name" && !RegexSpace(" Song  Name"[10]);
    Plain(" Song  Name", "  " + ("-" + ("  " + "Artist ")), '-', cls);
  }

  lemma CasePaddedDashDashLink1(cls: SpaceClass)
    requires cls == Regex
    ensures ReplacePattern("  " + ("-" + ("  " + ("Artist "))), '-', cls) == "-" + ReplacePattern("Artist ", '-', cls)
  {
    assert AllInClass("  ", Regex) && AllInClass("  ", Regex);
    assert !RegexSpace(("Artist ")[0]);
    Squeeze("  ", "  ", "Artist ", '-', cls);
  }

  lemma CasePaddedDashDashLink2(cls: SpaceClass)
    requires cls == Regex
    ensures ReplacePattern("Artist ", '-', cls) == "Artist "
  {
    assert '-' !in "Artist ";
    ReplacePatternFree("Artist ", '-', cls);
  }

  lemma CasePaddedDashDashInputCut0()
    ensures " Song  Name  -  Artist " == " Song  Name" + "  -  Artist "
  {
  }

  lemma CasePaddedDashDashInputCut1()
    ensures "  -  Artist " == "  " + "-  Artist "
  {
  }

  lemma CasePaddedDashDashInputCut2()
    ensures "-  Artist " == "-" + "  Artist "
  {
  }

  lemma CasePaddedDashDashInputCut3()
    ensures "  Artist " == "  " + "Artist "
  {
  }

  lemma CasePaddedDashDashInput(s: string)
    requires s == " Song  Name  -  Artist "
    ensures s == " Song  Name" + ("  " + ("-" + ("  " + "Artist ")))
  {
    CasePaddedDashDashInputCut0(); CasePaddedDashDashInputCut1(); CasePaddedDashDashInputCut2(); CasePaddedDashDashInputCut3();
  }

  lemma CasePaddedDashDashOutputCut0()
    ensures " Song  Name-Artist " == " Song  Name" + "-Artist "
  {
  }

  lemma CasePaddedDashDashOutputCut1()
    ensures "-Artist " == "-" + "Artist "
  {
  }

  lemma CasePaddedDashDashOutput(s: string)
    requires s == " Song  Name-Artist "
    ensures s == " Song  Name" + ("-" + "Artist ")
  {
    CasePaddedDashDashOutputCut0(); CasePaddedDashDashOutputCut1();
  }

  lemma CasePaddedDashDash(s: string, cls: SpaceClass)
    requires cls == Regex && s == " Song  Name  -  Artist "
    ensures ReplacePattern(s, '-', cls) == " Song  Name-Artist "
  {
    CasePaddedDashDashInput(s);
    CasePaddedDashDashOutput(" Song  Name-Artist ");
    CasePaddedDashDashLink0(cls);
    CasePaddedDashDashLink1(cls);
    CasePaddedDashDashLink2(cls);
  }

  lemma CasePaddedDashComma(s: string, cls: SpaceClass)
    requires cls == Regex && s == " Song  Name-Artist "
    ensures ReplacePattern(s, ',', cls) == " Song  Name-Artist "
  {
    ReplacePatternFree(s, ',', cls);
  }

  lemma CasePaddedDashFieldsFacts()
    ensures AllSpace(" ")
    ensures Word("Song")
    ensures AllSpace("  ")
    ensures Word("Name-Artist")
    ensures AllSpace(" ")
  {
  }

  lemma CasePaddedDashFieldsInputCut0()
    ensures " Song  Name-Artist " == " " + "Song  Name-Artist "
  {
  }

  lemma CasePaddedDashFieldsInputCut1()
    ensures "Song  Name-Artist " == "Song" + "  Name-Artist "
  {
  }

  lemma CasePaddedDashFieldsInputCut2()
    ensures "  Name-Artist " == "  " + "Name-Artist "
  {
  }

  lemma CasePaddedDashFieldsInputCut3()
    ensures "Name-Artist " == "Name-Artist" + " "
  {
  }

  lemma CasePaddedDashFieldsInputCut4()
    ensures " " == " " + ""
  {
  }

  lemma CasePaddedDashFieldsInput(s: string)
    requires s == " Song  Name-Artist "
    ensures s == " " + ("Song" + ("  " + ("Name-Artist" + (" " + ""))))
  {
    CasePaddedDashFieldsInputCut0(); CasePaddedDashFieldsInputCut1(); CasePaddedDashFieldsInputCut2(); CasePaddedDashFieldsInputCut3(); CasePaddedDashFieldsInputCut4();
  }

  lemma CasePaddedDashFields(s: string)
    requires s == " Song  Name-Artist "
    ensures Fields(s) == ["Song", "Name-Artist"]
  {
    CasePaddedDashFieldsFacts();
    var f5 := "";
    var f4 := " " + f5;
    FieldsAfterSpaces(" ", f5);
    var f3 := "Name-Artist" + f4;
    FieldsAfterWord("Name-Artist", f4);
    var f2 := "  " + f3;
    FieldsAfterSpaces("  ", f3);
    var f1 := "Song" + f2;
    FieldsAfterWord("Song", f2);
    var f0 := " " + f1;
    FieldsAfterSpaces(" ", f1);
    CasePaddedDashFieldsInput(s);
  }

  lemma CasePaddedDashJoinOutputCut0()
    ensures "Song Name-Artist" == "Song" + " Name-Artist"
  {
  }

  lemma CasePaddedDashJoinOutputCut1()
    ensures " Name-Artist" == " " + "Name-Artist"
  {
  }

  lemma CasePaddedDashJoinOutput(s: string)
    requires s == "Song Name-Artist"
    ensures s == "Song" + (" " + "Name-Artist")
  {
    CasePaddedDashJoinOutputCut0(); CasePaddedDashJoinOutputCut1();
  }

  lemma CasePaddedDashJoin()
    ensures Join(["Song", "Name-Artist"], " ") == "Song Name-Artist"
  {
    var j1 := ["Name-Artist"];
    var j0 := ["Song"] + j1;
    JoinStep("Song", j1);
    assert ["Song", "Name-Artist"] == j0;
    CasePaddedDashJoinOutput("Song Name-Artist");
  }

  /** Line 13: padded words and dash. */
  lemma CasePaddedDash(s: string)
    requires s == " Song  Name  -  Artist "
    ensures NormalizeSongName(s) == "Song Name-Artist"
  {
    CasePaddedDashSpace(s);
    CasePaddedDashDash(" Song  Name  -  Artist ", Regex);
    CasePaddedDashComma(" Song  Name-Artist ", Regex);
    CasePaddedDashFields(" Song  Name-Artist ");
    CasePaddedDashJoin();
    NormalizeVia(s, Regex, " Song  Name  -  Artist ", " Song  Name-Artist ", " Song  Name-Artist ", ["Song", "Name-Artist"]);
  }

  lemma CaseDashAndCommaSpace(s: string)
    requires s == "Song - Name, Artist "
    ensures ReplaceAll(s, [NoBreakSpace], " ") == s
  {
    assert NoBreakSpace !in "Song - Name, Artist ";
    NoBreakSpaceAbsent(s);
  }

  lemma CaseDashAndCommaDashLink0(cls: SpaceClass)
    requires cls == Regex
    ensures ReplacePattern("Song" + (" " + ("-" + (" " + "Name, Artist "))), '-', cls) == "Song" + ReplacePattern(" " + ("-" + (" " + "Name, Artist ")), '-', cls)
  {
    assert '-' !in "Song" && !RegexSpace("Song"[3]);
    Plain("Song", " " + ("-" + (" " + "Name, Artist ")), '-', cls);
  }

  lemma CaseDashAndCommaDashLink1(cls: SpaceClass)
    requires cls == Regex
    ensures ReplacePattern(" " + ("-" + (" " + ("Name, Artist "))), '-', cls) == "-" + ReplacePattern("Name, Artist ", '-', cls)
  {
    assert AllInClass(" ", Regex) && AllInClass(" ", Regex);
    assert !RegexSpace(("Name, Artist ")[0]);
    Squeeze(" ", " ", "Name, Artist ", '-', cls);
  }

  lemma CaseDashAndCommaDashLink2(cls: SpaceClass)
    requires cls == Regex
    ensures ReplacePattern("Name, Artist ", '-', cls) == "Name, Artist "
  {
    assert '-' !in "Name, Artist ";
    ReplacePatternFree("Name, Artist ", '-', cls);
  }

  lemma CaseDashAndCommaDashInputCut0()
    ensures "Song - Name, Artist " == "Song" + " - Name, Artist "
  {
  }

  lemma CaseDashAndCommaDashInputCut1()
    ensures " - Name, Artist " == " " + "- Name, Artist "
  {
  }

  lemma CaseDashAndCommaDashInputCut2()
    ensures "- Name, Artist " == "-" + " Name, Artist "
  {
  }

  lemma CaseDashAndCommaDashInputCut3()
    ensures " Name, Artist " == " " + "Name, Artist "
  {
  }

  lemma CaseDashAndCommaDashInput(s: string)
    requires s == "Song - Name, Artist "
    ensures s == "Song" + (" " + ("-" + (" " + "Name, Artist ")))
  {
    CaseDashAndCommaDashInputCut0(); CaseDashAndCommaDashInputCut1(); CaseDashAndCommaDashInputCut2(); CaseDashAndCommaDashInputCut3();
  }

  lemma CaseDashAndCommaDashOutputCut0()
    ensures "Song-Name, Artist " == "Song" + "-Name, Artist "
  {
  }

  lemma CaseDashAndCommaDashOutputCut1()
    ensures "-Name, Artist " == "-" + "Name, Artist "
  {
  }

  lemma CaseDashAndCommaDashOutput(s: string)
    requires s == "Song-Name, Artist "
    ensures s == "Song" + ("-" + "Name, Artist ")
  {
    CaseDashAndCommaDashOutputCut0(); CaseDashAndCommaDashOutputCut1();
  }

  lemma CaseDashAndCommaDash(s: string, cls: SpaceClass)
    requires cls == Regex && s == "Song - Name, Artist "
    ensures ReplacePattern(s, '-', cls) == "Song-Name, Artist "
  {
    CaseDashAndCommaDashInput(s);
    CaseDashAndCommaDashOutput("Song-Name, Artist ");
    CaseDashAndCommaDashLink0(cls);
    CaseDashAndCommaDashLink1(cls);
    CaseDashAndCommaDashLink2(cls);
  }

  lemma CaseDashAndCommaCommaLink0(cls: SpaceClass)
    requires cls == Regex
    ensures ReplacePattern("Song-Name" + ("" + ("," + (" " + "Artist "))), ',', cls) == "Song-Name" + ReplacePattern("" + ("," + (" " + "Artist ")), ',', cls)
  {
    assert ',' !in "Song-Name" && !RegexSpace("Song-Name"[8]);
    Plain("Song-Name", "" + ("," + (" " + "Artist ")), ',', cls);
  }

  lemma CaseDashAndCommaCommaLink1(cls: SpaceClass)
    requires cls == Regex
    ensures ReplacePattern("" + ("," + (" " + ("Artist "))), ',', cls) == "," + ReplacePattern("Artist ", ',', cls)
  {
    assert AllInClass("", Regex) && AllInClass(" ", Regex);
    assert !RegexSpace(("Artist ")[0]);
    Squeeze("", " ", "Artist ", ',', cls);
  }

  lemma CaseDashAndCommaCommaLink2(cls: SpaceClass)
    requires cls == Regex
    ensures ReplacePattern("Artist ", ',', cls) == "Artist "
  {
    assert ',' !in "Artist ";
    ReplacePatternFree("Artist ", ',', cls);
  }

  lemma CaseDashAndCommaCommaInputCut0()
    ensures "Song-Name, Artist " == "Song-Name" + ", Artist "
  {
  }

  lemma CaseDashAndCommaCommaInputCut1()
    ensures ", Artist " == "" + ", Artist "
  {
  }

  lemma CaseDashAndCommaCommaInputCut2()
    ensures ", Artist " == "," + " Artist "
  {
  }

  lemma CaseDashAndCommaCommaInputCut3()
    ensures " Artist " == " " + "Artist "
  {
  }

  lemma CaseDashAndCommaCommaInput(s: string)
    requires s == "Song-Name, Artist "
    ensures s == "Song-Name" + ("" + ("," + (" " + "Artist ")))
  {
    CaseDashAndCommaCommaInputCut0(); CaseDashAndCommaCommaInputCut1(); CaseDashAndCommaCommaInputCut2(); CaseDashAndCommaCommaInputCut3();
  }

  lemma CaseDashAndCommaCommaOutputCut0()
    ensures "Song-Name,Artist " == "Song-Name" + ",Artist "
  {
  }

  lemma CaseDashAndCommaCommaOutputCut1()
    ensures ",Artist " == "," + "Artist "
  {
  }

  lemma CaseDashAndCommaCommaOutput(s: string)
    requires s == "Song-Name,Artist "
    ensures s == "Song-Name" + ("," + "Artist ")
  {
    CaseDashAndCommaCommaOutputCut0(); CaseDashAndCommaCommaOutputCut1();
  }

  lemma CaseDashAndCommaComma(s: string, cls: SpaceClass)
    requires cls == Regex && s == "Song-Name, Artist "
    ensures ReplacePattern(s, ',', cls) == "Song-Name,Artist "
  {
    CaseDashAndCommaCommaInput(s);
    CaseDashAndCommaCommaOutput("Song-Name,Artist ");
    CaseDashAndCommaCommaLink0(cls);
    CaseDashAndCommaCommaLink1(cls);
    CaseDashAndCommaCommaLink2(cls);
  }

  lemma CaseDashAndCommaFieldsFacts()
    ensures Word("Song-Name,Artist")
    ensures AllSpace(" ")
  {
  }

  lemma CaseDashAndCommaFieldsInputCut0()
    ensures "Song-Name,Artist " == "Song-Name,Artist" + " "
  {
  }

  lemma CaseDashAndCommaFieldsInputCut1()
    ensures " " == " " + ""
  {
  }

  lemma CaseDashAndCommaFieldsInput(s: string)
    requires s == "Song-Name,Artist "
    ensures s == "Song-Name,Artist" + (" " + "")
  {
    CaseDashAndCommaFieldsInputCut0(); CaseDashAndCommaFieldsInputCut1();
  }

  lemma CaseDashAndCommaFields(s: string)
    requires s == "Song-Name,Artist "
    ensures Fields(s) == ["Song-Name,Artist"]
  {
    CaseDashAndCommaFieldsFacts();
    var f2 := "";
    var f1 := " " + f2;
    FieldsAfterSpaces(" ", f2);
    var f0 := "Song-Name,Artist" + f1;
    FieldsAfterWord("Song-Name,Artist", f1);
    CaseDashAndCommaFieldsInput(s);
  }

  lemma CaseDashAndCommaJoin()
    ensures Join(["Song-Name,Artist"], " ") == "Song-Name,Artist"
  {
  }

  /** Line 14: a dash and a comma. */
  lemma CaseDashAndComma(s: string)
    requires s == "Song - Name, Artist "
    ensures NormalizeSongName(s) == "Song-Name,Artist"
  {
    CaseDashAndCommaSpace(s);
    CaseDashAndCommaDash("Song - Name, Artist ", Regex);
    CaseDashAndCommaComma("Song-Name, Artist ", Regex);
    CaseDashAndCommaFields("Song-Name,Artist ");
    CaseDashAndCommaJoin();
    NormalizeVia(s, Regex, "Song - Name, Artist ", "Song-Name, Artist ", "Song-Name,Artist ", ["Song-Name,Artist"]);
  }

  lemma CasePaddedWordsSpace(s: string)
    requires s == "  Song  Name  "
    ensures ReplaceAll(s, [NoBreakSpace], " ") == s
  {
    assert NoBreakSpace !in "  Song  Name  ";
    NoBreakSpaceAbsent(s);
  }

  lemma CasePaddedWordsDash(s: string, cls: SpaceClass)
    requires cls == Regex && s == "  Song  Name  "
    ensures ReplacePattern(s, '-', cls) == "  Song  Name  "
  {
    ReplacePatternFree(s, '-', cls);
  }

  lemma CasePaddedWordsComma(s: string, cls: SpaceClass)
    requires cls == Regex && s == "  Song  Name  "
    ensures ReplacePattern(s, ',', cls) == "  Song  Name  "
  {
    ReplacePatternFree(s, ',', cls);
  }

  lemma CasePaddedWordsFieldsFacts()
    ensures AllSpace("  ")
    ensures Word("Song")
    ensures AllSpace("  ")
    ensures Word("Name")
    ensures AllSpace("  ")
  {
  }

  lemma CasePaddedWordsFieldsInputCut0()
    ensures "  Song  Name  " == "  " + "Song  Name  "
  {
  }

  lemma CasePaddedWordsFieldsInputCut1()
    ensures "Song  Name  " == "Song" + "  Name  "
  {
  }

  lemma CasePaddedWordsFieldsInputCut2()
    ensures "  Name  " == "  " + "Name  "
  {
  }

  lemma CasePaddedWordsFieldsInputCut3()
    ensures "Name  " == "Name" + "  "
  {
  }

  lemma CasePaddedWordsFieldsInputCut4()
    ensures "  " == "  " + ""
  {
  }

  lemma CasePaddedWordsFieldsInput(s: string)
    requires s == "  Song  Name  "
    ensures s == "  " + ("Song" + ("  " + ("Name" + ("  " + ""))))
  {
    CasePaddedWordsFieldsInputCut0(); CasePaddedWordsFieldsInputCut1(); CasePaddedWordsFieldsInputCut2(); CasePaddedWordsFieldsInputCut3(); CasePaddedWordsFieldsInputCut4();
  }

  lemma CasePaddedWordsFields(s: string)
    requires s == "  Song  Name  "
    ensures Fields(s) == ["Song", "Name"]
  {
    CasePaddedWordsFieldsFacts();
    var f5 := "";
    var f4 := "  " + f5;
    FieldsAfterSpaces("  ", f5);
    var f3 := "Name" + f4;
    FieldsAfterWord("Name", f4);
    var f2 := "  " + f3;
    FieldsAfterSpaces("  ", f3);
    var f1 := "Song" + f2;
    FieldsAfterWord("Song", f2);
    var f0 := "  " + f1;
    FieldsAfterSpaces("  ", f1);
    CasePaddedWordsFieldsInput(s);
  }

  lemma CasePaddedWordsJoinOutputCut0()
    ensures "Song Name" == "Song" + " Name"
  {
  }

  lemma CasePaddedWordsJoinOutputCut1()
    ensures " Name" == " " + "Name"
  {
  }

  lemma CasePaddedWordsJoinOutput(s: string)
    requires s == "Song Name"
    ensures s == "Song" + (" " + "Name")
  {
    CasePaddedWordsJoinOutputCut0(); CasePaddedWordsJoinOutputCut1();
  }

  lemma CasePaddedWordsJoin()
    ensures Join(["Song", "Name"], " ") == "Song Name"
  {
    var j1 := ["Name"];
    var j0 := ["Song"] + j1;
    JoinStep("Song", j1);
    assert ["Song", "Name"] == j0;
    CasePaddedWordsJoinOutput("Song Name");
  }

  /** Line 15: padding only. */
  lemma CasePaddedWords(s: string)
    requires s == "  Song  Name  "
    ensures NormalizeSongName(s) == "Song Name"
  {
    CasePaddedWordsSpace(s);
    CasePaddedWordsDash("  Song  Name  ", Regex);
    CasePaddedWordsComma("  Song  Name  ", Regex);
    CasePaddedWordsFields("  Song  Name  ");
    CasePaddedWordsJoin();
    NormalizeVia(s, Regex, "  Song  Name  ", "  Song  Name  ", "  Song  Name  ", ["Song", "Name"]);
  }

  lemma CaseSeveralArtistsSpace(s: string)
    requires s == "Song Name -  Artist , Some Other Artist"
    ensures ReplaceAll(s, [NoBreakSpace], " ") == s
  {
    assert NoBreakSpace !in "Song Name -  Artist , Some Other Artist";
    NoBreakSpaceAbsent(s);
  }

  lemma CaseSeveralArtistsDashLink0(cls: SpaceClass)
    requires cls == Regex
    ensures ReplacePattern("Song Name" + (" " + ("-" + ("  " + "Artist , Some Other Artist"))), '-', cls) == "Song Name" + ReplacePattern(" " + ("-" + ("  " + "Artist , Some Other Artist")), '-', cls)
  {
    assert '-' !in "Song Name" && !RegexSpace("Song Name"[8]);
    Plain("Song Name", " " + ("-" + ("  " + "Artist , Some Other Artist")), '-', cls);
  }

  lemma CaseSeveralArtistsDashLink1(cls: SpaceClass)
    requires cls == Regex
    ensures ReplacePattern(" " + ("-" + ("  " + ("Artist , Some Other Artist"))), '-', cls) == "-" + ReplacePattern("Artist , Some Other Artist", '-', cls)
  {
    assert AllInClass(" ", Regex) && AllInClass("  ", Regex);
    assert !RegexSpace(("Artist , Some Other Artist")[0]);
    Squeeze(" ", "  ", "Artist , Some Other Artist", '-', cls);
  }

  lemma CaseSeveralArtistsDashLink2(cls: SpaceClass)
    requires cls == Regex
    ensures ReplacePattern("Artist , Some Other Artist", '-', cls) == "Artist , Some Other Artist"
  {
    assert '-' !in "Artist , Some Other Artist";
    ReplacePatternFree("Artist , Some Other Artist", '-', cls);
  }

  lemma CaseSeveralArtistsDashInputCut0()
    ensures "Song Name -  Artist , Some Other Artist" == "Song Name" + " -  Artist , Some Other Artist"
  {
  }

  lemma CaseSeveralArtistsDashInputCut1()
    ensures " -  Artist , Some Other Artist" == " " + "-  Artist , Some Other Artist"
  {
  }

  lemma CaseSeveralArtistsDashInputCut2()
    ensures "-  Artist , Some Other Artist" == "-" + "  Artist , Some Other Artist"
  {
  }

  lemma CaseSeveralArtistsDashInputCut3()
    ensures "  Artist , Some Other Artist" == "  " + "Artist , Some Other Artist"
  {
  }

  lemma CaseSeveralArtistsDashInput(s: string)
    requires s == "Song Name -  Artist , Some Other Artist"
    ensures s == "Song Name" + (" " + ("-" + ("  " + "Artist , Some Other Artist")))
  {
    CaseSeveralArtistsDashInputCut0(); CaseSeveralArtistsDashInputCut1(); CaseSeveralArtistsDashInputCut2(); CaseSeveralArtistsDashInputCut3();
  }

  lemma CaseSeveralArtistsDashOutputCut0()
    ensures "Song Name-Artist , Some Other Artist" == "Song Name" + "-Artist , Some Other Artist"
  {
  }

  lemma CaseSeveralArtistsDashOutputCut1()
    ensures "-Artist , Some Other Artist" == "-" + "Artist , Some Other Artist"
  {
  }

  lemma CaseSeveralArtistsDashOutput(s: string)
    requires s == "Song Name-Artist , Some Other Artist"
    ensures s == "Song Name" + ("-" + "Artist , Some Other Artist")
  {
    CaseSeveralArtistsDashOutputCut0(); CaseSeveralArtistsDashOutputCut1();
  }

  lemma CaseSeveralArtistsDash(s: string, cls: SpaceClass)
    requires cls == Regex && s == "Song Name -  Artist , Some Other Artist"
    ensures ReplacePattern(s, '-', cls) == "Song Name-Artist , Some Other Artist"
  {
    CaseSeveralArtistsDashInput(s);
    CaseSeveralArtistsDashOutput("Song Name-Artist , Some Other Artist");
    CaseSeveralArtistsDashLink0(cls);
    CaseSeveralArtistsDashLink1(cls);
    CaseSeveralArtistsDashLink2(cls);
  }

  lemma CaseSeveralArtistsCommaLink0(cls: SpaceClass)
    requires cls == Regex
    ensures ReplacePattern("Song Name-Artist" + (" " + ("," + (" " + "Some Other Artist"))), ',', cls) == "Song Name-Artist" + ReplacePattern(" " + ("," + (" " + "Some Other Artist")), ',', cls)
  {
    assert ',' !in "Song Name-Artist" && !RegexSpace("Song Name-Artist"[15]);
    Plain("Song Name-Artist", " " + ("," + (" " + "Some Other Artist")), ',', cls);
  }

  lemma CaseSeveralArtistsCommaLink1(cls: SpaceClass)
    requires cls == Regex
    ensures ReplacePattern(" " + ("," + (" " + ("Some Other Artist"))), ',', cls) == "," + ReplacePattern("Some Other Artist", ',', cls)
  {
    assert AllInClass(" ", Regex) && AllInClass(" ", Regex);
    assert !RegexSpace(("Some Other Artist")[0]);
    Squeeze(" ", " ", "Some Other Artist", ',', cls);
  }

  lemma CaseSeveralArtistsCommaLink2(cls: SpaceClass)
    requires cls == Regex
    ensures ReplacePattern("Some Other Artist", ',', cls) == "Some Other Artist"
  {
    assert ',' !in "Some Other Artist";
    ReplacePatternFree("Some Other Artist", ',', cls);
  }

  lemma CaseSeveralArtistsCommaInputCut0()
    ensures "Song Name-Artist , Some Other Artist" == "Song Name-Artist" + " , Some Other Artist"
  {
  }

  lemma CaseSeveralArtistsCommaInputCut1()
    ensures " , Some Other Artist" == " " + ", Some Other Artist"
  {
  }

  lemma CaseSeveralArtistsCommaInputCut2()
    ensures ", Some Other Artist" == "," + " Some Other Artist"
  {
  }

  lemma CaseSeveralArtistsCommaInputCut3()
    ensures " Some Other Artist" == " " + "Some Other Artist"
  {
  }

  lemma CaseSeveralArtistsCommaInput(s: string)
    requires s == "Song Name-Artist , Some Other Artist"
    ensures s == "Song Name-Artist" + (" " + ("," + (" " + "Some Other Artist")))
  {
    CaseSeveralArtistsCommaInputCut0(); CaseSeveralArtistsCommaInputCut1(); CaseSeveralArtistsCommaInputCut2(); CaseSeveralArtistsCommaInputCut3();
  }

  lemma CaseSeveralArtistsCommaOutputCut0()
    ensures "Song Name-Artist,Some Other Artist" == "Song Name-Artist" + ",Some Other Artist"
  {
  }

  lemma CaseSeveralArtistsCommaOutputCut1()
    ensures ",Some Other Artist" == "," + "Some Other Artist"
  {
  }

  lemma CaseSeveralArtistsCommaOutput(s: string)
    requires s == "Song Name-Artist,Some Other Artist"
    ensures s == "Song Name-Artist" + ("," + "Some Other Artist")
  {
    CaseSeveralArtistsCommaOutputCut0(); CaseSeveralArtistsCommaOutputCut1();
  }

  lemma CaseSeveralArtistsComma(s: string, cls: SpaceClass)
    requires cls == Regex && s == "Song Name-Artist , Some Other Artist"
    ensures ReplacePattern(s, ',', cls) == "Song Name-Artist,Some Other Artist"
  {
    CaseSeveralArtistsCommaInput(s);
    CaseSeveralArtistsCommaOutput("Song Name-Artist,Some Other Artist");
    CaseSeveralArtistsCommaLink0(cls);
    CaseSeveralArtistsCommaLink1(cls);
    CaseSeveralArtistsCommaLink2(cls);
  }

  lemma CaseSeveralArtistsFieldsFacts()
    ensures Word("Song")
    ensures AllSpace(" ")
    ensures Word("Name-Artist,Some")
    ensures AllSpace(" ")
    ensures Word("Other")
    ensures AllSpace(" ")
    ensures Word("Artist")
  {
  }

  lemma CaseSeveralArtistsFieldsInputCut0()
    ensures "Song Name-Artist,Some Other Artist" == "Song" + " Name-Artist,Some Other Artist"
  {
  }

  lemma CaseSeveralArtistsFieldsInputCut1()
    ensures " Name-Artist,Some Other Artist" == " " + "Name-Artist,Some Other Artist"
  {
  }

  lemma CaseSeveralArtistsFieldsInputCut2()
    ensures "Name-Artist,Some Other Artist" == "Name-Artist,Some" + " Other Artist"
  {
  }

  lemma CaseSeveralArtistsFieldsInputCut3()
    ensures " Other Artist" == " " + "Other Artist"
  {
  }

  lemma CaseSeveralArtistsFieldsInputCut4()
    ensures "Other Artist" == "Other" + " Artist"
  {
  }

  lemma CaseSeveralArtistsFieldsInputCut5()
    ensures " Artist" == " " + "Artist"
  {
  }

  lemma CaseSeveralArtistsFieldsInputCut6()
    ensures "Artist" == "Artist" + ""
  {
  }

  lemma CaseSeveralArtistsFieldsInput(s: string)
    requires s == "Song Name-Artist,Some Other Artist"
    ensures s == "Song" + (" " + ("Name-Artist,Some" + (" " + ("Other" + (" " + ("Artist" + ""))))))
  {
    CaseSeveralArtistsFieldsInputCut0(); CaseSeveralArtistsFieldsInputCut1(); CaseSeveralArtistsFieldsInputCut2(); CaseSeveralArtistsFieldsInputCut3(); CaseSeveralArtistsFieldsInputCut4(); CaseSeveralArtistsFieldsInputCut5(); CaseSeveralArtistsFieldsInputCut6();
  }

  lemma CaseSeveralArtistsFields(s: string)
    requires s == "Song Name-Artist,Some Other Artist"
    ensures Fields(s) == ["Song", "Name-Artist,Some", "Other", "Artist"]
  {
    CaseSeveralArtistsFieldsFacts();
    FieldsOfFour("Song", "Name-Artist,Some", "Other", "Artist");
    CaseSeveralArtistsFieldsInput(s);
  }

  lemma CaseSeveralArtistsJoinOutputCut0()
    ensures "Song Name-Artist,Some Other Artist" == "Song" + " Name-Artist,Some Other Artist"
  {
  }

  lemma CaseSeveralArtistsJoinOutputCut1()
    ensures " Name-Artist,Some Other Artist" == " " + "Name-Artist,Some Other Artist"
  {
  }

  lemma CaseSeveralArtistsJoinOutputCut2()
    ensures "Name-Artist,Some Other Artist" == "Name-Artist,Some" + " Other Artist"
  {
  }

  lemma CaseSeveralArtistsJoinOutputCut3()
    ensures " Other Artist" == " " + "Other Artist"
  {
  }

  lemma CaseSeveralArtistsJoinOutputCut4()
    ensures "Other Artist" == "Other" + " Artist"
  {
  }

  lemma CaseSeveralArtistsJoinOutputCut5()
    ensures " Artist" == " " + "Artist"
  {
  }

  lemma CaseSeveralArtistsJoinOutput(s: string)
    requires s == "Song Name-Artist,Some Other Artist"
    ensures s == "Song" + (" " + ("Name-Artist,Some" + (" " + ("Other" + (" " + "Artist")))))
  {
    CaseSeveralArtistsJoinOutputCut0(); CaseSeveralArtistsJoinOutputCut1(); CaseSeveralArtistsJoinOutputCut2(); CaseSeveralArtistsJoinOutputCut3(); CaseSeveralArtistsJoinOutputCut4(); CaseSeveralArtistsJoinOutputCut5();
  }

  lemma CaseSeveralArtistsJoin()
    ensures Join(["Song", "Name-Artist,Some", "Other", "Artist"], " ") == "Song Name-Artist,Some Other Artist"
  {
    var j3 := ["Artist"];
    var j2 := ["Other"] + j3;
    JoinStep("Other", j3);
    var j1 := ["Name-Artist,Some"] + j2;
    JoinStep("Name-Artist,Some", j2);
    var j0 := ["Song"] + j1;
    JoinStep("Song", j1);
    assert ["Song", "Name-Artist,Some", "Other", "Artist"] == j0;
    CaseSeveralArtistsJoinOutput("Song Name-Artist,Some Other Artist");
  }

  /** Line 16: a dash, a comma and several words. */
  lemma CaseSeveralArtists(s: string)
    requires s == "Song Name -  Artist , Some Other Artist"
    ensures NormalizeSongName(s) == "Song Name-Artist,Some Other Artist"
  {
    CaseSeveralArtistsSpace(s);
    CaseSeveralArtistsDash("Song Name -  Artist , Some Other Artist", Regex);
    CaseSeveralArtistsComma("Song Name-Artist , Some Other Artist", Regex);
    CaseSeveralArtistsFields("Song Name-Artist,Some Other Artist");
    CaseSeveralArtistsJoin();
    NormalizeVia(s, Regex, "Song Name -  Artist , Some Other Artist", "Song Name-Artist , Some Other Artist", "Song Name-Artist,Some Other Artist", ["Song", "Name-Artist,Some", "Other", "Artist"]);
  }

  lemma CaseCyrillicSpace(s: string)
    requires s == "За     тебя, Родина   -   мать"
    ensures ReplaceAll(s, [NoBreakSpace], " ") == s
  {
    assert NoBreakSpace !in "За     тебя, Родина   -   мать";
    NoBreakSpaceAbsent(s);
  }

  lemma CaseCyrillicDashLink0(cls: SpaceClass)
    requires cls == Regex
    ensures ReplacePattern("За     тебя, Родина" + ("   " + ("-" + ("   " + "мать"))), '-', cls) == "За     тебя, Родина" + ReplacePattern("   " + ("-" + ("   " + "мать")), '-', cls)
  {
    assert '-' !in "За     тебя, Родина" && !RegexSpace("За     тебя, Родина"[18]);
    Plain("За     тебя, Родина", "   " + ("-" + ("   " + "мать")), '-', cls);
  }

  lemma CaseCyrillicDashLink1(cls: SpaceClass)
    requires cls == Regex
    ensures ReplacePattern("   " + ("-" + ("   " + ("мать"))), '-', cls) == "-" + ReplacePattern("мать", '-', cls)
  {
    assert AllInClass("   ", Regex) && AllInClass("   ", Regex);
    assert !RegexSpace(("мать")[0]);
    Squeeze("   ", "   ", "мать", '-', cls);
  }

  lemma CaseCyrillicDashLink2(cls: SpaceClass)
    requires cls == Regex
    ensures ReplacePattern("мать", '-', cls) == "мать"
  {
    assert '-' !in "мать";
    ReplacePatternFree("мать", '-', cls);
  }

  lemma CaseCyrillicDashInputCut0()
    ensures "За     тебя, Родина   -   мать" == "За     тебя, Родина" + "   -   мать"
  {
  }

  lemma CaseCyrillicDashInputCut1()
    ensures "   -   мать" == "   " + "-   мать"
  {
  }

  lemma CaseCyrillicDashInputCut2()
    ensures "-   мать" == "-" + "   мать"
  {
  }

  lemma CaseCyrillicDashInputCut3()
    ensures "   мать" == "   " + "мать"
  {
  }

  lemma CaseCyrillicDashInput(s: string)
    requires s == "За     тебя, Родина   -   мать"
    ensures s == "За     тебя, Родина" + ("   " + ("-" + ("   " + "мать")))
  {
    CaseCyrillicDashInputCut0(); CaseCyrillicDashInputCut1(); CaseCyrillicDashInputCut2(); CaseCyrillicDashInputCut3();
  }

  lemma CaseCyrillicDashOutputCut0()
    ensures "За     тебя, Родина-мать" == "За     тебя, Родина" + "-мать"
  {
  }

  lemma CaseCyrillicDashOutputCut1()
    ensures "-мать" == "-" + "мать"
  {
  }

  lemma CaseCyrillicDashOutput(s: string)
    requires s == "За     тебя, Родина-мать"
    ensures s == "За     тебя, Родина" + ("-" + "мать")
  {
    CaseCyrillicDashOutputCut0(); CaseCyrillicDashOutputCut1();
  }

  lemma CaseCyrillicDash(s: string, cls: SpaceClass)
    requires cls == Regex && s == "За     тебя, Родина   -   мать"
    ensures ReplacePattern(s, '-', cls) == "За     тебя, Родина-мать"
  {
    CaseCyrillicDashInput(s);
    CaseCyrillicDashOutput("За     тебя, Родина-мать");
    CaseCyrillicDashLink0(cls);
    CaseCyrillicDashLink1(cls);
    CaseCyrillicDashLink2(cls);
  }

  lemma CaseCyrillicCommaLink0(cls: SpaceClass)
    requires cls == Regex
    ensures ReplacePattern("За     тебя" + ("" + ("," + (" " + "Родина-мать"))), ',', cls) == "За     тебя" + ReplacePattern("" + ("," + (" " + "Родина-мать")), ',', cls)
  {
    assert ',' !in "За     тебя" && !RegexSpace("За     тебя"[10]);
    Plain("За     тебя", "" + ("," + (" " + "Родина-мать")), ',', cls);
  }

  lemma CaseCyrillicCommaLink1(cls: SpaceClass)
    requires cls == Regex
    ensures ReplacePattern("" + ("," + (" " + ("Родина-мать"))), ',', cls) == "," + ReplacePattern("Родина-мать", ',', cls)
  {
    assert AllInClass("", Regex) && AllInClass(" ", Regex);
    assert !RegexSpace(("Родина-мать")[0]);
    Squeeze("", " ", "Родина-мать", ',', cls);
  }

  lemma CaseCyrillicCommaLink2(cls: SpaceClass)
    requires cls == Regex
    ensures ReplacePattern("Родина-мать", ',', cls) == "Родина-мать"
  {
    assert ',' !in "Родина-мать";
    ReplacePatternFree("Родина-мать", ',', cls);
  }

  lemma CaseCyrillicCommaInputCut0()
    ensures "За     тебя, Родина-мать" == "За     тебя" + ", Родина-мать"
  {
  }

  lemma CaseCyrillicCommaInputCut1()
    ensures ", Родина-мать" == "" + ", Родина-мать"
  {
  }

  lemma CaseCyrillicCommaInputCut2()
    ensures ", Родина-мать" == "," + " Родина-мать"
  {
  }

  lemma CaseCyrillicCommaInputCut3()
    ensures " Родина-мать" == " " + "Родина-мать"
  {
  }

  lemma CaseCyrillicCommaInput(s: string)
    requires s == "За     тебя, Родина-мать"
    ensures s == "За     тебя" + ("" + ("," + (" " + "Родина-мать")))
  {
    CaseCyrillicCommaInputCut0(); CaseCyrillicCommaInputCut1(); CaseCyrillicCommaInputCut2(); CaseCyrillicCommaInputCut3();
  }

  lemma CaseCyrillicCommaOutputCut0()
    ensures "За     тебя,Родина-мать" == "За     тебя" + ",Родина-мать"
  {
  }

  lemma CaseCyrillicCommaOutputCut1()
    ensures ",Родина-мать" == "," + "Родина-мать"
  {
  }

  lemma CaseCyrillicCommaOutput(s: string)
    requires s == "За     тебя,Родина-мать"
    ensures s == "За     тебя" + ("," + "Родина-мать")
  {
    CaseCyrillicCommaOutputCut0(); CaseCyrillicCommaOutputCut1();
  }

  lemma CaseCyrillicComma(s: string, cls: SpaceClass)
    requires cls == Regex && s == "За     тебя, Родина-мать"
    ensures ReplacePattern(s, ',', cls) == "За     тебя,Родина-мать"
  {
    CaseCyrillicCommaInput(s);
    CaseCyrillicCommaOutput("За     тебя,Родина-мать");
    CaseCyrillicCommaLink0(cls);
    CaseCyrillicCommaLink1(cls);
    CaseCyrillicCommaLink2(cls);
  }

  lemma CaseCyrillicFieldsFacts()
    ensures Word("За")
    ensures AllSpace("     ")
    ensures Word("тебя,Родина-мать")
  {
  }

  lemma CaseCyrillicFieldsInputCut0()
    ensures "За     тебя,Родина-мать" == "За" + "     тебя,Родина-мать"
  {
  }

  lemma CaseCyrillicFieldsInputCut1()
    ensures "     тебя,Родина-мать" == "     " + "тебя,Родина-мать"
  {
  }

  lemma CaseCyrillicFieldsInputCut2()
    ensures "тебя,Родина-мать" == "тебя,Родина-мать" + ""
  {
  }

  lemma CaseCyrillicFieldsInput(s: string)
    requires s == "За     тебя,Родина-мать"
    ensures s == "За" + ("     " + ("тебя,Родина-мать" + ""))
  {
    CaseCyrillicFieldsInputCut0(); CaseCyrillicFieldsInputCut1(); CaseCyrillicFieldsInputCut2();
  }

  lemma CaseCyrillicFields(s: string)
    requires s == "За     тебя,Родина-мать"
    ensures Fields(s) == ["За", "тебя,Родина-мать"]
  {
    CaseCyrillicFieldsFacts();
    var f3 := "";
    var f2 := "тебя,Родина-мать" + f3;
    FieldsAfterWord("тебя,Родина-мать", f3);
    var f1 := "     " + f2;
    FieldsAfterSpaces("     ", f2);
    var f0 := "За" + f1;
    FieldsAfterWord("За", f1);
    CaseCyrillicFieldsInput(s);
  }

  lemma CaseCyrillicJoinOutputCut0()
    ensures "За тебя,Родина-мать" == "За" + " тебя,Родина-мать"
  {
  }

  lemma CaseCyrillicJoinOutputCut1()
    ensures " тебя,Родина-мать" == " " + "тебя,Родина-мать"
  {
  }

  lemma CaseCyrillicJoinOutput(s: string)
    requires s == "За тебя,Родина-мать"
    ensures s == "За" + (" " + "тебя,Родина-мать")
  {
    CaseCyrillicJoinOutputCut0(); CaseCyrillicJoinOutputCut1();
  }

  lemma CaseCyrillicJoin()
    ensures Join(["За", "тебя,Родина-мать"], " ") == "За тебя,Родина-мать"
  {
    var j1 := ["тебя,Родина-мать"];
    var j0 := ["За"] + j1;
    JoinStep("За", j1);
    assert ["За", "тебя,Родина-мать"] == j0;
    CaseCyrillicJoinOutput("За тебя,Родина-мать");
  }

  /** Line 17: Cyrillic words. */
  lemma CaseCyrillic(s: string)
    requires s == "За     тебя, Родина   -   мать"
    ensures NormalizeSongName(s) == "За тебя,Родина-мать"
  {
    CaseCyrillicSpace(s);
    CaseCyrillicDash("За     тебя, Родина   -   мать", Regex);
    CaseCyrillicComma("За     тебя, Родина-мать", Regex);
    CaseCyrillicFields("За     тебя,Родина-мать");
    CaseCyrillicJoin();
    NormalizeVia(s, Regex, "За     тебя, Родина   -   мать", "За     тебя, Родина-мать", "За     тебя,Родина-мать", ["За", "тебя,Родина-мать"]);
  }

  lemma CaseDoubleSpaceSpace(s: string)
    requires s == "Test    Song"
    ensures ReplaceAll(s, [NoBreakSpace], " ") == s
  {
    assert NoBreakSpace !in "Test    Song";
    NoBreakSpaceAbsent(s);
  }

  lemma CaseDoubleSpaceDash(s: string, cls: SpaceClass)
    requires cls == Regex && s == "Test    Song"
    ensures ReplacePattern(s, '-', cls) == "Test    Song"
  {
    ReplacePatternFree(s, '-', cls);
  }

  lemma CaseDoubleSpaceComma(s: string, cls: SpaceClass)
    requires cls == Regex && s == "Test    Song"
    ensures ReplacePattern(s, ',', cls) == "Test    Song"
  {
    ReplacePatternFree(s, ',', cls);
  }

  lemma CaseDoubleSpaceFieldsFacts()
    ensures Word("Test")
    ensures AllSpace("    ")
    ensures Word("Song")
  {
  }

  lemma CaseDoubleSpaceFieldsInputCut0()
    ensures "Test    Song" == "Test" + "    Song"
  {
  }

  lemma CaseDoubleSpaceFieldsInputCut1()
    ensures "    Song" == "    " + "Song"
  {
  }

  lemma CaseDoubleSpaceFieldsInputCut2()
    ensures "Song" == "Song" + ""
  {
  }

  lemma CaseDoubleSpaceFieldsInput(s: string)
    requires s == "Test    Song"
    ensures s == "Test" + ("    " + ("Song" + ""))
  {
    CaseDoubleSpaceFieldsInputCut0(); CaseDoubleSpaceFieldsInputCut1(); CaseDoubleSpaceFieldsInputCut2();
  }

  lemma CaseDoubleSpaceFields(s: string)
    requires s == "Test    Song"
    ensures Fields(s) == ["Test", "Song"]
  {
    CaseDoubleSpaceFieldsFacts();
    var f3 := "";
    var f2 := "Song" + f3;
    FieldsAfterWord("Song", f3);
    var f1 := "    " + f2;
    FieldsAfterSpaces("    ", f2);
    var f0 := "Test" + f1;
    FieldsAfterWord("Test", f1);
    CaseDoubleSpaceFieldsInput(s);
  }

  lemma CaseDoubleSpaceJoinOutputCut0()
    ensures "Test Song" == "Test" + " Song"
  {
  }

  lemma CaseDoubleSpaceJoinOutputCut1()
    ensures " Song" == " " + "Song"
  {
  }

  lemma CaseDoubleSpaceJoinOutput(s: string)
    requires s == "Test Song"
    ensures s == "Test" + (" " + "Song")
  {
    CaseDoubleSpaceJoinOutputCut0(); CaseDoubleSpaceJoinOutputCut1();
  }

  lemma CaseDoubleSpaceJoin()
    ensures Join(["Test", "Song"], " ") == "Test Song"
  {
    var j1 := ["Song"];
    var j0 := ["Test"] + j1;
    JoinStep("Test", j1);
    assert ["Test", "Song"] == j0;
    CaseDoubleSpaceJoinOutput("Test Song");
  }

  /** utils_test/utilString_test.go line 19: a run of spaces between two words. */
  lemma CaseDoubleSpace(s: string)
    requires s == "Test    Song"
    ensures NormalizeSongName(s) == "Test Song"
  {
    CaseDoubleSpaceSpace(s);
    CaseDoubleSpaceDash("Test    Song", Regex);
    CaseDoubleSpaceComma("Test    Song", Regex);
    CaseDoubleSpaceFields("Test    Song");
    CaseDoubleSpaceJoin();
    NormalizeVia(s, Regex, "Test    Song", "Test    Song", "Test    Song", ["Test", "Song"]);
  }

  lemma CaseEmSpaceSpace(s: string)
    requires s == "a\U{2003}-b"
    ensures ReplaceAll(s, [NoBreakSpace], " ") == s
  {
    assert NoBreakSpace !in "a\U{2003}-b";
    NoBreakSpaceAbsent(s);
  }

  lemma CaseEmSpaceDashLink0(cls: SpaceClass)
    requires cls == Regex
    ensures ReplacePattern("a\U{2003}" + ("" + ("-" + ("" + "b"))), '-', cls) == "a\U{2003}" + ReplacePattern("" + ("-" + ("" + "b")), '-', cls)
  {
    assert '-' !in "a\U{2003}" && !RegexSpace("a\U{2003}"[1]);
    Plain("a\U{2003}", "" + ("-" + ("" + "b")), '-', cls);
  }

  lemma CaseEmSpaceDashLink1(cls: SpaceClass)
    requires cls == Regex
    ensures ReplacePattern("" + ("-" + ("" + ("b"))), '-', cls) == "-" + ReplacePattern("b", '-', cls)
  {
    assert AllInClass("", Regex) && AllInClass("", Regex);
    assert !RegexSpace(("b")[0]);
    Squeeze("", "", "b", '-', cls);
  }

  lemma CaseEmSpaceDashLink2(cls: SpaceClass)
    requires cls == Regex
    ensures ReplacePattern("b", '-', cls) == "b"
  {
    assert '-' !in "b";
    ReplacePatternFree("b", '-', cls);
  }

  lemma CaseEmSpaceDashInputCut0()
    ensures "a\U{2003}-b" == "a\U{2003}" + "-b"
  {
  }

  lemma CaseEmSpaceDashInputCut1()
    ensures "-b" == "" + "-b"
  {
  }

  lemma CaseEmSpaceDashInputCut2()
    ensures "-b" == "-" + "b"
  {
  }

  lemma CaseEmSpaceDashInputCut3()
    ensures "b" == "" + "b"
  {
  }

  lemma CaseEmSpaceDashInput(s: string)
    requires s == "a\U{2003}-b"
    ensures s == "a\U{2003}" + ("" + ("-" + ("" + "b")))
  {
    CaseEmSpaceDashInputCut0(); CaseEmSpaceDashInputCut1(); CaseEmSpaceDashInputCut2(); CaseEmSpaceDashInputCut3();
  }

  lemma CaseEmSpaceDashOutputCut0()
    ensures "a\U{2003}-b" == "a\U{2003}" + "-b"
  {
  }

  lemma CaseEmSpaceDashOutputCut1()
    ensures "-b" == "-" + "b"
  {
  }

  lemma CaseEmSpaceDashOutput(s: string)
    requires s == "a\U{2003}-b"
    ensures s == "a\U{2003}" + ("-" + "b")
  {
    CaseEmSpaceDashOutputCut0(); CaseEmSpaceDashOutputCut1();
  }

  lemma CaseEmSpaceDash(s: string, cls: SpaceClass)
    requires cls == Regex && s == "a\U{2003}-b"
    ensures ReplacePattern(s, '-', cls) == "a\U{2003}-b"
  {
    CaseEmSpaceDashInput(s);
    CaseEmSpaceDashOutput("a\U{2003}-b");
    CaseEmSpaceDashLink0(cls);
    CaseEmSpaceDashLink1(cls);
    CaseEmSpaceDashLink2(cls);
  }

  lemma CaseEmSpaceComma(s: string, cls: SpaceClass)
    requires cls == Regex && s == "a\U{2003}-b"
    ensures ReplacePattern(s, ',', cls) == "a\U{2003}-b"
  {
    ReplacePatternFree(s, ',', cls);
  }

  lemma CaseEmSpaceFieldsFacts()
    ensures Word("a")
    ensures AllSpace("\U{2003}")
    ensures Word("-b")
  {
  }

  lemma CaseEmSpaceFieldsInputCut0()
    ensures "a\U{2003}-b" == "a" + "\U{2003}-b"
  {
  }

  lemma CaseEmSpaceFieldsInputCut1()
    ensures "\U{2003}-b" == "\U{2003}" + "-b"
  {
  }

  lemma CaseEmSpaceFieldsInputCut2()
    ensures "-b" == "-b" + ""
  {
  }

  lemma CaseEmSpaceFieldsInput(s: string)
    requires s == "a\U{2003}-b"
    ensures s == "a" + ("\U{2003}" + ("-b" + ""))
  {
    CaseEmSpaceFieldsInputCut0(); CaseEmSpaceFieldsInputCut1(); CaseEmSpaceFieldsInputCut2();
  }

  lemma CaseEmSpaceFields(s: string)
    requires s == "a\U{2003}-b"
    ensures Fields(s) == ["a", "-b"]
  {
    CaseEmSpaceFieldsFacts();
    var f3 := "";
    var f2 := "-b" + f3;
    FieldsAfterWord("-b", f3);
    var f1 := "\U{2003}" + f2;
    FieldsAfterSpaces("\U{2003}", f2);
    var f0 := "a" + f1;
    FieldsAfterWord("a", f1);
    CaseEmSpaceFieldsInput(s);
  }

  lemma CaseEmSpaceJoinOutputCut0()
    ensures "a -b" == "a" + " -b"
  {
  }

  lemma CaseEmSpaceJoinOutputCut1()
    ensures " -b" == " " + "-b"
  {
  }

  lemma CaseEmSpaceJoinOutput(s: string)
    requires s == "a -b"
    ensures s == "a" + (" " + "-b")
  {
    CaseEmSpaceJoinOutputCut0(); CaseEmSpaceJoinOutputCut1();
  }

  lemma CaseEmSpaceJoin()
    ensures Join(["a", "-b"], " ") == "a -b"
  {
    var j1 := ["-b"];
    var j0 := ["a"] + j1;
    JoinStep("a", j1);
    assert ["a", "-b"] == j0;
    CaseEmSpaceJoinOutput("a -b");
  }

  /** An em space before a dash is not matched by the dash rule and becomes a plain space before the dash. */
  lemma CaseEmSpace(s: string)
    requires s == "a\U{2003}-b"
    ensures NormalizeSongName(s) == "a -b"
  {
    CaseEmSpaceSpace(s);
    CaseEmSpaceDash("a\U{2003}-b", Regex);
    CaseEmSpaceComma("a\U{2003}-b", Regex);
    CaseEmSpaceFields("a\U{2003}-b");
    CaseEmSpaceJoin();
    NormalizeVia(s, Regex, "a\U{2003}-b", "a\U{2003}-b", "a\U{2003}-b", ["a", "-b"]);
  }

  lemma CaseEmSpaceAgainSpace(s: string)
    requires s == "a -b"
    ensures ReplaceAll(s, [NoBreakSpace], " ") == s
  {
    assert NoBreakSpace !in "a -b";
    NoBreakSpaceAbsent(s);
  }

  lemma CaseEmSpaceAgainDashLink0(cls: SpaceClass)
    requires cls == Regex
    ensures ReplacePattern("a" + (" " + ("-" + ("" + "b"))), '-', cls) == "a" + ReplacePattern(" " + ("-" + ("" + "b")), '-', cls)
  {
    assert '-' !in "a" && !RegexSpace("a"[0]);
    Plain("a", " " + ("-" + ("" + "b")), '-', cls);
  }

  lemma CaseEmSpaceAgainDashLink1(cls: SpaceClass)
    requires cls == Regex
    ensures ReplacePattern(" " + ("-" + ("" + ("b"))), '-', cls) == "-" + ReplacePattern("b", '-', cls)
  {
    assert AllInClass(" ", Regex) && AllInClass("", Regex);
    assert !RegexSpace(("b")[0]);
    Squeeze(" ", "", "b", '-', cls);
  }

  lemma CaseEmSpaceAgainDashLink2(cls: SpaceClass)
    requires cls == Regex
    ensures ReplacePattern("b", '-', cls) == "b"
  {
    assert '-' !in "b";
    ReplacePatternFree("b", '-', cls);
  }

  lemma CaseEmSpaceAgainDashInputCut0()
    ensures "a -b" == "a" + " -b"
  {
  }

  lemma CaseEmSpaceAgainDashInputCut1()
    ensures " -b" == " " + "-b"
  {
  }

  lemma CaseEmSpaceAgainDashInputCut2()
    ensures "-b" == "-" + "b"
  {
  }

  lemma CaseEmSpaceAgainDashInputCut3()
    ensures "b" == "" + "b"
  {
  }

  lemma CaseEmSpaceAgainDashInput(s: string)
    requires s == "a -b"
    ensures s == "a" + (" " + ("-" + ("" + "b")))
  {
    CaseEmSpaceAgainDashInputCut0(); CaseEmSpaceAgainDashInputCut1(); CaseEmSpaceAgainDashInputCut2(); CaseEmSpaceAgainDashInputCut3();
  }

  lemma CaseEmSpaceAgainDashOutputCut0()
    ensures "a-b" == "a" + "-b"
  {
  }

  lemma CaseEmSpaceAgainDashOutputCut1()
    ensures "-b" == "-" + "b"
  {
  }

  lemma CaseEmSpaceAgainDashOutput(s: string)
    requires s == "a-b"
    ensures s == "a" + ("-" + "b")
  {
    CaseEmSpaceAgainDashOutputCut0(); CaseEmSpaceAgainDashOutputCut1();
  }

  lemma CaseEmSpaceAgainDash(s: string, cls: SpaceClass)
    requires cls == Regex && s == "a -b"
    ensures ReplacePattern(s, '-', cls) == "a-b"
  {
    CaseEmSpaceAgainDashInput(s);
    CaseEmSpaceAgainDashOutput("a-b");
    CaseEmSpaceAgainDashLink0(cls);
    CaseEmSpaceAgainDashLink1(cls);
    CaseEmSpaceAgainDashLink2(cls);
  }

  lemma CaseEmSpaceAgainComma(s: string, cls: SpaceClass)
    requires cls == Regex && s == "a-b"
    ensures ReplacePattern(s, ',', cls) == "a-b"
  {
    ReplacePatternFree(s, ',', cls);
  }

  lemma CaseEmSpaceAgainFieldsFacts()
    ensures Word("a-b")
  {
  }

  lemma CaseEmSpaceAgainFieldsInputCut0()
    ensures "a-b" == "a-b" + ""
  {
  }

  lemma CaseEmSpaceAgainFieldsInput(s: string)
    requires s == "a-b"
    ensures s == "a-b" + ""
  {
    CaseEmSpaceAgainFieldsInputCut0();
  }

  lemma CaseEmSpaceAgainFields(s: string)
    requires s == "a-b"
    ensures Fields(s) == ["a-b"]
  {
    CaseEmSpaceAgainFieldsFacts();
    var f1 := "";
    var f0 := "a-b" + f1;
    FieldsAfterWord("a-b", f1);
    CaseEmSpaceAgainFieldsInput(s);
  }

  lemma CaseEmSpaceAgainJoin()
    ensures Join(["a-b"], " ") == "a-b"
  {
  }

  /** A second call then removes that space. */
  lemma CaseEmSpaceAgain(s: string)
    requires s == "a -b"
    ensures NormalizeSongName(s) == "a-b"
  {
    CaseEmSpaceAgainSpace(s);
    CaseEmSpaceAgainDash("a -b", Regex);
    CaseEmSpaceAgainComma("a-b", Regex);
    CaseEmSpaceAgainFields("a-b");
    CaseEmSpaceAgainJoin();
    NormalizeVia(s, Regex, "a -b", "a-b", "a-b", ["a-b"]);
  }

  /**
   * NormalizeSongName is not idempotent: an em space before a dash survives
   * the dash rule, becomes a plain space in the fields step, and only the
   * second call squeezes it.
   */
  lemma NormalizeSongNameNotIdempotent(s: string)
    requires s == "a\U{2003}-b"
    ensures NormalizeSongName(NormalizeSongName(s)) != NormalizeSongName(s)
  {
    CaseEmSpace(s);
    CaseEmSpaceAgain("a -b");
    assert |"a -b"| != |"a-b"|;
  }
}
