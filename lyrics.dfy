/**
 * The lyrics read path of GetSongLyricsHandler (internal/handlers/handlers.go):
 * the stored text is cut into paragraphs at every escaped blank line, each
 * paragraph is trimmed and split into lines, the lines of all paragraphs
 * form the verse list, and one 1-based page of that list is returned.
 */
module Lyrics {
  import opened Wrappers
  import opened GoStrings
  import opened Models

  /** The four characters backslash, n, backslash, n: a blank line escaped as text. */
  const EscapedBreak: string := "\\n\\n"

  /** The marker the escaped breaks are turned into before the split. */
  const ParagraphBreak: string := "[PARAGRAPH_BREAK]"

  /** The stored text with every escaped break replaced by the marker. */
  function Marked(text: string): string
  {
    ReplaceAll(text, EscapedBreak, ParagraphBreak)
  }

  /** The pieces of the marked text between markers. */
  function Paragraphs(text: string): (ps: seq<string>)
    ensures |ps| >= 1
  {
    Split(Marked(text), ParagraphBreak)
  }

  /** The lines of one paragraph: trimmed as a whole, then split at each '\n'. */
  function LinesOf(p: string): (ls: seq<string>)
    ensures |ls| >= 1
  {
    Split(TrimSpace(p), "\n")
  }

  /** The lines of all paragraphs, in order. */
  function Flatten(ps: seq<string>): seq<string>
  {
    if ps == [] then [] else Flatten(ps[..|ps| - 1]) + LinesOf(ps[|ps| - 1])
  }

  /** The verse list of a stored text. */
  function Verses(text: string): seq<string>
  {
    Flatten(Paragraphs(text))
  }

  /** The segmentation loop builds exactly the verse list. */
  method SegmentVerses(text: string) returns (verses: seq<string>)
    ensures verses == Verses(text)
  {
    var songText := ReplaceAll(text, EscapedBreak, ParagraphBreak);
    var paragraphs := Split(songText, ParagraphBreak);
    verses := [];
    var i := 0;
    while i < |paragraphs|
      invariant 0 <= i <= |paragraphs|
      invariant verses == Flatten(paragraphs[..i])
    {
      var lines := Split(TrimSpace(paragraphs[i]), "\n");
      assert paragraphs[..i + 1][..i] == paragraphs[..i];
      verses := verses + lines;
      i := i + 1;
    }
    assert paragraphs[..i] == paragraphs;
  }

  /** Every paragraph gives at least one line, so a non-empty list of paragraphs gives a verse. */
  lemma {:induction false} FlattenNonEmpty(ps: seq<string>)
    ensures |Flatten(ps)| >= |ps|
  {
    if ps != [] {
      FlattenNonEmpty(ps[..|ps| - 1]);
    }
  }

  /** The verse list is never empty: there is always at least one paragraph, and it gives a line. */
  lemma VersesNonEmpty(text: string)
    ensures |Verses(text)| >= 1
  {
    FlattenNonEmpty(Paragraphs(text));
  }

  /** No line of any paragraph holds a newline. */
  lemma {:induction false} FlattenNoNewline(ps: seq<string>)
    ensures forall k :: 0 <= k < |Flatten(ps)| ==> '\n' !in Flatten(ps)[k]
  {
    if ps != [] {
      var init := ps[..|ps| - 1];
      FlattenNoNewline(init);
      LinesNoNewline(ps[|ps| - 1]);
      NoNewlineAppend(Flatten(init), LinesOf(ps[|ps| - 1]));
    }
  }

  /** No line of one paragraph holds a newline. */
  lemma LinesNoNewline(p: string)
    ensures forall k :: 0 <= k < |LinesOf(p)| ==> '\n' !in LinesOf(p)[k]
  {
    var ls := LinesOf(p);
    forall k | 0 <= k < |ls| ensures '\n' !in ls[k] {
      FreeOfChar(ls[k], '\n');
    }
  }

  /** Two lists of newline-free lines, one after the other, hold no newline. */
  lemma NoNewlineAppend(a: seq<string>, b: seq<string>)
    requires forall k :: 0 <= k < |a| ==> '\n' !in a[k]
    requires forall k :: 0 <= k < |b| ==> '\n' !in b[k]
    ensures forall k :: 0 <= k < |a + b| ==> '\n' !in (a + b)[k]
  {
    forall k | 0 <= k < |a + b| ensures '\n' !in (a + b)[k] {
      if k >= |a| { assert (a + b)[k] == b[k - |a|]; }
    }
  }

  /** No verse holds a newline. */
  lemma VersesNoNewline(text: string)
    ensures forall k :: 0 <= k < |Verses(text)| ==> '\n' !in Verses(text)[k]
  {
    FlattenNoNewline(Paragraphs(text));
  }

  /** The verses of a single paragraph are its lines. */
  lemma FlattenOne(p: string)
    ensures Flatten([p]) == LinesOf(p)
  {
    assert [p][..0] == [];
  }

  /** A string that lacks the first character of a separator splits into itself. */
  lemma SplitFree(s: string, sep: string)
    requires |sep| > 0 && sep[0] !in s
    ensures Split(s, sep) == [s]
  {
    FreeOfFirst(s, sep);
  }

  /** An empty stored text gives exactly one empty verse. */
  lemma VersesOfEmpty()
    ensures Verses("") == [""]
  {
    assert Marked("") == "";
    SplitFree("", ParagraphBreak);
    FlattenOne("");
    SplitFree(TrimSpace(""), "\n");
  }

  /**
   * A text with no newline, no escaped break and no marker is one verse: the
   * text without its surrounding spaces.
   */
  lemma VersesOfPlainText(text: string)
    requires '\n' !in text && Free(text, EscapedBreak) && Free(text, ParagraphBreak)
    ensures Verses(text) == [TrimSpace(text)]
  {
    assert Marked(text) == text;
    assert Split(text, ParagraphBreak) == [text];
    FlattenOne(text);
    var t := TrimSpace(text);
    assert '\n' !in t;
    SplitFree(t, "\n");
  }

  /**
   * The marker only stands in for the escaped break: when the text holds no
   * '[', the paragraphs are the pieces of the text between escaped breaks.
   */
  lemma ParagraphsAreEscapedPieces(text: string)
    requires '[' !in text
    ensures Paragraphs(text) == Split(text, EscapedBreak)
  {
    var parts := Split(text, EscapedBreak);
    ReplaceAllIsJoinSplit(text, EscapedBreak, ParagraphBreak);
    forall k | 0 <= k < |parts| ensures ParagraphBreak[0] !in parts[k] {
      JoinPartsIn(parts, EscapedBreak, k);
    }
    SplitJoin(parts, ParagraphBreak);
  }

  /** Every character of a part of a join is a character of the joined string. */
  lemma {:induction false} JoinPartsIn(parts: seq<string>, sep: string, k: nat)
    requires k < |parts|
    ensures forall c :: c in parts[k] ==> c in Join(parts, sep)
  {
    if |parts| > 1 {
      assert Join(parts, sep) == parts[0] + sep + Join(parts[1..], sep);
      if k > 0 {
        JoinPartsIn(parts[1..], sep, k - 1);
      }
    }
  }

  /**
   * A real blank line inside a paragraph is not a paragraph break: two
   * newlines in a row give an empty line between them.
   */
  lemma {:induction false} SplitBlankLine(s: string, i: nat)
    requires i + 1 < |s| && s[i] == '\n' && s[i + 1] == '\n'
    ensures "" in Split(s, "\n")
    decreases |s|
  {
    FreeOfChar(s, '\n');
    IndexOfChar(s, '\n');
    assert s[i] in s;
    var j := Index(s, "\n").value;
    var rest := s[j + 1..];
    assert j <= i;
    SplitUnfold(s, "\n");
    assert Split(s, "\n") == [s[..j]] + Split(rest, "\n");
    if j == i {
      LeadingNewline(rest);
    } else {
      assert rest[i - j - 1] == s[i] && rest[i - j] == s[i + 1];
      SplitBlankLine(rest, i - j - 1);
    }
    assert "" in Split(rest, "\n");
  }

  /** A string that starts with a newline splits into an empty first line. */
  lemma LeadingNewline(s: string)
    requires |s| > 0 && s[0] == '\n'
    ensures "" in Split(s, "\n")
  {
    assert "\n" <= s;
    assert Index(s, "\n") == Some(0);
    SplitUnfold(s, "\n");
    assert Split(s, "\n")[0] == s[..0];
  }

  /** A paragraph whose trimmed text holds two newlines in a row gives an empty verse. */
  lemma BlankLineGivesEmptyVerse(text: string, k: nat, i: nat)
    requires k < |Paragraphs(text)|
    requires var t := TrimSpace(Paragraphs(text)[k]); i + 1 < |t| && t[i] == '\n' && t[i + 1] == '\n'
    ensures "" in Verses(text)
  {
    var ps := Paragraphs(text);
    SplitBlankLine(TrimSpace(ps[k]), i);
    FlattenHasLines(ps, k);
  }

  /** Every line of every paragraph is a verse. */
  lemma {:induction false} FlattenHasLines(ps: seq<string>, k: nat)
    requires k < |ps|
    ensures forall l :: l in LinesOf(ps[k]) ==> l in Flatten(ps)
  {
    var init := ps[..|ps| - 1];
    assert Flatten(ps) == Flatten(init) + LinesOf(ps[|ps| - 1]);
    if k < |ps| - 1 {
      FlattenHasLines(init, k);
    }
  }

  /** The verses of a page: out of range, or the half-open index range [start, end). */
  datatype Window = OutOfRange | Slice(start: nat, end: nat)

  /**
   * The window of page `page` of `limit` verses over `total` verses: out of
   * range when the page starts at or past the end, else cut short at the end.
   */
  function VerseWindow(total: nat, page: int, limit: int): (w: Window)
    requires page >= 1 && limit >= 1
    ensures w.OutOfRange? <==> (page - 1) * limit >= total
    ensures w.Slice? ==> w.start == (page - 1) * limit
    ensures w.Slice? ==> w.start < w.end <= total && w.end - w.start <= limit
    ensures w.Slice? ==> w.end == total || w.end - w.start == limit
  {
    var start := (page - 1) * limit;
    if start >= total then OutOfRange
    else Slice(start, if start + limit > total then total else start + limit)
  }

  /** Consecutive pages meet: a page that stops short of the end is followed by one that starts where it ends. */
  lemma WindowsMeet(total: nat, page: int, limit: int)
    requires page >= 1 && limit >= 1
    requires VerseWindow(total, page, limit).Slice? && VerseWindow(total, page, limit).end < total
    ensures VerseWindow(total, page + 1, limit).Slice?
    ensures VerseWindow(total, page + 1, limit).start == VerseWindow(total, page, limit).end
  {
    assert page * limit == (page - 1) * limit + limit;
  }

  /** Each verse lies on exactly one page: the page (k / limit) + 1. */
  lemma WindowCovers(total: nat, limit: int, k: nat, page: int)
    requires limit >= 1 && k < total && page >= 1
    ensures var w := VerseWindow(total, page, limit);
      (w.Slice? && w.start <= k < w.end) <==> page == k / limit + 1
  {
    var q := k / limit;
    var w := VerseWindow(total, page, limit);
    var start := (page - 1) * limit;
    PageOf(k, limit);
    if page <= q {
      PageBefore(page, q, limit);
      assert start + limit <= k;
    } else if page == q + 1 {
      assert start == q * limit;
      assert w.Slice? && w.start <= k < w.end;
    } else {
      PageBefore(q + 1, page - 1, limit);
      assert k < start;
    }
  }

  /** Verse `k` lies in the stretch of page size `limit` that starts at (k / limit) * limit. */
  lemma PageOf(k: nat, limit: int)
    requires limit >= 1
    ensures k / limit * limit <= k < k / limit * limit + limit
  {
    assert k == k / limit * limit + k % limit;
  }

  /** A later page starts at least one page size later. */
  lemma PageBefore(a: int, b: int, limit: int)
    requires 1 <= a <= b && limit >= 1
    ensures (a - 1) * limit + limit <= b * limit
  {
    assert (b - a) * limit >= 0;
    assert b * limit == (a - 1) * limit + limit + (b - a) * limit;
  }

  /** The outcome of a lyrics page request for a stored song. */
  datatype LyricsResult = PageOutOfRange | Lyrics(response: PaginatedLyrics)

  /**
   * The response for page `page` of `limit` verses: 400 when the page is out
   * of range, else the verses of the window with the total count.
   */
  function LyricsPage(songName: string, verses: seq<string>, page: int, limit: int): (r: LyricsResult)
    requires page >= 1 && limit >= 1
    ensures r.PageOutOfRange? <==> (page - 1) * limit >= |verses|
    ensures r.Lyrics? ==>
      var w := VerseWindow(|verses|, page, limit);
      && r.response.verses == verses[w.start..w.end]
      && r.response.totalVerses == |verses|
      && r.response == PaginatedLyrics(songName, page, limit, |verses|, r.response.verses)
    ensures r.Lyrics? ==> 1 <= |r.response.verses| <= limit
  {
    match VerseWindow(|verses|, page, limit)
    case OutOfRange => PageOutOfRange
    case Slice(start, end) => Lyrics(PaginatedLyrics(songName, page, limit, |verses|, verses[start..end]))
  }

  /** The first page with the default page size always exists. */
  lemma FirstPageExists(songName: string, text: string)
    ensures LyricsPage(songName, Verses(text), 1, 3).Lyrics?
  {
    VersesNonEmpty(text);
  }

  /** Pages of three over five verses: the second page holds verses 3 and 4, the third is out of range. */
  lemma WindowExamples()
    ensures VerseWindow(5, 2, 3) == Slice(3, 5)
    ensures VerseWindow(5, 3, 3) == OutOfRange
    ensures VerseWindow(0, 1, 3) == OutOfRange
  {
  }

  /** Splitting at '\n' a line, a '\n' and a rest gives the line and the pieces of the rest. */
  lemma LinesStep(p: string, rest: string, s: string, tail: seq<string>)
    requires '\n' !in p && s == p + ("\n" + rest) && Split(rest, "\n") == tail
    ensures Split(s, "\n") == [p] + tail
  {
    SplitStep(p, "\n", rest);
  }

  /** The lines of the example paragraph, one separator at a time. */
  lemma BlankLineExampleLastLines(s: string)
    requires s == "\nline3"
    ensures Split(s, "\n") == ["", "line3"]
  {
    SplitFree("line3", "\n");
    LinesStep("", "line3", s, ["line3"]);
  }

  lemma BlankLineExampleTailLines(s: string)
    requires s == "line2\n\nline3"
    ensures Split(s, "\n") == ["line2", "", "line3"]
  {
    BlankLineExampleLastLines("\nline3");
    BlankLineExampleCut();
    LinesStep("line2", "\nline3", s, ["", "line3"]);
  }

  lemma BlankLineExampleCut()
    ensures "line1\nline2\n\nline3" == "line1" + ("\n" + "line2\n\nline3")
    ensures '\n' !in "line1"
    ensures "line2\n\nline3" == "line2" + ("\n" + "\nline3")
    ensures '\n' !in "line2"
    ensures ["line1"] + ["line2", "", "line3"] == ["line1", "line2", "", "line3"]
    ensures ["line2"] + ["", "line3"] == ["line2", "", "line3"]
  {
  }

  lemma BlankLineExampleLines(s: string)
    requires s == "line1\nline2\n\nline3"
    ensures Split(s, "\n") == ["line1", "line2", "", "line3"]
  {
    BlankLineExampleTailLines("line2\n\nline3");
    BlankLineExampleCut();
    LinesStep("line1", "line2\n\nline3", s, ["line2", "", "line3"]);
  }

  /** The example holds no backslash, so it is one paragraph, already trimmed. */
  lemma BlankLineExampleParagraph(text: string)
    requires text == "line1\nline2\n\nline3"
    ensures Paragraphs(text) == [text] && TrimSpace(text) == text
  {
    assert EscapedBreak[0] !in text && ParagraphBreak[0] !in text;
    ReplaceAllFree(text, EscapedBreak, ParagraphBreak);
    SplitFree(text, ParagraphBreak);
    assert !IsSpace(text[0]) && !IsSpace(text[|text| - 1]);
    TrimSpaceOfTrimmed(text);
  }

  /**
   * A raw text with a real blank line is one paragraph whose blank line
   * stays as an empty verse between the others.
   */
  lemma BlankLineExample(text: string)
    requires text == "line1\nline2\n\nline3"
    ensures Verses(text) == ["line1", "line2", "", "line3"]
  {
    BlankLineExampleParagraph(text);
    FlattenOne(text);
    BlankLineExampleLines(text);
  }

  /** The example with escaped breaks is two marked paragraphs. */
  lemma EscapedBreakExampleParagraphs(text: string)
    requires text == "a\\n\\nb"
    ensures Paragraphs(text) == ["a", "b"]
  {
    assert text == "a" + (EscapedBreak + "b");
    ReplaceAllStep("a", EscapedBreak, ParagraphBreak, "b");
    ReplaceAllFree("b", EscapedBreak, ParagraphBreak);
    SplitStep("a", ParagraphBreak, "b");
    SplitFree("b", ParagraphBreak);
  }

  /** The verses of two one-line paragraphs. */
  lemma FlattenTwo(a: string, b: string)
    ensures Flatten([a, b]) == LinesOf(a) + LinesOf(b)
  {
    assert [a, b][..1] == [a];
    FlattenOne(a);
  }

  /** An escaped blank line separates two paragraphs, and no empty verse is left between them. */
  lemma EscapedBreakExample(text: string)
    requires text == "a\\n\\nb"
    ensures Verses(text) == ["a", "b"]
  {
    EscapedBreakExampleParagraphs(text);
    FlattenTwo("a", "b");
    TrimSpaceOfTrimmed("a");
    TrimSpaceOfTrimmed("b");
    SplitFree("a", "\n");
    SplitFree("b", "\n");
  }
}
