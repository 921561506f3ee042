/**
 * The command-line formatter of cmd/main.go: the lines of a lyrics file are
 * gathered into one text, the text is cut into verses at every blank line
 * ("\n\n"), and the non-blank verses are written, each on one line and in
 * double quotes, separated by ", ". Opening, scanning and writing the files
 * are not modelled: the scanned lines are the input and the result string is
 * the output.
 */
module VerseFile {
  import opened GoStrings

  /** The verse separator of the split. */
  const BlankLine: string := "\n\n"

  /** The separator of the output items. */
  const ItemSeparator: string := ", "

  /** The text the builder holds after the scanning loop: each line followed by '\n'. */
  function Accumulated(lines: seq<string>): string
  {
    if lines == [] then "" else lines[0] + "\n" + Accumulated(lines[1..])
  }

  /** Adding a line at the end of the loop appends it and its '\n'. */
  lemma {:induction false} AccumulatedSnoc(lines: seq<string>, line: string)
    ensures Accumulated(lines + [line]) == Accumulated(lines) + line + "\n"
    decreases |lines|
  {
    if lines == [] {
      assert [line][1..] == [];
    } else {
      assert (lines + [line])[1..] == lines[1..] + [line];
      AccumulatedSnoc(lines[1..], line);
    }
  }

  /** The scanning loop: the builder receives every line followed by "\n". */
  method Accumulate(lines: seq<string>) returns (text: string)
    ensures text == Accumulated(lines)
  {
    text := "";
    var i := 0;
    while i < |lines|
      invariant 0 <= i <= |lines|
      invariant text == Accumulated(lines[..i])
    {
      AccumulatedSnoc(lines[..i], lines[i]);
      assert lines[..i + 1] == lines[..i] + [lines[i]];
      text := text + lines[i] + "\n";
      i := i + 1;
    }
    assert lines[..i] == lines;
  }

  /** Scanned lines hold no '\n', so splitting the text at '\n' gives the lines back, and one empty piece after the last '\n'. */
  lemma {:induction false} AccumulatedLines(lines: seq<string>)
    requires forall k :: 0 <= k < |lines| ==> '\n' !in lines[k]
    ensures Split(Accumulated(lines), "\n") == lines + [""]
    decreases |lines|
  {
    if lines == [] {
      SplitEmpty();
    } else {
      var tail := lines[1..];
      assert forall k :: 0 <= k < |tail| ==> tail[k] == lines[k + 1];
      AccumulatedLines(tail);
      LineThenRest(lines[0], Accumulated(tail), tail + [""]);
      ConsSnoc(lines, "");
    }
  }

  /** A non-empty sequence with one more element is its head before its tail with that element. */
  lemma ConsSnoc<T>(s: seq<T>, y: T)
    requires s != []
    ensures [s[0]] + (s[1..] + [y]) == s + [y]
  {
    assert s == [s[0]] + s[1..];
  }

  lemma SplitEmpty()
    ensures Split("", "\n") == [""]
  {
    assert Index("", "\n").None?;
  }

  /** A line without '\n', a '\n' and a rest split into the line and the pieces of the rest. */
  lemma LineThenRest(line: string, rest: string, pieces: seq<string>)
    requires '\n' !in line && Split(rest, "\n") == pieces
    ensures Split(line + "\n" + rest, "\n") == [line] + pieces
  {
    assert line + "\n" + rest == line + ("\n" + rest);
    SplitStep(line, "\n", rest);
  }

  /** The verses that are kept, trimmed: those that are not blank, in their order. */
  function Selected(verses: seq<string>): (ts: seq<string>)
    ensures |ts| <= |verses|
  {
    if verses == [] then []
    else
      var t := TrimSpace(verses[|verses| - 1]);
      Selected(verses[..|verses| - 1]) + (if t != "" then [t] else [])
  }

  /** One output item: the trimmed verse with each '\n' turned into ' ', between double quotes and without escaping. */
  function Quote(t: string): string
  {
    "\"" + ReplaceAll(t, "\n", " ") + "\""
  }

  /** Quote applied to each kept verse. */
  function Quoted(ts: seq<string>): (items: seq<string>)
    ensures |items| == |ts|
    ensures forall k :: 0 <= k < |ts| ==> items[k] == Quote(ts[k])
  {
    seq(|ts|, k requires 0 <= k < |ts| => Quote(ts[k]))
  }

  /** Quoting one more kept verse appends its item. */
  lemma QuotedSnoc(ts: seq<string>, t: string)
    ensures Quoted(ts + [t]) == Quoted(ts) + [Quote(t)]
  {
  }

  /** The output file's content for a text. */
  function Output(text: string): string
  {
    Join(Quoted(Selected(Split(text, BlankLine))), ItemSeparator)
  }

  /** The formatting loop and the join. */
  method FormatVerses(text: string) returns (result: string)
    ensures result == Output(text)
  {
    var verses := Split(text, BlankLine);
    var formatted: seq<string> := [];
    var i := 0;
    while i < |verses|
      invariant 0 <= i <= |verses|
      invariant formatted == Quoted(Selected(verses[..i]))
    {
      assert verses[..i + 1][..i] == verses[..i];
      var trimmed := TrimSpace(verses[i]);
      if trimmed != "" {
        var noLineBreaks := ReplaceAll(trimmed, "\n", " ");
        QuotedSnoc(Selected(verses[..i]), trimmed);
        formatted := formatted + ["\"" + noLineBreaks + "\""];
      }
      i := i + 1;
    }
    assert verses[..i] == verses;
    result := Join(formatted, ItemSeparator);
  }

  /** The whole transform from the scanned lines to the output. */
  method Transform(lines: seq<string>) returns (result: string)
    ensures result == Output(Accumulated(lines))
  {
    var text := Accumulate(lines);
    result := FormatVerses(text);
  }

  /** Every kept verse is a trimmed, non-empty verse of the input. */
  lemma {:induction false} SelectedTrimmed(verses: seq<string>)
    ensures forall k :: 0 <= k < |Selected(verses)| ==>
      Selected(verses)[k] != "" && TrimSpace(Selected(verses)[k]) == Selected(verses)[k] &&
      exists j :: 0 <= j < |verses| && Selected(verses)[k] == TrimSpace(verses[j])
    decreases |verses|
  {
    if verses != [] {
      var init := verses[..|verses| - 1];
      SelectedTrimmed(init);
      forall k | 0 <= k < |Selected(verses)|
        ensures Selected(verses)[k] != "" && TrimSpace(Selected(verses)[k]) == Selected(verses)[k]
        ensures exists j :: 0 <= j < |verses| && Selected(verses)[k] == TrimSpace(verses[j])
      {
        if k < |Selected(init)| {
          assert Selected(verses)[k] == Selected(init)[k];
          var j :| 0 <= j < |init| && Selected(init)[k] == TrimSpace(init[j]);
          assert verses[j] == init[j];
        } else {
          var t := TrimSpace(verses[|verses| - 1]);
          assert Selected(verses)[k] == t;
          TrimSpaceOfTrimmed(t);
        }
      }
    }
  }

  /** Nothing is kept exactly when every verse is blank. */
  lemma {:induction false} SelectedEmpty(verses: seq<string>)
    ensures Selected(verses) == [] <==> forall j :: 0 <= j < |verses| ==> AllSpace(verses[j])
    decreases |verses|
  {
    if verses != [] {
      var init := verses[..|verses| - 1];
      SelectedEmpty(init);
      assert forall j :: 0 <= j < |init| ==> init[j] == verses[j];
    }
  }

  /** The kept verses of two stretches of verses are those of the first, then those of the second. */
  lemma {:induction false} SelectedAppend(a: seq<string>, b: seq<string>)
    ensures Selected(a + b) == Selected(a) + Selected(b)
    decreases |b|
  {
    if b == [] {
      assert a + b == a;
    } else {
      var binit, last := b[..|b| - 1], b[|b| - 1];
      SelectedAppend(a, binit);
      var t := TrimSpace(last);
      var x := if t != "" then [t] else [];
      assert (a + b)[..|a + b| - 1] == a + binit && (a + b)[|a + b| - 1] == last;
      assert Selected(a + b) == Selected(a + binit) + x;
      assert Selected(b) == Selected(binit) + x;
      Assoc(Selected(a), Selected(binit), x);
    }
  }

  /** An item is the kept verse on one line between two double quotes. */
  lemma QuoteShape(t: string)
    ensures var q := Quote(t);
      && |q| == |t| + 2 && q[0] == '"' && q[|q| - 1] == '"'
      && '\n' !in q
      && forall i :: 0 <= i < |t| ==> q[i + 1] == if t[i] == '\n' then ' ' else t[i]
  {
    ReplaceAllChar(t, '\n', ' ');
    var r := ReplaceAll(t, "\n", " ");
    var q := Quote(t);
    assert forall i :: 0 <= i < |r| ==> q[i + 1] == r[i];
  }

  /** No output item holds a line break. */
  lemma ItemsOnOneLine(text: string)
    ensures forall k :: 0 <= k < |Quoted(Selected(Split(text, BlankLine)))| ==>
      '\n' !in Quoted(Selected(Split(text, BlankLine)))[k]
  {
    var ts := Selected(Split(text, BlankLine));
    forall k | 0 <= k < |ts| ensures '\n' !in Quoted(ts)[k] {
      QuoteShape(ts[k]);
    }
  }

  /** There are at most as many items as blank lines plus one. */
  lemma ItemCount(text: string)
    ensures |Quoted(Selected(Split(text, BlankLine)))| <= Count(text, BlankLine) + 1
  {
    SplitCount(text, BlankLine);
  }

  /** A join of strings of at least two characters is empty exactly when there are none. */
  lemma JoinEmpty(items: seq<string>, sep: string)
    requires forall k :: 0 <= k < |items| ==> |items[k]| >= 2
    ensures Join(items, sep) == "" <==> items == []
  {
    if |items| > 1 {
      assert |Join(items, sep)| >= |items[0]|;
    }
  }

  /** The output is empty exactly when the text is blank. */
  lemma OutputEmpty(text: string)
    ensures Output(text) == "" <==> AllSpace(text)
  {
    var vs := Split(text, BlankLine);
    var items := Quoted(Selected(vs));
    forall k | 0 <= k < |items| ensures |items[k]| >= 2 {
      QuoteShape(Selected(vs)[k]);
    }
    JoinEmpty(items, ItemSeparator);
    SelectedEmpty(vs);
    assert AllSpace(BlankLine);
    JoinAllSpace(vs, BlankLine);
  }
}
