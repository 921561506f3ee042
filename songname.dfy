/**
 * NormalizeSongName (internal/utils/utilsString.go): the no-break space
 * becomes a plain space, the regular expressions `\s*-\s*` and `\s*,\s*`
 * squeeze the spaces around dashes and commas, runs of spaces between words
 * collapse to one, and the ends are trimmed.
 *
 * The two regular expressions are modelled as Go's regexp package runs them:
 * at each position the leftmost-first, greedy match of `\s*` sep `\s*`, the
 * scan going on after the match. `\s` is RE2's Perl class, which is narrower
 * than the `unicode.IsSpace` that strings.Fields and strings.TrimSpace use;
 * `SpaceClass` lets the same pipeline run with either class, so that the
 * written function and its corrected variant share one definition.
 */
module SongName {
  import opened Wrappers
  import opened GoStrings

  const NoBreakSpace: char := '\U{A0}'

  /** RE2's `\s`: tab, newline, form feed, carriage return and space; not the vertical tab, no Unicode space. */
  predicate RegexSpace(c: char)
  {
    c == '\t' || c == '\n' || c == '\U{C}' || c == '\r' || c == ' '
  }

  /** The characters a `\s` of the pattern matches. */
  datatype SpaceClass = Regex | Unicode

  predicate InClass(c: char, cls: SpaceClass)
  {
    match cls
    case Regex => RegexSpace(c)
    case Unicode => IsSpace(c)
  }

  /** Every space of `s` is one that RE2's `\s` matches. */
  predicate RegexSpaced(s: string)
  {
    forall i :: 0 <= i < |s| ==> IsSpace(s[i]) ==> RegexSpace(s[i])
  }

  /** What a greedy `\s*` consumes at the start of `s`. */
  function SpaceRun(s: string, cls: SpaceClass): (n: nat)
    ensures n <= |s|
    ensures forall i :: 0 <= i < n ==> InClass(s[i], cls)
    ensures n < |s| ==> !InClass(s[n], cls)
    decreases |s|
  {
    if s != [] && InClass(s[0], cls) then 1 + SpaceRun(s[1..], cls) else 0
  }

  /** `m` is spaces of the class, `sep` at position `k`, and spaces of the class. */
  predicate MatchShape(m: string, k: int, sep: char, cls: SpaceClass)
  {
    0 <= k < |m| && m[k] == sep
    && (forall i :: 0 <= i < k ==> InClass(m[i], cls))
    && (forall i :: k < i < |m| ==> InClass(m[i], cls))
  }

  /** A match can start at the beginning of `s` and reach `sep` at position `k`: only spaces of the class before it. */
  predicate SepAfterSpaces(s: string, k: int, sep: char, cls: SpaceClass)
  {
    0 <= k < |s| && s[k] == sep && forall i :: 0 <= i < k ==> InClass(s[i], cls)
  }

  /**
   * The length of the match of `\s*` sep `\s*` that starts at the beginning of
   * `s`, or None when no match starts there. The match is the longest: it
   * is not followed by another space of the class.
   */
  function MatchAt(s: string, sep: char, cls: SpaceClass): (r: Option<nat>)
    requires !IsSpace(sep)
    ensures r.Some? ==> 0 < r.value <= |s|
    ensures r.Some? ==> MatchShape(s[..r.value], SpaceRun(s, cls), sep, cls)
    ensures r.Some? && r.value < |s| ==> !InClass(s[r.value], cls)
    ensures r.None? <==> forall k :: !SepAfterSpaces(s, k, sep, cls)
  {
    var k := SpaceRun(s, cls);
    if k < |s| && s[k] == sep then
      var n := k + 1 + SpaceRun(s[k + 1..], cls);
      assert forall i :: k < i < n ==> s[..n][i] == s[k + 1..][i - k - 1];
      assert n < |s| ==> s[n] == s[k + 1..][n - k - 1];
      assert SepAfterSpaces(s, k, sep, cls);
      Some(n)
    else
      assert forall j :: !SepAfterSpaces(s, j, sep, cls);
      None
  }

  /** Regexp.ReplaceAllString for `\s*` sep `\s*` with replacement sep: every match, left to right, becomes sep. */
  function ReplacePattern(s: string, sep: char, cls: SpaceClass): (r: string)
    requires !IsSpace(sep)
    ensures |r| <= |s|
    ensures r == [] <==> s == []
    decreases |s|
  {
    if s == [] then []
    else
      match MatchAt(s, sep, cls)
      case Some(n) => [sep] + ReplacePattern(s[n..], sep, cls)
      case None => [s[0]] + ReplacePattern(s[1..], sep, cls)
  }

  /** The result starts with the separator exactly when a match starts the input; otherwise with the input's first character. */
  lemma ReplacePatternHead(s: string, sep: char, cls: SpaceClass)
    requires !IsSpace(sep) && s != []
    ensures ReplacePattern(s, sep, cls)[0] == if MatchAt(s, sep, cls).Some? then sep else s[0]
  {
  }

  /** Every character of the result is the separator or a character of the input. */
  lemma {:induction false} ReplacePatternChars(s: string, sep: char, cls: SpaceClass)
    requires !IsSpace(sep)
    ensures forall i :: 0 <= i < |ReplacePattern(s, sep, cls)| ==>
      ReplacePattern(s, sep, cls)[i] == sep || ReplacePattern(s, sep, cls)[i] in s
    decreases |s|
  {
    if s != [] {
      var r := ReplacePattern(s, sep, cls);
      match MatchAt(s, sep, cls)
      case Some(n) =>
        ReplacePatternChars(s[n..], sep, cls);
        var t := ReplacePattern(s[n..], sep, cls);
        assert r == [sep] + t;
        assert forall i :: 0 <= i < |t| ==> t[i] in s[n..] ==> t[i] in s;
      case None =>
        ReplacePatternChars(s[1..], sep, cls);
        var t := ReplacePattern(s[1..], sep, cls);
        assert r == [s[0]] + t;
        assert forall i :: 0 <= i < |t| ==> t[i] in s[1..] ==> t[i] in s;
    }
  }

  /** The pipeline of NormalizeSongName, with `\s` read as `cls`. */
  function Normalize(s: string, cls: SpaceClass): string
  {
    var a := ReplaceAll(s, [NoBreakSpace], " ");
    var b := ReplacePattern(a, '-', cls);
    var c := ReplacePattern(b, ',', cls);
    TrimSpace(Join(Fields(c), " "))
  }

  /** Spaces of `s` next to a separator before the second regular expression runs: the ones RE2's `\s` turns into nothing. */
  predicate PlainSpaced(s: string)
  {
    forall i :: 0 <= i < |s| ==> IsSpace(s[i]) ==> RegexSpace(s[i]) || s[i] == NoBreakSpace
  }

  /** The first step changes every no-break space, and nothing else, into ' '. */
  lemma NoBreakSpaceStep(s: string)
    ensures var a := ReplaceAll(s, [NoBreakSpace], " ");
      && |a| == |s|
      && NonSpace(a) == NonSpace(s)
      && NoBreakSpace !in a
      && (PlainSpaced(s) ==> RegexSpaced(a))
      && (NoBreakSpace !in s ==> a == s)
  {
    var a := ReplaceAll(s, [NoBreakSpace], " ");
    ReplaceAllChar(s, NoBreakSpace, ' ');
    NonSpaceSame(a, s);
    assert NoBreakSpace !in a by {
      forall i | 0 <= i < |a| ensures a[i] != NoBreakSpace { }
    }
    if NoBreakSpace !in s {
      assert forall i :: 0 <= i < |s| ==> a[i] == s[i];
    }
  }

  /** Without no-break spaces the first step changes nothing. */
  lemma NoBreakSpaceAbsent(s: string)
    requires NoBreakSpace !in s
    ensures ReplaceAll(s, [NoBreakSpace], " ") == s
  {
    NoBreakSpaceStep(s);
  }

  /** A match is one separator surrounded by spaces. */
  lemma MatchNonSpace(m: string, k: int, sep: char, cls: SpaceClass)
    requires !IsSpace(sep) && MatchShape(m, k, sep, cls)
    ensures NonSpace(m) == [sep]
  {
    assert m == m[..k] + ([sep] + m[k + 1..]);
    NonSpaceAppend(m[..k], [sep] + m[k + 1..]);
    NonSpaceAppend([sep], m[k + 1..]);
    NonSpaceOfSpaces(m[..k]);
    NonSpaceOfSpaces(m[k + 1..]);
    assert NonSpace([sep]) == [sep] + NonSpace([]);
  }

  /** Replacing the matches removes only spaces. */
  lemma {:induction false} ReplacePatternNonSpace(s: string, sep: char, cls: SpaceClass)
    requires !IsSpace(sep)
    ensures NonSpace(ReplacePattern(s, sep, cls)) == NonSpace(s)
    decreases |s|
  {
    if s != [] {
      var r := ReplacePattern(s, sep, cls);
      match MatchAt(s, sep, cls)
      case Some(n) =>
        ReplacePatternNonSpace(s[n..], sep, cls);
        MatchNonSpace(s[..n], SpaceRun(s, cls), sep, cls);
        SplitNonSpace(s, n);
        SepNonSpace(sep, ReplacePattern(s[n..], sep, cls));
      case None =>
        ReplacePatternNonSpace(s[1..], sep, cls);
        assert r[1..] == ReplacePattern(s[1..], sep, cls);
    }
  }

  /** The non-spaces of `s` are those before position `n` and those after. */
  lemma SplitNonSpace(s: string, n: nat)
    requires n <= |s|
    ensures NonSpace(s) == NonSpace(s[..n]) + NonSpace(s[n..])
  {
    assert s == s[..n] + s[n..];
    NonSpaceAppend(s[..n], s[n..]);
  }

  /** A non-space separator in front of `t` adds itself to the non-spaces of `t`. */
  lemma SepNonSpace(sep: char, t: string)
    requires !IsSpace(sep)
    ensures NonSpace([sep] + t) == [sep] + NonSpace(t)
  {
    assert ([sep] + t)[1..] == t;
  }

  /** A leading space in front of `s` does not change whether a match starts there. */
  lemma MatchAtCons(s: string, sep: char, cls: SpaceClass)
    requires !IsSpace(sep) && s != [] && InClass(s[0], cls)
    ensures MatchAt(s, sep, cls).Some? == MatchAt(s[1..], sep, cls).Some?
  {
    var k := SpaceRun(s[1..], cls);
    assert SpaceRun(s, cls) == 1 + k;
    if k < |s| - 1 { assert s[1 + k] == s[1..][k]; }
  }

  lemma {:induction false} SpaceRunAgree(s: string)
    requires RegexSpaced(s)
    ensures SpaceRun(s, Regex) == SpaceRun(s, Unicode)
    decreases |s|
  {
    if s != [] {
      assert RegexSpaced(s[1..]) by {
        forall i | 0 <= i < |s| - 1 ensures IsSpace(s[1..][i]) ==> RegexSpace(s[1..][i]) {
          assert s[1..][i] == s[i + 1];
        }
      }
      SpaceRunAgree(s[1..]);
    }
  }

  lemma RegexSpacedSuffix(s: string, k: nat)
    requires RegexSpaced(s) && k <= |s|
    ensures RegexSpaced(s[k..])
  {
    forall i | 0 <= i < |s| - k ensures IsSpace(s[k..][i]) ==> RegexSpace(s[k..][i]) {
      assert s[k..][i] == s[k + i];
    }
  }

  /** When every space is one RE2's `\s` matches, the narrow and the wide reading of `\s` replace alike. */
  lemma {:induction false} ReplacePatternAgree(s: string, sep: char)
    requires !IsSpace(sep) && RegexSpaced(s)
    ensures ReplacePattern(s, sep, Regex) == ReplacePattern(s, sep, Unicode)
    decreases |s|
  {
    if s != [] {
      MatchAtAgree(s, sep);
      match MatchAt(s, sep, Unicode)
      case Some(n) =>
        RegexSpacedSuffix(s, n);
        ReplacePatternAgree(s[n..], sep);
        ReplacePatternAtMatch(s, n, sep, Regex);
        ReplacePatternAtMatch(s, n, sep, Unicode);
      case None =>
        RegexSpacedSuffix(s, 1);
        ReplacePatternAgree(s[1..], sep);
        ReplacePatternNoMatch(s, sep, Regex);
        ReplacePatternNoMatch(s, sep, Unicode);
    }
  }

  /** When every space is one RE2's `\s` matches, both readings of `\s` find the same match at the start. */
  lemma MatchAtAgree(s: string, sep: char)
    requires !IsSpace(sep) && RegexSpaced(s)
    ensures MatchAt(s, sep, Regex) == MatchAt(s, sep, Unicode)
  {
    SpaceRunAgree(s);
    var k := SpaceRun(s, Unicode);
    if k < |s| {
      RegexSpacedSuffix(s, k + 1);
      SpaceRunAgree(s[k + 1..]);
    }
  }

  /** Replacing keeps the spaces within those RE2's `\s` matches. */
  lemma ReplacePatternRegexSpaced(s: string, sep: char, cls: SpaceClass)
    requires !IsSpace(sep) && RegexSpaced(s)
    ensures RegexSpaced(ReplacePattern(s, sep, cls))
  {
    var r := ReplacePattern(s, sep, cls);
    ReplacePatternChars(s, sep, cls);
    forall i | 0 <= i < |r| && IsSpace(r[i]) ensures RegexSpace(r[i]) {
      var j :| 0 <= j < |s| && s[j] == r[i];
    }
  }

  lemma TightSuffix(s: string, k: nat, c: char)
    requires Tight(s, c) && k <= |s|
    ensures Tight(s[k..], c)
  {
    assert s == s[..k] + s[k..];
    TightConcat(s[..k], s[k..], c);
  }

  /** With `\s` read as unicode.IsSpace, no space is left beside a separator. */
  lemma {:induction false} ReplacePatternTight(s: string, sep: char)
    requires !IsSpace(sep)
    ensures Tight(ReplacePattern(s, sep, Unicode), sep)
    decreases |s|
  {
    if s != [] {
      match MatchAt(s, sep, Unicode)
      case Some(n) =>
        var t := ReplacePattern(s[n..], sep, Unicode);
        ReplacePatternTight(s[n..], sep);
        if t != [] { ReplacePatternHead(s[n..], sep, Unicode); assert s[n..][0] == s[n]; }
        TightConcat([sep], t, sep);
      case None =>
        var t := ReplacePattern(s[1..], sep, Unicode);
        ReplacePatternTight(s[1..], sep);
        assert !SepAfterSpaces(s, 0, sep, Unicode);
        if t != [] { ReplacePatternHead(s[1..], sep, Unicode); }
        if IsSpace(s[0]) && |s| > 1 {
          MatchAtCons(s, sep, Unicode);
          assert !SepAfterSpaces(s, 1, sep, Unicode);
          assert s[1..][0] == s[1];
        }
        TightConcat([s[0]], t, sep);
    }
  }

  /** Replacing the matches of one separator keeps a different character free of neighbouring spaces. */
  lemma {:induction false} ReplacePatternKeepsTight(s: string, sep: char, d: char, cls: SpaceClass)
    requires !IsSpace(sep) && d != sep && Tight(s, d)
    ensures Tight(ReplacePattern(s, sep, cls), d)
    decreases |s|
  {
    if s != [] {
      match MatchAt(s, sep, cls)
      case Some(n) =>
        var t := ReplacePattern(s[n..], sep, cls);
        TightSuffix(s, n, d);
        ReplacePatternKeepsTight(s[n..], sep, d, cls);
        if t != [] { ReplacePatternHead(s[n..], sep, cls); }
        TightConcat([sep], t, d);
      case None =>
        var t := ReplacePattern(s[1..], sep, cls);
        TightSuffix(s, 1, d);
        ReplacePatternKeepsTight(s[1..], sep, d, cls);
        if |s| > 1 {
          ReplacePatternHead(s[1..], sep, cls);
          assert TightAt(s, 0, d);
          assert s[1..][0] == s[1];
        }
        TightConcat([s[0]], t, d);
    }
  }

  /** A string with no space beside any separator is left unchanged. */
  lemma {:induction false} ReplacePatternIdentity(s: string, sep: char, cls: SpaceClass)
    requires !IsSpace(sep) && Tight(s, sep)
    ensures ReplacePattern(s, sep, cls) == s
    decreases |s|
  {
    if s != [] {
      assert ReplacePattern(s[1..], sep, cls) == s[1..] by {
        TightSuffix(s, 1, sep);
        ReplacePatternIdentity(s[1..], sep, cls);
      }
      assert ReplacePattern(s, sep, cls) == [s[0]] + ReplacePattern(s[1..], sep, cls) by {
        if MatchAt(s, sep, cls).Some? {
          TightMatchIsSep(s, sep, cls);
        }
        ReplacePatternKeepsFirst(s, sep, cls);
      }
      assert s == [s[0]] + s[1..];
    }
  }

  /** Without a match, or with a match that is the separator alone, one step keeps the first character. */
  lemma {:induction false} ReplacePatternKeepsFirst(s: string, sep: char, cls: SpaceClass)
    requires !IsSpace(sep) && s != []
    requires MatchAt(s, sep, cls).None? || (MatchAt(s, sep, cls) == Some(1) && s[0] == sep)
    ensures ReplacePattern(s, sep, cls) == [s[0]] + ReplacePattern(s[1..], sep, cls)
  {
  }

  /** In a string with no space beside a separator, a match is the separator alone. */
  lemma TightMatchIsSep(s: string, sep: char, cls: SpaceClass)
    requires !IsSpace(sep) && Tight(s, sep) && MatchAt(s, sep, cls).Some?
    ensures MatchAt(s, sep, cls).value == 1 && s[0] == sep
  {
    var n := MatchAt(s, sep, cls).value;
    var k := SpaceRun(s, cls);
    assert forall i :: 0 <= i < n ==> s[..n][i] == s[i];
    NoSpaceBeside(s, k, sep);
    assert k == 0;
    NoSpaceBeside(s, 0, sep);
  }

  /** The neighbours of a separator in a string with no space beside a separator are not spaces. */
  lemma NoSpaceBeside(s: string, k: nat, sep: char)
    requires Tight(s, sep) && k < |s| && s[k] == sep
    ensures k > 0 ==> !IsSpace(s[k - 1])
    ensures k + 1 < |s| ==> !IsSpace(s[k + 1])
  {
    if k > 0 {
      assert TightAt(s, k - 1, sep);
    }
    if k + 1 < |s| {
      assert TightAt(s, k, sep);
    }
  }

  /** A well-spaced string begins and ends with a non-space, so TrimSpace keeps it. */
  lemma TrimWellSpaced(d: string)
    requires WellSpaced(d)
    ensures TrimSpace(d) == d
  {
    if d != [] {
      assert SpacedAt(d, 0) && SpacedAt(d, |d| - 1);
      TrimSpaceOfTrimmed(d);
    }
  }

  /** A well-spaced string has only ' ' as space. */
  lemma WellSpacedRegexSpaced(d: string)
    requires WellSpaced(d)
    ensures RegexSpaced(d) && NoBreakSpace !in d
  {
    forall i | 0 <= i < |d| ensures IsSpace(d[i]) ==> d[i] == ' ' {
      assert SpacedAt(d, i);
    }
  }

  /**
   * Whatever the reading of `\s`, the result is well spaced (words of
   * non-spaces with one ' ' between them, nothing at either end), it keeps
   * every non-space character of the input in order, and it is no longer
   * than the input.
   */
  lemma NormalizeShape(s: string, cls: SpaceClass)
    ensures WellSpaced(Normalize(s, cls))
    ensures NonSpace(Normalize(s, cls)) == NonSpace(s)
    ensures |Normalize(s, cls)| <= |s|
  {
    var a := ReplaceAll(s, [NoBreakSpace], " ");
    NoBreakSpaceStep(s);
    var b := ReplacePattern(a, '-', cls);
    ReplacePatternNonSpace(a, '-', cls);
    var c := ReplacePattern(b, ',', cls);
    ReplacePatternNonSpace(b, ',', cls);
    var d := Join(Fields(c), " ");
    FieldsAreWords(c);
    JoinWords(Fields(c));
    JoinFieldsNonSpace(c);
    JoinFieldsLength(c);
    TrimWellSpaced(d);
  }

  /** With `\s` read as unicode.IsSpace, no space is left beside a dash or a comma. */
  lemma NormalizeTight(s: string)
    ensures Tight(Normalize(s, Unicode), '-') && Tight(Normalize(s, Unicode), ',')
  {
    var a := ReplaceAll(s, [NoBreakSpace], " ");
    var b := ReplacePattern(a, '-', Unicode);
    ReplacePatternTight(a, '-');
    var c := ReplacePattern(b, ',', Unicode);
    ReplacePatternKeepsTight(b, ',', '-', Unicode);
    ReplacePatternTight(b, ',');
    var d := Join(Fields(c), " ");
    JoinFieldsTight(c, '-');
    JoinFieldsTight(c, ',');
    FieldsAreWords(c);
    JoinWords(Fields(c));
    TrimWellSpaced(d);
  }

  /** A well-spaced string with no space beside a dash or a comma is already normal, whatever the reading of `\s`. */
  lemma NormalizeFixed(t: string, cls: SpaceClass)
    requires WellSpaced(t) && Tight(t, '-') && Tight(t, ',')
    ensures Normalize(t, cls) == t
  {
    WellSpacedRegexSpaced(t);
    NoBreakSpaceStep(t);
    ReplacePatternIdentity(t, '-', cls);
    ReplacePatternIdentity(t, ',', cls);
    WellSpacedJoinFields(t);
    TrimWellSpaced(t);
  }

  /** When the input's spaces are RE2 spaces or no-break spaces, the narrow `\s` does what the wide one does. */
  lemma NormalizeAgree(s: string)
    requires PlainSpaced(s)
    ensures Normalize(s, Regex) == Normalize(s, Unicode)
  {
    var a := ReplaceAll(s, [NoBreakSpace], " ");
    NoBreakSpaceStep(s);
    ReplacePatternAgree(a, '-');
    var b := ReplacePattern(a, '-', Unicode);
    ReplacePatternRegexSpaced(a, '-', Unicode);
    ReplacePatternAgree(b, ',');
  }

  /** NormalizeSongName as written: `\s` is RE2's narrow class. */
  function NormalizeSongName(s: string): (r: string)
    ensures WellSpaced(r)
    ensures NonSpace(r) == NonSpace(s)
    ensures |r| <= |s|
  {
    NormalizeShape(s, Regex);
    Normalize(s, Regex)
  }

  /** NormalizeSongName with `\s` read as unicode.IsSpace, the class the rest of the function uses. */
  function NormalizeSongNameUnicode(s: string): (r: string)
    ensures WellSpaced(r)
    ensures NonSpace(r) == NonSpace(s)
    ensures |r| <= |s|
    ensures Tight(r, '-') && Tight(r, ',')
  {
    NormalizeShape(s, Unicode);
    NormalizeTight(s);
    Normalize(s, Unicode)
  }

  /** The corrected function is idempotent on every input. */
  lemma NormalizeSongNameUnicodeIdempotent(s: string)
    ensures NormalizeSongNameUnicode(NormalizeSongNameUnicode(s)) == NormalizeSongNameUnicode(s)
  {
    NormalizeFixed(NormalizeSongNameUnicode(s), Unicode);
  }

  /** On input whose spaces are RE2 spaces or no-break spaces, the written function agrees with the corrected one. */
  lemma NormalizeSongNameAgrees(s: string)
    requires PlainSpaced(s)
    ensures NormalizeSongName(s) == NormalizeSongNameUnicode(s)
  {
    NormalizeAgree(s);
  }

  /** On such input the written function leaves no space beside a dash or a comma, and a second call changes nothing. */
  lemma NormalizeSongNamePlain(s: string)
    requires PlainSpaced(s)
    ensures Tight(NormalizeSongName(s), '-') && Tight(NormalizeSongName(s), ',')
    ensures NormalizeSongName(NormalizeSongName(s)) == NormalizeSongName(s)
  {
    var t := NormalizeSongName(s);
    assert Tight(t, '-') && Tight(t, ',') by {
      NormalizeSongNameAgrees(s);
      assert t == NormalizeSongNameUnicode(s);
    }
    NormalizeFixed(t, Regex);
  }

  /** Every character of `s` is a space of the class. */
  predicate AllInClass(s: string, cls: SpaceClass)
  {
    forall i :: 0 <= i < |s| ==> InClass(s[i], cls)
  }

  /** A greedy `\s*` stops where the run of spaces does. */
  lemma {:induction false} SpaceRunOf(a: string, z: string, cls: SpaceClass)
    requires AllInClass(a, cls) && (z == [] || !InClass(z[0], cls))
    ensures SpaceRun(a + z, cls) == |a|
    decreases |a|
  {
    if a != [] {
      assert (a + z)[1..] == a[1..] + z;
      SpaceRunOf(a[1..], z, cls);
    } else {
      assert a + z == z;
    }
  }

  /** The run of spaces from `k` stops at `n` when the spaces of the class end there. */
  lemma SpaceRunStops(s: string, k: nat, n: nat, cls: SpaceClass)
    requires k <= n <= |s| && AllInClass(s[k..n], cls) && (n == |s| || !InClass(s[n], cls))
    ensures SpaceRun(s[k..], cls) == n - k
  {
    assert s[k..] == s[k..n] + s[n..];
    SpaceRunOf(s[k..n], s[n..], cls);
  }

  /** Without a match at the start, the first character is kept and the scan moves one on. */
  lemma {:induction false} ReplacePatternNoMatch(s: string, sep: char, cls: SpaceClass)
    requires !IsSpace(sep) && s != [] && MatchAt(s, sep, cls).None?
    ensures ReplacePattern(s, sep, cls) == [s[0]] + ReplacePattern(s[1..], sep, cls)
  {
  }

  /** The first `m` characters hold no separator and do not end in a space of the class. */
  predicate PlainPrefix(s: string, m: nat, sep: char, cls: SpaceClass)
  {
    m <= |s| && sep !in s[..m] && (m == 0 || !InClass(s[m - 1], cls))
  }

  /** No match starts at a plain prefix that is not empty. */
  lemma PlainNoMatch(s: string, m: nat, sep: char, cls: SpaceClass)
    requires !IsSpace(sep) && PlainPrefix(s, m, sep, cls) && m > 0
    ensures MatchAt(s, sep, cls).None?
  {
    forall k | 0 <= k < |s| ensures !SepAfterSpaces(s, k, sep, cls) {
      if k < m { assert s[k] == s[..m][k]; }
    }
  }

  /** Dropping the first character of a plain prefix leaves a plain prefix of the rest. */
  lemma PlainShift(s: string, m: nat, sep: char, cls: SpaceClass)
    requires PlainPrefix(s, m, sep, cls) && m > 0
    ensures PlainPrefix(s[1..], m - 1, sep, cls)
    ensures s[..m] == [s[0]] + s[1..][..m - 1] && s[1..][m - 1..] == s[m..]
  {
    var t := s[1..];
    assert t[..m - 1] == s[1..m];
    var u, v := t[..m - 1], s[..m];
    forall i | 0 <= i < |u| ensures u[i] != sep { assert u[i] == v[i + 1]; }
    assert m - 1 > 0 ==> t[m - 2] == s[m - 1];
  }

  /** No match starts inside the first `m` characters when they are a plain prefix. */
  lemma {:induction false} ReplacePatternPlain(s: string, m: nat, sep: char, cls: SpaceClass)
    requires !IsSpace(sep) && PlainPrefix(s, m, sep, cls)
    ensures ReplacePattern(s, sep, cls) == s[..m] + ReplacePattern(s[m..], sep, cls)
    decreases m
  {
    if m > 0 {
      var t := s[1..];
      assert ReplacePattern(s, sep, cls) == [s[0]] + ReplacePattern(t, sep, cls) by {
        PlainNoMatch(s, m, sep, cls);
        ReplacePatternNoMatch(s, sep, cls);
      }
      PlainShift(s, m, sep, cls);
      assert ReplacePattern(t, sep, cls) == t[..m - 1] + ReplacePattern(t[m - 1..], sep, cls) by {
        ReplacePatternPlain(t, m - 1, sep, cls);
      }
      Assoc([s[0]], t[..m - 1], ReplacePattern(s[m..], sep, cls));
    }
  }

  /** A string without the separator is left unchanged. */
  lemma {:induction false} ReplacePatternFree(y: string, sep: char, cls: SpaceClass)
    requires !IsSpace(sep) && sep !in y
    ensures ReplacePattern(y, sep, cls) == y
    decreases |y|
  {
    if y != [] {
      assert forall k :: !SepAfterSpaces(y, k, sep, cls);
      ReplacePatternFree(y[1..], sep, cls);
      assert y == [y[0]] + y[1..];
    }
  }

  /** The match is fixed by where the two greedy runs stop. */
  lemma MatchAtRuns(s: string, k: nat, n: nat, sep: char, cls: SpaceClass)
    requires !IsSpace(sep) && k < n <= |s| && s[k] == sep
    requires SpaceRun(s, cls) == k && SpaceRun(s[k + 1..], cls) == n - k - 1
    ensures MatchAt(s, sep, cls) == Some(n)
  {
  }

  /** A match at the start becomes the separator, and the scan goes on after it. */
  lemma {:induction false} ReplacePatternAtMatch(s: string, n: nat, sep: char, cls: SpaceClass)
    requires !IsSpace(sep) && 0 < n <= |s| && MatchAt(s, sep, cls) == Some(n)
    ensures ReplacePattern(s, sep, cls) == [sep] + ReplacePattern(s[n..], sep, cls)
  {
  }

  /** Spaces, the separator at `k` and spaces up to `n`, where the spaces stop, are replaced by the separator alone. */
  lemma ReplacePatternMatch(s: string, k: nat, n: nat, sep: char, cls: SpaceClass)
    requires !IsSpace(sep) && k < n <= |s| && s[k] == sep
    requires AllInClass(s[..k], cls) && AllInClass(s[k + 1..n], cls)
    requires n == |s| || !InClass(s[n], cls)
    ensures ReplacePattern(s, sep, cls) == [sep] + ReplacePattern(s[n..], sep, cls)
  {
    assert !InClass(s[k], cls);
    assert s[0..] == s && s[0..k] == s[..k];
    SpaceRunStops(s, 0, k, cls);
    SpaceRunStops(s, k + 1, n, cls);
    MatchAtRuns(s, k, n, sep, cls);
    ReplacePatternAtMatch(s, n, sep, cls);
  }

  /** The result of the pipeline from the results of its steps. */
  lemma NormalizeVia(s: string, cls: SpaceClass, a: string, b: string, c: string, ws: seq<string>)
    requires ReplaceAll(s, [NoBreakSpace], " ") == a
    requires ReplacePattern(a, '-', cls) == b && ReplacePattern(b, ',', cls) == c
    requires Fields(c) == ws
    ensures Normalize(s, cls) == Join(ws, " ")
  {
    FieldsAreWords(c);
    JoinWords(ws);
    TrimWellSpaced(Join(ws, " "));
  }
}
