/**
 * The pieces of Go's `strings` package (and `unicode.IsSpace`) that the
 * modelled code calls, over strings of Unicode scalar values. Each function
 * follows the Go definition: `Index` is the leftmost occurrence, `Split` and
 * `ReplaceAll` work on leftmost non-overlapping occurrences, and `Fields` and
 * `TrimSpace` use `unicode.IsSpace`.
 */
module GoStrings {
  import opened Wrappers

  /** unicode.IsSpace: the Latin-1 spaces and the rest of Unicode's White_Space property. */
  predicate IsSpace(c: char)
  {
    || c == '\t' || c == '\n' || c == '\U{B}' || c == '\U{C}' || c == '\r' || c == ' '
    || c == '\U{85}' || c == '\U{A0}' || c == '\U{1680}'
    || ('\U{2000}' <= c <= '\U{200A}')
    || c == '\U{2028}' || c == '\U{2029}' || c == '\U{202F}' || c == '\U{205F}' || c == '\U{3000}'
  }

  predicate AllSpace(s: string)
  {
    forall i :: 0 <= i < |s| ==> IsSpace(s[i])
  }

  /** `sep` occurs in `s` starting at position `i`. */
  predicate OccursAt(s: string, sep: string, i: nat)
  {
    i <= |s| && sep <= s[i..]
  }

  /** `sep` occurs nowhere in `s`. */
  predicate Free(s: string, sep: string)
  {
    forall i :: 0 <= i <= |s| ==> !OccursAt(s, sep, i)
  }

  /** strings.Index: the leftmost position of `sep` in `s`; None stands for Go's -1. */
  function Index(s: string, sep: string): (r: Option<nat>)
    requires |sep| > 0
    ensures r.Some? ==> OccursAt(s, sep, r.value)
    ensures r.Some? ==> forall j :: 0 <= j < r.value ==> !OccursAt(s, sep, j)
    ensures r.None? <==> Free(s, sep)
    decreases |s|
  {
    if |s| < |sep| then None
    else if sep <= s then
      assert s[0..] == s && OccursAt(s, sep, 0);
      Some(0)
    else
      match Index(s[1..], sep)
      case None =>
        ShiftFree(s, sep);
        None
      case Some(i) =>
        ShiftFirst(s, sep, i);
        Some(i + 1)
  }

  /** Past the first position, `sep` occurs in `s` where it occurs in `s[1..]`, one position on; it does not occur at 0 when it is not a prefix. */
  lemma OccursShift(s: string, sep: string)
    requires |s| >= 1 && !(sep <= s)
    ensures !OccursAt(s, sep, 0)
    ensures forall j :: 1 <= j <= |s| ==> (OccursAt(s, sep, j) <==> OccursAt(s[1..], sep, j - 1))
  {
    assert s[0..] == s;
    forall j | 1 <= j <= |s| ensures OccursAt(s, sep, j) <==> OccursAt(s[1..], sep, j - 1) {
      assert s[j..] == s[1..][j - 1..];
    }
  }

  /** When `sep` is not a prefix of `s` and is absent from `s[1..]`, it is absent from `s`. */
  lemma ShiftFree(s: string, sep: string)
    requires |s| >= 1 && !(sep <= s) && Free(s[1..], sep)
    ensures Free(s, sep)
  {
    OccursShift(s, sep);
    forall i | 0 <= i <= |s| ensures !OccursAt(s, sep, i) {
      if i > 0 {
        assert !OccursAt(s[1..], sep, i - 1);
      }
    }
  }

  /** When `sep` is not a prefix of `s`, the first occurrence in `s[1..]` is, one position on, the first in `s`. */
  lemma ShiftFirst(s: string, sep: string, i: nat)
    requires |s| >= 1 && !(sep <= s)
    requires OccursAt(s[1..], sep, i) && forall j :: 0 <= j < i ==> !OccursAt(s[1..], sep, j)
    ensures OccursAt(s, sep, i + 1) && !Free(s, sep)
    ensures forall j :: 0 <= j < i + 1 ==> !OccursAt(s, sep, j)
  {
    OccursShift(s, sep);
    assert OccursAt(s, sep, i + 1);
    forall j | 0 <= j < i + 1 ensures !OccursAt(s, sep, j) {
      if j > 0 {
        assert !OccursAt(s[1..], sep, j - 1);
      }
    }
  }

  /** strings.Join. */
  function Join(parts: seq<string>, sep: string): string
  {
    if |parts| == 0 then ""
    else if |parts| == 1 then parts[0]
    else parts[0] + sep + Join(parts[1..], sep)
  }

  /** `s` is `s[..i]`, then `sep`, then the rest, when `sep` occurs at `i`. */
  lemma Decompose(s: string, sep: string, i: nat)
    requires OccursAt(s, sep, i)
    ensures i + |sep| <= |s| && s == s[..i] + sep + s[i + |sep|..]
  {
    assert s[i..] == sep + s[i + |sep|..];
  }

  /** An occurrence inside a prefix of `s` is an occurrence in `s`. */
  lemma OccursInPrefix(s: string, sep: string, i: nat, j: nat)
    requires i <= |s|
    ensures OccursAt(s[..i], sep, j) ==> OccursAt(s, sep, j)
  {
    if OccursAt(s[..i], sep, j) {
      assert s[..i][j..] <= s[j..];
    }
  }

  /** A prefix that stops before the first occurrence holds none. */
  lemma PrefixFree(s: string, sep: string, i: nat)
    requires |sep| > 0 && i <= |s| && forall j :: 0 <= j < i ==> !OccursAt(s, sep, j)
    ensures Free(s[..i], sep)
  {
    forall j | 0 <= j <= i ensures !OccursAt(s[..i], sep, j) {
      OccursInPrefix(s, sep, i, j);
    }
  }

  /** strings.Split with a non-empty separator. */
  function Split(s: string, sep: string): (r: seq<string>)
    requires |sep| > 0
    ensures |r| >= 1
    ensures forall k :: 0 <= k < |r| ==> Free(r[k], sep)
    ensures Join(r, sep) == s
    decreases |s|
  {
    match Index(s, sep)
    case None => [s]
    case Some(i) =>
      Decompose(s, sep, i);
      PrefixFree(s, sep, i);
      [s[..i]] + Split(s[i + |sep|..], sep)
  }

  /** strings.ReplaceAll with a non-empty pattern: each leftmost non-overlapping occurrence, left to right. */
  function ReplaceAll(s: string, pat: string, rep: string): string
    requires |pat| > 0
    decreases |s|
  {
    match Index(s, pat)
    case None => s
    case Some(i) => s[..i] + rep + ReplaceAll(s[i + |pat|..], pat, rep)
  }

  /** Replacing every occurrence is splitting on it and joining with the replacement. */
  lemma {:induction false} ReplaceAllIsJoinSplit(s: string, pat: string, rep: string)
    requires |pat| > 0
    ensures ReplaceAll(s, pat, rep) == Join(Split(s, pat), rep)
    decreases |s|
  {
    match Index(s, pat)
    case None =>
    case Some(i) =>
      var rest := s[i + |pat|..];
      ReplaceAllIsJoinSplit(rest, pat, rep);
      ReplaceAllAtIndex(s, pat, rep, i, s[..i], rest);
      SplitAtIndex(s, pat, i, s[..i], rest);
      JoinCons(s[..i], Split(rest, pat), rep);
  }

  /** The leftmost occurrence of a one-character pattern is the first position holding that character. */
  lemma IndexOfChar(s: string, c: char)
    ensures Index(s, [c]).Some? ==>
      Index(s, [c]).value < |s| && s[Index(s, [c]).value] == c &&
      forall j :: 0 <= j < Index(s, [c]).value ==> s[j] != c
  {
    match Index(s, [c])
    case None =>
    case Some(i) =>
      assert s[i..][..1] == [c];
      forall j | 0 <= j < i ensures s[j] != c {
        assert !OccursAt(s, [c], j);
        assert s[j..][..1] == [s[j]];
      }
  }

  /** Replacing a one-character pattern by a one-character replacement changes each occurrence in place. */
  lemma {:induction false} ReplaceAllChar(s: string, c: char, d: char)
    ensures |ReplaceAll(s, [c], [d])| == |s|
    ensures forall i :: 0 <= i < |s| ==> ReplaceAll(s, [c], [d])[i] == if s[i] == c then d else s[i]
    decreases |s|
  {
    match Index(s, [c])
    case None =>
      FreeOfChar(s, c);
    case Some(i) =>
      IndexOfChar(s, c);
      var rest := s[i + 1..];
      ReplaceAllChar(rest, c, d);
      var t := ReplaceAll(rest, [c], [d]);
      ReplaceAllAtIndex(s, [c], [d], i, s[..i], rest);
      var r := s[..i] + [d] + t;
      forall k | 0 <= k < |s| ensures r[k] == if s[k] == c then d else s[k] {
        if k < i {
          assert r[k] == s[k];
        } else if k > i {
          assert r[k] == t[k - i - 1] && rest[k - i - 1] == s[k];
        }
      }
  }

  /** ReplaceAll of an absent one-character pattern changes nothing. */
  lemma ReplaceAllCharAbsent(s: string, c: char, d: char)
    requires c !in s
    ensures ReplaceAll(s, [c], [d]) == s
  {
    FreeOfChar(s, c);
  }

  /** ReplaceAll copies the stretch before the first occurrence, which lacks the pattern's first character, and replaces that occurrence. */
  lemma ReplaceAllStep(p: string, pat: string, rep: string, rest: string)
    requires |pat| > 0 && pat[0] !in p
    ensures ReplaceAll(p + (pat + rest), pat, rep) == p + (rep + ReplaceAll(rest, pat, rep))
  {
    StepIndex(p, pat, rest);
    ReplaceAllAtIndex(p + (pat + rest), pat, rep, |p|, p, rest);
    Assoc(p, rep, ReplaceAll(rest, pat, rep));
  }

  /** In `p + (sep + rest)`, with `sep`'s first character absent from `p`, the leftmost `sep` follows `p` and is followed by `rest`. */
  lemma StepIndex(p: string, sep: string, rest: string)
    requires |sep| > 0 && sep[0] !in p
    ensures var s := p + (sep + rest);
      Index(s, sep).Some? && Index(s, sep).value == |p| && s[..|p|] == p && s[|p| + |sep|..] == rest
  {
    var s := p + (sep + rest);
    assert s == p + sep + rest;
    IndexAfterPart(p, sep, rest);
    assert s[..|p|] == p;
    assert s[|p| + |sep|..] == rest;
  }

  lemma Assoc<T>(a: seq<T>, b: seq<T>, c: seq<T>)
    ensures a + b + c == a + (b + c)
  {
  }

  /** ReplaceAll at a known leftmost occurrence, with the stretches before and after it named. */
  lemma ReplaceAllAtIndex(s: string, pat: string, rep: string, i: nat, before: string, after: string)
    requires |pat| > 0 && Index(s, pat).Some? && Index(s, pat).value == i
    requires before == s[..i] && after == s[i + |pat|..]
    ensures ReplaceAll(s, pat, rep) == before + rep + ReplaceAll(after, pat, rep)
  {
    ReplaceAllUnfold(s, pat, rep);
    assert s[..Index(s, pat).value] == before;
    assert s[Index(s, pat).value + |pat|..] == after;
  }

  lemma {:induction false} ReplaceAllUnfold(s: string, pat: string, rep: string)
    requires |pat| > 0 && Index(s, pat).Some?
    ensures ReplaceAll(s, pat, rep) == s[..Index(s, pat).value] + rep + ReplaceAll(s[Index(s, pat).value + |pat|..], pat, rep)
  {
  }

  /** ReplaceAll of a one-character pattern copies the stretch before its first occurrence and replaces that occurrence. */
  lemma ReplaceAllCharStep(p: string, c: char, d: char, rest: string)
    requires c !in p
    ensures ReplaceAll(p + ([c] + rest), [c], [d]) == p + ([d] + ReplaceAll(rest, [c], [d]))
  {
    ReplaceAllStep(p, [c], [d], rest);
  }

  /** A string that lacks the pattern's first character is left as it is. */
  lemma ReplaceAllFree(s: string, pat: string, rep: string)
    requires |pat| > 0 && pat[0] !in s
    ensures ReplaceAll(s, pat, rep) == s
  {
    FreeOfFirst(s, pat);
  }

  /** Split cuts off the stretch before the first separator, which lacks the separator's first character. */
  lemma SplitStep(p: string, sep: string, rest: string)
    requires |sep| > 0 && sep[0] !in p
    ensures Split(p + (sep + rest), sep) == [p] + Split(rest, sep)
  {
    StepIndex(p, sep, rest);
    SplitAtIndex(p + (sep + rest), sep, |p|, p, rest);
  }

  /** Split at a known leftmost occurrence, with the stretches before and after it named. */
  lemma SplitAtIndex(s: string, sep: string, i: nat, before: string, after: string)
    requires |sep| > 0 && Index(s, sep).Some? && Index(s, sep).value == i
    requires before == s[..i] && after == s[i + |sep|..]
    ensures Split(s, sep) == [before] + Split(after, sep)
  {
    SplitUnfold(s, sep);
  }

  lemma {:induction false} SplitUnfold(s: string, sep: string)
    requires |sep| > 0 && Index(s, sep).Some?
    ensures Split(s, sep) == [s[..Index(s, sep).value]] + Split(s[Index(s, sep).value + |sep|..], sep)
  {
  }

  /** A character found in no part and not in the separator is not in the joined string. */
  lemma {:induction false} JoinAvoids(parts: seq<string>, sep: string, c: char)
    requires forall k :: 0 <= k < |parts| ==> c !in parts[k]
    requires c !in sep
    ensures c !in Join(parts, sep)
    decreases |parts|
  {
    if |parts| > 1 {
      JoinAvoids(parts[1..], sep, c);
    }
  }

  /** A one-character separator occurs nowhere exactly when the character is absent. */
  lemma FreeOfChar(s: string, c: char)
    ensures Free(s, [c]) <==> c !in s
  {
    if c in s {
      var i :| 0 <= i < |s| && s[i] == c;
      assert OccursAt(s, [c], i);
    } else {
      forall i | 0 <= i <= |s| ensures !OccursAt(s, [c], i) {
        if i < |s| { assert s[i] != c; }
      }
    }
  }

  /** No occurrence of `sep` can start in a string that lacks `sep`'s first character. */
  lemma FreeOfFirst(p: string, sep: string)
    requires |sep| > 0 && sep[0] !in p
    ensures Free(p, sep)
  {
    forall i | 0 <= i <= |p| ensures !OccursAt(p, sep, i) {
      if i < |p| { assert p[i..][0] == p[i]; }
    }
  }

  /** In `p + sep + rest`, with `sep`'s first character absent from `p`, the leftmost `sep` is the one after `p`. */
  lemma IndexAfterPart(p: string, sep: string, rest: string)
    requires |sep| > 0 && sep[0] !in p
    ensures Index(p + sep + rest, sep) == Some(|p|)
  {
    var s := p + sep + rest;
    assert s[|p|..] == sep + rest;
    assert OccursAt(s, sep, |p|);
  }

  /**
   * Split undoes Join when the separator's first character appears in no part:
   * no occurrence can then start inside a part.
   */
  lemma {:induction false} SplitJoin(parts: seq<string>, sep: string)
    requires |sep| > 0 && |parts| >= 1
    requires forall k :: 0 <= k < |parts| ==> sep[0] !in parts[k]
    ensures Split(Join(parts, sep), sep) == parts
    decreases |parts|
  {
    if |parts| == 1 {
      FreeOfFirst(parts[0], sep);
    } else {
      var p, rest := parts[0], Join(parts[1..], sep);
      var s := Join(parts, sep);
      assert s == p + sep + rest;
      IndexAfterPart(p, sep, rest);
      assert s[..|p|] == p && s[|p| + |sep|..] == rest;
      assert Split(s, sep) == [p] + Split(rest, sep);
      SplitJoin(parts[1..], sep);
      assert parts == [p] + parts[1..];
    }
  }

  /** strings.Count for a non-empty `sep`: the number of leftmost non-overlapping occurrences. */
  function Count(s: string, sep: string): nat
    requires |sep| > 0
    decreases |s|
  {
    match Index(s, sep)
    case None => 0
    case Some(i) => 1 + Count(s[i + |sep|..], sep)
  }

  /** Split gives one piece more than there are separators. */
  lemma {:induction false} SplitCount(s: string, sep: string)
    requires |sep| > 0
    ensures |Split(s, sep)| == Count(s, sep) + 1
    decreases |s|
  {
    match Index(s, sep)
    case None =>
    case Some(i) =>
      SplitCount(s[i + |sep|..], sep);
  }

  /** A join with an all-space separator is all space exactly when every part is. */
  lemma {:induction false} JoinAllSpace(parts: seq<string>, sep: string)
    requires AllSpace(sep)
    ensures AllSpace(Join(parts, sep)) <==> forall k :: 0 <= k < |parts| ==> AllSpace(parts[k])
    decreases |parts|
  {
    if |parts| == 1 {
    } else if |parts| > 1 {
      var rest := Join(parts[1..], sep);
      var s := parts[0] + sep + rest;
      JoinAllSpace(parts[1..], sep);
      assert forall i :: 0 <= i < |parts[0]| ==> s[i] == parts[0][i];
      assert forall i :: 0 <= i < |sep| ==> s[|parts[0]| + i] == sep[i];
      assert forall i :: 0 <= i < |rest| ==> s[|parts[0]| + |sep| + i] == rest[i];
      if AllSpace(parts[0]) && AllSpace(rest) {
        forall i | 0 <= i < |s| ensures IsSpace(s[i]) {
          if i < |parts[0]| {
          } else if i < |parts[0]| + |sep| {
            assert s[i] == sep[i - |parts[0]|];
          } else {
            assert s[i] == rest[i - |parts[0]| - |sep|];
          }
        }
      }
      forall k | 0 <= k < |parts[1..]| ensures parts[1..][k] == parts[k + 1] { }
    }
  }

  /** Drops the leading spaces. */
  function TrimLeft(s: string): (r: string)
    ensures |r| <= |s|
    ensures r != [] ==> !IsSpace(r[0])
    decreases |s|
  {
    if s != [] && IsSpace(s[0]) then TrimLeft(s[1..]) else s
  }

  /** TrimLeft keeps a suffix and drops only spaces before it. */
  lemma {:induction false} TrimLeftParts(s: string)
    ensures var r := TrimLeft(s); r == s[|s| - |r|..] && AllSpace(s[..|s| - |r|])
    decreases |s|
  {
    if s != [] && IsSpace(s[0]) {
      TrimLeftParts(s[1..]);
      var r := TrimLeft(s[1..]);
      assert s[1..][|s| - 1 - |r|..] == s[|s| - |r|..];
      assert forall i :: 1 <= i < |s| - |r| ==> s[i] == s[1..][..|s| - 1 - |r|][i - 1];
    }
  }

  /** Drops the trailing spaces. */
  function TrimRight(s: string): (r: string)
    ensures |r| <= |s|
    ensures r != [] ==> !IsSpace(r[|r| - 1])
    decreases |s|
  {
    if s != [] && IsSpace(s[|s| - 1]) then TrimRight(s[..|s| - 1]) else s
  }

  /** TrimRight keeps a prefix and drops only spaces after it. */
  lemma {:induction false} TrimRightParts(s: string)
    ensures var r := TrimRight(s); r == s[..|r|] && AllSpace(s[|r|..])
    decreases |s|
  {
    if s != [] && IsSpace(s[|s| - 1]) {
      TrimRightParts(s[..|s| - 1]);
      var r := TrimRight(s[..|s| - 1]);
      assert s[..|s| - 1][..|r|] == s[..|r|];
      assert forall i :: |r| <= i < |s| - 1 ==> s[i] == s[..|s| - 1][|r|..][i - |r|];
    }
  }

  /** strings.TrimSpace. */
  function TrimSpace(s: string): (r: string)
    ensures |r| <= |s|
    ensures r == [] || (!IsSpace(r[0]) && !IsSpace(r[|r| - 1]))
    ensures r == [] <==> AllSpace(s)
    ensures forall i :: 0 <= i < |r| ==> r[i] in s
  {
    var t := TrimLeft(s);
    TrimLeftParts(s);
    TrimRightParts(t);
    var r := TrimRight(t);
    assert s[..|s|] == s && t[0..] == t;
    assert forall i :: 0 <= i < |r| ==> r[i] == s[|s| - |t| + i];
    r
  }

  /** strings.TrimSpace returns the slice of `s` between its leading and its trailing spaces. */
  lemma TrimSpaceSlice(s: string)
    ensures var r := TrimSpace(s);
      exists a :: 0 <= a <= a + |r| <= |s| && r == s[a..a + |r|] && AllSpace(s[..a]) && AllSpace(s[a + |r|..])
  {
    TrimSlice(s);
  }

  /** TrimRight after TrimLeft keeps the slice of `s` between its leading and its trailing spaces. */
  lemma TrimSlice(s: string)
    ensures var t := TrimLeft(s); var r := TrimRight(t); var a := |s| - |t|;
      && a + |r| <= |s| && r == s[a..a + |r|] && AllSpace(s[..a]) && AllSpace(s[a + |r|..])
  {
    var t := TrimLeft(s);
    TrimLeftParts(s);
    TrimRightParts(t);
    var r := TrimRight(t);
    var a := |s| - |t|;
    assert t[|r|..] == s[a + |r|..];
    assert t == s[a..] && r == t[..|r|];
    assert s[a..][..|r|] == s[a..a + |r|];
  }

  /** The non-space characters of `s`, in order. */
  function NonSpace(s: string): string
  {
    if s == [] then [] else (if IsSpace(s[0]) then [] else [s[0]]) + NonSpace(s[1..])
  }

  lemma {:induction false} NonSpaceAppend(a: string, b: string)
    ensures NonSpace(a + b) == NonSpace(a) + NonSpace(b)
    decreases |a|
  {
    if a != [] {
      assert (a + b)[1..] == a[1..] + b;
      NonSpaceAppend(a[1..], b);
    } else {
      assert a + b == b;
    }
  }

  lemma {:induction false} NonSpaceOfSpaces(s: string)
    requires AllSpace(s)
    ensures NonSpace(s) == []
    decreases |s|
  {
    if s != [] { NonSpaceOfSpaces(s[1..]); }
  }

  /** Two strings of equal length that differ only where both have a space agree on their non-space characters. */
  lemma {:induction false} NonSpaceSame(a: string, b: string)
    requires |a| == |b|
    requires forall i :: 0 <= i < |a| ==> a[i] == b[i] || (IsSpace(a[i]) && IsSpace(b[i]))
    ensures NonSpace(a) == NonSpace(b)
    decreases |a|
  {
    if a != [] { NonSpaceSame(a[1..], b[1..]); }
  }

  /** TrimSpace removes only spaces. */
  lemma TrimSpaceNonSpace(s: string)
    ensures NonSpace(TrimSpace(s)) == NonSpace(s)
  {
    var t := TrimLeft(s);
    TrimLeftParts(s);
    TrimRightParts(t);
    var k := |s| - |t|;
    assert s == s[..k] + t;
    NonSpaceAppend(s[..k], t);
    NonSpaceOfSpaces(s[..k]);
    var r := TrimRight(t);
    assert t == r + t[|r|..];
    NonSpaceAppend(r, t[|r|..]);
    NonSpaceOfSpaces(t[|r|..]);
  }

  /** A string with no space at either end is its own TrimSpace. */
  lemma TrimSpaceOfTrimmed(s: string)
    requires s == [] || (!IsSpace(s[0]) && !IsSpace(s[|s| - 1]))
    ensures TrimSpace(s) == s
  {
  }

  /** The length of the leading run of non-space characters. */
  function WordLength(s: string): (n: nat)
    ensures n <= |s|
    ensures forall i :: 0 <= i < n ==> !IsSpace(s[i])
    ensures n < |s| ==> IsSpace(s[n])
  {
    if s == [] || IsSpace(s[0]) then 0 else 1 + WordLength(s[1..])
  }

  /** A non-empty string without spaces: what strings.Fields returns. */
  predicate Word(w: string)
  {
    w != [] && forall i :: 0 <= i < |w| ==> !IsSpace(w[i])
  }

  /** strings.Fields: the maximal runs of non-space characters, in order. */
  function Fields(s: string): seq<string>
    decreases |s|
  {
    if s == [] then []
    else if IsSpace(s[0]) then Fields(s[1..])
    else
      var n := WordLength(s);
      [s[..n]] + Fields(s[n..])
  }

  /** Every field is a word. */
  lemma {:induction false} FieldsAreWords(s: string)
    ensures forall k :: 0 <= k < |Fields(s)| ==> Word(Fields(s)[k])
    decreases |s|
  {
    if s != [] {
      if IsSpace(s[0]) {
        FieldsAreWords(s[1..]);
      } else {
        FieldsAreWords(s[WordLength(s)..]);
      }
    }
  }

  /** A string of spaceless words joined with ' ' never starts or ends with space. */
  predicate WellSpaced(s: string)
  {
    forall i :: 0 <= i < |s| ==> SpacedAt(s, i)
  }

  /** A space at position `i` is a single ' ' between two non-spaces. */
  predicate SpacedAt(s: string, i: int)
    requires 0 <= i < |s|
  {
    IsSpace(s[i]) ==> s[i] == ' ' && 0 < i < |s| - 1 && !IsSpace(s[i - 1]) && !IsSpace(s[i + 1])
  }

  /** A space next to `c`, on either side. */
  predicate SpaceBeside(x: char, y: char, c: char)
  {
    (IsSpace(x) && y == c) || (x == c && IsSpace(y))
  }

  /** No space stands immediately before or after an occurrence of `c`. */
  predicate Tight(s: string, c: char)
  {
    forall i :: 0 <= i < |s| - 1 ==> TightAt(s, i, c)
  }

  /** Positions `i` and `i + 1` are not a space beside `c`. */
  predicate TightAt(s: string, i: int, c: char)
    requires 0 <= i < |s| - 1
  {
    !SpaceBeside(s[i], s[i + 1], c)
  }

  lemma TightConcat(a: string, b: string, c: char)
    ensures Tight(a + b, c) <==>
      Tight(a, c) && Tight(b, c) && (a != [] && b != [] ==> !SpaceBeside(a[|a| - 1], b[0], c))
  {
    var s := a + b;
    if Tight(a, c) && Tight(b, c) && (a != [] && b != [] ==> !SpaceBeside(a[|a| - 1], b[0], c)) {
      forall i | 0 <= i < |s| - 1 ensures TightAt(s, i, c) {
        if i < |a| - 1 {
          assert TightAt(a, i, c);
          assert s[i] == a[i] && s[i + 1] == a[i + 1];
        } else if i >= |a| {
          assert TightAt(b, i - |a|, c);
          assert s[i] == b[i - |a|] && s[i + 1] == b[i - |a| + 1];
        }
      }
    }
    if Tight(s, c) {
      forall i | 0 <= i < |a| - 1 ensures TightAt(a, i, c) {
        assert TightAt(s, i, c);
        assert s[i] == a[i] && s[i + 1] == a[i + 1];
      }
      forall i | 0 <= i < |b| - 1 ensures TightAt(b, i, c) {
        assert TightAt(s, |a| + i, c);
        assert s[|a| + i] == b[i] && s[|a| + i + 1] == b[i + 1];
      }
      if a != [] && b != [] {
        assert TightAt(s, |a| - 1, c);
        assert s[|a| - 1] == a[|a| - 1] && s[|a|] == b[0];
      }
    }
  }

  /** Spaceless words joined with ' ': non-empty exactly when there are words, and well spaced. */
  lemma {:induction false} JoinWords(ws: seq<string>)
    requires forall k :: 0 <= k < |ws| ==> Word(ws[k])
    ensures Join(ws, " ") == [] <==> ws == []
    ensures ws != [] ==> ws[0] != [] && Join(ws, " ") != [] && Join(ws, " ")[0] == ws[0][0]
    ensures WellSpaced(Join(ws, " "))
    decreases |ws|
  {
    if |ws| > 1 {
      var w, j := ws[0], Join(ws[1..], " ");
      JoinWords(ws[1..]);
      var x := w + " " + j;
      assert Join(ws, " ") == x;
      forall i | 0 <= i < |x| ensures SpacedAt(x, i) {
        if i < |w| {
          assert x[i] == w[i];
        } else if i == |w| {
          assert x[i - 1] == w[|w| - 1] && x[i + 1] == j[0];
        } else {
          var k := i - |w| - 1;
          assert SpacedAt(j, k);
          assert x[i] == j[k];
          if 0 < k { assert x[i - 1] == j[k - 1]; } else { assert x[i - 1] == ' '; }
          if k < |j| - 1 { assert x[i + 1] == j[k + 1]; }
        }
      }
    }
  }

  lemma WellSpacedSuffix(s: string, k: nat)
    requires WellSpaced(s) && k <= |s|
    requires k < |s| ==> !IsSpace(s[k])
    ensures WellSpaced(s[k..])
  {
    var t := s[k..];
    forall i | 0 <= i < |t| ensures SpacedAt(t, i) {
      assert SpacedAt(s, k + i);
      assert t[i] == s[k + i];
      if 0 < i < |t| - 1 { assert t[i - 1] == s[k + i - 1] && t[i + 1] == s[k + i + 1]; }
    }
  }

  /** Joining a word in front of other words puts one ' ' between them. */
  lemma JoinCons(w: string, ws: seq<string>, sep: string)
    ensures Join([w] + ws, sep) == if ws == [] then w else w + sep + Join(ws, sep)
  {
    if ws != [] { assert ([w] + ws)[1..] == ws; }
  }

  /** Fields then Join with ' ' gives back a string that is already well spaced. */
  lemma {:induction false} WellSpacedJoinFields(s: string)
    requires WellSpaced(s)
    ensures Join(Fields(s), " ") == s
    decreases |s|
  {
    if s != [] {
      assert SpacedAt(s, 0);
      var n := WordLength(s);
      var w, rest := s[..n], s[n..];
      if n < |s| {
        assert SpacedAt(s, n);
        var tail := s[n + 1..];
        assert rest[1..] == tail;
        assert Fields(rest) == Fields(tail);
        WellSpacedSuffix(s, n + 1);
        WellSpacedJoinFields(tail);
        assert Fields(tail) != [] by { assert tail[0] == s[n + 1]; }
        JoinCons(w, Fields(tail), " ");
        assert s == w + " " + tail;
      } else {
        assert w == s;
        JoinCons(w, [], " ");
      }
    }
  }

  lemma {:induction false} NonSpaceOfWord(w: string)
    requires forall i :: 0 <= i < |w| ==> !IsSpace(w[i])
    ensures NonSpace(w) == w
    decreases |w|
  {
    if w != [] {
      NonSpaceOfWord(w[1..]);
      assert w == [w[0]] + w[1..];
    }
  }

  /** Fields then Join with ' ' keeps every non-space character, in order. */
  lemma {:induction false} JoinFieldsNonSpace(s: string)
    ensures NonSpace(Join(Fields(s), " ")) == NonSpace(s)
    decreases |s|
  {
    if s != [] {
      if IsSpace(s[0]) {
        JoinFieldsNonSpace(s[1..]);
      } else {
        var n := WordLength(s);
        var w, rest := s[..n], s[n..];
        assert s == w + rest;
        assert Fields(s) == [w] + Fields(rest);
        JoinFieldsNonSpace(rest);
        WordBeforeFields(w, rest, Fields(rest));
      }
    }
  }

  /** A word joined in front of the fields of the rest keeps the non-space characters of the word and the rest. */
  lemma WordBeforeFields(w: string, rest: string, fs: seq<string>)
    requires forall i :: 0 <= i < |w| ==> !IsSpace(w[i])
    requires NonSpace(Join(fs, " ")) == NonSpace(rest)
    ensures NonSpace(Join([w] + fs, " ")) == NonSpace(w + rest)
  {
    NonSpaceOfWord(w);
    NonSpaceAppend(w, rest);
    JoinCons(w, fs, " ");
    if fs == [] {
      assert Join([w] + fs, " ") == w;
      assert NonSpace(rest) == NonSpace("");
    } else {
      SpaceThenNonSpace(w, Join(fs, " "));
    }
  }

  /** A word, one space and a string lose only the space and the string's own white space. */
  lemma SpaceThenNonSpace(w: string, j: string)
    requires forall i :: 0 <= i < |w| ==> !IsSpace(w[i])
    ensures NonSpace(w + " " + j) == w + NonSpace(j)
  {
    var y := " " + j;
    assert w + " " + j == w + y;
    NonSpaceAppend(w, y);
    NonSpaceOfWord(w);
    assert y[0] == ' ' && y[1..] == j;
    assert NonSpace(y) == NonSpace(j);
  }

  /** Fields then Join with ' ' is never longer than the input, and shorter when the input starts with a space. */
  lemma {:induction false} JoinFieldsLength(s: string)
    ensures |Join(Fields(s), " ")| <= |s|
    ensures s != [] && IsSpace(s[0]) ==> |Join(Fields(s), " ")| < |s|
    decreases |s|
  {
    if s != [] {
      if IsSpace(s[0]) {
        JoinFieldsLength(s[1..]);
      } else {
        var n := WordLength(s);
        var w, rest := s[..n], s[n..];
        JoinFieldsLength(rest);
        JoinCons(w, Fields(rest), " ");
      }
    }
  }

  /** After a leading space, the first word of Fields does not start with a `c` that no space may precede. */
  lemma {:induction false} FirstWordAfterSpace(s: string, c: char)
    requires Tight(s, c) && s != [] && IsSpace(s[0])
    ensures Fields(s) != [] ==> Fields(s)[0] != [] && Fields(s)[0][0] != c
    decreases |s|
  {
    FieldsAreWords(s);
    var t := s[1..];
    if t != [] {
      assert TightAt(s, 0, c);
      if IsSpace(t[0]) {
        assert Tight(t, c) by {
          forall i | 0 <= i < |t| - 1 ensures TightAt(t, i, c) {
            assert TightAt(s, i + 1, c);
          }
        }
        FirstWordAfterSpace(t, c);
      }
    }
  }

  /** Fields then Join with ' ' keeps every non-space `c` free of neighbouring spaces. */
  lemma {:induction false} JoinFieldsTight(s: string, c: char)
    requires Tight(s, c) && !IsSpace(c)
    ensures Tight(Join(Fields(s), " "), c)
    decreases |s|
  {
    if s != [] {
      if IsSpace(s[0]) {
        TightConcat([s[0]], s[1..], c);
        assert s == [s[0]] + s[1..];
        JoinFieldsTight(s[1..], c);
      } else {
        var n := WordLength(s);
        var w, rest := s[..n], s[n..];
        assert s == w + rest;
        TightConcat(w, rest, c);
        JoinFieldsTight(rest, c);
        var fs := Fields(rest);
        JoinCons(w, fs, " ");
        if fs != [] {
          var j := Join(fs, " ");
          assert TightAt(s, n - 1, c);
          FirstWordAfterSpace(rest, c);
          FieldsAreWords(rest);
          JoinWords(fs);
          TightConcat(w, " ", c);
          TightConcat(w + " ", j, c);
        }
      }
    }
  }

  /** Leading spaces contribute no field. */
  lemma {:induction false} FieldsAfterSpaces(sp: string, y: string)
    requires AllSpace(sp)
    ensures Fields(sp + y) == Fields(y)
    decreases |sp|
  {
    if sp != [] {
      assert (sp + y)[1..] == sp[1..] + y;
      FieldsAfterSpaces(sp[1..], y);
    } else {
      assert sp + y == y;
    }
  }

  /** A word, then white space, then a string with its fields: the word comes first. */
  lemma FieldsWordThenSpaces(w: string, sp: string, y: string, ws: seq<string>)
    requires Word(w) && AllSpace(sp) && sp != [] && Fields(y) == ws
    ensures Fields(w + (sp + y)) == [w] + ws
  {
    FieldsAfterSpaces(sp, y);
    assert (sp + y)[0] == sp[0];
    FieldsAfterWord(w, sp + y);
  }

  /** Four words separated by single spaces are its four fields. */
  lemma FieldsOfFour(w0: string, w1: string, w2: string, w3: string)
    requires Word(w0) && Word(w1) && Word(w2) && Word(w3)
    ensures Fields(w0 + (" " + (w1 + (" " + (w2 + (" " + (w3 + ""))))))) == [w0, w1, w2, w3]
  {
    FieldsOfThree(w1, w2, w3);
    FieldsWordThenSpaces(w0, " ", w1 + (" " + (w2 + (" " + (w3 + "")))), [w1, w2, w3]);
    assert [w0] + [w1, w2, w3] == [w0, w1, w2, w3];
  }

  lemma FieldsOfThree(w1: string, w2: string, w3: string)
    requires Word(w1) && Word(w2) && Word(w3)
    ensures Fields(w1 + (" " + (w2 + (" " + (w3 + ""))))) == [w1, w2, w3]
  {
    FieldsOfTwo(w2, w3);
    FieldsWordThenSpaces(w1, " ", w2 + (" " + (w3 + "")), [w2, w3]);
    assert [w1] + [w2, w3] == [w1, w2, w3];
  }

  lemma FieldsOfTwo(w2: string, w3: string)
    requires Word(w2) && Word(w3)
    ensures Fields(w2 + (" " + (w3 + ""))) == [w2, w3]
  {
    FieldsOfOne(w3);
    FieldsWordThenSpaces(w2, " ", w3 + "", [w3]);
    assert [w2] + [w3] == [w2, w3];
  }

  lemma FieldsOfOne(w3: string)
    requires Word(w3)
    ensures Fields(w3 + "") == [w3]
  {
    FieldsAfterWord(w3, "");
  }

  /** A word that ends at a space or at the end of the string is the next field. */
  lemma FieldsAfterWord(w: string, y: string)
    requires Word(w) && (y == [] || IsSpace(y[0]))
    ensures Fields(w + y) == [w] + Fields(y)
  {
    var s := w + y;
    var n := WordLength(s);
    assert s[..|w|] == w;
    assert forall i :: 0 <= i < |w| ==> !IsSpace(s[i]);
    assert |w| < |s| ==> IsSpace(s[|w|]);
    assert n == |w|;
    assert s[..n] == w && s[n..] == y;
  }

  /** Fields skips the first `m` characters when they are all spaces. */
  lemma FieldsSkip(s: string, m: nat)
    requires m <= |s| && AllSpace(s[..m])
    ensures Fields(s) == Fields(s[m..])
  {
    assert s == s[..m] + s[m..];
    FieldsAfterSpaces(s[..m], s[m..]);
  }

  /** The first `m` characters are the next field when they are a word that a space or the end follows. */
  lemma FieldsTake(s: string, m: nat)
    requires m <= |s| && Word(s[..m]) && (m == |s| || IsSpace(s[m]))
    ensures Fields(s) == [s[..m]] + Fields(s[m..])
  {
    assert s == s[..m] + s[m..];
    FieldsAfterWord(s[..m], s[m..]);
  }
}
