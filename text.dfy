/**
 * String primitives shared by the link resolver and the macro engine: the
 * handful of QString operations the parser relies on (replace, remove,
 * split, trimmed, toUInt/toUShort, indexOf), written out over `seq<char>`.
 */
module Text {

  datatype Option<+T> = None | Some(value: T)

  /** A text with neither square bracket. */
  predicate Plain(s: string) { '[' !in s && ']' !in s }

  /**
   * Whitespace as `QString::trimmed` and the regex class `\s` see it
   * (`QChar::isSpace`): tab to carriage return, the blank, U+0085, the
   * no-break space, and the Unicode space, line and paragraph separators.
   */
  predicate IsSpace(c: char) {
    c == ' ' || '\t' <= c <= '\r' || c == '\U{85}' || c == '\U{A0}' || c == '\U{1680}'
    || '\U{2000}' <= c <= '\U{200A}' || c == '\U{2028}' || c == '\U{2029}' || c == '\U{202F}'
    || c == '\U{205F}' || c == '\U{3000}'
  }

  predicate IsDigit(c: char) { '0' <= c <= '9' }

  predicate IsLetter(c: char) { 'A' <= c <= 'Z' || 'a' <= c <= 'z' }

  /** A regex word character (`\b` is a switch between these and the rest). */
  predicate IsWordChar(c: char) { IsLetter(c) || IsDigit(c) || c == '_' }

  predicate StartsWith(s: string, p: string) {
    |p| <= |s| && s[..|p|] == p
  }

  predicate EndsWith(s: string, p: string) {
    |p| <= |s| && s[|s| - |p|..] == p
  }

  /** Case folding used by Qt::CaseInsensitive (ASCII letters only). */
  function FoldCase(c: char): char {
    if 'A' <= c <= 'Z' then (c as int - 'A' as int + 'a' as int) as char else c
  }

  predicate EqualsIgnoreCase(a: string, b: string) {
    |a| == |b| && forall k :: 0 <= k < |a| ==> FoldCase(a[k]) == FoldCase(b[k])
  }

  predicate StartsWithIgnoreCase(s: string, p: string) {
    |p| <= |s| && EqualsIgnoreCase(s[..|p|], p)
  }

  function Count(s: string, c: char): nat {
    if s == [] then 0 else (if s[0] == c then 1 else 0) + Count(s[1..], c)
  }

  lemma {:induction false} CountAppend(a: string, b: string, c: char)
    ensures Count(a + b, c) == Count(a, c) + Count(b, c)
  {
    if a != [] {
      assert (a + b)[1..] == a[1..] + b;
      CountAppend(a[1..], b, c);
    } else {
      assert a + b == b;
    }
  }

  lemma {:induction false} CountAbsent(s: string, c: char)
    requires c !in s
    ensures Count(s, c) == 0
  {
    if s != [] { CountAbsent(s[1..], c); }
  }

  lemma {:induction false} CountSuffix(s: string, i: nat, j: nat)
    requires i <= j <= |s|
    ensures Count(s[j..], ']') <= Count(s[i..], ']')
  {
    assert s[i..] == s[i..j] + s[j..];
    CountAppend(s[i..j], s[j..], ']');
  }

  lemma {:induction false} Regroup3<T>(a: seq<T>, b: seq<T>, c: seq<T>)
    ensures a + b + c == a + (b + c)
  {
  }

  lemma {:induction false} Regroup5(a: string, b: string, c: string, d: string, e: string)
    ensures a + b + c + d + e == a + (b + c + d + e)
  {
  }

  lemma {:induction false} Regroup7(a: string, b: string, c: string, d: string, e: string, f: string, g: string)
    ensures a + b + c + d + e + f + g == a + (b + c + d + e + f) + g
  {
  }

  /** The end of the run of whitespace that starts at `i`. */
  function SpacesFrom(s: string, i: nat): (n: nat)
    requires i <= |s|
    ensures i <= n <= |s| && (n == |s| || !IsSpace(s[n]))
    decreases |s| - i
  {
    if i < |s| && IsSpace(s[i]) then SpacesFrom(s, i + 1) else i
  }

  /** The start of the run of whitespace that ends at `j`. */
  function SpacesUpTo(s: string, j: nat): (n: nat)
    requires j <= |s|
    ensures n <= j && (n == 0 || !IsSpace(s[n - 1]))
  {
    if j > 0 && IsSpace(s[j - 1]) then SpacesUpTo(s, j - 1) else j
  }

  /** QString::trimmed: whitespace removed from both ends. */
  function TrimStart(s: string): (r: string)
    ensures r == [] || !IsSpace(r[0])
  {
    s[SpacesFrom(s, 0)..]
  }

  lemma {:induction false} SpacesFromAll(s: string, i: nat)
    requires i <= |s|
    ensures forall k :: i <= k < SpacesFrom(s, i) ==> IsSpace(s[k])
    decreases |s| - i
  {
    if i < |s| && IsSpace(s[i]) {
      SpacesFromAll(s, i + 1);
    }
  }

  /** Only whitespace is dropped, and only at the front. */
  lemma {:induction false} TrimStartSpaces(s: string)
    ensures forall k :: 0 <= k < |s| - |TrimStart(s)| ==> IsSpace(s[k])
  {
    SpacesFromAll(s, 0);
  }

  function TrimEnd(s: string): (r: string)
    ensures r == [] || !IsSpace(r[|r| - 1])
  {
    s[..SpacesUpTo(s, |s|)]
  }

  lemma {:induction false} SpacesUpToAll(s: string, j: nat)
    requires j <= |s|
    ensures forall k :: SpacesUpTo(s, j) <= k < j ==> IsSpace(s[k])
  {
    if j > 0 && IsSpace(s[j - 1]) {
      SpacesUpToAll(s, j - 1);
    }
  }

  /** Only whitespace is dropped, and only at the back. */
  lemma {:induction false} TrimEndSpaces(s: string)
    ensures forall k :: |TrimEnd(s)| <= k < |s| ==> IsSpace(s[k])
  {
    SpacesUpToAll(s, |s|);
  }

  /**
   * Trimming keeps the middle of the text: what it drops in front and
   * behind is whitespace only.
   */
  lemma {:induction false} TrimSlice(s: string)
    ensures exists a, b ::
              && 0 <= a <= b <= |s| && TrimEnd(TrimStart(s)) == s[a..b]
              && (forall k :: 0 <= k < a ==> IsSpace(s[k]))
              && (forall k :: b <= k < |s| ==> IsSpace(s[k]))
  {
    var a := SpacesFrom(s, 0);
    var t := TrimStart(s);
    var b := a + SpacesUpTo(t, |t|);
    TrimStartSpaces(s);
    TrimEndSpaces(t);
    assert forall k :: b <= k < |s| ==> s[k] == t[k - a];
    assert TrimEnd(t) == s[a..b];
  }

  function Trimmed(s: string): (r: string)
    ensures |r| <= |s|
    ensures r == [] || (!IsSpace(r[0]) && !IsSpace(r[|r| - 1]))
    ensures exists a, b ::
              && 0 <= a <= b <= |s| && r == s[a..b]
              && (forall k :: 0 <= k < a ==> IsSpace(s[k]))
              && (forall k :: b <= k < |s| ==> IsSpace(s[k]))
  {
    TrimSlice(s);
    TrimEnd(TrimStart(s))
  }

  lemma {:induction false} TrimmedNoSpace(s: string)
    requires forall k :: 0 <= k < |s| ==> !IsSpace(s[k])
    ensures Trimmed(s) == s
  {
    TrimStartSpaces(s);
    TrimEndSpaces(s);
  }

  /** A text whose ends are not whitespace is its own trimmed form. */
  lemma {:induction false} TrimmedEnds(s: string)
    requires s == [] || (!IsSpace(s[0]) && !IsSpace(s[|s| - 1]))
    ensures Trimmed(s) == s
  {
    assert SpacesFrom(s, 0) == 0;
    assert TrimStart(s) == s;
    assert SpacesUpTo(s, |s|) == |s|;
  }

  /** Trimming drops characters from the ends only. */
  lemma {:induction false} TrimmedFree(s: string, c: char)
    ensures c !in s ==> c !in Trimmed(s)
  {
    var a := TrimStart(s);
    assert forall k :: 0 <= k < |a| ==> a[k] == s[|s| - |a| + k];
  }

  /**
   * QString::replace(before, after): every non-overlapping occurrence of
   * `pat`, found left to right, is replaced by `rep`. With `rep == ""`
   * this is QString::remove(before).
   */
  function ReplaceAll(s: string, pat: string, rep: string): string
    requires |pat| > 0
    decreases |s|
  {
    if |s| < |pat| then s
    else if s[..|pat|] == pat then rep + ReplaceAll(s[|pat|..], pat, rep)
    else [s[0]] + ReplaceAll(s[1..], pat, rep)
  }

  function RemoveAll(s: string, pat: string): string
    requires |pat| > 0
  {
    ReplaceAll(s, pat, "")
  }

  /** The same as ReplaceAll, comparing with Qt::CaseInsensitive. */
  function ReplaceAllIgnoreCase(s: string, pat: string, rep: string): string
    requires |pat| > 0
    decreases |s|
  {
    if |s| < |pat| then s
    else if EqualsIgnoreCase(s[..|pat|], pat) then rep + ReplaceAllIgnoreCase(s[|pat|..], pat, rep)
    else [s[0]] + ReplaceAllIgnoreCase(s[1..], pat, rep)
  }

  lemma {:induction false} ReplaceAllIgnoreCaseFree(s: string, pat: string, rep: string, c: char)
    requires |pat| > 0
    ensures c !in s && c !in rep ==> c !in ReplaceAllIgnoreCase(s, pat, rep)
    decreases |s|
  {
    if |s| >= |pat| && c !in s {
      if EqualsIgnoreCase(s[..|pat|], pat) {
        ReplaceAllIgnoreCaseFree(s[|pat|..], pat, rep, c);
      } else {
        ReplaceAllIgnoreCaseFree(s[1..], pat, rep, c);
      }
    }
  }

  predicate OccursAtIgnoreCase(s: string, pat: string, k: nat) {
    k + |pat| <= |s| && EqualsIgnoreCase(s[k..k + |pat|], pat)
  }

  /** A slice of `s` is the same slice of `pre + s`, shifted. */
  lemma {:induction false} SliceShift(pre: string, s: string, j: nat, n: nat)
    requires j + n <= |s|
    ensures (pre + s)[|pre| + j..|pre| + j + n] == s[j..j + n]
  {
  }

  lemma {:induction false} OccursAtIgnoreCaseShift(pre: string, s: string, pat: string, k: nat)
    ensures OccursAtIgnoreCase(pre + s, pat, |pre| + k) == OccursAtIgnoreCase(s, pat, k)
  {
    if k + |pat| <= |s| { SliceShift(pre, s, k, |pat|); }
  }

  /** QString::contains(str, Qt::CaseInsensitive). */
  predicate ContainsIgnoreCase(s: string, pat: string) {
    exists k: nat | k <= |s| :: OccursAtIgnoreCase(s, pat, k)
  }

  /** Replacing a pattern that does not occur changes nothing. */
  lemma {:induction false} ReplaceAllAbsent(s: string, pat: string, rep: string)
    requires |pat| > 0
    requires forall k: nat :: !OccursAt(s, pat, k)
    ensures ReplaceAll(s, pat, rep) == s
  {
    if |s| >= |pat| {
      assert !OccursAt(s, pat, 0);
      OccursAtSlice(s, pat, 0);
      assert s[..|pat|] == s[0..|pat|];
      forall k: nat ensures !OccursAt(s[1..], pat, k) {
        assert !OccursAt(s, pat, k + 1);
        OccursAtSlice(s, pat, k + 1);
        OccursAtSlice(s[1..], pat, k);
        if k + |pat| <= |s[1..]| {
          assert s[1..][k..k + |pat|] == s[k + 1..k + 1 + |pat|];
        }
      }
      ReplaceAllAbsent(s[1..], pat, rep);
      assert s == [s[0]] + s[1..];
    }
  }

  /** A pattern whose first character does not occur leaves the text as it is. */
  lemma {:induction false} ReplaceAllNoStart(s: string, pat: string, rep: string)
    requires |pat| > 0 && pat[0] !in s
    ensures ReplaceAll(s, pat, rep) == s
    decreases |s|
  {
    if |s| >= |pat| {
      assert s[..|pat|][0] == s[0];
      ReplaceAllNoStart(s[1..], pat, rep);
      assert [s[0]] + s[1..] == s;
    }
  }

  /** A character absent from the text and from the replacement is absent from the result. */
  lemma {:induction false} ReplaceAllFree(s: string, pat: string, rep: string, c: char)
    requires |pat| > 0 && c !in s && c !in rep
    ensures c !in ReplaceAll(s, pat, rep)
    decreases |s|
  {
    if |s| >= |pat| {
      if s[..|pat|] == pat {
        ReplaceAllFree(s[|pat|..], pat, rep, c);
      } else {
        ReplaceAllFree(s[1..], pat, rep, c);
      }
    }
  }

  /** A last character that is not part of the pattern is carried to the end. */
  lemma {:induction false} ReplaceAllAppendChar(x: string, c: char, pat: string, rep: string)
    requires |pat| > 0 && c !in pat
    ensures ReplaceAll(x + [c], pat, rep) == ReplaceAll(x, pat, rep) + [c]
    decreases |x|
  {
    var s := x + [c];
    if |s| < |pat| {
    } else if s[..|pat|] == pat {
      assert s[..|pat|][|pat| - 1] in pat;
      assert x[..|pat|] == pat;
      assert s[|pat|..] == x[|pat|..] + [c];
      ReplaceAllAppendChar(x[|pat|..], c, pat, rep);
    } else if |x| < |pat| {
      if x != [] {
        assert s[1..] == x[1..] + [c];
        assert x == [x[0]] + x[1..];
      }
    } else {
      assert x[..|pat|] == s[..|pat|];
      assert s[1..] == x[1..] + [c];
      ReplaceAllAppendChar(x[1..], c, pat, rep);
    }
  }

  /**
   * A pattern whose last character occurs nowhere else in it or in the
   * text before it is found once, at the very end.
   */
  lemma {:induction false} ReplaceAllTail(x: string, pat: string, rep: string)
    requires |pat| > 0 && pat[|pat| - 1] !in x && pat[|pat| - 1] !in pat[..|pat| - 1]
    ensures ReplaceAll(x + pat, pat, rep) == x + rep
    decreases |x|
  {
    var s := x + pat;
    var d := pat[|pat| - 1];
    if x == [] {
      assert s == pat;
      assert s[|pat|..] == [];
    } else {
      assert s[..|pat|] != pat by {
        if |x| >= |pat| {
          assert s[|pat| - 1] == x[|pat| - 1];
        } else {
          assert s[|pat| - 1] == pat[|pat| - 1 - |x|];
        }
      }
      assert s[1..] == x[1..] + pat;
      ReplaceAllTail(x[1..], pat, rep);
      assert [x[0]] + x[1..] == x;
    }
  }

  /** The character-for-character view of a one-character replacement. */
  function MapChar(s: string, c: char, rep: string): (r: string)
    decreases |s|
  {
    if s == [] then [] else (if s[0] == c then rep else [s[0]]) + MapChar(s[1..], c, rep)
  }

  lemma {:induction false} ReplaceCharIsMap(s: string, c: char, rep: string)
    ensures ReplaceAll(s, [c], rep) == MapChar(s, c, rep)
  {
    if s != [] {
      assert s[..1] == [s[0]];
      ReplaceCharIsMap(s[1..], c, rep);
    }
  }

  lemma {:induction false} MapCharFree(s: string, c: char, rep: string, d: char)
    ensures d !in s && d !in rep ==> d !in MapChar(s, c, rep)
    decreases |s|
  {
    if s != [] && d !in s {
      MapCharFree(s[1..], c, rep, d);
    }
  }

  lemma {:induction false} MapCharAppend(a: string, b: string, c: char, rep: string)
    ensures MapChar(a + b, c, rep) == MapChar(a, c, rep) + MapChar(b, c, rep)
  {
    if a == [] {
      assert a + b == b;
    } else {
      assert (a + b)[1..] == a[1..] + b;
      MapCharAppend(a[1..], b, c, rep);
    }
  }

  /** Removing a pattern from text that starts with it and holds no other start of it leaves the rest. */
  lemma {:induction false} RemoveLeading(pat: string, rest: string)
    requires |pat| > 0 && pat[0] !in rest
    ensures RemoveAll(pat + rest, pat) == rest
  {
    assert (pat + rest)[..|pat|] == pat;
    assert (pat + rest)[|pat|..] == rest;
    forall k: nat ensures !OccursAt(rest, pat, k) {
      if k < |rest| { assert rest[k] != pat[0]; }
    }
    ReplaceAllAbsent(rest, pat, "");
  }

  /** QString::remove(QChar): the string with every `c` dropped. */
  function RemoveChar(s: string, c: char): (r: string)
    ensures c !in r
    ensures |r| <= |s|
    decreases |s|
  {
    if s == [] then [] else (if s[0] == c then [] else [s[0]]) + RemoveChar(s[1..], c)
  }

  lemma {:induction false} RemoveCharAppend(a: string, b: string, c: char)
    ensures RemoveChar(a + b, c) == RemoveChar(a, c) + RemoveChar(b, c)
  {
    if a == [] {
      assert a + b == b;
    } else {
      assert (a + b)[1..] == a[1..] + b;
      RemoveCharAppend(a[1..], b, c);
    }
  }

  lemma {:induction false} RemoveCharAbsent(s: string, c: char)
    requires c !in s
    ensures RemoveChar(s, c) == s
  {
    if s != [] {
      RemoveCharAbsent(s[1..], c);
      assert s == [s[0]] + s[1..];
    }
  }

  /** Removing `c` from text without it followed by `c` leaves the text. */
  lemma {:induction false} RemoveLastChar(s: string, c: char)
    requires c !in s
    ensures RemoveChar(s + [c], c) == s
  {
    RemoveCharAppend(s, [c], c);
    assert RemoveChar([c], c) == [];
    RemoveCharAbsent(s, c);
  }

  /** Removing characters adds none. */
  lemma {:induction false} RemoveCharFree(s: string, c: char, d: char)
    requires d !in s
    ensures d !in RemoveChar(s, c)
  {
    if s != [] {
      RemoveCharFree(s[1..], c, d);
    }
  }

  /** Removing one character leaves the count of another. */
  lemma {:induction false} CountRemoveChar(s: string, c: char, d: char)
    requires c != d
    ensures Count(RemoveChar(s, d), c) == Count(s, c)
    decreases |s|
  {
    if s != [] {
      CountRemoveChar(s[1..], c, d);
      CountAppend(if s[0] == d then [] else [s[0]], RemoveChar(s[1..], d), c);
    }
  }

  lemma {:induction false} RemoveAllOneChar(s: string, c: char)
    ensures RemoveAll(s, [c]) == RemoveChar(s, c)
  {
    if s != [] {
      assert s[..1] == [s[0]];
      RemoveAllOneChar(s[1..], c);
    }
  }

  lemma {:induction false} RemoveCharKeeps(s: string, c: char, d: char)
    requires d != c
    ensures d in s ==> d in RemoveChar(s, c)
    decreases |s|
  {
    if s != [] && d in s[1..] { RemoveCharKeeps(s[1..], c, d); }
    if s != [] && s[0] != d { assert d in s ==> d in s[1..]; }
  }

  /**
   * QString::split(QChar) with empty parts kept: `|Count(s, sep)| + 1`
   * pieces, none containing the separator.
   */
  function Split(s: string, sep: char): (r: seq<string>)
    ensures |r| >= 1
    ensures forall k :: 0 <= k < |r| ==> sep !in r[k]
    decreases |s|
  {
    if s == [] then [""]
    else
      var rest := Split(s[1..], sep);
      if s[0] == sep then [""] + rest else [[s[0]] + rest[0]] + rest[1..]
  }

  /** One more piece than separators. */
  lemma {:induction false} SplitCount(s: string, sep: char)
    ensures |Split(s, sep)| == Count(s, sep) + 1
    decreases |s|
  {
    if s != [] {
      SplitCount(s[1..], sep);
    }
  }

  /** The first piece is empty exactly when the text is empty or starts with the separator. */
  lemma {:induction false} SplitFirstEmpty(s: string, sep: char)
    ensures Split(s, sep)[0] == [] <==> (s == [] || s[0] == sep)
  {
  }

  /** QStringList::join(QChar): the pieces with `sep` between neighbours. */
  function Join(parts: seq<string>, sep: char): string
    decreases |parts|
  {
    if parts == [] then ""
    else if |parts| == 1 then parts[0]
    else parts[0] + [sep] + Join(parts[1..], sep)
  }

  /** A character absent from the text is absent from every piece. */
  lemma {:induction false} SplitFree(s: string, sep: char, c: char)
    requires c !in s
    ensures forall k :: 0 <= k < |Split(s, sep)| ==> c !in Split(s, sep)[k]
    decreases |s|
  {
    if s != [] {
      SplitFree(s[1..], sep, c);
    }
  }

  /** A character absent from every piece, other than the separator, is absent from the join. */
  lemma {:induction false} JoinFree(parts: seq<string>, sep: char, c: char)
    ensures c != sep && (forall k :: 0 <= k < |parts| ==> c !in parts[k]) ==> c !in Join(parts, sep)
    decreases |parts|
  {
    if |parts| > 1 {
      JoinFree(parts[1..], sep, c);
      assert forall k :: 1 <= k < |parts| ==> parts[k] == parts[1..][k - 1];
    }
  }

  /** Splitting and joining again gives back the original text. */
  lemma {:induction false} SplitJoin(s: string, sep: char)
    ensures Join(Split(s, sep), sep) == s
    decreases |s|
  {
    if s != [] {
      SplitJoin(s[1..], sep);
      var rest := Split(s[1..], sep);
      if s[0] == sep {
        assert Split(s, sep) == [""] + rest;
        assert ([""] + rest)[1..] == rest;
      } else {
        var r := Split(s, sep);
        assert r == [[s[0]] + rest[0]] + rest[1..];
        if |rest| == 1 {
          assert Join(rest, sep) == rest[0];
        } else {
          assert r[1..] == rest[1..];
          assert Join(rest, sep) == rest[0] + [sep] + Join(rest[1..], sep);
        }
      }
    }
  }

  /** Joining separator-free pieces and splitting again gives back the pieces. */
  lemma {:induction false} JoinSplit(parts: seq<string>, sep: char)
    requires |parts| > 0 && forall k :: 0 <= k < |parts| ==> sep !in parts[k]
    ensures Split(Join(parts, sep), sep) == parts
    decreases |parts|
  {
    if |parts| == 1 {
      SplitAbsent(parts[0], sep);
    } else {
      JoinSplit(parts[1..], sep);
      SplitAfterPrefix(parts[0], Join(parts[1..], sep), sep);
      assert [parts[0]] + parts[1..] == parts;
    }
  }

  /** A text without the separator splits into itself alone. */
  lemma {:induction false} SplitAbsent(s: string, sep: char)
    requires sep !in s
    ensures Split(s, sep) == [s]
    decreases |s|
  {
    if s != [] {
      SplitAbsent(s[1..], sep);
      assert [s[0]] + s[1..] == s;
    }
  }

  lemma {:induction false} SplitAfterPrefix(a: string, b: string, sep: char)
    requires sep !in a
    ensures Split(a + [sep] + b, sep) == [a] + Split(b, sep)
    decreases |a|
  {
    if a == [] {
      assert a + [sep] + b == [sep] + b;
      assert ([sep] + b)[1..] == b;
    } else {
      assert (a + [sep] + b)[1..] == a[1..] + [sep] + b;
      SplitAfterPrefix(a[1..], b, sep);
      assert [a[0]] + a[1..] == a;
    }
  }

  function DigitValue(c: char): nat
    requires IsDigit(c)
  {
    c as int - '0' as int
  }

  predicate AllDigits(s: string) {
    forall k :: 0 <= k < |s| ==> IsDigit(s[k])
  }

  /** The decimal value of the first `n` digits, most significant digit first. */
  function DecimalPrefix(s: string, n: nat): nat
    requires n <= |s| && AllDigits(s)
  {
    if n == 0 then 0 else DecimalPrefix(s, n - 1) * 10 + DigitValue(s[n - 1])
  }

  /** A single digit is worth its digit value. */
  lemma {:induction false} DecimalDigit(c: char)
    requires IsDigit(c)
    ensures AllDigits([c]) && Decimal([c]) == DigitValue(c)
  {
    assert DecimalPrefix([c], 0) == 0;
  }

  /** The decimal value of a digit string. */
  function Decimal(s: string): nat
    requires AllDigits(s)
  {
    DecimalPrefix(s, |s|)
  }

  /**
   * QString::toUInt / toUShort in base 10: surrounding whitespace is
   * ignored, one `+` sign may lead, the rest must be a non-empty run of
   * digits whose value fits `max`; anything else is a conversion failure.
   */
  function ParseUnsigned(s: string, max: nat): Option<nat>
  {
    var t := Trimmed(s);
    if |t| > 0 && t[0] == '+' then ParseDigits(t[1..], max) else ParseDigits(t, max)
  }

  /** A non-empty run of digits whose value fits `max` converts to that value. */
  function ParseDigits(t: string, max: nat): Option<nat>
  {
    if |t| > 0 && AllDigits(t) && Decimal(t) <= max then Some(Decimal(t)) else None
  }

  const MaxUShort: nat := 65535
  const MaxUInt: nat := 4294967295

  /** `toUShort()` without an ok flag: 0 when the conversion fails. */
  function ToUShort(s: string): (r: nat)
    ensures r <= MaxUShort
  {
    match ParseUnsigned(s, MaxUShort)
    case Some(v) => v
    case None => 0
  }

  /** A non-empty digit string converts to its value when that fits, and to 0 otherwise. */
  lemma {:induction false} ToUShortDigits(s: string)
    requires |s| > 0 && AllDigits(s)
    ensures ToUShort(s) == if Decimal(s) <= MaxUShort then Decimal(s) else 0
  {
    assert ParseUnsigned(s, MaxUShort) == ParseDigits(s, MaxUShort) by {
      assert forall k :: 0 <= k < |s| ==> !IsSpace(s[k]);
      TrimmedNoSpace(s);
    }
  }

  function ToUInt(s: string): (r: nat)
    ensures r <= MaxUInt
  {
    match ParseUnsigned(s, MaxUInt)
    case Some(v) => v
    case None => 0
  }

  lemma {:induction false} ToUIntDigits(s: string)
    requires |s| > 0 && AllDigits(s)
    ensures ToUInt(s) == if Decimal(s) <= MaxUInt then Decimal(s) else 0
  {
    assert ParseUnsigned(s, MaxUInt) == ParseDigits(s, MaxUInt) by {
      assert forall k :: 0 <= k < |s| ==> !IsSpace(s[k]);
      TrimmedNoSpace(s);
    }
  }

  /** A `+` sign in front of the digits is accepted and does not change the value. */
  lemma {:induction false} ParseSigned(d: string, max: nat)
    requires |d| > 0 && AllDigits(d)
    ensures ParseUnsigned("+" + d, max) == ParseDigits(d, max)
  {
    var t := "+" + d;
    assert Trimmed(t) == t by {
      assert forall k :: 0 <= k < |t| ==> !IsSpace(t[k]);
      TrimmedNoSpace(t);
    }
    assert t[1..] == d;
  }

  lemma {:induction false} ToUShortSigned(d: string)
    requires |d| > 0 && AllDigits(d)
    ensures ToUShort("+" + d) == if Decimal(d) <= MaxUShort then Decimal(d) else 0
  {
    ParseSigned(d, MaxUShort);
  }

  lemma {:induction false} ToUIntSigned(d: string)
    requires |d| > 0 && AllDigits(d)
    ensures ToUInt("+" + d) == if Decimal(d) <= MaxUInt then Decimal(d) else 0
  {
    ParseSigned(d, MaxUInt);
  }

  /** `n` copies of the space character (`QString::fill`). */
  function Spaces(n: nat): (r: string)
    ensures |r| == n
    ensures forall k :: 0 <= k < n ==> r[k] == ' '
  {
    if n == 0 then "" else Spaces(n - 1) + " "
  }

  /**
   * A pattern tested at a position: `p(s, j)` holds when the pattern
   * matches in `s` starting at `j`.
   */
  type Pattern = (string, nat) -> bool

  /**
   * The first position at or after `from` where `p` matches: the shape of
   * `QRegExp::indexIn(str, offset)` and `QString::indexOf(str, from)`.
   */
  function FindFirst(s: string, from: nat, p: Pattern): (r: Option<nat>)
    ensures r.Some? ==> from <= r.value < |s|
    decreases |s| - from
  {
    if from >= |s| then None
    else if p(s, from) then Some(from)
    else FindFirst(s, from + 1, p)
  }

  /** What FindFirst finds is a match. */
  lemma {:induction false} FindFirstHit(s: string, from: nat, p: Pattern)
    ensures FindFirst(s, from, p).Some? ==> p(s, FindFirst(s, from, p).value)
    decreases |s| - from
  {
    if from < |s| && !p(s, from) {
      FindFirstHit(s, from + 1, p);
    }
  }

  /** There is no match before what FindFirst finds, nor any when it finds none. */
  lemma {:induction false} FindFirstLeftmost(s: string, from: nat, p: Pattern)
    ensures var r := FindFirst(s, from, p);
      forall j :: from <= j < (if r.Some? then r.value else |s|) ==> !p(s, j)
    decreases |s| - from
  {
    if from < |s| && !p(s, from) {
      FindFirstLeftmost(s, from + 1, p);
    }
  }

  /** The leftmost match is what FindFirst finds. */
  lemma {:induction false} FindFirstIs(s: string, from: nat, p: Pattern, i: nat)
    requires from <= i < |s| && p(s, i)
    requires forall j :: from <= j < i ==> !p(s, j)
    ensures FindFirst(s, from, p) == Some(i)
    decreases i - from
  {
    if from < i {
      assert !p(s, from);
      FindFirstIs(s, from + 1, p, i);
    }
  }

  /** No match anywhere from `from` on: FindFirst finds none. */
  lemma {:induction false} FindFirstNone(s: string, from: nat, p: Pattern)
    requires forall j :: from <= j < |s| ==> !p(s, j)
    ensures FindFirst(s, from, p) == None
    decreases |s| - from
  {
    if from < |s| {
      assert !p(s, from);
      FindFirstNone(s, from + 1, p);
    }
  }

  function Shift(r: Option<nat>, d: nat): Option<nat> {
    match r
    case None => None
    case Some(v) => Some(v + d)
  }

  /**
   * Text in front only shifts the result, for a pattern that does not
   * look behind the position it is tested at.
   */
  lemma {:induction false} FindFirstShift(pre: string, s: string, k: nat, p: Pattern)
    requires forall j :: k <= j < |s| ==> p(pre + s, |pre| + j) == p(s, j)
    ensures FindFirst(pre + s, |pre| + k, p) == Shift(FindFirst(s, k, p), |pre|)
    decreases |s| - k
  {
    if k < |s| {
      assert p(pre + s, |pre| + k) == p(s, k);
      FindFirstShift(pre, s, k + 1, p);
    }
  }

  /** A search from `from` that finds nothing before `to` is a search from `to`. */
  lemma {:induction false} FindFirstSkip(s: string, from: nat, to: nat, p: Pattern)
    requires from <= to
    requires forall j :: from <= j < to && j < |s| ==> !p(s, j)
    ensures FindFirst(s, from, p) == FindFirst(s, to, p)
    decreases (to as int) - (from as int)
  {
    if from < to && from < |s| {
      assert !p(s, from);
      FindFirstSkip(s, from + 1, to, p);
    }
  }

  /** `pat` occurs in `s` starting at position `k` (compared character by character). */
  predicate OccursAt(s: string, pat: string, k: nat)
    decreases |pat|
  {
    if |pat| == 0 then k <= |s|
    else k < |s| && s[k] == pat[0] && OccursAt(s, pat[1..], k + 1)
  }

  lemma {:induction false} OccursAtSlice(s: string, pat: string, k: nat)
    ensures OccursAt(s, pat, k) <==> k + |pat| <= |s| && s[k..k + |pat|] == pat
    decreases |pat|
  {
    if |pat| > 0 {
      OccursAtSlice(s, pat[1..], k + 1);
      if k + |pat| <= |s| {
        var w := s[k..k + |pat|];
        assert w[1..] == s[k + 1..k + 1 + |pat[1..]|];
        if w == pat {
          assert w[0] == pat[0];
        }
      }
    }
  }

  lemma {:induction false} OccursAtShift(pre: string, s: string, pat: string, k: nat)
    ensures OccursAt(pre + s, pat, |pre| + k) == OccursAt(s, pat, k)
    decreases |pat|
  {
    if |pat| > 0 {
      OccursAtShift(pre, s, pat[1..], k + 1);
    }
  }

  /** The pattern of `QString::indexOf(str, from)`. */
  function Literal(pat: string): Pattern {
    (s: string, j: nat) => OccursAt(s, pat, j)
  }

  /** The position of the first `c` at or after `from`. */
  function IndexOf(s: string, c: char, from: nat): (r: Option<nat>)
    ensures r.Some? ==> from <= r.value < |s| && s[r.value] == c
    ensures r.Some? ==> c !in s[from..r.value]
    ensures r.None? ==> from > |s| || c !in s[from..]
    decreases |s| - from
  {
    if from >= |s| then None
    else if s[from] == c then Some(from)
    else IndexOf(s, c, from + 1)
  }

  /** The first `c` from `from` on is the one at `k` when there is none before it. */
  lemma {:induction false} IndexOfIs(s: string, c: char, from: nat, k: nat)
    requires from <= k < |s| && s[k] == c && c !in s[from..k]
    ensures IndexOf(s, c, from) == Some(k)
    decreases k - from
  {
    if from < k {
      assert s[from] == s[from..k][0];
      assert s[from + 1..k] == s[from..k][1..];
      IndexOfIs(s, c, from + 1, k);
    }
  }

  lemma {:induction false} IndexOfShift(pre: string, s: string, c: char, k: nat)
    ensures IndexOf(pre + s, c, |pre| + k) == Shift(IndexOf(s, c, k), |pre|)
    decreases |s| - k
  {
    if k < |s| {
      assert (pre + s)[|pre| + k] == s[k];
      IndexOfShift(pre, s, c, k + 1);
    }
  }

  /** The number of `]` at or after `cursor`: what every bracket pass uses up. */
  function Closers(doc: string, cursor: nat): nat
    decreases |doc| - cursor
  {
    if cursor >= |doc| then 0 else (if doc[cursor] == ']' then 1 else 0) + Closers(doc, cursor + 1)
  }

  lemma {:induction false} ClosersCount(doc: string, cursor: nat)
    requires cursor <= |doc|
    ensures Closers(doc, cursor) == Count(doc[cursor..], ']')
    decreases |doc| - cursor
  {
    if cursor < |doc| {
      ClosersCount(doc, cursor + 1);
      assert doc[cursor..][1..] == doc[cursor + 1..];
    }
  }

  /**
   * Splicing a `]`-free replacement over a span that ends in `]` and
   * resuming anywhere past the span's start leaves fewer `]` ahead.
   */
  lemma {:induction false} SpliceUsesCloser(doc: string, cursor: nat, i: nat, e: nat, r: string, resume: nat)
    requires cursor <= i < e <= |doc| && doc[e - 1] == ']'
    requires ']' !in r
    requires resume >= i
    ensures Closers(doc[..i] + r + doc[e..], resume) < Closers(doc, cursor)
  {
    var d := doc[..i] + r + doc[e..];
    ClosersCount(doc, cursor);
    CountSuffix(doc, cursor, i);
    SpanCount(doc, i, e);
    if resume <= |d| {
      ClosersCount(d, resume);
      if resume <= i + |r| {
        assert d[resume..] == r[resume - i..] + doc[e..];
        CountAppend(r[resume - i..], doc[e..], ']');
        CountAbsent(r[resume - i..], ']');
      } else {
        var j := resume - i - |r| + e;
        assert d[resume..] == doc[j..];
        CountSuffix(doc, e, j);
      }
    }
  }

  /** Resuming past a span that ends in `]` without changing the text. */
  lemma {:induction false} SkipUsesCloser(doc: string, cursor: nat, i: nat, e: nat)
    requires cursor <= i < e <= |doc| && doc[e - 1] == ']'
    ensures Closers(doc, e) < Closers(doc, cursor)
  {
    ClosersCount(doc, cursor);
    ClosersCount(doc, e);
    CountSuffix(doc, cursor, i);
    SpanCount(doc, i, e);
  }

  /** A span ending in `]` holds at least that one. */
  lemma {:induction false} SpanCount(doc: string, i: nat, e: nat)
    requires i < e <= |doc| && doc[e - 1] == ']'
    ensures Count(doc[i..], ']') > Count(doc[e..], ']')
  {
    assert doc[i..] == doc[i..e - 1] + [']'] + doc[e..];
    CountAppend(doc[i..e - 1] + [']'], doc[e..], ']');
    CountAppend(doc[i..e - 1], [']'], ']');
  }

  lemma {:induction false} ClosersMono(doc: string, cursor: nat, i: nat)
    requires cursor <= i
    ensures Closers(doc, i) <= Closers(doc, cursor)
  {
    if cursor < i { ClosersStep(doc, cursor, i - 1); }
  }

  lemma {:induction false} ClosersStep(doc: string, cursor: nat, i: nat)
    requires cursor <= i
    ensures Closers(doc, i + 1) <= Closers(doc, cursor)
    decreases i - cursor
  {
    if cursor < i { ClosersStep(doc, cursor + 1, i); }
  }

  /** Patterns that can only match at an opening bracket. */
  ghost predicate OpensWithBracket(p: Pattern) {
    forall s: string, j: nat :: p(s, j) ==> j < |s| && s[j] == '['
  }

  /** A pattern that opens with a bracket finds nothing in a text without one. */
  lemma {:induction false} FindFirstNoBracket(s: string, from: nat, p: Pattern)
    requires OpensWithBracket(p) && '[' !in s
    ensures FindFirst(s, from, p) == None
  {
    FindFirstHit(s, from, p);
  }

  /** How far into the text after a replacement of length `r` a scan resumes that skips `n` characters. */
  function Overhang(n: nat, r: nat): nat {
    if n <= r then 0 else n - r
  }

  /**
   * Resuming `n` characters into a `[`-free replacement `r`: the next
   * match lies in the text after `r`, `n - |r|` characters in when the
   * replacement is shorter than `n`.
   */
  lemma {:induction false} ResumeAfterReplacement(pre: string, r: string, post: string, n: nat, p: Pattern)
    requires OpensWithBracket(p)
    requires '[' !in r
    requires forall j :: 0 <= j < |post| ==> p(pre + r + post, |pre + r| + j) == p(post, j)
    ensures FindFirst(pre + r + post, |pre| + n, p)
         == Shift(FindFirst(post, Overhang(n, |r|), p), |pre| + |r|)
  {
    var d := pre + r + post;
    assert d == (pre + r) + post;
    if n <= |r| {
      ResumeInside(pre, r, post, n, p);
      FindFirstShift(pre + r, post, 0, p);
    } else {
      FindFirstShift(pre + r, post, n - |r|, p);
    }
  }

  /** Nothing matches inside a `[`-free replacement. */
  lemma {:induction false} ResumeInside(pre: string, r: string, post: string, n: nat, p: Pattern)
    requires OpensWithBracket(p) && '[' !in r && n <= |r|
    ensures FindFirst(pre + r + post, |pre| + n, p) == FindFirst(pre + r + post, |pre + r|, p)
  {
    var d := pre + r + post;
    forall j | |pre| + n <= j < |pre| + |r| && j < |d| ensures !p(d, j) {
      assert d[j] == r[j - |pre|];
    }
    FindFirstSkip(d, |pre| + n, |pre| + |r|, p);
  }
}
