/**
 * The JavaScript string built-ins the HR pages rely on: the `.length` that zod's
 * `min` checks measure, `String.prototype.trim` (ECMA-262, 2022 edition, section
 * 22.1.3.30) and `String.prototype.split` with a one-character separator (section
 * 22.1.3.22). `Join` is `Array.prototype.join`, used only as the inverse of `Split`.
 *
 * Strings are Dafny strings: sequences of Unicode scalar values.
 */
module JsString {

  /** Number of UTF-16 code units a code point takes: two above the Basic Multilingual Plane. */
  function CodeUnits(c: char): nat {
    if c as int < 0x1_0000 then 1 else 2
  }

  /** JavaScript's `.length`: the length of the string in UTF-16 code units. */
  function Utf16Length(s: string): (n: nat)
    ensures |s| <= n <= 2 * |s|
    ensures n == 0 <==> s == []
  {
    if s == [] then 0 else CodeUnits(s[0]) + Utf16Length(s[1..])
  }

  /** On text inside the Basic Multilingual Plane, `.length` is the number of characters. */
  lemma {:induction false} BmpLength(s: string)
    requires forall i :: 0 <= i < |s| ==> s[i] as int < 0x1_0000
    ensures Utf16Length(s) == |s|
  {
    if s != [] {
      BmpLength(s[1..]);
    }
  }

  /** The Zs (space separator) code points of Unicode. */
  predicate IsSpaceSeparator(c: char) {
    || c == ' ' || c == '\U{A0}' || c == '\U{1680}'
    || ('\U{2000}' <= c <= '\U{200A}')
    || c == '\U{202F}' || c == '\U{205F}' || c == '\U{3000}'
  }

  /**
   * What `trim` removes: a WhiteSpace code point (ECMA-262 section 12.2: TAB,
   * VT, FF, ZWNBSP and every Zs code point) or a LineTerminator (section 12.3:
   * LF, CR, LINE SEPARATOR, PARAGRAPH SEPARATOR).
   */
  predicate IsTrimmable(c: char) {
    || c == '\t' || c == '\U{B}' || c == '\U{C}' || c == '\U{FEFF}'
    || IsSpaceSeparator(c)
    || c == '\n' || c == '\r' || c == '\U{2028}' || c == '\U{2029}'
  }

  /** A string with nothing for `trim` to remove at either end. */
  predicate IsTrimmed(t: string) {
    t == [] || (!IsTrimmable(t[0]) && !IsTrimmable(t[|t| - 1]))
  }

  /**
   * The first index at or after `i` that holds no trimmable code point
   * (`|s|` when there is none): where TrimString(s, start) cuts.
   */
  function FirstKept(s: string, i: nat): (n: nat)
    requires i <= |s|
    ensures i <= n <= |s|
    ensures forall k :: i <= k < n ==> IsTrimmable(s[k])
    ensures n == |s| || !IsTrimmable(s[n])
    decreases |s| - i
  {
    if i < |s| && IsTrimmable(s[i]) then FirstKept(s, i + 1) else i
  }

  /**
   * The end of the last code point before `j` and after `lo` that is not
   * trimmable (`lo` when there is none): where TrimString(s, end) cuts.
   */
  function LastKept(s: string, j: nat, lo: nat): (n: nat)
    requires lo <= j <= |s|
    ensures lo <= n <= j
    ensures forall k :: n <= k < j ==> IsTrimmable(s[k])
    ensures n == lo || !IsTrimmable(s[n - 1])
    decreases j
  {
    if j > lo && IsTrimmable(s[j - 1]) then LastKept(s, j - 1, lo) else j
  }

  /**
   * `s.trim()`: the slice of `s` left after removing trimmable code points at
   * both ends; everything removed is trimmable and the slice is trimmed.
   */
  function Trim(s: string): (r: string)
    ensures var a := FirstKept(s, 0);
      && a + |r| <= |s| && r == s[a..a + |r|]
      && (forall k :: 0 <= k < a ==> IsTrimmable(s[k]))
      && (forall k :: a + |r| <= k < |s| ==> IsTrimmable(s[k]))
    ensures IsTrimmed(r)
  {
    var a := FirstKept(s, 0);
    var b := LastKept(s, |s|, a);
    assert a < b ==> s[a..b][0] == s[a] && s[a..b][b - a - 1] == s[b - 1];
    s[a..b]
  }

  /** A trimmable run from `i` up to the untrimmable index `a` (or the end) is all `FirstKept` skips. */
  lemma {:induction false} FirstKeptAt(s: string, i: nat, a: nat)
    requires i <= a <= |s|
    requires forall k :: i <= k < a ==> IsTrimmable(s[k])
    requires a == |s| || !IsTrimmable(s[a])
    ensures FirstKept(s, i) == a
    decreases a - i
  {
    if i < a {
      FirstKeptAt(s, i + 1, a);
    }
  }

  /** A trimmable run from `b` up to `j`, preceded by an untrimmable code point or `lo`, is all `LastKept` skips. */
  lemma {:induction false} LastKeptAt(s: string, j: nat, lo: nat, b: nat)
    requires lo <= b <= j <= |s|
    requires forall k :: b <= k < j ==> IsTrimmable(s[k])
    requires b == lo || !IsTrimmable(s[b - 1])
    ensures LastKept(s, j, lo) == b
    decreases j - b
  {
    if b < j {
      LastKeptAt(s, j - 1, lo, b);
    }
  }

  /**
   * `Trim` is characterised by its shape: whenever `s` splits into trimmable
   * code points, a trimmed middle and trimmable code points, the middle is `Trim(s)`.
   */
  lemma TrimUnique(s: string, a: nat, b: nat)
    requires a <= b <= |s|
    requires forall k :: 0 <= k < a ==> IsTrimmable(s[k])
    requires forall k :: b <= k < |s| ==> IsTrimmable(s[k])
    requires IsTrimmed(s[a..b])
    ensures Trim(s) == s[a..b]
  {
    if a < b {
      assert s[a..b][0] == s[a] && s[a..b][b - a - 1] == s[b - 1];
      FirstKeptAt(s, 0, a);
      LastKeptAt(s, |s|, a, b);
    } else {
      FirstKeptAt(s, 0, |s|);
      LastKeptAt(s, |s|, |s|, |s|);
    }
  }

  /** A trimmed string is left as it is. */
  lemma TrimFixesTrimmed(t: string)
    requires IsTrimmed(t)
    ensures Trim(t) == t
  {
    assert t[0..|t|] == t;
    TrimUnique(t, 0, |t|);
  }

  /** Trimming twice is trimming once. */
  lemma TrimIdempotent(s: string)
    ensures Trim(Trim(s)) == Trim(s)
  {
    TrimFixesTrimmed(Trim(s));
  }

  /** `trim` only removes characters, so one absent from `s` is absent from `Trim(s)`. */
  lemma TrimKeepsAbsent(s: string, c: char)
    requires c !in s
    ensures c !in Trim(s)
  {
  }

  /**
   * `s.split([sep])`: the maximal runs of `s` between occurrences of `sep`, in
   * order, empty runs included; the empty string splits into one empty segment.
   */
  function Split(s: string, sep: char): (parts: seq<string>)
    ensures |parts| >= 1
    decreases |s|
  {
    if s == [] then [[]]
    else
      var rest := Split(s[1..], sep);
      if s[0] == sep then [[]] + rest else [[s[0]] + rest[0]] + rest[1..]
  }

  /** `parts.join([sep])`. */
  function Join(parts: seq<string>, sep: char): (r: string)
    ensures |parts| > 0 ==> parts[0] <= r
    decreases |parts|
  {
    if |parts| == 0 then []
    else if |parts| == 1 then parts[0]
    else parts[0] + [sep] + Join(parts[1..], sep)
  }

  /** `split` yields one more segment than there are separators. */
  lemma {:induction false} SplitCount(s: string, sep: char)
    ensures |Split(s, sep)| == multiset(s)[sep] + 1
    decreases |s|
  {
    if s != [] {
      assert s == [s[0]] + s[1..];
      assert multiset(s) == multiset([s[0]]) + multiset(s[1..]);
      SplitCount(s[1..], sep);
    }
  }

  /** No segment of `split` contains the separator. */
  lemma {:induction false} SplitSegmentsFree(s: string, sep: char)
    ensures forall i :: 0 <= i < |Split(s, sep)| ==> sep !in Split(s, sep)[i]
    decreases |s|
  {
    if s != [] {
      SplitSegmentsFree(s[1..], sep);
    }
  }

  /** Joining the segments with the separator gives back the input. */
  lemma {:induction false} JoinSplit(s: string, sep: char)
    ensures Join(Split(s, sep), sep) == s
    decreases |s|
  {
    if s != [] {
      var rest := Split(s[1..], sep);
      JoinSplit(s[1..], sep);
      if s[0] == sep {
        assert ([[]] + rest)[1..] == rest;
      } else {
        var parts := [[s[0]] + rest[0]] + rest[1..];
        if |rest| > 1 {
          assert parts[1..] == rest[1..];
          assert Join(rest, sep) == rest[0] + [sep] + Join(rest[1..], sep);
        }
      }
    }
  }

  /** Splitting `a + r` where `a` holds no separator glues `a` onto the first segment of `r`. */
  lemma {:induction false} SplitPrefix(a: string, r: string, sep: char)
    requires sep !in a
    ensures Split(a + r, sep) == [a + Split(r, sep)[0]] + Split(r, sep)[1..]
    decreases |a|
  {
    if a != [] {
      var rs := Split(r, sep);
      var ar := a + r;
      assert a[0] in a;
      assert ar[0] == a[0] && ar[1..] == a[1..] + r;
      SplitPrefix(a[1..], r, sep);
      var rest := Split(ar[1..], sep);
      assert rest == [a[1..] + rs[0]] + rs[1..];
      assert Split(ar, sep) == [[a[0]] + rest[0]] + rest[1..];
      assert rest[0] == a[1..] + rs[0] && rest[1..] == rs[1..];
      assert [a[0]] + (a[1..] + rs[0]) == a + rs[0];
    } else {
      var rs := Split(r, sep);
      assert a + r == r && a + rs[0] == rs[0];
      assert [rs[0]] + rs[1..] == rs;
    }
  }

  /** Conversely, splitting a join of separator-free segments gives the segments back. */
  lemma {:induction false} SplitJoin(parts: seq<string>, sep: char)
    requires |parts| >= 1
    requires forall i :: 0 <= i < |parts| ==> sep !in parts[i]
    ensures Split(Join(parts, sep), sep) == parts
    decreases |parts|
  {
    if |parts| == 1 {
      SplitPrefix(parts[0], [], sep);
      assert parts[0] + [] == parts[0];
    } else {
      var tail := Join(parts[1..], sep);
      SplitJoin(parts[1..], sep);
      assert parts[0] + [sep] + tail == parts[0] + ([sep] + tail);
      SplitPrefix(parts[0], [sep] + tail, sep);
      assert ([sep] + tail)[1..] == tail;
      assert parts[0] + [] == parts[0];
      assert [parts[0]] + parts[1..] == parts;
    }
  }
}
