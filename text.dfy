/** Text helpers that the line decoder borrows from the Rust standard library:
    `Option`, `str::trim` and `str::splitn(2, sep)`, all over ASCII text. */
module Text {

  datatype Option<+T> = None | Some(value: T)

  /** Every character is a single byte (code point below 128). The decoder mixes
      byte slicing with character indexing, and the two agree only on such text. */
  predicate IsAscii(s: string) {
    forall k :: 0 <= k < |s| ==> s[k] < 128 as char
  }

  /** A slice of ASCII text is ASCII. */
  lemma AsciiSlice(s: string, lo: nat, hi: nat)
    requires IsAscii(s) && lo <= hi <= |s|
    ensures IsAscii(s[lo..hi])
  {
    assert forall k :: 0 <= k < hi - lo ==> s[lo..hi][k] == s[lo + k];
  }

  /** Rust's `char::is_whitespace` restricted to ASCII: tab, line feed,
      vertical tab, form feed, carriage return and space. */
  predicate IsWhitespace(c: char) {
    c == ' ' || ('\t' <= c <= '\r')
  }

  predicate AllWhitespace(s: string) {
    forall k :: 0 <= k < |s| ==> IsWhitespace(s[k])
  }

  /** `str::trim_start`: drops the leading whitespace and nothing else. */
  function TrimStart(s: string): (r: string)
    ensures |r| <= |s| && r == s[|s| - |r|..]
    ensures AllWhitespace(s[..|s| - |r|])
    ensures r == [] || !IsWhitespace(r[0])
    decreases |s|
  {
    if |s| > 0 && IsWhitespace(s[0]) then TrimStart(s[1..]) else s
  }

  /** `str::trim_end`: drops the trailing whitespace and nothing else. */
  function TrimEnd(s: string): (r: string)
    ensures |r| <= |s| && r == s[..|r|]
    ensures AllWhitespace(s[|r|..])
    ensures r == [] || !IsWhitespace(r[|r| - 1])
    decreases |s|
  {
    if |s| > 0 && IsWhitespace(s[|s| - 1]) then TrimEnd(s[..|s| - 1]) else s
  }

  /** `str::trim`: the longest slice of `s` with no whitespace at either end. */
  function Trim(s: string): (r: string)
    ensures |r| <= |s|
    ensures r == [] || (!IsWhitespace(r[0]) && !IsWhitespace(r[|r| - 1]))
    ensures AllWhitespace(s) ==> r == []
  {
    TrimEnd(TrimStart(s))
  }

  /** `s.splitn(2, sep)`: the text before the first `sep` and, when `sep`
      occurs, the text after it. */
  function SplitOnce(s: string, sep: char): (r: (string, Option<string>))
    ensures r.1.None? ==> sep !in s && r.0 == s
    ensures r.1.Some? ==> sep !in r.0 && s == r.0 + [sep] + r.1.value
    decreases |s|
  {
    if |s| == 0 then ([], None)
    else if s[0] == sep then ([], Some(s[1..]))
    else
      var t := SplitOnce(s[1..], sep);
      assert s == [s[0]] + s[1..];
      ([s[0]] + t.0, t.1)
  }

  /** The split is determined by the first separator: any way of writing `s`
      as `a + [sep] + b` with no `sep` in `a` is the one `SplitOnce` returns. */
  lemma {:induction false} SplitOnceAtFirst(s: string, sep: char, a: string, b: string)
    requires s == a + [sep] + b && sep !in a
    ensures SplitOnce(s, sep) == (a, Some(b))
    decreases |a|
  {
    if a != [] {
      assert s[0] == a[0] && a[0] in a;
      assert s[1..] == a[1..] + [sep] + b;
      SplitOnceAtFirst(s[1..], sep, a[1..], b);
      assert a == [a[0]] + a[1..];
    } else {
      assert s[1..] == b;
    }
  }

  /** A text with no separator is not split. */
  lemma {:induction false} SplitOnceWithoutSeparator(s: string, sep: char)
    requires sep !in s
    ensures SplitOnce(s, sep) == (s, None)
    decreases |s|
  {
    if s != [] {
      SplitOnceWithoutSeparator(s[1..], sep);
      assert s == [s[0]] + s[1..];
    }
  }

  /** Trimming twice is trimming once. */
  lemma TrimIdempotent(s: string)
    ensures Trim(Trim(s)) == Trim(s)
  {
    var t := Trim(s);
    if t != [] {
      assert TrimStart(t) == t;
      assert TrimEnd(t) == t;
    }
  }

  /** Text that already has no whitespace at its ends is left as it is. */
  lemma TrimKeepsUntrimmed(s: string)
    requires s == [] || (!IsWhitespace(s[0]) && !IsWhitespace(s[|s| - 1]))
    ensures Trim(s) == s
  {
  }
}
