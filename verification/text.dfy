/** String operations the source relies on, written out with the semantics of
    the library call they stand for: Java's `String.trim`, `lastIndexOf` and
    `toLowerCase`, and JavaScript's `split`, `join`, `toUpperCase` and
    `length`. Case mapping is restricted to ASCII letters. */
module Text {

  /** Java's `trim` removes every leading and trailing character whose code is
      at most U+0020. */
  predicate IsTrimmable(c: char) {
    c <= ' '
  }

  /** The first position at or after `i` that holds a non-trimmable
      character, or the length when there is none. */
  function TrimLo(s: string, i: nat): (n: nat)
    requires i <= |s|
    ensures i <= n <= |s|
    ensures forall k :: i <= k < n ==> IsTrimmable(s[k])
    ensures n < |s| ==> !IsTrimmable(s[n])
    decreases |s| - i
  {
    if i < |s| && IsTrimmable(s[i]) then TrimLo(s, i + 1) else i
  }

  /** The end of the last non-trimmable character in `s[lo..j]`, or `lo`
      when there is none. */
  function TrimHi(s: string, lo: nat, j: nat): (n: nat)
    requires lo <= j <= |s|
    ensures lo <= n <= j
    ensures forall k :: n <= k < j ==> IsTrimmable(s[k])
    ensures n > lo ==> !IsTrimmable(s[n - 1])
    decreases j - lo
  {
    if j > lo && IsTrimmable(s[j - 1]) then TrimHi(s, lo, j - 1) else j
  }

  /** Java's `String.trim`: the longest infix of `s` that neither starts nor
      ends with a trimmable character. */
  function Trim(s: string): (r: string)
    ensures exists i, j ::
              && 0 <= i <= j <= |s| && r == s[i..j]
              && (forall k :: 0 <= k < i ==> IsTrimmable(s[k]))
              && (forall k :: j <= k < |s| ==> IsTrimmable(s[k]))
    ensures r == [] || (!IsTrimmable(r[0]) && !IsTrimmable(r[|r| - 1]))
  {
    var i := TrimLo(s, 0);
    var j := TrimHi(s, i, |s|);
    s[i..j]
  }

  /** `s.trim().isEmpty()` */
  predicate IsBlank(s: string) {
    Trim(s) == []
  }

  /** A string is blank exactly when every character of it is trimmable; in
      particular the empty string is blank. */
  lemma BlankIffAllTrimmable(s: string)
    ensures IsBlank(s) <==> forall k :: 0 <= k < |s| ==> IsTrimmable(s[k])
  {
    var i := TrimLo(s, 0);
    var j := TrimHi(s, i, |s|);
    assert Trim(s) == s[i..j];
    if i < |s| {
      assert !IsTrimmable(s[i]);
      assert j > i;
    }
  }

  /** Bounds that cut off exactly the trimmable ends are the ones `trim`
      finds. */
  lemma TrimExact(s: string, i: nat, j: nat)
    requires i < j <= |s|
    requires forall k :: 0 <= k < i ==> IsTrimmable(s[k])
    requires forall k :: j <= k < |s| ==> IsTrimmable(s[k])
    requires !IsTrimmable(s[i]) && !IsTrimmable(s[j - 1])
    ensures Trim(s) == s[i..j]
  {
    var n := TrimLo(s, 0);
    assert n <= i by {
      assert !IsTrimmable(s[i]);
    }
    assert n >= i by {
      assert !IsTrimmable(s[n]);
    }
    var m := TrimHi(s, i, |s|);
    assert m >= j by {
      assert !IsTrimmable(s[j - 1]);
    }
    assert m <= j by {
      assert !IsTrimmable(s[m - 1]);
    }
  }

  /** Whitespace added around a non-blank string is trimmed away again. */
  lemma TrimPad(s: string)
    requires !IsBlank(s)
    ensures Trim(" " + s + "\t") == Trim(s)
  {
    BlankIffAllTrimmable(s);
    var i := TrimLo(s, 0);
    var j := TrimHi(s, i, |s|);
    assert i < |s| by {
      var k :| 0 <= k < |s| && !IsTrimmable(s[k]);
    }
    assert j > i by {
      assert !IsTrimmable(s[i]);
    }
    TrimExact(s, i, j);
    var p := " " + s + "\t";
    PaddedTrimBounds(s, p, i, j);
    TrimExact(p, i + 1, j + 1);
  }

  /** The bounds of `s` shifted by one are bounds of the padded string, and
      cut out the same infix. */
  lemma PaddedTrimBounds(s: string, p: string, i: nat, j: nat)
    requires p == " " + s + "\t"
    requires i < j <= |s|
    requires forall k :: 0 <= k < i ==> IsTrimmable(s[k])
    requires forall k :: j <= k < |s| ==> IsTrimmable(s[k])
    requires !IsTrimmable(s[i]) && !IsTrimmable(s[j - 1])
    ensures j + 1 <= |p|
    ensures forall k :: 0 <= k < i + 1 ==> IsTrimmable(p[k])
    ensures forall k :: j + 1 <= k < |p| ==> IsTrimmable(p[k])
    ensures !IsTrimmable(p[i + 1]) && !IsTrimmable(p[j])
    ensures p[i + 1..j + 1] == s[i..j]
  {
    assert |p| == |s| + 2;
    assert forall k :: 1 <= k <= |s| ==> p[k] == s[k - 1];
    assert p[0] == ' ' && p[|s| + 1] == '\t';
  }

  /** Java's `lastIndexOf`: the position of the last occurrence of `c`, or -1. */
  function LastIndexOf(s: string, c: char): (r: int)
    ensures -1 <= r < |s|
    ensures r == -1 <==> c !in s
    ensures r >= 0 ==> s[r] == c && forall k :: r < k < |s| ==> s[k] != c
  {
    if s == [] then -1
    else if s[|s| - 1] == c then |s| - 1
    else
      assert forall k :: 0 <= k < |s| - 1 ==> s[..|s| - 1][k] == s[k];
      LastIndexOf(s[..|s| - 1], c)
  }

  function LowerChar(c: char): char {
    if 'A' <= c <= 'Z' then (c as int + 32) as char else c
  }

  function UpperChar(c: char): char {
    if 'a' <= c <= 'z' then (c as int - 32) as char else c
  }

  function Lower(s: string): (r: string)
    ensures |r| == |s|
    ensures forall i :: 0 <= i < |s| ==> r[i] == LowerChar(s[i])
  {
    if s == [] then [] else [LowerChar(s[0])] + Lower(s[1..])
  }

  function Upper(s: string): (r: string)
    ensures |r| == |s|
    ensures forall i :: 0 <= i < |s| ==> r[i] == UpperChar(s[i])
  {
    if s == [] then [] else [UpperChar(s[0])] + Upper(s[1..])
  }

  /** JavaScript's `s.split(sep)` with a one-character separator: the pieces
      between separators, including empty ones; never an empty list. */
  function Split(s: string, sep: char): (r: seq<string>)
    ensures |r| >= 1
    ensures forall k :: 0 <= k < |r| ==> sep !in r[k]
  {
    if s == [] then [[]]
    else
      var rest := Split(s[1..], sep);
      if s[0] == sep then [[]] + rest
      else [[s[0]] + rest[0]] + rest[1..]
  }

  /** JavaScript's `words.join(sep)`. */
  function Join(words: seq<string>, sep: char): (r: string)
    requires |words| >= 1
  {
    if |words| == 1 then words[0] else words[0] + [sep] + Join(words[1..], sep)
  }

  /** Splitting and joining again on the same separator gives back the string. */
  lemma {:induction false} JoinSplit(s: string, sep: char)
    ensures Join(Split(s, sep), sep) == s
  {
    if s != [] {
      JoinSplit(s[1..], sep);
      var rest := Split(s[1..], sep);
      if s[0] == sep {
        assert Split(s, sep) == [[]] + rest;
        assert Split(s, sep)[1..] == rest;
      } else {
        var w := Split(s, sep);
        assert w == [[s[0]] + rest[0]] + rest[1..];
        if |rest| == 1 {
          assert Join(w, sep) == [s[0]] + rest[0];
        } else {
          assert w[1..] == rest[1..];
          assert Join(rest, sep) == rest[0] + [sep] + Join(rest[1..], sep);
        }
      }
    }
  }

  /** Decimal notation of an integer, as Java and JavaScript print it. */
  function DigitChar(d: nat): char
    requires d < 10
  {
    "0123456789"[d]
  }

  function NatText(n: nat): (r: string)
    ensures |r| >= 1
    decreases n
  {
    if n < 10 then [DigitChar(n)] else NatText(n / 10) + [DigitChar(n % 10)]
  }

  function IntText(n: int): string {
    if n < 0 then "-" + NatText(-n) else NatText(n)
  }

  /** How many UTF-16 code units encode `c`: two for a character outside the
      Basic Multilingual Plane, which JavaScript stores as a surrogate pair,
      and one otherwise. */
  function Utf16Units(c: char): (n: nat)
    ensures n == 1 <==> c as int < 0x1_0000
    ensures n == 1 || n == 2
  {
    if c as int < 0x1_0000 then 1 else 2
  }

  /** JavaScript's `length`: the number of UTF-16 code units, which exceeds
      the number of characters by one for each character outside the Basic
      Multilingual Plane. */
  function Utf16Length(s: string): (n: nat)
    ensures |s| <= n <= 2 * |s|
  {
    if s == [] then 0 else Utf16Units(s[0]) + Utf16Length(s[1..])
  }

  /** The UTF-16 length equals the number of characters exactly when every
      character lies in the Basic Multilingual Plane. */
  lemma {:induction false} Utf16LengthIsCountIffBmp(s: string)
    ensures Utf16Length(s) == |s| <==> forall i :: 0 <= i < |s| ==> s[i] as int < 0x1_0000
  {
    if s != [] {
      Utf16LengthIsCountIffBmp(s[1..]);
      assert forall i :: 1 <= i < |s| ==> s[i] == s[1..][i - 1];
    }
  }

  /** Length is additive over concatenation. */
  lemma {:induction false} Utf16LengthAppend(a: string, b: string)
    ensures Utf16Length(a + b) == Utf16Length(a) + Utf16Length(b)
  {
    if a == [] {
      assert a + b == b;
    } else {
      assert (a + b)[0] == a[0] && (a + b)[1..] == a[1..] + b;
      Utf16LengthAppend(a[1..], b);
    }
  }
}
