/**
  The Python string operations the input helpers use: `str.strip()` with no
  argument, `str.split(sep)` with an explicit one-character separator, its
  inverse `sep.join(parts)`, and `max(parts, key=len)`.
 */
module PyStr {

  /** The characters `str.isspace()` accepts, which `str.strip()` removes. */
  const Whitespace: set<char> :=
    {' ', '\t', '\n', '\r', '\U{000B}', '\U{000C}', '\U{001C}', '\U{001D}', '\U{001E}', '\U{001F}',
     '\U{0085}', '\U{00A0}', '\U{1680}', '\U{2000}', '\U{2001}', '\U{2002}', '\U{2003}', '\U{2004}',
     '\U{2005}', '\U{2006}', '\U{2007}', '\U{2008}', '\U{2009}', '\U{200A}', '\U{2028}', '\U{2029}',
     '\U{202F}', '\U{205F}', '\U{3000}'}

  /** Every character of `s` is in `chars`. */
  predicate AllIn(s: string, chars: set<char>) {
    forall i :: 0 <= i < |s| ==> s[i] in chars
  }

  /** Neither end of `s` is in `chars`. */
  predicate Trimmed(s: string, chars: set<char>) {
    s == [] || (s[0] !in chars && s[|s| - 1] !in chars)
  }

  /** The first position from `i` on whose character is not in `chars` (or `|s|`). */
  function SkipLeading(s: string, chars: set<char>, i: nat): (n: nat)
    requires i <= |s|
    ensures i <= n <= |s|
    ensures forall j :: i <= j < n ==> s[j] in chars
    ensures n == |s| || s[n] !in chars
    decreases |s| - i
  {
    if i < |s| && s[i] in chars then SkipLeading(s, chars, i + 1) else i
  }

  /** Going down from `j` but not below `lo`, the position just after the last
      character not in `chars` (or `lo`). */
  function SkipTrailing(s: string, chars: set<char>, lo: nat, j: nat): (n: nat)
    requires lo <= j <= |s|
    ensures lo <= n <= j
    ensures forall k :: n <= k < j ==> s[k] in chars
    ensures n == lo || s[n - 1] !in chars
  {
    if lo < j && s[j - 1] in chars then SkipTrailing(s, chars, lo, j - 1) else j
  }

  /** Where the text `strip` keeps starts. */
  function Start(s: string, chars: set<char>): nat {
    SkipLeading(s, chars, 0)
  }

  /** Where the text `strip` keeps ends. */
  function End(s: string, chars: set<char>): (e: nat)
    ensures Start(s, chars) <= e <= |s|
  {
    SkipTrailing(s, chars, Start(s, chars), |s|)
  }

  /** `s.strip(chars)`: `s` without its leading and trailing runs of `chars`;
      `str.strip()` with no argument is `Strip(s, Whitespace)`. */
  function Strip(s: string, chars: set<char>): (r: string)
    ensures |r| <= |s| && Trimmed(r, chars)
    ensures AllIn(s, chars) <==> r == []
  {
    var a, e := Start(s, chars), End(s, chars);
    assert a < e ==> s[a] !in chars;
    s[a..e]
  }

  /** The characters `strip` removes from the front of `s`. */
  function Leading(s: string, chars: set<char>): string {
    s[..Start(s, chars)]
  }

  /** The characters `strip` removes from the back of `s`. */
  function Trailing(s: string, chars: set<char>): string {
    s[End(s, chars)..]
  }

  /** `s` is its stripped text with runs of stripped characters on either side. */
  lemma StripDecomposes(s: string, chars: set<char>)
    ensures s == Leading(s, chars) + Strip(s, chars) + Trailing(s, chars)
    ensures AllIn(Leading(s, chars), chars) && AllIn(Trailing(s, chars), chars)
  {
    var a, e := Start(s, chars), End(s, chars);
    assert s == s[..a] + s[a..e] + s[e..];
    LeadingAllIn(s, chars);
    TrailingAllIn(s, chars);
  }

  lemma LeadingAllIn(s: string, chars: set<char>)
    ensures AllIn(Leading(s, chars), chars)
  {
    var a := Start(s, chars);
    forall i | 0 <= i < a ensures s[..a][i] in chars {
      assert s[..a][i] == s[i];
    }
  }

  lemma TrailingAllIn(s: string, chars: set<char>)
    ensures AllIn(Trailing(s, chars), chars)
  {
    var e := End(s, chars);
    forall i | 0 <= i < |s| - e ensures s[e..][i] in chars {
      assert s[e..][i] == s[e + i];
    }
  }

  /** Whatever runs of `chars` surround a trimmed text, stripping recovers exactly it. */
  lemma StripOfPadded(a: string, m: string, b: string, chars: set<char>)
    requires AllIn(a, chars) && AllIn(b, chars) && Trimmed(m, chars)
    ensures Strip(a + m + b, chars) == m
  {
    var t := a + m + b;
    assert forall j :: 0 <= j < |a| ==> t[j] == a[j];
    assert forall j :: |a| + |m| <= j < |t| ==> t[j] == b[j - |a| - |m|];
    if m == [] {
      assert forall j :: 0 <= j < |t| ==> t[j] in chars;
      assert Start(t, chars) == |t|;
    } else {
      assert t[|a|] == m[0] && t[|a| + |m| - 1] == m[|m| - 1];
      assert Start(t, chars) == |a|;
      assert End(t, chars) == |a| + |m|;
      assert t[|a|..|a| + |m|] == m;
    }
  }

  /** Adding stripped characters at either end never changes what `strip` returns. */
  lemma StripIgnoresPadding(a: string, s: string, b: string, chars: set<char>)
    requires AllIn(a, chars) && AllIn(b, chars)
    ensures Strip(a + s + b, chars) == Strip(s, chars)
  {
    var front, m, back := Leading(s, chars), Strip(s, chars), Trailing(s, chars);
    StripDecomposes(s, chars);
    assert a + s + b == (a + front) + m + (back + b);
    AllInConcat(a, front, chars);
    AllInConcat(back, b, chars);
    StripOfPadded(a + front, m, back + b, chars);
  }

  lemma AllInConcat(x: string, y: string, chars: set<char>)
    requires AllIn(x, chars) && AllIn(y, chars)
    ensures AllIn(x + y, chars)
  {
    forall i | 0 <= i < |x + y| ensures (x + y)[i] in chars {
      if i >= |x| {
        assert (x + y)[i] == y[i - |x|];
      }
    }
  }

  /** `sep.join(parts)`. */
  function Join(parts: seq<string>, sep: char): string {
    if |parts| == 0 then []
    else if |parts| == 1 then parts[0]
    else parts[0] + [sep] + Join(parts[1..], sep)
  }

  /** `s.split(sep)`: at least one part, no part holds the separator, and joining the
      parts with the separator gives `s` back. */
  function Split(s: string, sep: char): (parts: seq<string>)
    ensures |parts| >= 1
    ensures forall i :: 0 <= i < |parts| ==> sep !in parts[i]
    ensures Join(parts, sep) == s
  {
    if s == [] then [[]]
    else
      var rest := Split(s[1..], sep);
      if s[0] == sep then
        assert s == [sep] + s[1..];
        [[]] + rest
      else
        var parts := [[s[0]] + rest[0]] + rest[1..];
        assert parts[1..] == rest[1..];
        assert s == [s[0]] + s[1..];
        parts
  }

  lemma {:induction false} SplitOfPrefix(a: string, t: string, sep: char)
    requires sep !in a
    ensures Split(a + t, sep) == [a + Split(t, sep)[0]] + Split(t, sep)[1..]
  {
    var st := Split(t, sep);
    if a == [] {
      assert a + t == t && a + st[0] == st[0];
      assert st == [st[0]] + st[1..];
    } else {
      var s := a + t;
      assert s[0] == a[0] && a[0] != sep;
      assert s[1..] == a[1..] + t;
      SplitOfPrefix(a[1..], t, sep);
      var rest := Split(s[1..], sep);
      assert rest == [a[1..] + st[0]] + st[1..];
      assert Split(s, sep) == [[a[0]] + rest[0]] + rest[1..];
      assert [a[0]] + (a[1..] + st[0]) == a + st[0];
    }
  }

  /** Splitting a join of separator-free parts gives the parts back. */
  lemma {:induction false} SplitJoin(parts: seq<string>, sep: char)
    requires |parts| >= 1 && forall i :: 0 <= i < |parts| ==> sep !in parts[i]
    ensures Split(Join(parts, sep), sep) == parts
  {
    if |parts| == 1 {
      SplitOfPrefix(parts[0], [], sep);
    } else {
      var t := [sep] + Join(parts[1..], sep);
      assert Join(parts, sep) == parts[0] + t;
      SplitOfPrefix(parts[0], t, sep);
      assert t[0] == sep && t[1..] == Join(parts[1..], sep);
      assert Split(t, sep) == [[]] + Split(t[1..], sep);
      SplitJoin(parts[1..], sep);
      assert parts[0] + Split(t, sep)[0] == parts[0];
      assert parts == [parts[0]] + parts[1..];
    }
  }

  /** `max(parts, key=len)` as an index: a longest part, and the first of equally long
      ones, since `max` replaces its candidate only on a strictly larger key. */
  function LongestIndex(parts: seq<string>): (i: nat)
    requires |parts| > 0
    ensures i < |parts|
    ensures forall j :: 0 <= j < |parts| ==> |parts[j]| <= |parts[i]|
    ensures forall j :: 0 <= j < i ==> |parts[j]| < |parts[i]|
  {
    if |parts| == 1 then 0
    else
      var best := LongestIndex(parts[..|parts| - 1]);
      if |parts[|parts| - 1]| > |parts[best]| then |parts| - 1 else best
  }
}
