/** The Python string operations the bot relies on, over Dafny strings
    (sequences of Unicode scalar values). */
module Text {

  /** The characters Python's str.isspace() accepts: what str.split() with no
      separator and str.strip() with no argument treat as whitespace. */
  predicate IsSpace(c: char) {
    ('\t' <= c <= '\r') || ('\U{1C}' <= c <= ' ') || c == '\U{85}' || c == '\U{A0}'
    || c == '\U{1680}' || ('\U{2000}' <= c <= '\U{200A}') || c == '\U{2028}'
    || c == '\U{2029}' || c == '\U{202F}' || c == '\U{205F}' || c == '\U{3000}'
  }

  predicate NoSpace(w: string) {
    forall k :: 0 <= k < |w| ==> !IsSpace(w[k])
  }

  /** Printable ASCII characters other than the blank are never whitespace. */
  lemma VisibleHasNoSpace(w: string)
    requires forall k :: 0 <= k < |w| ==> '!' <= w[k] <= '~'
    ensures NoSpace(w)
  {
  }

  /** str.lower() restricted to ASCII letters. */
  function LowerChar(c: char): char {
    if 'A' <= c <= 'Z' then (c as int + 32) as char else c
  }

  function Lower(s: string): string {
    seq(|s|, i requires 0 <= i < |s| => LowerChar(s[i]))
  }

  /** Lower-casing leaves a string without capital letters unchanged. */
  lemma LowerUnchanged(s: string)
    requires forall k :: 0 <= k < |s| ==> !('A' <= s[k] <= 'Z')
    ensures Lower(s) == s
  {
  }

  /** s.startswith(prefix) */
  predicate StartsWith(s: string, prefix: string) {
    prefix <= s
  }

  /** s.endswith(suffix) */
  predicate EndsWith(s: string, suffix: string) {
    |suffix| <= |s| && s[|s| - |suffix|..] == suffix
  }

  /** `needle in haystack` on strings: needle occurs at some position of haystack
      (the empty string occurs everywhere). */
  predicate Contains(haystack: string, needle: string)
    decreases |haystack|
  {
    needle <= haystack || (|haystack| > 0 && Contains(haystack[1..], needle))
  }

  /** Length of the run of non-whitespace characters that starts s. */
  function WordLength(s: string): (n: nat)
    ensures n <= |s|
    ensures forall k :: 0 <= k < n ==> !IsSpace(s[k])
    ensures n == |s| || IsSpace(s[n])
  {
    if |s| == 0 || IsSpace(s[0]) then 0 else 1 + WordLength(s[1..])
  }

  /** str.split() with no separator: the maximal runs of non-whitespace
      characters, in order; never an empty word. */
  function Split(s: string): (words: seq<string>)
    ensures forall i :: 0 <= i < |words| ==> words[i] != [] && NoSpace(words[i])
    decreases |s|
  {
    if |s| == 0 then []
    else if IsSpace(s[0]) then Split(s[1..])
    else
      var n := WordLength(s);
      [s[..n]] + Split(s[n..])
  }

  /** Joining two texts with a space splits into the words of each, in order. */
  lemma {:induction false} SplitAppend(a: string, b: string)
    ensures Split(a + " " + b) == Split(a) + Split(b)
    decreases |a|
  {
    var s := a + " " + b;
    if |a| == 0 {
      assert s[1..] == b;
    } else if IsSpace(a[0]) {
      assert s[1..] == a[1..] + " " + b;
      SplitAppend(a[1..], b);
    } else {
      var n := WordLength(a);
      assert WordLength(s) == n by {
        assert forall k :: 0 <= k < n ==> s[k] == a[k];
        assert s[n] == (if n == |a| then ' ' else a[n]);
      }
      assert s[..n] == a[..n];
      assert s[n..] == a[n..] + " " + b;
      SplitAppend(a[n..], b);
      assert Split(s) == [a[..n]] + Split(s[n..]);
      Assoc([a[..n]], Split(a[n..]), Split(b));
    }
  }

  /** A single non-empty word without whitespace splits into itself. */
  lemma SplitWord(w: string)
    requires w != [] && NoSpace(w)
    ensures Split(w) == [w]
  {
    var n := WordLength(w);
    assert w[..n] == w;
    assert w[n..] == [];
  }

  // Sequence facts, proved once for any element type so that each use
  // costs the solver one step.

  lemma Assoc<T>(a: seq<T>, b: seq<T>, c: seq<T>)
    ensures a + (b + c) == (a + b) + c
  {
  }

  lemma AssocTail<T>(a: seq<T>, b: seq<T>, c: seq<T>, d: seq<T>)
    ensures a + b + c + d == a + (b + c + d)
  {
  }

  lemma SplitAround<T>(s: seq<T>, i: nat, j: nat)
    requires i <= j < |s|
    ensures s[i..] == s[i..j] + ([s[j]] + s[j + 1..])
  {
  }

  lemma FrontLast<T>(s: seq<T>)
    requires |s| > 0
    ensures s == s[..|s| - 1] + [s[|s| - 1]]
  {
  }

  lemma HeadTail<T>(s: seq<T>)
    requires |s| > 0
    ensures s == [s[0]] + s[1..]
  {
  }

  lemma DropAppend<T>(a: seq<T>, b: seq<T>)
    requires |a| > 0
    ensures (a + b)[0] == a[0] && (a + b)[1..] == a[1..] + b
  {
  }

  lemma DropSnoc<T>(s: seq<T>, x: T, n: nat)
    requires n <= |s|
    ensures (s + [x])[n..] == s[n..] + [x]
  {
  }

  lemma TakeNext<T>(s: seq<T>, i: nat)
    requires i < |s|
    ensures s[..i + 1] == s[..i] + [s[i]]
  {
  }

  lemma FrontOfSnoc<T>(s: seq<T>, x: T)
    ensures (s + [x])[..|s|] == s
  {
  }

  lemma Surround<T>(a: seq<T>, b: seq<T>, c: seq<T>, d: seq<T>, e: seq<T>)
    ensures a + (b + c + d) + e == (a + b) + c + (d + e)
  {
  }

  lemma Regroup<T>(a: seq<T>, b: seq<T>, c: seq<T>, d: seq<T>)
    ensures a + (b + c) + d == (a + b) + c + d
  {
  }

  /** `min(a, b)` */
  function Min(a: int, b: int): int {
    if a < b then a else b
  }

  /** Number of leading characters of s that belong to the class `strip`. */
  function LeadingCount(s: string, strip: char -> bool): (n: nat)
    ensures n <= |s|
    ensures forall k :: 0 <= k < n ==> strip(s[k])
    ensures n < |s| ==> !strip(s[n])
  {
    if |s| > 0 && strip(s[0]) then 1 + LeadingCount(s[1..], strip) else 0
  }

  /** Position after the last character of s outside the class `strip`. */
  function TrailingStart(s: string, strip: char -> bool): (m: nat)
    ensures m <= |s|
    ensures forall k :: m <= k < |s| ==> strip(s[k])
    ensures m > 0 ==> !strip(s[m - 1])
  {
    if |s| > 0 && strip(s[|s| - 1]) then TrailingStart(s[..|s| - 1], strip) else |s|
  }

  /** str.strip(chars): s without its leading and trailing characters of the
      class `strip`. The result is empty exactly when every character of s
      belongs to the class, and otherwise starts and ends outside it. */
  function StripBy(s: string, strip: char -> bool): (r: string)
    ensures r == [] <==> forall k :: 0 <= k < |s| ==> strip(s[k])
    ensures r != [] ==> !strip(r[0]) && !strip(r[|r| - 1])
    ensures |r| <= |s|
  {
    var n := LeadingCount(s, strip);
    if n == |s| then []
    else
      var m := TrailingStart(s, strip);
      s[n..m]
  }

  /** A string that neither starts nor ends with a character of the class is
      left as it is. */
  lemma StripNothing(s: string, strip: char -> bool)
    requires |s| > 0 && !strip(s[0]) && !strip(s[|s| - 1])
    ensures StripBy(s, strip) == s
  {
    assert LeadingCount(s, strip) == 0;
    assert TrailingStart(s, strip) == |s|;
    assert s[0..|s|] == s;
  }

  /** One trailing character of the class is removed. */
  lemma StripTrailing(s: string, c: char, strip: char -> bool)
    requires |s| > 0 && !strip(s[0]) && !strip(s[|s| - 1]) && strip(c)
    ensures StripBy(s + [c], strip) == s
  {
    var t := s + [c];
    assert t[0] == s[0];
    assert t[..|s|] == s;
    assert TrailingStart(t, strip) == TrailingStart(s, strip) == |s|;
    assert LeadingCount(t, strip) == 0;
    assert t[0..|s|] == s;
  }

  /** str.strip() */
  function Strip(s: string): string {
    StripBy(s, IsSpace)
  }

  /** `not s.strip()`: s holds nothing but whitespace. */
  predicate IsBlank(s: string) {
    Strip(s) == []
  }

  /** Index of the last occurrence of c in s, or -1. */
  function LastIndexOf(s: string, c: char): (i: int)
    ensures -1 <= i < |s|
    ensures i >= 0 ==> s[i] == c
    ensures forall k :: i < k < |s| ==> s[k] != c
  {
    if |s| == 0 then -1
    else if s[|s| - 1] == c then |s| - 1
    else LastIndexOf(s[..|s| - 1], c)
  }

  /** s.split(c) for a one-character separator: the pieces between the
      occurrences of c, always at least one, none containing c. */
  function SplitOn(s: string, c: char): (parts: seq<string>)
    ensures |parts| >= 1
    ensures forall i :: 0 <= i < |parts| ==> c !in parts[i]
    decreases |s|
  {
    var i := LastIndexOf(s, c);
    if i < 0 then [s] else SplitOn(s[..i], c) + [s[i + 1..]]
  }

  /** sep.join(parts) */
  function JoinWith(parts: seq<string>, sep: string): string {
    if |parts| == 0 then ""
    else if |parts| == 1 then parts[0]
    else JoinWith(parts[..|parts| - 1], sep) + sep + parts[|parts| - 1]
  }

  /** Splitting on a separator and joining the pieces with it gives back the text. */
  lemma {:induction false} SplitOnJoin(s: string, c: char)
    ensures JoinWith(SplitOn(s, c), [c]) == s
    decreases |s|
  {
    var i := LastIndexOf(s, c);
    if i >= 0 {
      var front := SplitOn(s[..i], c);
      SplitOnJoin(s[..i], c);
      var parts := front + [s[i + 1..]];
      assert parts[..|parts| - 1] == front;
      assert s == s[..i] + [c] + s[i + 1..];
    }
  }

  /** The last piece of s.split(c) is the text after the last c. */
  lemma SplitOnLast(s: string, c: char, n: nat)
    requires n < |s| && s[n] == c
    requires c !in s[n + 1..]
    ensures SplitOn(s, c)[|SplitOn(s, c)| - 1] == s[n + 1..]
  {
  }

  /** A text contains itself. */
  lemma ContainsSelf(s: string)
    ensures Contains(s, s)
  {
  }

  /** Text added after the haystack keeps every occurrence. */
  lemma {:induction false} ContainsExtendRight(h: string, t: string, needle: string)
    requires Contains(h, needle)
    ensures Contains(h + t, needle)
    decreases |h|
  {
    if !(needle <= h) {
      assert (h + t)[1..] == h[1..] + t;
      ContainsExtendRight(h[1..], t, needle);
    }
  }

  /** Text added before the haystack keeps every occurrence. */
  lemma {:induction false} ContainsExtendLeft(a: string, h: string, needle: string)
    requires Contains(h, needle)
    ensures Contains(a + h, needle)
    decreases |a|
  {
    if |a| > 0 {
      assert (a + h)[1..] == a[1..] + h;
      ContainsExtendLeft(a[1..], h, needle);
      assert |a + h| > 0 && Contains((a + h)[1..], needle);
    } else {
      assert a + h == h;
    }
  }

  /** `needle in a + needle + b` */
  lemma ContainsInfix(a: string, needle: string, b: string)
    ensures Contains(a + needle + b, needle)
  {
    ContainsSelf(needle);
    ContainsExtendRight(needle, b, needle);
    ContainsExtendLeft(a, needle + b, needle);
    assert a + needle + b == a + (needle + b);
  }

  /** Each part of `sep.join(parts)` stands in the joined text between two
      pieces of text. */
  lemma {:induction false} JoinWithHasPart(parts: seq<string>, sep: string, i: nat)
    requires i < |parts|
    ensures exists before, after :: JoinWith(parts, sep) == before + parts[i] + after
  {
    var n := |parts|;
    if n == 1 {
      assert JoinWith(parts, sep) == [] + parts[0] + [];
    } else if i == n - 1 {
      var before := JoinWith(parts[..n - 1], sep) + sep;
      assert JoinWith(parts, sep) == before + parts[i] + [];
    } else {
      JoinWithHasPart(parts[..n - 1], sep, i);
      var before, after :| JoinWith(parts[..n - 1], sep) == before + parts[..n - 1][i] + after;
      assert parts[..n - 1][i] == parts[i];
      assert JoinWith(parts, sep) == before + parts[i] + after + sep + parts[n - 1];
      AssocTail(before + parts[i], after, sep, parts[n - 1]);
    }
  }
}
