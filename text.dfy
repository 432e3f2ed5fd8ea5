/** The string primitives the service leans on, with Python's meaning:
    the character classes of its regular expressions, `re.sub(alg, '', s)`,
    `str.split()`, `str.lower()` on stripped text, `x in s` on strings and
    the `<` order on strings. */
module Text {

  /** Python's `str.isspace`, which is also what `\s` and `str.split()` use. */
  predicate IsSpace(c: char) {
    var n := c as int;
    (9 <= n <= 13) || (28 <= n <= 32) || n == 0x85 || n == 0xA0 || n == 0x1680 ||
    (0x2000 <= n <= 0x200A) || n == 0x2028 || n == 0x2029 || n == 0x202F ||
    n == 0x205F || n == 0x3000
  }

  predicate IsAsciiLetter(c: char) {
    ('a' <= c <= 'z') || ('A' <= c <= 'Z')
  }

  predicate IsDigit(c: char) {
    '0' <= c <= '9'
  }

  /** The characters the pattern `[^\sa-zA-Z0-9]+` leaves alone. */
  predicate Kept(c: char) {
    IsSpace(c) || IsAsciiLetter(c) || IsDigit(c)
  }

  predicate AllKept(s: string) {
    forall i | 0 <= i < |s| :: Kept(s[i])
  }

  /** `re.sub(alg, '', s)`: every character outside whitespace, ASCII
      letters and digits is removed. */
  function Strip(s: string): (r: string)
    ensures |r| <= |s|
    ensures AllKept(r)
  {
    if s == [] then [] else (if Kept(s[0]) then [s[0]] else []) + Strip(s[1..])
  }

  /** Stripping works character by character, so it distributes over `+`. */
  lemma {:induction false} StripConcat(a: string, b: string)
    ensures Strip(a + b) == Strip(a) + Strip(b)
  {
    if a == [] {
      assert a + b == b;
    } else {
      var head: string := if Kept(a[0]) then [a[0]] else [];
      assert (a + b)[0] == a[0];
      assert (a + b)[1..] == a[1..] + b;
      assert Strip(a + b) == head + Strip(a[1..] + b);
      StripConcat(a[1..], b);
      assert Strip(a) == head + Strip(a[1..]);
      assert head + (Strip(a[1..]) + Strip(b)) == (head + Strip(a[1..])) + Strip(b);
    }
  }

  /** A string with nothing to remove is left as it is. */
  lemma {:induction false} StripFixesKept(s: string)
    requires AllKept(s)
    ensures Strip(s) == s
  {
    if s != [] {
      StripFixesKept(s[1..]);
    }
  }

  /** Stripping twice is stripping once. */
  lemma StripIdempotent(s: string)
    ensures Strip(Strip(s)) == Strip(s)
  {
    StripFixesKept(Strip(s));
  }

  /** Stripping removes something exactly when some character lies outside
      the kept classes. */
  lemma {:induction false} StripKeepsKept(s: string)
    ensures |Strip(s)| == |s| <==> AllKept(s)
  {
    if s != [] {
      StripKeepsKept(s[1..]);
      if !Kept(s[0]) {
        assert |Strip(s)| <= |s[1..]|;
      } else if AllKept(s[1..]) {
        assert AllKept(s);
      } else {
        assert !AllKept(s) by {
          var i :| 0 <= i < |s[1..]| && !Kept(s[1..][i]);
          assert s[i + 1] == s[1..][i];
        }
      }
    }
  }

  /** `str.lower()` restricted to ASCII letters.  The service lowers only
      stripped text, whose other characters are digits and whitespace, and
      those have no case. */
  function LowerChar(c: char): char {
    if 'A' <= c <= 'Z' then (c as int + 32) as char else c
  }

  /** `str.lower()` on ASCII letters: each upper-case letter becomes its
      lower-case partner and every other character stays. */
  function Lower(s: string): (r: string)
    ensures |r| == |s|
    ensures forall i | 0 <= i < |s| :: !('A' <= r[i] <= 'Z')
    ensures forall i | 0 <= i < |s| :: IsAsciiLetter(s[i]) == IsAsciiLetter(r[i])
    ensures forall i | 0 <= i < |s| && !('A' <= s[i] <= 'Z') :: r[i] == s[i]
    ensures forall i | 0 <= i < |s| && 'A' <= s[i] <= 'Z' :: r[i] as int == s[i] as int + ('a' as int - 'A' as int)
  {
    seq(|s|, i requires 0 <= i < |s| => LowerChar(s[i]))
  }

  /** `a` and `b` are the two cases of one ASCII letter. */
  predicate CasePartners(a: char, b: char) {
    ('A' <= a <= 'Z' && b as int == a as int + ('a' as int - 'A' as int)) ||
    ('A' <= b <= 'Z' && a as int == b as int + ('a' as int - 'A' as int))
  }

  /** The two strings differ at most in the case of their ASCII letters. */
  predicate SameUpToCase(x: string, y: string) {
    |x| == |y| && forall i | 0 <= i < |x| :: x[i] == y[i] || CasePartners(x[i], y[i])
  }

  /** Strings that differ only in case lower to the same string. */
  lemma LowerOfSameUpToCase(x: string, y: string)
    requires SameUpToCase(x, y)
    ensures Lower(x) == Lower(y)
  {
    forall i | 0 <= i < |x|
      ensures Lower(x)[i] == Lower(y)[i]
    {
      assert x[i] == y[i] || CasePartners(x[i], y[i]);
    }
  }

  /** Lowering twice is lowering once. */
  lemma LowerIdempotent(s: string)
    ensures Lower(Lower(s)) == Lower(s)
  {
  }

  predicate OccursAt(hay: string, needle: string, i: int) {
    0 <= i && i + |needle| <= |hay| && hay[i..i + |needle|] == needle
  }

  /** Python's `needle in hay` on strings. */
  predicate Contains(hay: string, needle: string) {
    exists i | 0 <= i <= |hay| - |needle| :: OccursAt(hay, needle, i)
  }

  /** Python's `a < b` on strings: lexicographic order on code points, a
      proper prefix being smaller. */
  predicate StrLess(a: string, b: string) {
    if b == [] then false
    else if a == [] then true
    else if a[0] != b[0] then a[0] < b[0]
    else StrLess(a[1..], b[1..])
  }

  /** `a` and `b` agree before position `k`, where `a` has the smaller code point. */
  predicate FirstLessAt(a: string, b: string, k: int) {
    0 <= k < |a| && k < |b| && a[..k] == b[..k] && a[k] < b[k]
  }

  lemma FirstLessAtShift(a: string, b: string, k: int)
    requires a != [] && b != [] && a[0] == b[0] && 0 <= k
    ensures FirstLessAt(a, b, k + 1) <==> FirstLessAt(a[1..], b[1..], k)
  {
  }

  /** The usual reading of that order: `a` is a proper prefix of `b`, or the
      two first differ at some position where `a` has the smaller code point. */
  lemma {:induction false} StrLessFirstDifference(a: string, b: string)
    ensures StrLess(a, b) <==>
      (|a| < |b| && a == b[..|a|]) || (exists k :: FirstLessAt(a, b, k))
  {
    if a == [] || b == [] {
      assert forall k :: !FirstLessAt(a, b, k);
    } else if a[0] != b[0] {
      assert FirstLessAt(a, b, 0) <==> a[0] < b[0];
      assert forall k :: 0 < k < |a| && k < |b| ==> a[..k][0] != b[..k][0];
      assert forall k :: FirstLessAt(a, b, k) ==> k == 0;
      if |a| < |b| {
        assert b[..|a|][0] != a[0];
      }
    } else {
      StrLessFirstDifference(a[1..], b[1..]);
      if exists k :: FirstLessAt(a, b, k) {
        var k :| FirstLessAt(a, b, k);
        assert k != 0;
        FirstLessAtShift(a, b, k - 1);
      }
      if exists k :: FirstLessAt(a[1..], b[1..], k) {
        var k :| FirstLessAt(a[1..], b[1..], k);
        FirstLessAtShift(a, b, k);
      }
      if |a| < |b| && a == b[..|a|] {
        assert a[1..] == b[1..][..|a| - 1];
      }
      if |a| - 1 < |b| - 1 && a[1..] == b[1..][..|a| - 1] {
        assert a == [a[0]] + a[1..];
        assert b[..|a|] == [b[0]] + b[1..][..|a| - 1];
      }
    }
  }

  /** The length of the leading run of non-space characters. */
  function WordLength(s: string): (n: nat)
    ensures n <= |s|
    ensures forall i | 0 <= i < n :: !IsSpace(s[i])
    ensures n < |s| ==> IsSpace(s[n])
  {
    if s == [] || IsSpace(s[0]) then 0 else 1 + WordLength(s[1..])
  }

  predicate NoSpace(w: string) {
    forall i | 0 <= i < |w| :: !IsSpace(w[i])
  }

  /** Python's `str.split()` with no argument: the maximal runs of
      non-space characters, in order. */
  function Split(s: string): (words: seq<string>)
    decreases |s|
    ensures forall k | 0 <= k < |words| :: words[k] != [] && NoSpace(words[k])
  {
    if s == [] then []
    else if IsSpace(s[0]) then Split(s[1..])
    else
      var n := WordLength(s);
      [s[..n]] + Split(s[n..])
  }

  function Concat(ss: seq<string>): string {
    if ss == [] then [] else ss[0] + Concat(ss[1..])
  }

  lemma {:induction false} ConcatAppend(a: seq<string>, b: seq<string>)
    ensures Concat(a + b) == Concat(a) + Concat(b)
  {
    if a == [] {
      assert a + b == b;
    } else {
      assert (a + b)[0] == a[0];
      assert (a + b)[1..] == a[1..] + b;
      assert Concat(a + b) == a[0] + Concat(a[1..] + b);
      ConcatAppend(a[1..], b);
      assert a[0] + (Concat(a[1..]) + Concat(b)) == (a[0] + Concat(a[1..])) + Concat(b);
    }
  }

  function RemoveSpaces(s: string): string {
    if s == [] then [] else (if IsSpace(s[0]) then [] else [s[0]]) + RemoveSpaces(s[1..])
  }

  lemma {:induction false} RemoveSpacesConcat(a: string, b: string)
    ensures RemoveSpaces(a + b) == RemoveSpaces(a) + RemoveSpaces(b)
  {
    if a == [] {
      assert a + b == b;
    } else {
      var head: string := if IsSpace(a[0]) then [] else [a[0]];
      assert (a + b)[0] == a[0];
      assert (a + b)[1..] == a[1..] + b;
      assert RemoveSpaces(a + b) == head + RemoveSpaces(a[1..] + b);
      RemoveSpacesConcat(a[1..], b);
      assert RemoveSpaces(a) == head + RemoveSpaces(a[1..]);
      assert head + (RemoveSpaces(a[1..]) + RemoveSpaces(b)) == (head + RemoveSpaces(a[1..])) + RemoveSpaces(b);
    }
  }

  lemma {:induction false} RemoveSpacesOfWord(w: string)
    requires NoSpace(w)
    ensures RemoveSpaces(w) == w
  {
    if w != [] {
      RemoveSpacesOfWord(w[1..]);
    }
  }

  /** Splitting loses only the whitespace: the words, put back together,
      are the input with its whitespace removed. */
  lemma {:induction false} SplitKeepsNonSpace(s: string)
    decreases |s|
    ensures Concat(Split(s)) == RemoveSpaces(s)
  {
    if s != [] {
      if IsSpace(s[0]) {
        SplitKeepsNonSpace(s[1..]);
      } else {
        var n := WordLength(s);
        SplitKeepsNonSpace(s[n..]);
        assert s == s[..n] + s[n..];
        RemoveSpacesConcat(s[..n], s[n..]);
        RemoveSpacesOfWord(s[..n]);
        assert ([s[..n]] + Split(s[n..]))[1..] == Split(s[n..]);
      }
    }
  }

  predicate AllSpace(g: string) {
    forall i | 0 <= i < |g| :: IsSpace(g[i])
  }

  /** Each word followed by the whitespace after it. */
  function Spaced(ws: seq<string>, gaps: seq<string>): string
    requires |gaps| == |ws|
  {
    if ws == [] then [] else ws[0] + gaps[0] + Spaced(ws[1..], gaps[1..])
  }

  lemma {:induction false} WordLengthOfWord(w: string, rest: string)
    requires NoSpace(w) && (rest == [] || IsSpace(rest[0]))
    ensures WordLength(w + rest) == |w|
  {
    if w == [] {
      assert w + rest == rest;
    } else {
      assert (w + rest)[0] == w[0];
      assert (w + rest)[1..] == w[1..] + rest;
      WordLengthOfWord(w[1..], rest);
    }
  }

  /** Whitespace in front does not change the words. */
  lemma {:induction false} SplitSkipsSpace(g: string, s: string)
    requires AllSpace(g)
    ensures Split(g + s) == Split(s)
  {
    if g == [] {
      assert g + s == s;
    } else {
      assert (g + s)[0] == g[0];
      assert (g + s)[1..] == g[1..] + s;
      SplitSkipsSpace(g[1..], s);
    }
  }

  /** A word followed by whitespace, or by nothing, is split off whole. */
  lemma SplitWord(w: string, s: string)
    requires w != [] && NoSpace(w) && (s == [] || IsSpace(s[0]))
    ensures Split(w + s) == [w] + Split(s)
  {
    var t := w + s;
    WordLengthOfWord(w, s);
    assert t[..|w|] == w && t[|w|..] == s;
  }

  /** Every string is some whitespace followed by words, each followed by
      its own whitespace, which is non-empty except after the last word.
      Splitting such a string gives back exactly those words: the words
      break at every whitespace run and nowhere else. */
  lemma {:induction false} SplitSpaced(lead: string, ws: seq<string>, gaps: seq<string>)
    requires |gaps| == |ws| && AllSpace(lead)
    requires forall k | 0 <= k < |ws| :: ws[k] != [] && NoSpace(ws[k])
    requires forall k | 0 <= k < |gaps| :: AllSpace(gaps[k])
    requires forall k | 0 <= k < |gaps| - 1 :: gaps[k] != []
    ensures Split(lead + Spaced(ws, gaps)) == ws
    decreases |ws|
  {
    SplitSkipsSpace(lead, Spaced(ws, gaps));
    if ws != [] {
      var rest := Spaced(ws[1..], gaps[1..]);
      assert Spaced(ws, gaps) == ws[0] + (gaps[0] + rest);
      if gaps[0] == [] {
        assert |ws| == 1;
        assert gaps[0] + rest == [];
      }
      SplitWord(ws[0], gaps[0] + rest);
      SplitSpaced(gaps[0], ws[1..], gaps[1..]);
      assert [ws[0]] + ws[1..] == ws;
    }
  }

  /** `suffix` ends `s`. */
  predicate EndsWith(s: string, suffix: string) {
    |suffix| <= |s| && s[|s| - |suffix|..] == suffix
  }

  /** The `"{song} by {artist}"` text that names a pair everywhere in the service. */
  function SongBy(song: string, artist: string): string {
    song + " by " + artist
  }
}
