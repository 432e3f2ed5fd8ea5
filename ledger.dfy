/** The unsupported ledger: the file `unsupported.txt`, one
    `"{song} by {artist}\n"` line per pair reported unsupported.  The object
    holds the characters stored in the file.  Every read opens the file in
    text mode, where Python turns `"\r\n"` and a lone `'\r'` into `'\n'`
    before `read()` or `readlines()` sees them; writes store `'\n'` as it is, as on a Linux host. */
module Ledger {
  import opened Wrappers
  import opened Text

  predicate NoNewline(s: string) {
    forall i | 0 <= i < |s| :: s[i] != '\n'
  }

  /** A line as `readlines()` returns it: non-empty, with a newline at most
      as its last character. */
  predicate IsLine(l: string) {
    |l| > 0 && NoNewline(l[..|l| - 1])
  }

  /** A line ending in a newline; only the file's last line may lack one. */
  predicate Closed(l: string) {
    |l| > 0 && l[|l| - 1] == '\n'
  }

  /** The shape of the lines of any file. */
  predicate WellFormed(ls: seq<string>) {
    ls == [] || (IsLine(ls[0]) && (|ls| > 1 ==> Closed(ls[0])) && WellFormed(ls[1..]))
  }

  predicate NoCR(s: string) {
    forall i | 0 <= i < |s| :: s[i] != '\r'
  }

  /** Universal-newline translation of text read from a file: `"\r\n"` and a
      lone `'\r'` each become one `'\n'`; nothing else changes. */
  function Universal(s: string): (r: string)
    ensures NoCR(r) && |r| <= |s|
  {
    if s == [] then []
    else if s[0] != '\r' then [s[0]] + Universal(s[1..])
    else if |s| > 1 && s[1] == '\n' then "\n" + Universal(s[2..])
    else "\n" + Universal(s[1..])
  }

  /** Text without carriage returns reads back unchanged. */
  lemma {:induction false} UniversalOfNoCR(s: string)
    requires NoCR(s)
    ensures Universal(s) == s
  {
    if s != [] {
      UniversalOfNoCR(s[1..]);
      assert s == [s[0]] + s[1..];
    }
  }

  /** Text without carriage returns that does not start with `'\n'` is
      read back unchanged after any file content. */
  lemma {:induction false} UniversalAppend(a: string, b: string)
    requires NoCR(b) && (b == [] || b[0] != '\n')
    ensures Universal(a + b) == Universal(a) + b
  {
    if a == [] {
      assert a + b == b;
      UniversalOfNoCR(b);
    } else {
      var x := a + b;
      assert x[0] == a[0];
      if a[0] != '\r' {
        assert x[1..] == a[1..] + b;
        assert Universal(x) == [a[0]] + Universal(x[1..]);
        UniversalAppend(a[1..], b);
      } else if |a| == 1 {
        assert x[1..] == b;
        assert Universal(x) == "\n" + Universal(b);
        UniversalOfNoCR(b);
      } else if a[1] == '\n' {
        assert x[1] == a[1];
        assert x[2..] == a[2..] + b;
        assert Universal(x) == "\n" + Universal(x[2..]);
        UniversalAppend(a[2..], b);
      } else {
        assert x[1] == a[1];
        assert x[1..] == a[1..] + b;
        assert Universal(x) == "\n" + Universal(x[1..]);
        UniversalAppend(a[1..], b);
      }
    }
  }

  lemma SuffixOfLonger(h: string, u: string, b: string)
    requires EndsWith(u, b)
    ensures EndsWith(h + u, b)
  {
    assert (h + u)[|h + u| - |b|..] == u[|u| - |b|..];
  }

  /** How translation starts on a non-empty text: the first character, or
      the `"\r\n"` pair, becomes `head`, and the rest is translated from `k` on. */
  lemma UniversalStep(x: string) returns (head: string, k: nat)
    requires x != []
    ensures 1 <= k <= |x| && Universal(x) == head + Universal(x[k..])
    ensures x[0] != '\r' ==> head == [x[0]] && k == 1
    ensures x[0] == '\r' ==> head == "\n" && (k == 2 <==> |x| > 1 && x[1] == '\n') && k <= 2
  {
    if x[0] != '\r' {
      head, k := [x[0]], 1;
    } else if |x| > 1 && x[1] == '\n' {
      head, k := "\n", 2;
    } else {
      head, k := "\n", 1;
    }
  }

  /** Text without carriage returns appended to any file content ends what
      is read back. */
  lemma {:induction false} UniversalSuffix(a: string, b: string)
    requires NoCR(b)
    decreases |a|
    ensures EndsWith(Universal(a + b), b)
  {
    if a == [] {
      assert a + b == b;
      UniversalOfNoCR(b);
    } else if |a| == 1 && a[0] == '\r' {
      assert a + b == "\r" + b;
      UniversalSuffixCR(b);
    } else {
      var x := a + b;
      var head, k := UniversalStep(x);
      assert x[0] == a[0];
      assert k == 2 ==> x[1] == a[1];
      assert k <= |a|;
      assert x[k..] == a[k..] + b;
      UniversalSuffix(a[k..], b);
      SuffixOfLonger(head, Universal(x[k..]), b);
    }
  }

  lemma UniversalSuffixCR(b: string)
    requires NoCR(b)
    ensures EndsWith(Universal("\r" + b), b)
  {
    var x := "\r" + b;
    assert x[1..] == b;
    if b != [] && b[0] == '\n' {
      assert x[2..] == b[1..];
      UniversalOfNoCR(b[1..]);
      assert b == "\n" + b[1..];
    } else {
      UniversalOfNoCR(b);
    }
  }

  /** The length of the first line of `s`, its newline included. */
  function LineLength(s: string): (n: nat)
    requires s != []
    ensures 1 <= n <= |s|
    ensures IsLine(s[..n])
    ensures n < |s| ==> Closed(s[..n])
  {
    if s[0] == '\n' || |s| == 1 then 1
    else
      var n := 1 + LineLength(s[1..]);
      assert s[..n] == [s[0]] + s[1..][..n - 1];
      n
  }

  /** `f.readlines()` on a file holding `s`. */
  function SplitLines(s: string): (ls: seq<string>)
    decreases |s|
    ensures WellFormed(ls)
    ensures Concat(ls) == s
  {
    if s == [] then []
    else
      var n := LineLength(s);
      var rest := SplitLines(s[n..]);
      assert ([s[..n]] + rest)[1..] == rest;
      assert s == s[..n] + s[n..];
      [s[..n]] + rest
  }

  lemma {:induction false} LineLengthOfLine(l: string, rest: string)
    requires IsLine(l) && (Closed(l) || rest == [])
    ensures LineLength(l + rest) == |l|
  {
    if |l| > 1 {
      assert l[0] == l[..|l| - 1][0];
      assert (l + rest)[1..] == l[1..] + rest;
      assert l[1..][..|l| - 2] == l[..|l| - 1][1..];
      LineLengthOfLine(l[1..], rest);
    }
  }

  /** Writing well-formed lines to a file and reading them back gives the
      same lines. */
  lemma {:induction false} SplitConcat(ls: seq<string>)
    requires WellFormed(ls)
    ensures SplitLines(Concat(ls)) == ls
  {
    if ls != [] {
      var rest := Concat(ls[1..]);
      LineLengthOfLine(ls[0], rest);
      SplitConcat(ls[1..]);
      assert (ls[0] + rest)[..|ls[0]|] == ls[0];
      assert (ls[0] + rest)[|ls[0]|..] == rest;
    }
  }

  /** The line `update` appends for a pair. */
  function Entry(song: string, artist: string): string {
    SongBy(song, artist) + "\n"
  }

  /** The lines other than `x`, in their original order. */
  function Without(ls: seq<string>, x: string): seq<string> {
    if ls == [] then [] else (if ls[0] == x then [] else [ls[0]]) + Without(ls[1..], x)
  }

  /** How many lines equal `x`. */
  function CountOf(ls: seq<string>, x: string): nat {
    if ls == [] then 0 else (if ls[0] == x then 1 else 0) + CountOf(ls[1..], x)
  }

  lemma {:induction false} WithoutAppend(a: seq<string>, b: seq<string>, x: string)
    ensures Without(a + b, x) == Without(a, x) + Without(b, x)
    ensures CountOf(a + b, x) == CountOf(a, x) + CountOf(b, x)
  {
    if a == [] {
      assert a + b == b;
    } else {
      var head: seq<string> := if a[0] == x then [] else [a[0]];
      assert (a + b)[0] == a[0];
      assert (a + b)[1..] == a[1..] + b;
      assert Without(a + b, x) == head + Without(a[1..] + b, x);
      WithoutAppend(a[1..], b, x);
      assert head + (Without(a[1..], x) + Without(b, x)) == (head + Without(a[1..], x)) + Without(b, x);
    }
  }

  /** Dropping the lines equal to `x` removes every copy of `x` and
      counts them. */
  lemma {:induction false} WithoutRemovesAll(ls: seq<string>, x: string)
    ensures x !in Without(ls, x)
    ensures |Without(ls, x)| + CountOf(ls, x) == |ls|
  {
    if ls != [] {
      var rest := ls[1..];
      WithoutRemovesAll(rest, x);
      if ls[0] == x {
        assert Without(ls, x) == [] + Without(rest, x) == Without(rest, x);
      } else {
        assert Without(ls, x) == [ls[0]] + Without(rest, x);
      }
    }
  }

  /** The count is the multiplicity of `x`, and every other line keeps its
      multiplicity. */
  lemma {:induction false} WithoutKeepsOthers(ls: seq<string>, x: string)
    ensures CountOf(ls, x) == multiset(ls)[x]
    ensures multiset(Without(ls, x)) == multiset(ls)[x := 0]
  {
    if ls != [] {
      var rest := ls[1..];
      WithoutKeepsOthers(rest, x);
      assert ls == [ls[0]] + rest;
      assert multiset(ls) == multiset{ls[0]} + multiset(rest);
      if ls[0] == x {
        assert Without(ls, x) == [] + Without(rest, x) == Without(rest, x);
      } else {
        assert Without(ls, x) == [ls[0]] + Without(rest, x);
        assert multiset(Without(ls, x)) == multiset{ls[0]} + multiset(Without(rest, x));
      }
    }
  }

  /** Removing closed lines keeps a file well-formed. */
  lemma {:induction false} WellFormedWithout(ls: seq<string>, x: string)
    requires WellFormed(ls) && Closed(x)
    ensures WellFormed(Without(ls, x))
  {
    if ls != [] {
      var rest := Without(ls[1..], x);
      WellFormedWithout(ls[1..], x);
      if ls[0] == x {
        assert Without(ls, x) == [] + rest == rest;
      } else {
        var w := [ls[0]] + rest;
        assert Without(ls, x) == w;
        assert w[1..] == rest;
        assert |w| > 1 ==> ls[1..] != [];
        assert IsLine(w[0]) && (|w| > 1 ==> Closed(w[0])) && WellFormed(w[1..]);
      }
    }
  }

  lemma {:induction false} WellFormedSnoc(ls: seq<string>, t: string)
    requires WellFormed(ls) && (ls == [] || Closed(ls[|ls| - 1])) && IsLine(t)
    ensures WellFormed(ls + [t])
  {
    if ls != [] {
      assert (ls + [t])[1..] == ls[1..] + [t];
      WellFormedSnoc(ls[1..], t);
    }
  }

  /** Appending one closed line to a file whose last line is closed adds
      exactly that line. */
  lemma AppendOneLine(ls: seq<string>, t: string)
    requires WellFormed(ls) && (ls == [] || Closed(ls[|ls| - 1])) && IsLine(t) && Closed(t)
    ensures SplitLines(Concat(ls) + t) == ls + [t]
  {
    WellFormedSnoc(ls, t);
    ConcatAppend(ls, [t]);
    assert Concat([t]) == t by {
      assert [t][1..] == [];
    }
    assert Concat(ls + [t]) == Concat(ls) + t;
    SplitConcat(ls + [t]);
  }

  /** `n` appends of the same line are all removed, and all counted. */
  lemma {:induction false} DuplicatesAllRemoved(ls: seq<string>, x: string, n: nat)
    ensures CountOf(ls + seq(n, _ => x), x) == CountOf(ls, x) + n
    ensures Without(ls + seq(n, _ => x), x) == Without(ls, x)
  {
    if n > 0 {
      var dup := seq(n, _ => x);
      assert dup == seq(n - 1, _ => x) + [x];
      assert ls + dup == (ls + seq(n - 1, _ => x)) + [x];
      DuplicatesAllRemoved(ls, x, n - 1);
      WithoutAppend(ls + seq(n - 1, _ => x), [x], x);
    } else {
      assert ls + seq(n, _ => x) == ls;
    }
  }

  /** The appended text is a closed line, and a line of its own when the
      pair has no newline. */
  lemma EntryIsLine(song: string, artist: string)
    ensures Closed(Entry(song, artist))
    ensures NoNewline(SongBy(song, artist)) ==> IsLine(Entry(song, artist))
  {
    assert Entry(song, artist)[..|Entry(song, artist)| - 1] == SongBy(song, artist);
  }

  /** After an append the pair's text is read back where the file ends,
      unless the pair holds a carriage return, which the read turns into a
      newline. */
  lemma EntryEndsRead(before: string, song: string, artist: string)
    requires NoCR(SongBy(song, artist))
    ensures Contains(Universal(before + Entry(song, artist)), SongBy(song, artist))
  {
    var entry := Entry(song, artist);
    var text := SongBy(song, artist);
    assert forall i | 0 <= i < |entry| :: entry[i] == if i < |text| then text[i] else '\n';
    UniversalSuffix(before, entry);
    var u := Universal(before + entry);
    var at := |u| - |entry|;
    assert u[at..at + |text|] == u[at..][..|text|] == entry[..|text|] == text;
    assert OccursAt(u, text, at);
  }

  /** Concatenated lines hold a carriage return only where one of the lines does. */
  lemma {:induction false} WithoutNoCR(ls: seq<string>, x: string)
    requires NoCR(Concat(ls))
    ensures NoCR(Concat(Without(ls, x)))
  {
    if ls != [] {
      var rest := Concat(ls[1..]);
      assert Concat(ls) == ls[0] + rest;
      assert NoCR(rest) by {
        forall i | 0 <= i < |rest| ensures rest[i] != '\r' {
          assert rest[i] == (ls[0] + rest)[|ls[0]| + i];
        }
      }
      WithoutNoCR(ls[1..], x);
      var kept := Concat(Without(ls[1..], x));
      if ls[0] != x {
        assert ([ls[0]] + Without(ls[1..], x))[1..] == Without(ls[1..], x);
        assert Concat(Without(ls, x)) == ls[0] + kept;
        forall i | 0 <= i < |ls[0] + kept| ensures (ls[0] + kept)[i] != '\r' {
          if i < |ls[0]| {
            assert (ls[0] + kept)[i] == (ls[0] + rest)[i];
          }
        }
      } else {
        assert Without(ls, x) == [] + Without(ls[1..], x) == Without(ls[1..], x);
      }
    }
  }

  /** A text containing a string contains each of its prefixes. */
  lemma ContainsPrefix(hay: string, needle: string, n: nat)
    requires Contains(hay, needle) && n <= |needle|
    ensures Contains(hay, needle[..n])
  {
    var i :| 0 <= i <= |hay| - |needle| && OccursAt(hay, needle, i);
    assert hay[i..i + n] == needle[..n];
    assert OccursAt(hay, needle[..n], i);
  }

  /** The line of a pair occurs in the file content. */
  lemma {:induction false} LineIsInContent(ls: seq<string>, k: nat)
    requires k < |ls|
    ensures Contains(Concat(ls), ls[k])
  {
    ConcatAppend(ls[..k], ls[k..]);
    assert ls == ls[..k] + ls[k..];
    assert Concat(ls[k..]) == ls[k] + Concat(ls[k + 1..]) by {
      assert ls[k..][1..] == ls[k + 1..];
    }
    assert OccursAt(Concat(ls), ls[k], |Concat(ls[..k])|);
  }

  class Ledger {
    /** The characters stored in the file. */
    var content: string

    /** The ledger of a file holding `content`. */
    constructor (content: string)
      ensures this.content == content
    {
      this.content := content;
    }

    /** `readlines()` on the file opened for reading. */
    function Lines(): (ls: seq<string>)
      reads this
      ensures WellFormed(ls) && Concat(ls) == Dump()
    {
      SplitLines(Dump())
    }

    /** `master_unsupported`: the file as `read()` returns it.  It holds no
        carriage return, and a file written without any is read as it is. */
    function Dump(): (d: string)
      reads this
      ensures NoCR(d)
      ensures NoCR(content) ==> d == content
    {
      if NoCR(content) then UniversalOfNoCR(content); Universal(content)
      else Universal(content)
    }

    /** The membership test of `update`: the pair's text occurs anywhere in
        the file as read, not necessarily as a whole line.  It accepts every
        pair whose line is in the file. */
    function Tracks(song: string, artist: string): (r: bool)
      reads this
      ensures Entry(song, artist) in Lines() ==> r
    {
      LoggedPairIsTracked(Lines(), song, artist);
      Contains(Dump(), SongBy(song, artist))
    }

    /** `update`'s append of `"{song} by {artist}\n"` to the file. */
    method Append(song: string, artist: string)
      modifies this
      ensures content == old(content) + Entry(song, artist)
      ensures NoCR(SongBy(song, artist)) ==> Tracks(song, artist)
      ensures
        && (old(Lines()) == [] || Closed(old(Lines())[|old(Lines())| - 1]))
        && NoNewline(SongBy(song, artist)) && NoCR(SongBy(song, artist))
        ==> Lines() == old(Lines()) + [Entry(song, artist)]
    {
      var before := content;
      var read := Lines();
      var entry := Entry(song, artist);
      EntryIsLine(song, artist);
      if NoCR(SongBy(song, artist)) {
        EntryEndsRead(before, song, artist);
        if (read == [] || Closed(read[|read| - 1])) && NoNewline(SongBy(song, artist)) {
          assert forall i | 0 <= i < |entry| :: entry[i] != '\r';
          assert entry[0] == SongBy(song, artist)[0];
          UniversalAppend(before, entry);
          AppendOneLine(read, entry);
        }
      }
      content := before + entry;
    }

    /** `del_line`: rewrite the file with the lines read, less those equal
        to the pair's line, and return how many were dropped.  Carriage
        returns the read turned into newlines are written back as newlines. */
    method DelLine(song: string, artist: string) returns (cnt: nat)
      modifies this
      ensures content == Concat(Without(old(Lines()), Entry(song, artist)))
      ensures NoCR(content)
      ensures Lines() == Without(old(Lines()), Entry(song, artist))
      ensures cnt == CountOf(old(Lines()), Entry(song, artist))
    {
      var target := Entry(song, artist);
      var read := Lines();
      var kept: seq<string> := [];
      cnt := 0;
      for i := 0 to |read|
        invariant kept == Without(read[..i], target)
        invariant cnt == CountOf(read[..i], target)
      {
        assert read[..i + 1] == read[..i] + [read[i]];
        WithoutAppend(read[..i], [read[i]], target);
        if read[i] == target {
          cnt := cnt + 1;
          continue;
        }
        kept := kept + [read[i]];
      }
      assert read[..|read|] == read;
      EntryIsLine(song, artist);
      WellFormedWithout(read, target);
      SplitConcat(kept);
      WithoutNoCR(read, target);
      UniversalOfNoCR(Concat(kept));
      content := Concat(kept);
    }
  }

  /** The text of every line in a file occurs in the file... */
  lemma LoggedPairIsTracked(ls: seq<string>, song: string, artist: string)
    ensures Entry(song, artist) in ls ==> Contains(Concat(ls), SongBy(song, artist))
  {
    if Entry(song, artist) in ls {
      var k :| 0 <= k < |ls| && ls[k] == Entry(song, artist);
      LineIsInContent(ls, k);
      ContainsPrefix(Concat(ls), Entry(song, artist), |SongBy(song, artist)|);
      assert Entry(song, artist)[..|SongBy(song, artist)|] == SongBy(song, artist);
    }
  }

  /** ...and the membership test also accepts pairs that were never logged, whose text only occurs
      inside another line: `a by b` is found in the line `xa by bc`. */
  lemma TrackedWithoutLine()
    ensures !(Entry("a", "b") in ["xa by bc\n"])
    ensures Contains(Concat(["xa by bc\n"]), SongBy("a", "b"))
  {
    var hay := Concat(["xa by bc\n"]);
    assert hay == "xa by bc\n" + Concat([]);
    var needle := SongBy("a", "b");
    assert needle == "a by b";
    assert hay[1..1 + |needle|] == needle;
    assert OccursAt(hay, needle, 1);
  }

  /** A line a Windows editor saved as `"a by b\r\n"` is read as the pair's
      own line, so `del_line("a", "b")` drops it. */
  lemma CrLfLineIsRead()
    ensures SplitLines(Universal("a by b\r\n")) == [Entry("a", "b")]
  {
    var s := "a by b\r\n";
    assert s[1..][1..][1..][1..][1..][1..] == "\r\n";
    assert Universal("\r\n") == "\n";
    assert Universal(s) == "a by b\n";
    assert LineLength("a by b\n") == 7;
    assert "a by b\n"[..7] == Entry("a", "b");
  }

  /** The `delete_unsupported` route: a wrong password aborts with 403 and
      leaves the file alone; otherwise `del_line` runs. */
  method DeleteUnsupported(l: Ledger, auth: string, passwd: string, song: string, artist: string)
    returns (r: Result<nat>)
    modifies l
    ensures auth != passwd ==> r == Err(Forbidden) && l.content == old(l.content)
    ensures auth == passwd ==>
      r == Ok(CountOf(old(l.Lines()), Entry(song, artist))) &&
      l.content == Concat(Without(old(l.Lines()), Entry(song, artist))) &&
      l.Lines() == Without(old(l.Lines()), Entry(song, artist))
  {
    if auth != passwd {
      return Err(Forbidden);
    }
    var cnt := l.DelLine(song, artist);
    r := Ok(cnt);
  }
}
