/** The Genius side of stripper lookup (`genius_stripper`,
    `is_title_mismatched` and the `gstr` path pattern): a search hit is
    accepted when its stripped title shares enough words with the stripped
    query title and its path ends in `/<stripper>-lyrics`. */
module Matcher {
  import opened Wrappers
  import opened Text

  /** One entry of the search answer's `response.hits`. */
  datatype Hit = Hit(fullTitle: string, path: string)

  /** The parts of the search answer the lookup reads: the HTTP status,
      `meta.status` and the hits in the order Genius ranked them. */
  datatype GeniusResponse = GeniusResponse(status: int, metaStatus: int, hits: seq<Hit>)

  /** A query word is missing when its lower-case form does not occur in
      the lower-cased candidate title. */
  predicate Missing(word: string, title: string) {
    !Contains(Lower(title), Lower(word))
  }

  /** The test ignores case on either side: words, or titles, that differ
      only in the case of their letters get the same answer. */
  lemma MissingIgnoresCase(w1: string, w2: string, t1: string, t2: string)
    requires SameUpToCase(w1, w2) && SameUpToCase(t1, t2)
    ensures Missing(w1, t1) == Missing(w2, t2)
  {
    LowerOfSameUpToCase(w1, w2);
    LowerOfSameUpToCase(t1, t2);
  }

  /** How many of `words` are missing from `title`. */
  function MissCount(words: seq<string>, title: string): nat {
    if words == [] then 0
    else MissCount(words[..|words| - 1], title) + (if Missing(words[|words| - 1], title) then 1 else 0)
  }

  /** The matcher's verdict: more than `maxErr` query words are missing. */
  predicate Mismatched(words: seq<string>, title: string, maxErr: nat) {
    MissCount(words, title) > maxErr
  }

  /** The error budget: half the query words, rounded down. */
  function MaxErr(words: seq<string>): (m: nat)
    ensures 2 * m <= |words| < 2 * m + 2
  {
    |words| / 2
  }

  /** A prefix of the query never misses more words than the whole query. */
  lemma {:induction false} MissCountPrefix(words: seq<string>, title: string, i: nat)
    requires i <= |words|
    ensures MissCount(words[..i], title) <= MissCount(words, title)
  {
    if i < |words| {
      var init := words[..|words| - 1];
      assert words[..i] == init[..i];
      MissCountPrefix(init, title, i);
    } else {
      assert words[..i] == words;
    }
  }

  /** `is_title_mismatched`: count the missing words, returning `True` as
      soon as the count exceeds `maxErr`.  The early return does not change
      the verdict: it is exactly "more than `maxErr` words are missing". */
  method IsTitleMismatched(words: seq<string>, fullTitle: string, maxErr: nat) returns (r: bool)
    ensures r == (MissCount(words, fullTitle) > maxErr)
  {
    var errCnt := 0;
    for i := 0 to |words|
      invariant errCnt == MissCount(words[..i], fullTitle)
      invariant errCnt <= maxErr
    {
      assert words[..i + 1][..i] == words[..i];
      if Missing(words[i], fullTitle) {
        errCnt := errCnt + 1;
        if errCnt > maxErr {
          MissCountPrefix(words, fullTitle, i + 1);
          return true;
        }
      }
    }
    assert words[..|words|] == words;
    return false;
  }

  /** A candidate containing every query word is never a mismatch, whatever
      else it contains and in whatever order the words appear. */
  lemma {:induction false} EveryWordPresent(words: seq<string>, title: string, maxErr: nat)
    requires forall k | 0 <= k < |words| :: !Missing(words[k], title)
    ensures !Mismatched(words, title, maxErr)
    ensures MissCount(words, title) == 0
  {
    if words != [] {
      var init := words[..|words| - 1];
      assert forall k | 0 <= k < |init| :: init[k] == words[k];
      EveryWordPresent(init, title, maxErr);
    }
  }

  /** With a one-word query the budget is zero: the single word must occur. */
  lemma OneWordQuery(words: seq<string>, title: string)
    requires |words| == 1
    ensures MaxErr(words) == 0
    ensures Mismatched(words, title, MaxErr(words)) <==> Missing(words[0], title)
  {
    assert words[..|words| - 1] == [];
    assert MissCount(words, title) == (if Missing(words[0], title) then 1 else 0);
  }

  /** The characters `[-a-zA-Z0-9]` of the `gstr` pattern. */
  predicate PathChar(c: char) {
    c == '-' || IsAsciiLetter(c) || IsDigit(c)
  }

  /** Where `$` can match at the end of a path: the very end, or just
      before a final newline. */
  function LineEnd(p: string): (e: nat)
    ensures e <= |p|
  {
    if |p| > 0 && p[|p| - 1] == '\n' then |p| - 1 else |p|
  }

  /** The regular expression `(?<=/)[-a-zA-Z0-9]+(?=-lyrics$)` matches
      `p[i..j]`. */
  predicate GstrMatch(p: string, i: int, j: int) {
    1 <= i < j && j + 7 <= |p| && p[i - 1] == '/' &&
    (forall m | i <= m < j :: PathChar(p[m])) &&
    p[j..j + 7] == "-lyrics" &&
    (j + 7 == |p| || (j + 8 == |p| && p[j + 7] == '\n'))
  }

  /** The start of the longest run of path characters that ends at `e`. */
  function RunStart(s: string, e: nat): (k: nat)
    requires e <= |s|
    ensures k <= e
    ensures forall m | k <= m < e :: PathChar(s[m])
    ensures k == 0 || !PathChar(s[k - 1])
  {
    if e == 0 || !PathChar(s[e - 1]) then e else RunStart(s, e - 1)
  }

  lemma SliceSplit(s: string, i: nat, m: nat, j: nat)
    requires i <= m <= j <= |s|
    ensures s[i..j] == s[i..m] + s[m..j]
  {
  }

  /** `gstr.search(path).group()`, `None` when the search finds nothing.
      The stripper is non-empty, made of letters, digits and `-`, and the
      path (up to a final newline) ends in `/<stripper>-lyrics`. */
  function Gstr(p: string): (r: Option<string>)
    ensures r.Some? ==> |r.value| > 0 && (forall m | 0 <= m < |r.value| :: PathChar(r.value[m]))
    ensures r.Some? ==> EndsWith(p[..LineEnd(p)], "/" + r.value + "-lyrics")
  {
    var e := LineEnd(p);
    var k := RunStart(p, e);
    if 1 <= k && k + 8 <= e && p[k - 1] == '/' && p[e - 7..e] == "-lyrics" then
      var st := p[k..e - 7];
      assert forall m | 0 <= m < |st| :: st[m] == p[k + m];
      assert |"/" + st + "-lyrics"| == e - (k - 1);
      assert p[..e][k - 1..] == p[k - 1..e];
      SliceSplit(p, k - 1, k, e);
      SliceSplit(p, k, e - 7, e);
      Some(st)
    else None
  }

  /** `Gstr` is exactly the regular expression's search: it finds `p[i..j]`
      whenever the pattern matches there (the match is then unique), and it
      finds something only where the pattern matches. */
  lemma GstrIsSearch(p: string)
    ensures Gstr(p).Some? ==> exists i, j :: GstrMatch(p, i, j) && Gstr(p).value == p[i..j]
    ensures forall i, j :: GstrMatch(p, i, j) ==> Gstr(p) == Some(p[i..j])
  {
    var e := LineEnd(p);
    var k := RunStart(p, e);
    if Gstr(p).Some? {
      assert p[e - 7..e] == "-lyrics";
      assert e == |p| || (e + 1 == |p| && p[e] == '\n');
      assert GstrMatch(p, k, e - 7);
    }
    forall i, j | GstrMatch(p, i, j)
      ensures Gstr(p) == Some(p[i..j])
    {
      assert p[j + 6] == 's';
      assert e == j + 7;
      assert forall m | j <= m < e :: p[m] == "-lyrics"[m - j];
      assert forall m | i <= m < e :: PathChar(p[m]);
      assert !PathChar(p[i - 1]);
      assert k == i;
    }
  }

  /** A hit is taken when its stripped title is not a mismatch and its path
      yields a stripper. */
  predicate Accepts(words: seq<string>, maxErr: nat, hit: Hit) {
    !Mismatched(words, Strip(hit.fullTitle), maxErr) && Gstr(hit.path).Some?
  }

  function FirstStripper(words: seq<string>, maxErr: nat, hits: seq<Hit>): Option<string> {
    if hits == [] then None
    else if Accepts(words, maxErr, hits[0]) then Gstr(hits[0].path)
    else FirstStripper(words, maxErr, hits[1..])
  }

  /** The selection takes the first accepted hit in Genius's order, and
      finds nothing only when no hit is accepted. */
  lemma {:induction false} FirstStripperIsFirst(words: seq<string>, maxErr: nat, hits: seq<Hit>)
    ensures FirstStripper(words, maxErr, hits).None? <==>
      forall k | 0 <= k < |hits| :: !Accepts(words, maxErr, hits[k])
    ensures forall k | 0 <= k < |hits| && Accepts(words, maxErr, hits[k]) &&
        (forall j | 0 <= j < k :: !Accepts(words, maxErr, hits[j])) ::
      FirstStripper(words, maxErr, hits) == Gstr(hits[k].path)
  {
    if hits != [] {
      FirstStripperIsFirst(words, maxErr, hits[1..]);
      assert forall k | 1 <= k < |hits| :: hits[k] == hits[1..][k - 1];
      if !Accepts(words, maxErr, hits[0]) {
        forall k | 0 <= k < |hits| && Accepts(words, maxErr, hits[k]) &&
            (forall j | 0 <= j < k :: !Accepts(words, maxErr, hits[j]))
          ensures FirstStripper(words, maxErr, hits) == Gstr(hits[k].path)
        {
          assert k >= 1;
          assert forall j | 0 <= j < k - 1 :: !Accepts(words, maxErr, hits[1..][j]) by {
            forall j | 0 <= j < k - 1 ensures !Accepts(words, maxErr, hits[1..][j]) {
              assert hits[1..][j] == hits[j + 1];
            }
          }
        }
      }
    }
  }

  /** The words of the query title `"{song} by {artist}"` once stripped. */
  function QueryWords(song: string, artist: string): (words: seq<string>)
    ensures Concat(words) == RemoveSpaces(Strip(song)) + "by" + RemoveSpaces(Strip(artist))
  {
    var t := SongBy(song, artist);
    SplitKeepsNonSpace(Strip(t));
    assert t == song + (" by " + artist);
    StripConcat(song, " by " + artist);
    StripConcat(" by ", artist);
    assert Strip(" by ") == " by ";
    RemoveSpacesConcat(Strip(song), " by " + Strip(artist));
    RemoveSpacesConcat(" by ", Strip(artist));
    assert RemoveSpaces(" by ") == "by";
    Split(Strip(t))
  }

  /** `genius_stripper`: search answers other than a 200 with `meta.status`
      200 give nothing; otherwise the stripper of the first accepted hit. */
  method GeniusStripper(song: string, artist: string, response: GeniusResponse) returns (r: Option<string>)
    ensures response.status != 200 || response.metaStatus != 200 ==> r.None?
    ensures response.status == 200 && response.metaStatus == 200 ==>
      r == FirstStripper(QueryWords(song, artist), MaxErr(QueryWords(song, artist)), response.hits)
  {
    var title := Strip(SongBy(song, artist));
    var words := Split(title);
    var maxErr := |words| / 2;
    if response.status == 200 {
      if response.metaStatus == 200 {
        var hits := response.hits;
        for i := 0 to |hits|
          invariant FirstStripper(words, maxErr, hits) == FirstStripper(words, maxErr, hits[i..])
        {
          assert hits[i..][1..] == hits[i + 1..];
          var fullTitle := Strip(hits[i].fullTitle);
          var mismatched := IsTitleMismatched(words, fullTitle, maxErr);
          if !mismatched {
            var path := Gstr(hits[i].path);
            if path.Some? {
              return path;
            }
          }
        }
        return None;
      }
    }
    return None;
  }
}
