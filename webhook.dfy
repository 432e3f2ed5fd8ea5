/** The `/issue_closed` route (`github_webhook`): when an issue labelled
    `unsupported song` on SwagLyrics-For-Spotify is closed, the pair named in
    its title is dropped from the ledger.  The request's signature check
    happens before this route and is not part of this model. */
module Webhook {
  import opened Wrappers
  import opened Text
  import opened Ledger
  import opened Resolver

  /** `(.+) by (.+) unsupported.` matches `s` from its start, with group 1
      `s[..a]` and group 2 `s[a + 4..b]`; `.` matches anything but a newline. */
  predicate WdtMatchAt(s: string, a: int, b: int) {
    1 <= a && a + 5 <= b && b + 13 <= |s| && NoNewline(s[..b + 13]) &&
    s[a..a + 4] == " by " && s[b..b + 12] == " unsupported"
  }

  /** The greatest end `b' <= b` of group 2 for group 1 ending at `a`. */
  function SearchB(s: string, a: int, b: int): (r: Option<int>)
    decreases b - a
    ensures r.Some? ==> r.value <= b && WdtMatchAt(s, a, r.value)
    ensures r.Some? ==> forall b' | r.value < b' <= b :: !WdtMatchAt(s, a, b')
    ensures r.None? ==> forall b' | b' <= b :: !WdtMatchAt(s, a, b')
  {
    if b < a + 5 then None
    else if WdtMatchAt(s, a, b) then Some(b)
    else SearchB(s, a, b - 1)
  }

  /** The greatest end `a' <= a` of group 1 that admits a match, with the
      greatest end of group 2 for it. */
  function SearchA(s: string, a: int): (r: Option<(int, int)>)
    decreases a
    ensures r.Some? ==> WdtMatchAt(s, r.value.0, r.value.1) && r.value.0 <= a
    ensures r.Some? ==> forall a', b' | WdtMatchAt(s, a', b') && a' <= a ::
      a' < r.value.0 || (a' == r.value.0 && b' <= r.value.1)
    ensures r.None? ==> forall a', b' | a' <= a :: !WdtMatchAt(s, a', b')
  {
    if a < 1 then None
    else
      match SearchB(s, a, |s| - 13)
      case Some(b) => Some((a, b))
      case None => SearchA(s, a - 1)
  }

  /** `wdt.match(title)` with its two groups.  The groups are greedy, so
      the regular expression engine settles on the longest group 1 that
      admits a match and then on the longest group 2. */
  function Wdt(title: string): (r: Option<(string, string)>)
    ensures r.None? <==> forall a, b :: !WdtMatchAt(title, a, b)
    ensures r.Some? ==> exists a, b ::
      && WdtMatchAt(title, a, b)
      && r.value == (title[..a], title[a + 4..b])
      && forall a', b' | WdtMatchAt(title, a', b') :: a' < a || (a' == a && b' <= b)
  {
    match SearchA(title, |title|)
    case None => None
    case Some((a, b)) =>
      assert forall a', b' | WdtMatchAt(title, a', b') :: a' <= |title|;
      Some((title[..a], title[a + 4..b]))
  }

  /** Whenever `wdt` matches the title of an issue filed for a pair, the
      line it asks `del_line` to drop is exactly the line `update` logged
      for that pair, even when the song or the artist contains " by ". */
  lemma {:induction false} ParsedTitleNamesLoggedLine(song: string, artist: string)
    requires NoNewline(SongBy(song, artist))
    requires Wdt(IssueTitle(song, artist)).Some?
    ensures var (s, a) := Wdt(IssueTitle(song, artist)).value; Entry(s, a) == Entry(song, artist)
  {
    var t := IssueTitle(song, artist);
    var b0 := |t| - 13;
    var a, b :| WdtMatchAt(t, a, b) && Wdt(t).value == (t[..a], t[a + 4..b]) &&
      forall a', b' | WdtMatchAt(t, a', b') :: a' < a || (a' == a && b' <= b);
    assert t[b0..b0 + 12] == " unsupported";
    assert t[..b0 + 13] == t;
    TitleNoNewline(song, artist);
    assert WdtMatchAt(t, a, b0);
    assert b == b0;
    assert t[..a] + t[a..a + 4] + t[a + 4..b] == t[..b0];
    assert t[..b0] == SongBy(song, artist);
  }

  lemma TitleNoNewline(song: string, artist: string)
    requires NoNewline(SongBy(song, artist))
    ensures NoNewline(IssueTitle(song, artist))
  {
  }

  /** In a title built from a pair, group 1 cannot end after the song when
      `" " + artist` holds no " by ". */
  lemma NoLaterGroupEnd(song: string, artist: string, a: int, b: int)
    requires !Contains(" " + artist, " by ")
    requires WdtMatchAt(IssueTitle(song, artist), a, b)
    ensures a <= |song|
  {
    var t := IssueTitle(song, artist);
    var n := |song|;
    var u := n + 4 + |artist|;
    assert t[n + 1] == 'b' && t[n + 2] == 'y';
    if n + 2 < a {
      var x := " " + artist;
      assert t == (song + " by") + x + " unsupported.";
      assert t[a] == x[a - n - 3] && t[a + 1] == x[a - n - 2];
      assert t[a + 2] == x[a - n - 1] && t[a + 3] == x[a - n];
      assert x[a - n - 3..a - n + 1] == t[a..a + 4];
      assert OccursAt(x, " by ", a - n - 3);
    }
  }

  /** A title built from a non-empty song and artist without newlines
      gives back that song and artist when `" " + artist` does not contain
      " by ". */
  lemma TitleRoundTrip(song: string, artist: string)
    requires |song| > 0 && |artist| > 0 && NoNewline(SongBy(song, artist))
    requires !Contains(" " + artist, " by ")
    ensures Wdt(IssueTitle(song, artist)) == Some((song, artist))
  {
    var t := IssueTitle(song, artist);
    var n := |song|;
    var b0 := |t| - 13;
    TitleNoNewline(song, artist);
    assert t[..b0 + 13] == t;
    assert t[n..n + 4] == " by ";
    assert t[b0..b0 + 12] == " unsupported";
    assert WdtMatchAt(t, n, b0);
    var a, b :| WdtMatchAt(t, a, b) && Wdt(t).value == (t[..a], t[a + 4..b]) &&
      forall a', b' | WdtMatchAt(t, a', b') :: a' < a || (a' == a && b' <= b);
    NoLaterGroupEnd(song, artist, a, b);
    assert a == n;
    assert b == b0;
    assert t[..n] == song;
    assert t[n + 4..b0] == artist;
  }

  /** The parts of a webhook payload the route reads: `action`, the names
      of `issue.labels`, `repository.name` and `issue.title`. */
  datatype Payload = Payload(action: string, labels: seq<string>, repo: string, title: string)

  /** The answers of the route. */
  datatype Reply =
    | Pong                 // answer to `ping`
    | WrongEventType       // any event other than `ping` and `issues`
    | NotRelevant          // an `issues` event this service ignores
    | Deleted(count: nat)  // lines dropped from the ledger

  /** An `issues` event that asks for a ledger line to be dropped. */
  predicate UnsupportedIssueClosed(p: Payload) {
    |p.labels| > 0 && p.action == "closed" && p.labels[0] == "unsupported song" &&
    p.repo == "SwagLyrics-For-Spotify"
  }

  /** Closing an issue that `update` filed, on SwagLyrics-For-Spotify, is an
      event the route acts on. */
  lemma FiledIssueIsRelevant(song: string, artist: string, version: string, stripper: string)
    ensures UnsupportedIssueClosed(Payload("closed", NewIssue(song, artist, version, stripper).labels,
                                           "SwagLyrics-For-Spotify", IssueTitle(song, artist)))
  {
  }

  /** `github_webhook` for an event named `event` (the `X-GitHub-Event`
      header, absent as `None`).  A closed issue whose title does not match
      `wdt` raises, as `.group` is then called on `None`. */
  method GithubWebhook(l: Ledger, event: Option<string>, payload: Payload) returns (r: Result<Reply>)
    modifies l
    ensures event == Some("ping") ==> r == Ok(Pong) && l.content == old(l.content)
    ensures event != Some("ping") && event != Some("issues") ==>
      r == Ok(WrongEventType) && l.content == old(l.content)
    ensures event == Some("issues") && !UnsupportedIssueClosed(payload) ==>
      r == Ok(NotRelevant) && l.content == old(l.content)
    ensures event == Some("issues") && UnsupportedIssueClosed(payload) ==>
      match Wdt(payload.title)
      case None => r == Err(NoTitleMatch) && l.content == old(l.content)
      case Some((song, artist)) =>
        && r == Ok(Deleted(CountOf(old(l.Lines()), Entry(song, artist))))
        && l.content == Concat(Without(old(l.Lines()), Entry(song, artist)))
        && l.Lines() == Without(old(l.Lines()), Entry(song, artist))
  {
    if event == Some("ping") {
      return Ok(Pong);
    } else if event == Some("issues") {
      if |payload.labels| == 0 {
        return Ok(NotRelevant);
      }
      var firstLabel := payload.labels[0];
      var repo := payload.repo;
      if payload.action == "closed" && firstLabel == "unsupported song" && repo == "SwagLyrics-For-Spotify" {
        var title := Wdt(payload.title);
        if title.None? {
          return Err(NoTitleMatch);
        }
        var (song, artist) := title.value;
        var cnt := l.DelLine(song, artist);
        return Ok(Deleted(cnt));
      }
    } else {
      return Ok(WrongEventType);
    }
    return Ok(NotRelevant);
  }
}
