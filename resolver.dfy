/** The `/unsupported` route (`update`): decide whether a pair reported
    unsupported by a client is logged in the ledger and filed as a GitHub
    issue.  The Spotify search behind `check_song` and the GitHub answer to
    `create_issue` are parameters. */
module Resolver {
  import opened Wrappers
  import opened Text
  import opened Ledger

  /** The oldest client version the service still serves. */
  const MinVersion := "1.1.1"

  /** One track of a Spotify search answer: its name and its artists' names. */
  datatype Track = Track(name: string, artists: seq<string>)

  /** A Spotify search answer: `NoTracks` when `tracks.items` is absent. */
  datatype TrackSearch = NoTracks | Tracks(items: seq<Track>)

  /** `check_song`'s verdict on a search answer: the pair is legitimate when
      the first track's name and its first artist equal the inputs exactly.
      A first track without artists raises `IndexError`. */
  function CheckSong(song: string, artist: string, search: TrackSearch): (r: Result<bool>)
    ensures r == Ok(true) <==>
      search.Tracks? && |search.items| > 0 && |search.items[0].artists| > 0 &&
      search.items[0].name == song && search.items[0].artists[0] == artist
    ensures r.Err? <==> search.Tracks? && |search.items| > 0 && search.items[0].artists == []
  {
    match search
    case NoTracks => Ok(false)
    case Tracks(items) =>
      if items == [] then Ok(false)
      else if items[0].artists == [] then Err(NoArtist)
      else Ok(items[0].name == song && items[0].artists[0] == artist)
  }

  /** The issue `create_issue` posts. */
  datatype IssueRequest = IssueRequest(title: string, body: string, labels: seq<string>)

  /** The title of the issue filed for a pair. */
  function IssueTitle(song: string, artist: string): string {
    SongBy(song, artist) + " unsupported."
  }

  function IssueBody(stripper: string, version: string): string {
    "Check if issue with swaglyrics or whether song lyrics unavailable on Genius. \n<hr>\n <tt><b>" +
    "stripper -> " + stripper + "</b>\n\nversion -> " + version + "</tt>"
  }

  function NewIssue(song: string, artist: string, version: string, stripper: string): IssueRequest {
    IssueRequest(IssueTitle(song, artist), IssueBody(stripper, version), ["unsupported song"])
  }

  /** GitHub's answer to the issue request: its status and, when the JSON
      carries one, `html_url`. */
  datatype IssueReply = IssueReply(status: int, link: Option<string>)

  /** The answers of the route, one per return statement. */
  datatype Reply =
    | UpdatePrompt            // missing or outdated client version
    | AlreadyTracked          // the pair's text is already in the ledger
    | MayNotExist             // song and artist are letters and spaces only
    | Fishy                   // Spotify does not confirm the pair
    | IssueCreated(link: string)
    | Logged                  // logged, but the issue was not created

  /** `[A-Za-z\s]+` matches the whole string. */
  predicate Trivial(s: string) {
    |s| > 0 && forall i | 0 <= i < |s| :: IsAsciiLetter(s[i]) || IsSpace(s[i])
  }

  /** The version check: a missing version or one below the floor. */
  predicate Outdated(version: Option<string>) {
    version.None? || StrLess(version.value, MinVersion)
  }

  /** "Test Song" by "Test Artist" is plain words, so `update` answers
      before Spotify is asked and never logs it. */
  lemma TestPairIsTrivial()
    ensures Trivial("Test Song") && Trivial("Test Artist")
  {
  }

  /** Where the version floor falls in string order: `"1.1.0"` and the
      prefix `"1.1"` are below it; `"1.1.1"`, `"1.1.10"` and `"1.10"` are not. */
  lemma VersionFloor()
    ensures Outdated(None)
    ensures Outdated(Some("1.1.0")) && Outdated(Some("1.1"))
    ensures !Outdated(Some("1.1.1")) && !Outdated(Some("1.1.10")) && !Outdated(Some("1.10"))
  {
  }

  /** `update`.  `stripped` is the client-side stripper guess, `search`
      Spotify's answer for the pair and `reply` GitHub's answer to the issue.
      `filed` is the issue request sent, if any. */
  method Update(l: Ledger, song: string, artist: string, stripped: string, version: Option<string>,
                search: TrackSearch, reply: IssueReply)
    returns (r: Result<Reply>, filed: Option<IssueRequest>)
    modifies l
    // a missing or outdated version stops everything
    ensures Outdated(version) ==>
      r == Ok(UpdatePrompt) && filed.None? && l.content == old(l.content)
    // so does a pair whose text is already in the file
    ensures !Outdated(version) && old(l.Tracks(song, artist)) ==>
      r == Ok(AlreadyTracked) && filed.None? && l.content == old(l.content)
    // and a pair of plain words
    ensures !Outdated(version) && !old(l.Tracks(song, artist)) && Trivial(song) && Trivial(artist) ==>
      r == Ok(MayNotExist) && filed.None? && l.content == old(l.content)
    // otherwise Spotify decides
    ensures !Outdated(version) && !old(l.Tracks(song, artist)) && !(Trivial(song) && Trivial(artist)) ==>
      match CheckSong(song, artist, search)
      case Err(e) => r == Err(e) && filed.None? && l.content == old(l.content)
      case Ok(false) => r == Ok(Fishy) && filed.None? && l.content == old(l.content)
      case Ok(true) =>
        && l.content == old(l.content) + Entry(song, artist)
        && (NoCR(SongBy(song, artist)) ==> l.Tracks(song, artist))
        && filed == Some(NewIssue(song, artist, version.value, stripped))
        && r == (if reply.link.None? then Err(MissingKey("html_url"))
                 else if reply.status == 201 then Ok(IssueCreated(reply.link.value))
                 else Ok(Logged))
  {
    filed := None;
    if version.None? {
      return Ok(UpdatePrompt), filed;
    }
    var v := version.value;
    if StrLess(v, MinVersion) {
      return Ok(UpdatePrompt), filed;
    }
    var data := l.Dump();
    if Contains(data, SongBy(song, artist)) {
      return Ok(AlreadyTracked), filed;
    }
    if Trivial(song) && Trivial(artist) {
      return Ok(MayNotExist), filed;
    }
    var legit := CheckSong(song, artist, search);
    if legit.Err? {
      return Err(legit.error), filed;
    }
    if legit.value {
      l.Append(song, artist);
      filed := Some(NewIssue(song, artist, v, stripped));
      if reply.link.None? {
        return Err(MissingKey("html_url")), filed;
      }
      if reply.status == 201 {
        return Ok(IssueCreated(reply.link.value)), filed;
      } else {
        return Ok(Logged), filed;
      }
    }
    return Ok(Fishy), filed;
  }
}
