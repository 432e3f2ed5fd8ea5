# SwagLyrics issue maker — a Dafny model

This project models the core of the SwagLyrics backend, `swaglyrics_backend/issue_maker.py`.
The backend answers two questions for the SwagLyrics client:

- What is the *stripper* of a song? The stripper is the Genius page name from which lyrics are fetched.
- What should happen to a song/artist pair the client could not resolve?

The model covers the following parts of that file:

- **Token caches** (`tokens.dfy`). The GitHub installation token and the Spotify client token are two classes.
  Each holds the token and its expiry that the source keeps in module globals.
  - A call serves the cached token while `expiry - margin > now`. The margin is 180 s for GitHub and 300 s for Spotify.
  - Otherwise the call refreshes the token. The GitHub expiry comes from the provider. The Spotify expiry is `now + 3600`.
  - A GitHub answer with a token but no usable expiry leaves the new token beside the old expiry, because the source assigns `gh_token` before it parses `expires_at`.
- **Title matcher and hit selection** (`text.dfy`, `matcher.dfy`).
  - `alg` stripping, `str.split()` and the `max_err = len(words)//2` budget.
  - The counting loop of `is_title_mismatched` with its early return.
  - The `gstr` path pattern, including Python's rule that `$` also matches before a final newline.
  - The `genius_stripper` loop that returns the stripper of the first accepted hit.
- **Unsupported ledger** (`ledger.dfy`). The ledger is the file `unsupported.txt`, held as the characters stored in it.
  - Every read opens the file in text mode. Python turns `"\r\n"` and a lone `'\r'` into `'\n'` before `read()` or `readlines()` sees them. Writes store `'\n'` as it is, which assumes a host whose `os.linesep` is `'\n'` (Linux).
  - So a line saved as `"a by b\r\n"` is read as the pair's line and `del_line` drops it. The rewrite stores every surviving line with `'\n'`.
  - A pair whose text holds a `'\r'` is appended, but the next membership test does not find it.
  - Appending writes `"{song} by {artist}\n"` to the file.
  - Membership is a substring test over the whole file. It also accepts a pair whose text only occurs inside another line; `TrackedWithoutLine` shows such a case.
  - `del_line` drops every line equal to the pair's line and counts them. `DeleteUnsupported` adds the password gate of the delete route.
- **The `update` decision procedure** (`resolver.dfy`). The checks run in this order:
  - a missing version, or a version below `'1.1.1'` in code-point string order;
  - the pair already in the ledger;
  - song and artist both made only of letters and whitespace;
  - Spotify's verdict (`check_song`);
  - otherwise, the append and then the GitHub issue.
- **The issue-closed webhook** (`webhook.dfy`).
  - Dispatch on the event name.
  - The greedy `wdt` title pattern, parsed back from the title `create_issue` builds.
  - One `del_line` call for a closed `unsupported song` issue on `SwagLyrics-For-Spotify`.

The calls to Genius, Spotify and GitHub become parameters: the search answer, the track list, the issue reply and the token refresh answers. The clock reading `now` is a parameter too.

Some behaviours of the code are easy to misread; the model follows the code in each:

- A title the webhook cannot parse makes the route raise (`.group` on `None`); it is not ignored.
- Neither the token refresh nor the ledger rewrite is serialised or atomic in the code. The model is sequential.
- A pair made only of ASCII letters and whitespace, such as "Test Song" / "Test Artist", is stopped by the letters-and-spaces check (`asrg`) before Spotify is asked, so it is never logged.
- A missing `html_url` in GitHub's reply raises after the ledger line was written, so the line stays.

## Model

| member | source | states |
|---|---|---|
| `Text.Strip` | swaglyrics_backend/issue_maker.py:45 | the stripped text holds only whitespace, ASCII letters and digits, and is no longer than the input |
| `Text.SongBy` | swaglyrics_backend/issue_maker.py:322 | the text `"{song} by {artist}"` that names a pair in the Genius query, the issue title and the membership test |
| `Text.StripConcat` | swaglyrics_backend/issue_maker.py:145 | stripping `"{song} by {artist}"` equals stripping each part separately, since stripping works character by character |
| `Text.StripFixesKept` | swaglyrics_backend/issue_maker.py:162 | a text with only kept characters is left unchanged |
| `Text.StripIdempotent` | swaglyrics_backend/issue_maker.py:45 | stripping twice equals stripping once |
| `Text.StripKeepsKept` | swaglyrics_backend/issue_maker.py:45 | stripping keeps the length exactly when every character is whitespace, a letter or a digit |
| `Text.StrLess` | swaglyrics_backend/issue_maker.py:317 | Python's `<` on strings, by code point with a proper prefix smaller; its meaning is stated by `StrLessFirstDifference` |
| `Text.StrLessFirstDifference` | swaglyrics_backend/issue_maker.py:317 | the version comparison is Python's string order: a proper prefix, or a smaller code point at the first difference |
| `Text.Split` | swaglyrics_backend/issue_maker.py:148 | every word is non-empty and holds no whitespace |
| `Text.SplitSkipsSpace` | swaglyrics_backend/issue_maker.py:148 | whitespace in front of a text does not change its words |
| `Text.SplitWord` | swaglyrics_backend/issue_maker.py:148 | a run of non-whitespace followed by whitespace, or by the end, is one whole word |
| `Text.SplitSpaced` | swaglyrics_backend/issue_maker.py:148 | any whitespace, then words each followed by whitespace (non-empty except after the last), splits into exactly those words: words break at every whitespace run and nowhere else, which fixes the word count behind `max_err` |
| `Text.SplitKeepsNonSpace` | swaglyrics_backend/issue_maker.py:148 | the words, joined, are the title with its whitespace removed: splitting loses nothing else |
| `Text.Lower` | swaglyrics_backend/issue_maker.py:182 | lowering keeps the length, turns each upper-case ASCII letter into its own lower-case letter and keeps every other character |
| `Text.LowerOfSameUpToCase` | swaglyrics_backend/issue_maker.py:182 | two strings that differ only in the case of their ASCII letters lower to the same string |
| `Text.LowerIdempotent` | swaglyrics_backend/issue_maker.py:182 | lowering twice is lowering once |
| `Tokens.GithubToken.constructor` | swaglyrics_backend/issue_maker.py:33-34 | the cache starts with an empty token and expiry 0, so the first call at any real time refreshes |
| `Tokens.GithubToken.Get` | swaglyrics_backend/issue_maker.py:89-106 | the cached token is returned and nothing changes while `expiry - 180 > now`; otherwise a refresh is issued, a missing token leaves both fields alone, a missing expiry raises `KeyError` and a malformed one raises `ValueError` (`strptime`), both leaving the new token with the old expiry, and a full answer overwrites both fields |
| `Tokens.SpotifyToken.constructor` | swaglyrics_backend/issue_maker.py:37-38 | the cache starts with an empty token and expiry 0, so the first call at any real time refreshes |
| `Tokens.SpotifyToken.Get` | swaglyrics_backend/issue_maker.py:109-125 | the cached token is returned and nothing changes while `expiry - 300 > now`; otherwise a missing `access_token` raises and changes nothing, and a new token is stored with expiry exactly `now + 3600`; a returned token is always current at `now` |
| `Matcher.Missing` | swaglyrics_backend/issue_maker.py:182 | a query word is missing when its lower-case form does not occur in the lower-cased title |
| `Matcher.MissingIgnoresCase` | swaglyrics_backend/issue_maker.py:182 | words that differ only in case, checked against titles that differ only in case, get the same answer: case on either side does not matter |
| `Matcher.MaxErr` | swaglyrics_backend/issue_maker.py:149 | the error budget is half the number of query words, rounded down |
| `Matcher.QueryWords` | swaglyrics_backend/issue_maker.py:138-148 | the query words, joined, are the stripped song, then `by`, then the stripped artist, all with whitespace removed |
| `Matcher.MissCountPrefix` | swaglyrics_backend/issue_maker.py:181-186 | a prefix of the query never misses more words than the whole query, which makes the early return sound |
| `Matcher.IsTitleMismatched` | swaglyrics_backend/issue_maker.py:179-187 | the loop with its early return answers true exactly when more than `max_err` query words are missing, case-insensitively, from the title |
| `Matcher.EveryWordPresent` | swaglyrics_backend/issue_maker.py:179-187 | a title that contains every query word is never a mismatch, whatever extra words it has and whatever their order |
| `Matcher.OneWordQuery` | swaglyrics_backend/issue_maker.py:148-149 | a one-word query has budget 0: it is a mismatch exactly when that word is missing |
| `Matcher.Gstr` | swaglyrics_backend/issue_maker.py:46 | a found stripper is non-empty, made of letters, digits and `-`, and `'/' + stripper + '-lyrics'` ends the path (before a final newline) |
| `Matcher.GstrIsSearch` | swaglyrics_backend/issue_maker.py:167-169 | `Gstr` finds a stripper exactly where the regular expression matches, and then returns the matched text |
| `Matcher.Accepts` | swaglyrics_backend/issue_maker.py:165-169 | a hit is taken when its stripped title is not a mismatch and its path yields a stripper |
| `Matcher.FirstStripperIsFirst` | swaglyrics_backend/issue_maker.py:158-176 | the selection returns the stripper of the first accepted hit in Genius's order, and nothing only when no hit is accepted |
| `Matcher.GeniusStripper` | swaglyrics_backend/issue_maker.py:128-176 | the loop returns nothing unless both statuses are 200, and otherwise returns the first accepted hit's stripper |
| `Ledger.Universal` | swaglyrics_backend/issue_maker.py:254 | text read from the file holds no carriage return and is never longer than what is stored |
| `Ledger.UniversalOfNoCR` | swaglyrics_backend/issue_maker.py:254 | text stored without carriage returns is read back unchanged |
| `Ledger.UniversalAppend` | swaglyrics_backend/issue_maker.py:332-333 | appending text without carriage returns that does not start with a newline adds exactly that text to what is read |
| `Ledger.UniversalSuffix` | swaglyrics_backend/issue_maker.py:320-321 | appending text without carriage returns leaves that text at the end of what is read, whatever the file held before |
| `Ledger.CrLfLineIsRead` | swaglyrics_backend/issue_maker.py:254-255 | a file holding `"a by b\r\n"` is read as the single line `"a by b\n"`, the line `del_line("a", "b")` drops |
| `Ledger.LineLength` | swaglyrics_backend/issue_maker.py:255 | the first line read from a file is a line: at least one character, with a newline at most at its end |
| `Ledger.SplitLines` | swaglyrics_backend/issue_maker.py:254-255 | `readlines()` on the translated text yields well-formed lines whose concatenation is that text |
| `Ledger.SplitConcat` | swaglyrics_backend/issue_maker.py:256-262 | writing well-formed lines and reading them back yields the same lines, so the rewrite of `del_line` loses nothing |
| `Ledger.Entry` | swaglyrics_backend/issue_maker.py:333 | the line `"{song} by {artist}\n"` that `update` appends and `del_line` compares against |
| `Ledger.WithoutAppend` | swaglyrics_backend/issue_maker.py:258-262 | dropping and counting lines works line by line over the file, which keeps the order of the kept lines |
| `Ledger.WithoutRemovesAll` | swaglyrics_backend/issue_maker.py:252-264 | after `del_line` no line equals the target, and the count plus the new length is the old length |
| `Ledger.WithoutKeepsOthers` | swaglyrics_backend/issue_maker.py:258-262 | the count is the number of copies of the target, and every other line keeps its number of copies |
| `Ledger.WellFormedWithout` | swaglyrics_backend/issue_maker.py:256-262 | the rewritten file is still well-formed |
| `Ledger.AppendOneLine` | swaglyrics_backend/issue_maker.py:332-333 | appending a line to a file whose last line ends in a newline adds exactly that line |
| `Ledger.DuplicatesAllRemoved` | swaglyrics_backend/issue_maker.py:258-261 | after N appends of the same line, `del_line` counts all N and removes them all |
| `Ledger.WithoutNoCR` | swaglyrics_backend/issue_maker.py:256-262 | the lines `del_line` writes back hold no carriage return when the lines read held none |
| `Ledger.EntryEndsRead` | swaglyrics_backend/issue_maker.py:320-333 | after the append, a pair without carriage returns is found by the next read of the file |
| `Ledger.LineIsInContent` | swaglyrics_backend/issue_maker.py:320-321 | every line of the file occurs in the file's content |
| `Ledger.Ledger.constructor` | swaglyrics_backend/issue_maker.py:254-255 | the ledger holds the characters stored in the file |
| `Ledger.Ledger.Lines` | swaglyrics_backend/issue_maker.py:254-255 | `readlines()` gives well-formed lines whose concatenation is the file as `read()` returns it |
| `Ledger.Ledger.Dump` | swaglyrics_backend/issue_maker.py:381-385 | the dump is the file as read: it holds no carriage return, and a file stored without any is returned as it is |
| `Ledger.Ledger.Tracks` | swaglyrics_backend/issue_maker.py:320-322 | the membership test is a substring test over the file as read, and every pair whose line is in the file passes it |
| `Ledger.Ledger.Append` | swaglyrics_backend/issue_maker.py:332-333 | the stored file grows by exactly `"{song} by {artist}\n"`; the membership test then holds for a pair without carriage returns; and when the file as read ended in a newline and the pair has neither newline nor carriage return, it gains exactly that one line |
| `Ledger.Ledger.DelLine` | swaglyrics_backend/issue_maker.py:252-264 | the file is rewritten with exactly the lines read that are not equal to `"{song} by {artist}\n"`, in order and without carriage returns, and the result is how many were dropped |
| `Ledger.LoggedPairIsTracked` | swaglyrics_backend/issue_maker.py:320-322 | the text of a pair whose line is among the lines read occurs in the file as read |
| `Ledger.TrackedWithoutLine` | swaglyrics_backend/issue_maker.py:322 | the membership test is a substring test: `a by b` is found in the file holding only the line `xa by bc` |
| `Ledger.DeleteUnsupported` | swaglyrics_backend/issue_maker.py:389-397 | a wrong password aborts with 403 and leaves the file alone; otherwise `del_line` runs and its count is returned |
| `Resolver.Trivial` | swaglyrics_backend/issue_maker.py:327 | `[A-Za-z\s]+` matches the whole string: it is non-empty and every character is an ASCII letter or whitespace |
| `Resolver.TestPairIsTrivial` | swaglyrics_backend/issue_maker.py:326-328 | the example pair "Test Song" / "Test Artist" is plain words, so `update` answers before Spotify is asked |
| `Resolver.Outdated` | swaglyrics_backend/issue_maker.py:311-318 | a missing version, or one below `'1.1.1'` in string order, gets the update prompt |
| `Resolver.VersionFloor` | swaglyrics_backend/issue_maker.py:317 | `"1.1.0"` and the prefix `"1.1"` are below the floor; `"1.1.1"`, `"1.1.10"` and `"1.10"` are not |
| `Resolver.IssueTitle` | swaglyrics_backend/issue_maker.py:200 | the issue title is the pair's ledger text followed by ` unsupported.`; `Webhook.TitleRoundTrip` parses it back |
| `Resolver.IssueBody` | swaglyrics_backend/issue_maker.py:201-202 | the issue body names the client's stripper guess and its version |
| `Resolver.NewIssue` | swaglyrics_backend/issue_maker.py:199-204 | the issue posted carries the title, the body and the single label `unsupported song` |
| `Resolver.CheckSong` | swaglyrics_backend/issue_maker.py:232-243 | the pair is legitimate exactly when the first track's name and first artist equal the inputs; the check raises exactly when the first track has no artist |
| `Resolver.Update` | swaglyrics_backend/issue_maker.py:303-345 | a missing or old version, a pair already in the file, an all-letters pair, a Spotify failure or a false verdict leave the file unchanged and file no issue; a true verdict appends exactly the pair's line, after which the membership test holds unless the pair holds a carriage return, then files the issue; the answer depends on the status being 201 and on the link being present |
| `Webhook.SearchB` | swaglyrics_backend/issue_maker.py:49 | finds the longest group 2 that completes a match for a given group 1 |
| `Webhook.SearchA` | swaglyrics_backend/issue_maker.py:49 | finds the longest group 1 that admits a match, with the longest group 2 for it |
| `Webhook.Wdt` | swaglyrics_backend/issue_maker.py:438-440 | the parse fails exactly when the pattern cannot match; otherwise it yields the groups of the greedy match: the longest group 1, then the longest group 2 |
| `Webhook.ParsedTitleNamesLoggedLine` | swaglyrics_backend/issue_maker.py:437-442 | whenever the title of an issue filed for a pair parses, `del_line` targets exactly the line `update` logged for it, even when song or artist contains " by " |
| `Webhook.NoLaterGroupEnd` | swaglyrics_backend/issue_maker.py:49 | in a title built from a pair whose `" " + artist` holds no " by ", group 1 ends no later than the song |
| `Webhook.TitleRoundTrip` | swaglyrics_backend/issue_maker.py:200 | for a non-empty song and artist without newlines, with no " by " in `" " + artist`, parsing `"{song} by {artist} unsupported."` gives back the song and the artist |
| `Webhook.UnsupportedIssueClosed` | swaglyrics_backend/issue_maker.py:436 | an `issues` event is acted on when it closes an issue whose first label is `unsupported song` on `SwagLyrics-For-Spotify` |
| `Webhook.FiledIssueIsRelevant` | swaglyrics_backend/issue_maker.py:199-204 | closing an issue `update` filed on `SwagLyrics-For-Spotify` is an event the webhook acts on |
| `Webhook.GithubWebhook` | swaglyrics_backend/issue_maker.py:406-448 | `ping` and other event types leave the file alone; an `issues` event that is not a closed `unsupported song` issue on the right repo is not relevant; a matching one calls `del_line` once with the parsed pair, or raises when the title does not parse |

## Left out

- Flask routing, the rate limiter, `render_template`, logging and environment reads are plumbing.
- The database model `Lyrics`, the lookup of `get_stripper` and the insert of `add_stripper` are ORM I/O. `add_stripper` then runs the same password gate and `del_line` as `DeleteUnsupported`.
- The outbound HTTP calls to Genius, Spotify, GitHub and Discord are parameters. `discord_deploy` and `update_webhook` (git pull and deploy notice) are not modelled.
- `swaglyrics_backend/utils` is not part of this model. It holds the JWT signing, the installation-token request and the webhook signature check (`request_from_github`, `validate_request`).
- The client-side `stripper(song, artist)` guess comes from the swaglyrics package. It is the parameter `stripped` of `Update`.
- `Update` does not call the token caches. In the source, `check_song` and `create_issue` fetch tokens, and a failing refresh there would raise.
- Clock and timestamps are integers. `time.time()` and `strptime(...).timestamp()` are floats in the source, and the source reads the clock a second time for the Spotify expiry.
- Most missing JSON or form keys are not modelled. In the source they raise `KeyError`. The model does cover the missing `version` field, `token`, `expires_at`, `access_token`, `tracks.items` and `html_url`. The webhook payload is assumed to carry its keys.
- Concurrency: the source has no locks, so the model is sequential. Two refreshes or two appends can race in the source.
- `Matcher.Missing` lowers ASCII letters only. The matcher lowers only stripped text, whose other characters are digits and whitespace, so full Unicode case mapping never applies.
- IsTitleMismatched: `max_err` is a `nat`; the only caller passes `len(words) // 2`.
- File encodings are not modelled: the file is read as characters. Universal-newline translation on reading is modelled (`Ledger.Universal`).
