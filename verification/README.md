# SteamRank Korea: a verified model of the client logic and the maintenance scripts

SteamRank Korea shows a leaderboard of the games most played in Korea on a chosen date.
The ranking comes from a remote API. A search box offers suggestions that jump to a game's
row in the list. Two Python maintenance scripts fill in each game's thumbnail and price
from the Steam store's `appdetails` endpoint. The games come from a text file:
`games_failed.txt` for the retry script, a tab-separated `games.txt` for the manual one.

This project models three files:

- **The leaderboard component** (`src/SteamRankKorea.jsx`).
  - `PriceFormat` models `formatPrice`, which sorts a raw price into four display forms:
    the unknown label, the free-to-play label, `$` followed by the `parseFloat` number, or
    the value as given. `parseFloat` is modelled as the longest ECMAScript decimal literal
    after leading whitespace.
  - `PriceLiteral` defines the StrDecimalLiteral production of ECMA-262 as a grammar on
    strings, independently of the scanner `parseFloat` is modelled by, and proves that the
    scanner finds the longest prefix the grammar accepts.
  - `Suggestions` models the search effect. It keeps the entries whose lower-cased name
    contains the lower-cased search text, in list order, and at most six of them.
  - `RankView` models the component state as a class: the date, the list, the search text,
    the suggestions, the `itemRefs` registry of rendered items, and the scroll requests
    made so far. Its methods are `fetchData` once the request has settled, the two input
    handlers, the `ref` callbacks of one render, `scrollToGame` and a suggestion's
    `onClick`.
  - `JsValues` gives the JavaScript rules these rely on: truthiness, `String(v)`, `trim`
    and `toLowerCase`.
- **`fetch_appdetails`** (`AppDetails`).
  - The same function appears in `retry_failed_games_render.py` (lines 30-79) and in
    `manual_insert_render.py` (lines 30-79). The table below cites the first copy.
  - The model starts once the request has ended: either it raised, or its body decoded to
    a JSON value.
  - It models the three checks on the answer, the thumbnail, and the price text. The
    price is `"free"`, the two-decimal dollar amount, `str(final)`, or none.
  - It also models two of the exceptions that escape to the caller: `AttributeError` for
    a body that is not an object, and `TypeError` for a dollar `final` that is not a
    number. The `OverflowError` of a dollar `final` too large for a float is not
    modelled (see "Left out").
- **The input-file loops.**
  - `FailedGames` models `load_failed_games` of `retry_failed_games_render.py`. Blank
    lines are skipped. Otherwise the first whitespace token is the app id, and the other
    tokens, joined by single spaces, are the name.
  - `ManualInsert` models `process_file` of `manual_insert_render.py`. A line is split at
    its first tab, and lines without a tab are skipped. The store is asked for the app's
    details; an app without details is skipped. An update is issued for each remaining
    line. An exception from `fetch_appdetails` ends the run.
  - `PyText` gives the Python string operations these loops use: `strip()`, `split()`,
    `" ".join` and the first-tab search of `split("\t", 1)`.

The shared modules are:

- `Chars`: trimming with a given whitespace class, ASCII case folding and decimal digits.
- `Sequences`: Keep, a generic filter-map. It is both JavaScript's `filter` and the
  skip-with-`continue` loops over file lines. Its lemma `KeepIndices` says which positions
  were kept and that their order is preserved.

Things that cannot be seen from inside the program become parameters:

- the settled `fetch` request (`FetchOutcome`);
- the store's answer for an app id (`Response`, and a function from app id to `Response`);
- the lines of a file, or its absence (`Option<seq<string>>`);
- the elements React passes to the `ref` callbacks.

Four points of `src/SteamRankKorea.jsx` that the model keeps exactly as written:

- `fetchData` has no stale-response check (lines 27-31). The response that settles last
  is kept, even when the selected date has changed since it was requested.
  `RankView.StaleResponseIsKept` exhibits this.
- A thrown error in `fetchData` is caught and only logged (lines 32-34). The previous
  list stays (`RankView.FailureKeepsList`).
- `fetchData` checks no HTTP status and filters no entries (lines 29-31). A resolved
  request replaces the list with the parsed array as it is.
- The suggestion limit is 6 (line 43, `Suggestions.MaxSuggestions`).

## Model

| member | source | states |
|---|---|---|
| PriceFormat.FormatPrice | src/SteamRankKorea.jsx:7-14 | a value given back is the price itself, and a `$` label carries exactly the number `parseFloat` reads from the price |
| PriceFormat.ParseFloat | src/SteamRankKorea.jsx:11-12 | for a string, the number read is a non-empty prefix of the text after its leading whitespace |
| PriceFormat.NumericPrefixLength | src/SteamRankKorea.jsx:11 | the literal found is within the text, and it is non-empty exactly when the text starts with a sign, then "Infinity", a digit, or a point and a digit |
| PriceFormat.LeadingLiteral | src/SteamRankKorea.jsx:11 | a number read from a text is a non-empty prefix of that text |
| PriceLiteral.NumericPrefixIsLongestLiteral | src/SteamRankKorea.jsx:11 | a non-empty prefix found is a StrDecimalLiteral, as defined independently of the scanner; no longer prefix of the text is one; and when nothing is found, no non-empty prefix is one |
| PriceLiteral.DollarsReadLongestLiteral | src/SteamRankKorea.jsx:11-13 | a `$` amount is a StrDecimalLiteral at the start of the text after its leading whitespace, and no longer prefix is one; a string given back has no non-empty prefix that is one |
| PriceFormat.DisplayText | src/SteamRankKorea.jsx:12-13 | the `$` form is "$" followed by the rendered number, and a string returned as given is shown unchanged |
| PriceFormat.UnknownExactlyWhenFalsy | src/SteamRankKorea.jsx:8 | the unknown label is shown for every falsy price (undefined, null, false, 0, NaN, "") and for no other |
| PriceFormat.IsFreeToken | src/SteamRankKorea.jsx:9 | the free check; `PriceFormat.FreeExactlyWhenToken` states that a string passes it exactly when it lower-cases to "free" |
| PriceFormat.FreeExactlyWhenToken | src/SteamRankKorea.jsx:9 | a string price is free-to-play exactly when the whole string lower-cases to "free" |
| PriceFormat.UpperCaseFreeIsFree | src/SteamRankKorea.jsx:9 | "FREE" is free-to-play, because the comparison ignores case |
| PriceFormat.PaddedFreeIsVerbatim | src/SteamRankKorea.jsx:9-13 | " free" is not free-to-play, since the match is on the whole string, and as it has no number it is returned as given |
| PriceFormat.DollarsExactlyWhenNumeric | src/SteamRankKorea.jsx:11-13 | a truthy string other than "free" gets the `$` form exactly when, after leading whitespace, it starts with a decimal number, and the amount is that text's leading literal; otherwise it is returned as given (`PriceLiteral.DollarsReadLongestLiteral` states that this literal is the longest one) |
| PriceFormat.NumbersGetDollars | src/SteamRankKorea.jsx:11-12 | every truthy number gets the `$` form with that number |
| PriceFormat.DecimalStringExample | src/SteamRankKorea.jsx:11-12 | "19.99" is read whole as the `$` amount |
| PriceFormat.PlainDecimalLength | src/SteamRankKorea.jsx:11 | the literal at the start of "19.99" is five characters long |
| PriceFormat.LocalisedStringExample | src/SteamRankKorea.jsx:11-13 | "₩29000" has no leading number and is returned as given |
| PriceFormat.DigitsThenLettersLength | src/SteamRankKorea.jsx:11 | in "12abc" the literal stops before the first letter |
| PriceFormat.PrefixExample | src/SteamRankKorea.jsx:11-12 | " 12abc" gets the `$` form with the number 12: leading whitespace is skipped and the rest ignored |
| PriceFormat.BareExponentExample | src/SteamRankKorea.jsx:11 | an exponent marker with no digits after it ("1e") is not part of the literal |
| PriceFormat.SignedExponentExample | src/SteamRankKorea.jsx:11 | "-.5E+3x" starts with a six-character literal: a sign, a leading point and a signed exponent |
| PriceFormat.LonePointExample | src/SteamRankKorea.jsx:11 | ".e1" has no literal: a point needs a digit on one side |
| JsValues.Truthy | src/SteamRankKorea.jsx:8 | ECMAScript truthiness; `PriceFormat.UnknownExactlyWhenFalsy` pins it to the unknown-price branch |
| JsValues.ToJsString | src/SteamRankKorea.jsx:9 | `String(v)` of every value but a number; `PriceFormat.FreeExactlyWhenToken` states what it gives the free check |
| JsValues.JsTrim | src/SteamRankKorea.jsx:38 | `trim` never lengthens the text, and what it leaves, when not empty, starts and ends with a non-whitespace character |
| JsValues.JsLower | src/SteamRankKorea.jsx:9 | `toLowerCase` for the ASCII capitals; `JsValues.JsLowerFoldsCapitals` states its effect |
| JsValues.JsLowerFoldsCapitals | src/SteamRankKorea.jsx:41 | lower-casing keeps the length, leaves no ASCII capital, and changes no other character |
| JsValues.BlankIffTrimsToEmpty | src/SteamRankKorea.jsx:38 | `search.trim()` is empty exactly when every character of the search is whitespace |
| Suggestions.NameMatches | src/SteamRankKorea.jsx:41 | the filter's test; `Suggestions.Matches` and `Suggestions.MatchesInOrder` state that exactly the entries passing it are kept |
| Suggestions.Includes | src/SteamRankKorea.jsx:41 | `includes` holds exactly when the text occurs at some position |
| Suggestions.Matches | src/SteamRankKorea.jsx:40-42 | the matches are no more than the entries, and an entry is among them exactly when it is in the list and its name matches |
| Suggestions.Suggest | src/SteamRankKorea.jsx:37-44 | at most six suggestions, none for a blank search, and each is a listed entry whose name matches |
| Suggestions.BlankSearchSuggestsNothing | src/SteamRankKorea.jsx:38 | a search that trims to nothing gives no suggestions, whatever the list |
| Suggestions.SuggestionsAreFirstMatches | src/SteamRankKorea.jsx:40-43 | any other search gives the first min(6, number of matches) matches |
| Suggestions.SuggestionsArePrefix | src/SteamRankKorea.jsx:43 | the suggestions are always a prefix of the matches and at most six long |
| Suggestions.MatchesInOrder | src/SteamRankKorea.jsx:40-42 | the matches are exactly the entries whose name matches, in list order: the k-th comes from an increasing position idx[k], and every matching position is among them |
| Suggestions.SuggestionsAreOrderedMatches | src/SteamRankKorea.jsx:38-43 | every suggestion is an entry of the list whose lower-cased name contains the lower-cased search, there are at most six, and they keep list order |
| Suggestions.AlphaBetaExample | src/SteamRankKorea.jsx:40-43 | in [Alpha, Beta], the search "al" suggests Alpha alone |
| RankView.RankingsUrl | src/SteamRankKorea.jsx:29 | the request URL; `RankView.RankingsUrlDeterminesDate` states that the date can be read back from it |
| RankView.RankingsUrlDeterminesDate | src/SteamRankKorea.jsx:29 | the date can be read back from the end of the request URL |
| RankView.RankingsUrlsDiffer | src/SteamRankKorea.jsx:29 | different dates are requested at different URLs |
| RankView.Detached | src/SteamRankKorea.jsx:107 | when a commit detaches the previous items' callbacks, every id stays known and holds null |
| RankView.RefsAfterRender | src/SteamRankKorea.jsx:98-107 | after a commit the registry holds exactly the ids it held before and the ids of the listed entries |
| RankView.RenderRegistersEveryEntry | src/SteamRankKorea.jsx:98-107 | after a render, every listed entry's id resolves to an element |
| RankView.RenderLastOccurrenceWins | src/SteamRankKorea.jsx:105-107 | an id listed more than once resolves to the element of its last occurrence |
| RankView.RenderKeepsUnlisted | src/SteamRankKorea.jsx:98-107 | an id not in the list stays known exactly when it was known before, and it then holds null, so an entry dropped from the list no longer resolves to an element |
| RankView.SteamRankKorea.Anchor | src/SteamRankKorea.jsx:47-48 | the element exists exactly when the registry holds one for the id, and it is that element |
| RankView.SteamRankKorea.constructor | src/SteamRankKorea.jsx:17-21 | the date, the list, the search, the suggestions, the registry and the scroll requests all start empty |
| RankView.SteamRankKorea.SetDate | src/SteamRankKorea.jsx:23-25 | the date is replaced, and nothing else changes |
| RankView.SteamRankKorea.FetchData | src/SteamRankKorea.jsx:27-35 | a resolved request replaces the list with the parsed array as it is, and the suggestions are recomputed; a thrown error changes nothing; the date and the search are left unchanged |
| RankView.SteamRankKorea.SetSearch | src/SteamRankKorea.jsx:37-44 | the search text is replaced and the suggestions become those of the new text over the current list |
| RankView.SteamRankKorea.SetItemRef | src/SteamRankKorea.jsx:107 | the registry maps the item's id to the element or to null, and no other id changes |
| RankView.SteamRankKorea.AttachRefs | src/SteamRankKorea.jsx:98-107 | the registry becomes the result of one commit: the previous callbacks called with null, then the list's callbacks in list order |
| RankView.SteamRankKorea.ScrollToGame | src/SteamRankKorea.jsx:46-49 | a registered element gets one scroll request; an id with none is a silent no-op |
| RankView.SteamRankKorea.SelectSuggestion | src/SteamRankKorea.jsx:82-86 | clicking a suggestion scrolls to its entry when it is registered, then leaves no search text and no suggestions |
| RankView.StaleResponseIsKept | src/SteamRankKorea.jsx:27-31 | requests for two different dates d1 and then d2, with d1's answer settling last, show the list that answered d1's URL while d2, whose URL differs, is the selected date |
| RankView.FailureKeepsList | src/SteamRankKorea.jsx:27-35 | a failed request after a successful one keeps the successful list and its suggestions |
| RankView.DroppedEntryScrollsNowhere | src/SteamRankKorea.jsx:46-49 | after [A (10)] is rendered and then replaced by [B (20)], a scroll to id 10 does nothing |
| RankView.SelectionExample | src/SteamRankKorea.jsx:82-86 | rendering [Alpha, Beta], typing "al" and clicking the suggestion scrolls to Alpha's item only and clears search and suggestions; scrolling to an unrendered id does nothing |
| PyText.Strip | retry_failed_games_render.py:119 | `strip()` never lengthens the line, and what it leaves, when not empty, starts and ends with a non-whitespace character |
| PyText.Split | retry_failed_games_render.py:124 | every token of `split()` is non-empty and holds no whitespace |
| PyText.Join | retry_failed_games_render.py:126 | `" ".join` of a non-empty list starts with the first part |
| PyText.SplitKeepsText | retry_failed_games_render.py:124 | the tokens, put back together, are exactly the non-whitespace characters of the line in order |
| PyText.SplitEmptyIffSpaces | retry_failed_games_render.py:124 | `split()` gives no token exactly when every character is whitespace |
| PyText.SplitEmptyIffBlank | retry_failed_games_render.py:119-124 | `split()` gives no token exactly when `strip()` leaves nothing |
| PyText.StripHasTokens | retry_failed_games_render.py:119-125 | a line that does not strip to nothing has a first token, so `parts[0]` exists |
| PyText.JoinIsSingleSpaced | retry_failed_games_render.py:126 | joining tokens gives a single-spaced string with non-whitespace ends, empty exactly when there are no tokens |
| PyText.SplitAfterSpace | retry_failed_games_render.py:124 | a leading whitespace character of any kind `isspace` accepts is dropped by `split()` |
| PyText.SplitJoinRoundTrip | retry_failed_games_render.py:124-126 | splitting a join of tokens gives the tokens back |
| PyText.FirstIndexOf | manual_insert_render.py:120 | none exactly when the character is absent, else the position of its first occurrence |
| AppDetails.FetchAppDetails | retry_failed_games_render.py:30-79 | an exception escapes only for a decoded body, AttributeError exactly when the body is not an object, and TypeError exactly when the three checks pass and the price derivation raises; None exactly when the request failed or one of the three checks fails; otherwise the thumbnail is `header_image` (or None) and the price is the one derived from `data` |
| AppDetails.CentsOf | retry_failed_games_render.py:72-73 | the cents `final / 100` divides, for an int or a bool; `AppDetails.DerivePrice` states that anything else raises TypeError |
| AppDetails.PriceString | retry_failed_games_render.py:76 | `str(final)`; `AppDetails.OtherCurrencyVerbatim` states its text for an integer |
| AppDetails.GameObject | retry_failed_games_render.py:41-53 | the `data` object is found exactly when the entry for the app id is an object with a truthy `success` and a `data` member that is an object, and it is that member's contents |
| AppDetails.DerivePrice | retry_failed_games_render.py:58-77 | the only exception is TypeError, raised exactly for a game that is not free with a USD price object whose `final` is present but neither an int nor a bool; no price exactly for a game that is not free with no price object or no `final` |
| AppDetails.FormatCents | retry_failed_games_render.py:73 | the text is an optional minus, a whole part of digits with no leading zero (a lone "0" aside), a point and exactly two digits, and it starts with a minus exactly for a negative amount |
| AppDetails.FormatCentsRoundTrip | retry_failed_games_render.py:73 | the two-decimal text reads back as the same number of cents |
| AppDetails.FormatCentsInjective | retry_failed_games_render.py:73 | different amounts never share a text |
| AppDetails.TenNinetyNine | retry_failed_games_render.py:68-73 | 1099 cents are "10.99" |
| AppDetails.FreeWins | retry_failed_games_render.py:63-65 | a truthy `is_free` gives "free", whatever `price_overview` holds |
| AppDetails.DollarPriceReadsBack | retry_failed_games_render.py:70-73 | a USD `final` in whole cents gives exactly the text FormatCents renders for it, in the two-decimal form with no leading zero, and it reads back as those cents |
| AppDetails.IntToStringReadBack | retry_failed_games_render.py:76 | `str(i)` starts with a minus exactly when `i` is negative, and the rest is decimal digits with no leading zero (a lone "0" aside) whose value is the magnitude of `i` |
| AppDetails.OtherCurrencyVerbatim | retry_failed_games_render.py:74-76 | any other currency gives `str(final)`: a minus exactly for a negative `final`, then decimal digits with no leading zero (a lone "0" aside) whose value is the magnitude of `final` |
| AppDetails.NoPriceWithoutFinal | retry_failed_games_render.py:59-70 | a game that is not free, with no price object or with no `final`, has no price, and its answer is still accepted |
| AppDetails.NonNumericDollarsRaise | retry_failed_games_render.py:72-73 | a USD `final` that is a string, list or object raises TypeError |
| FailedGames.ParseFailedLine | retry_failed_games_render.py:119-128 | a line gives no pair exactly when every character is whitespace, and a pair's app id is one non-empty token with no whitespace |
| FailedGames.LoadFailedGames | retry_failed_games_render.py:110-130 | a missing file gives the empty list, and an existing one gives the pair of every line that does not strip to nothing, in file order |
| FailedGames.FailedLineFields | retry_failed_games_render.py:119-126 | a kept line's app id is one non-empty whitespace-free token; its name is single-spaced; the app id followed by the name's tokens are the line's tokens, so only whitespace is lost |
| FailedGames.FailedGamesInOrder | retry_failed_games_render.py:117-128 | blank lines are skipped, every other line gives one pair, and the pairs keep file order |
| FailedGames.RunsOfSpacesCollapse | retry_failed_games_render.py:123-126 | runs of spaces between fields collapse: `730   Counter  Strike` lists "Counter Strike" |
| FailedGames.AppIdAlone | retry_failed_games_render.py:124-126 | a line holding only an app id lists it with the empty name |
| ManualInsert.ParseTabLine | manual_insert_render.py:115-126 | a line is blank exactly when every character is whitespace, and malformed exactly when it strips to something with no tab, which is then the stripped line; an entry's stripped line holds a tab |
| ManualInsert.LineStep | manual_insert_render.py:115-134 | a line that is not an entry yields nothing; a line raises only as an entry whose details lookup raises that error; an update carries the entry's fields and the details the lookup returned |
| ManualInsert.ProcessFile | manual_insert_render.py:107-146 | a file that cannot be opened issues nothing and does not complete; otherwise the run is the line loop's over the file's lines |
| ManualInsert.ForEachLine | manual_insert_render.py:114-143 | the loop collects one step per line in order and stops at the first step that raises |
| ManualInsert.Drive | manual_insert_render.py:114-143 | the line loop issues at most one update per line, and a run that does not complete has a line that stopped it; `ManualInsert.DriveStopsAtFirstRaise` states which updates it issues |
| ManualInsert.FirstRaise | manual_insert_render.py:131 | the position of the first line whose details lookup raises, or the number of lines |
| ManualInsert.DriveStopsAtFirstRaise | manual_insert_render.py:114-143 | a run issues the updates of the lines before the first one that raises, and completes exactly when none raises |
| ManualInsert.ProcessStopsAtFirstRaise | manual_insert_render.py:112-146 | `process_file` completes exactly when no line raises, and it issues the updates of the lines before the first one that does |
| ManualInsert.SkippedLineContinues | manual_insert_render.py:115-134 | a blank line, a line without a tab, or an app without details is skipped, and the run goes on with the next line |
| ManualInsert.SkipReasons | manual_insert_render.py:115-134 | a line yields nothing exactly when it is blank, has no tab, or its lookup returns None, and each of the three lets the run go on with the next line |
| ManualInsert.UpdatesInFileOrder | manual_insert_render.py:114-138 | every update comes from a line with a tab, before the first line that raises; it carries that line's stripped fields and the store's details for its app id; updates keep file order |
| ManualInsert.EntryFields | manual_insert_render.py:119-126 | an entry's app id and name are non-empty and stripped, and the app id holds no tab |
| ManualInsert.HalvesAroundTab | manual_insert_render.py:120-126 | the halves around the first tab of a stripped line strip to non-empty strings, the first with no tab |
| ManualInsert.TabSeparatedEntry | manual_insert_render.py:119-126 | an app id and a name around one tab give that entry, and tabs inside the name stay in it |
| ManualInsert.TrailingTabIsMalformed | manual_insert_render.py:115-123 | a tab that is only trailing whitespace is stripped with the line ending, so `730<TAB>` is skipped as having no tab |

## Left out

- HTTP: `fetch` and `response.json()` in the component, and `requests.get`,
  `raise_for_status` and `resp.json()` in the scripts. The settled outcome is an input.
  The component checks no status, and the model adds no check.
- The database: connections, the `UPDATE` statements, commit and rollback. An update is
  recorded as the arguments of one `update_game_in_db` call. The model assumes that
  `get_db_connection` succeeds and that `conn.rollback()` (manual_insert_render.py:142)
  does not raise. A database error is then caught per line and does not change which
  lines are processed. A `rollback` that raised would end the run.
- The `retry_failed` loop of `retry_failed_games_render.py` and both `update_game_in_db`
  functions. These are database I/O. The retry script's update also sets the name; the
  manual one's does not.
- File access: `os.path.exists`, `open`, decoding, and splitting the file into lines. The
  lines are an input. An absent file gives the empty list in `load_failed_games`; a file
  that `open` cannot read ends `process_file` with nothing issued.
- Logging through `print` and `console.error`, and the `finally` that closes the connection.
- React rendering, the markup, the image `onError` fallback, `toLocaleString` and the
  actual scrolling. A scroll is recorded as a request for an element. The mount effect's
  clock reading is the argument of `SetDate`.
- RankView.SteamRankKorea.FetchData: the response is an array of entries with a string
  `name`. A body of another shape would be stored as it is, and rendering it would
  throw; that is not modelled.
- RankView.SteamRankKorea.AttachRefs: one commit is one call. It assumes that the
  registry is changed only by commits. Then the ids holding an element are exactly
  those of the previous commit, and detaching them sets every id to null. A re-render
  that keeps the list is one more call with the same elements.
- JsValues.JsLower: `toLowerCase` is modelled for the ASCII capitals only. This is exact
  for the comparison with "free", which is plain ASCII. For non-ASCII text the model and
  the browser differ both ways. The name "É" with the search "é" matches in the browser
  but not in the model. The name "ΟΔΟΣ" with the search "Σ" matches in the model, but not
  in the browser, which lower-cases a word-final sigma to "ς" and a lone one to "σ".
- Arrays and objects as prices: a `JsValue` holds no array and no object. In the
  browser `["free"]` is free-to-play and `[12]` shows "$12", through `String` and
  `parseFloat` of the array. The model cannot express either.
- Ids of other types: a `Game`'s `steam_appid` is a natural number. An id of another
  JSON type is not modelled.
- JsValues.ToJsString: `String(v)` of a number is not modelled. No number renders as
  "free", so the free check on numbers is still exact.
- PriceFormat.ParseFloat: the number is kept as the literal text read, or as the number
  itself. Floating-point conversion and the `${num}` rendering are not modelled.
- AppDetails.FormatCents: `final / 100` is modelled as exact two-decimal formatting of
  the integer cents. Python's float division and rounding give the same text only while
  |final| is small enough for the double to keep two exact decimals (far beyond any
  price). Beyond about 1.8·10^310 the division raises `OverflowError` in Python. That
  error escapes `fetch_appdetails` and ends the run of `process_file`. The model returns
  a text there instead, so `ManualInsert.ProcessStopsAtFirstRaise` lets the run go on.
  JSON numbers with a fraction or an exponent (Python floats) are not modelled.
- AppDetails.PriceString: `str()` of a JSON array or object is not rendered. It is kept
  as the value (`ContainerText`).
- ManualInsert.ProcessFile: the store's answers are a fixed function of the app id. The
  model does not cover answers that change between two lookups of the same id within
  one run.
