# linkleaf feed logic in Dafny

linkleaf keeps a personal link feed: a title, a version and an ordered list
of links, each with an id, title, url, date, summary, tags and "via". This
project models the logic around that feed and proves properties of it:

- the upsert engine of the library (`add`, with `update_link_in_place` and
  `insert_new_link_front`): pick a match key (the explicit id, else the
  URL), then refresh the matching link and move it to the front, or put a
  new link in front; a missing feed file becomes an empty version-1 feed;
- the library's query filter (`list`): keep, in stored order, the links that
  pass an optional tag filter (ASCII case-insensitive, any tag against any
  needle) and an optional exact calendar-date filter;
- the earlier revision in `src/api.rs`: a single id key (supplied, or derived
  from a hash of URL and UTC day), the same remove-and-prepend update, a
  push-and-extend insert, `parse_tags`, `list` and the HTML title fallback;
- the command-line validators `parse_tags` and `parse_date`.

Modules:

- `Wrappers`: `Option` and `Result`, and `OrEmpty` (`unwrap_or_default` on an optional string).
- `Text`: Unicode whitespace, `trim`, ASCII lower-casing and case-insensitive equality, `split(',')`, and the split/trim/drop-empty tag chain.
- `Calendar`: dates, leap years, the strict `[year]-[month]-[day]` and `[year]-[month]-[day] [hour]:[minute]:[second]` formats, both as printers and as parsers.
- `Feeds`: `Link`, `Feed`, the store's errors, the first-match search, and the upsert both revisions share, as functions on sequences.
- `Core`: the library. A `FeedBuffer` class stands for the `&mut Feed` the helpers edit in place. `Add` and `List` are methods proved equal to the specification functions `AddSpec` and `ListSpec`.
- `Validation`: `src/validation.rs`.
- `Api`: `src/api.rs`.

The library's `add` stores the `tags` it is given as they are, with no trim,
no split and no dropping of empty strings (crates/linkleaf-core/src/lib.rs:178).
The model follows the code. The command-line front end passes its `--tags`
value to `add` as a single optional string, with no value parser
(crates/linkleaf-cli/src/main.rs:115-117, crates/linkleaf-cli/src/command.rs:37).
`add` iterates that `Option`, so `--tags "rust, async"` is stored as the single
tag `"rust, async"`. Only `list` splits its `--tags` value, through `parse_tags`
(crates/linkleaf-cli/src/main.rs:73-75).

The store, the clock, the UUID generator and the hash are parameters:

- the store is the outcome of `read_feed`, a `Result<Feed, Error>`;
- the local clock is an `Option<Timestamp>`, where `None` means the local UTC offset cannot be determined;
- the UTC clock is a `Timestamp`;
- the fresh UUID is a string;
- SHA-256 is a function from the hashed text to 32 bytes.

`add` returns the feed it would hand to `write_feed`.

## Model

| member | source | states |
|---|---|---|
| Wrappers.OrEmpty | crates/linkleaf-core/src/lib.rs:38-40 | `unwrap_or_default` on an optional string: the value when present, the empty string when absent |
| Text.AsciiLower | crates/linkleaf-core/src/lib.rs:294 | `to_ascii_lowercase`: same length, each character lower-cased when it is an ASCII capital and kept otherwise |
| Text.SplitTags | src/validation.rs:11-16 | the split-on-comma, trim, drop-empty chain; every tag it yields is non-empty, trimmed and comma-free |
| Calendar.TimestampText | crates/linkleaf-core/src/lib.rs:163-165 | `format(TS_FMT)`: sign (only for negative years), four-digit year, two-digit month and day, a space, two-digit hour, minute and second; its parse-back is `Calendar.ParseTimestampOfText` |
| Calendar.ParseDateText | src/validation.rs:6-7 | `Date::parse` with `[year]-[month]-[day]`: an optional sign, then exactly `DDDD-DD-DD` and nothing more; any date it yields is a real calendar date |
| Calendar.ParseTimestamp | crates/linkleaf-core/src/lib.rs:309 | `PrimitiveDateTime::parse` with TS_FMT; any timestamp it yields is a real date with hour < 24, minute < 60, second < 60; which texts it accepts is stated by `Calendar.ParseTimestampIff` |
| Calendar.ParseTimestampIff | crates/linkleaf-core/src/lib.rs:309 | the parser yields `t` exactly when `t` is a real date and time and the text is its TS_FMT spelling (an optional `+` before a non-negative year, `-` before year zero), so a `T` separator, an unpadded field, `24:00:00` or trailing text are refused |
| Calendar.DateText | src/api.rs:46 | `Date`'s `to_string`, the date `add` stores and hashes: `-` before a negative year, then a zero-padded four-digit year, two-digit month and two-digit day joined by dashes; `Calendar.ParseDateTextIff` shows the date parser reads it back |
| Calendar.IsLeapYear | src/validation.rs:7 | the Gregorian rule: divisible by 4 and not by 100, or divisible by 400 |
| Calendar.ValidDate | src/validation.rs:7 | the calendar check of the `time` crate's parser: a year in -9999..9999, a month in 1..12 and a day from 1 to the month's length |
| Text.IsWhitespace | src/validation.rs:13 | `char::is_whitespace`, the Unicode White_Space set that every `trim` cuts: tab to carriage return, space, U+0085, U+00A0, U+1680, U+2000..U+200A, U+2028, U+2029, U+202F, U+205F, U+3000 |
| Text.EqIgnoreAsciiCase | crates/linkleaf-core/src/lib.rs:304 | `eq_ignore_ascii_case`: equal lengths and, position by position, equal characters once ASCII capitals are lower-cased |
| Feeds.RemoveAt | crates/linkleaf-core/src/lib.rs:34 | `links.remove(pos)` (also src/api.rs:61): the list without its entry at `pos`, one shorter |
| Feeds.Refreshed | crates/linkleaf-core/src/lib.rs:35-40 | the field overwrite (also src/api.rs:63-68): every field but the id replaced, an absent summary or via stored as empty |
| Feeds.NewLink | crates/linkleaf-core/src/lib.rs:56-64 | the `Link` literal (also src/api.rs:78-86): the given id and the request's fields, an absent summary or via stored as empty |
| Feeds.Matches | crates/linkleaf-core/src/lib.rs:186 | the `position` predicates: equal id when keyed by id (also src/api.rs:59), equal URL when keyed by URL (lib.rs:218) |
| Core.MatchKey | crates/linkleaf-core/src/lib.rs:183-218 | the key `add` searches by: the explicit id when given, the URL otherwise |
| Core.NewId | crates/linkleaf-core/src/lib.rs:233 | the id of an inserted link: the explicit id verbatim when given (lib.rs:203), the freshly generated UUID otherwise |
| Core.Keep | crates/linkleaf-core/src/lib.rs:315 | `tag_ok && date_ok`: a link is kept when it passes both conditions |
| Api.HashInput | src/api.rs:17-20 | the text the hasher is fed: the URL, a `|`, the date |
| Feeds.Upsert | crates/linkleaf-core/src/lib.rs:183-249 | the first link matching the key is refreshed and moved to the front, or else a new link with the given id is prepended; either way the list is non-empty and `links[0]` carries the new values |
| Core.AddSpec | crates/linkleaf-core/src/lib.rs:145-256 | `add` succeeds exactly when the local clock works and the read is a feed or "not found"; then the returned link is `links[0]` of the written feed and carries the request's values with the local timestamp |
| Core.Needles | crates/linkleaf-core/src/lib.rs:292-297 | the requested tags, trimmed and lower-cased, the empty ones dropped; never more needles than requested tags |
| Core.TagOk | crates/linkleaf-core/src/lib.rs:300-306 | no tag filter, or some stored tag equals some needle ignoring ASCII case |
| Core.DateOk | crates/linkleaf-core/src/lib.rs:308-313 | no date filter, or the stored date parses with TS_FMT and its date part equals the filter; a date that does not parse fails |
| Core.Kept | crates/linkleaf-core/src/lib.rs:299-316 | the links passing both conditions, in stored order, never more than stored |
| Core.ListSpec | crates/linkleaf-core/src/lib.rs:284-319 | a read error is returned unchanged; otherwise title and version pass through and the links are filtered, never growing in number |
| Api.HexEncode | src/api.rs:22 | `hex::encode`: two lower-case hex digits per byte, so twice as long as its input |
| Api.KeyOf | src/api.rs:57 | the supplied id verbatim, or else a 12-character id that decodes to the first 6 digest bytes of `url|date` |
| Api.AddSpec | src/api.rs:37-100 | `add` succeeds exactly when the read is a feed or "not found"; then the returned link is `links[0]`, has the key as its id and carries the request's values with the UTC day |
| Core.FeedBuffer.UpdateLinkInPlace | crates/linkleaf-core/src/lib.rs:23-44 | the list becomes `MovedToFront(old, pos, f)`: the link at `pos`, with every field but its id overwritten (absent summary/via stored as empty), at index 0, the others in their order; title and version untouched; the returned link is the new `links[0]` |
| Core.FeedBuffer.InsertNewLinkFront | crates/linkleaf-core/src/lib.rs:46-67 | the list becomes the new link (given id, absent summary/via stored as empty) followed by exactly the old list; the returned link is `links[0]` |
| Core.FeedBuffer.Retain | crates/linkleaf-core/src/lib.rs:299-316 | the loop leaves exactly `Kept(old links, q)`, the links passing both conditions in stored order; title and version untouched |
| Feeds.Position | crates/linkleaf-core/src/lib.rs:186 | `iter().position`: the result is an index whose link matches and no earlier link matches, and it is `None` exactly when no link matches |
| Feeds.MovedToFront | crates/linkleaf-core/src/lib.rs:33-43 | same length; index 0 is the entry from `pos` refreshed with its id kept; entries before `pos` shift one place later; entries after `pos` stay put |
| Feeds.ReadOrInit | crates/linkleaf-core/src/lib.rs:168-176 | a "not found" read becomes an empty feed with version 1; every other outcome passes through unchanged |
| Feeds.MovedToFrontKeepsIds | crates/linkleaf-core/src/lib.rs:33-43 | moving to the front keeps the multiset of ids |
| Feeds.UpsertKeepsIdsUnique | crates/linkleaf-core/src/lib.rs:183-249 | an upsert keeps ids unique, provided the id of an inserted link is not already present |
| Feeds.UpsertByIdLeavesOne | crates/linkleaf-core/src/lib.rs:184-199 | after an upsert by id `k` (ids unique before), `links[0]` has id `k` and no other link does |
| Core.Add | crates/linkleaf-core/src/lib.rs:145-256 | the step-by-step `add` (clock, read-or-init, key choice, update or insert on the buffer) returns exactly `AddSpec` |
| Core.AddErrors | crates/linkleaf-core/src/lib.rs:161-176 | an indeterminate local offset fails first; any read error but "not found" is returned unchanged; `add` succeeds exactly when the clock works and the read is a feed or "not found" |
| Core.AddOnMissingFile | crates/linkleaf-core/src/lib.rs:168-174 | on a missing file the written feed has version 1, an empty title and exactly the returned link |
| Core.AddUpdatesById | crates/linkleaf-core/src/lib.rs:184-199 | an id already present: the length is unchanged, `links[0]` is that link refreshed with the new values and the same id, it is the returned link and the only link with that id, and the rest is the old list without it, in order |
| Core.AddInsertsWithGivenId | crates/linkleaf-core/src/lib.rs:181-214 | an id not present: a new link with that id verbatim goes in front of exactly the old list, whatever URLs the old links have |
| Core.AddUpdatesByUrl | crates/linkleaf-core/src/lib.rs:216-231 | no id, URL present: the first link with that URL is refreshed, keeps its id and moves to index 0; the rest is the old list without it |
| Core.AddInsertsWithFreshId | crates/linkleaf-core/src/lib.rs:232-247 | no id, URL absent: a link with the fresh id goes in front of exactly the old list |
| Core.AddKeepsIdsUnique | crates/linkleaf-core/src/lib.rs:183-249 | with unique ids before and an unused fresh id, ids stay unique |
| Core.AddTwiceSameId | crates/linkleaf-core/src/lib.rs:184-199 | two adds with the same id leave one link with that id, at index 0, carrying the second call's values, and the second add does not change the length |
| Core.AddTwiceSameUrl | crates/linkleaf-core/src/lib.rs:216-231 | two adds without an id and with the same URL: the second refreshes the first one's link, which stays at index 0 with the same id and now carries the second call's values; the length and the tail are unchanged |
| Core.NeedlesMembership | crates/linkleaf-core/src/lib.rs:292-297 | a needle is exactly the trimmed, lower-cased form of some requested tag that is not blank |
| Core.NeedlesNormalised | crates/linkleaf-core/src/lib.rs:292-297 | every needle is non-empty and already lower case |
| Core.TagOkIff | crates/linkleaf-core/src/lib.rs:300-306 | the tag condition holds exactly when some stored tag, lower-cased, equals some non-blank requested tag, trimmed and lower-cased |
| Core.BlankTagFilterDropsAll | crates/linkleaf-core/src/lib.rs:292-306 | a tag filter whose tags are all blank has no needles and keeps no link |
| Core.UnparseableDateFails | crates/linkleaf-core/src/lib.rs:308-311 | a link whose date does not parse as `YYYY-MM-DD HH:MM:SS` never passes a date filter |
| Core.KeptSnoc | crates/linkleaf-core/src/lib.rs:299-316 | filtering a list with one more link at the end appends that link exactly when it passes |
| Core.KeptIsSubsequence | crates/linkleaf-core/src/lib.rs:299-316 | the filter result is a subsequence of the stored links: nothing is added or reordered |
| Core.KeptMembership | crates/linkleaf-core/src/lib.rs:299-316 | a link is kept exactly when it is stored and passes both conditions |
| Core.KeptAll | crates/linkleaf-core/src/lib.rs:299-316 | when every link passes, the result is the whole list |
| Core.List | crates/linkleaf-core/src/lib.rs:284-319 | read errors (including "not found") pass through; otherwise the buffer is retained and the result is exactly `ListSpec` |
| Core.ListShape | crates/linkleaf-core/src/lib.rs:284-319 | errors are returned unchanged; a result keeps title and version and lists a subsequence of the stored links |
| Core.ListWithoutFilters | crates/linkleaf-core/src/lib.rs:299-316 | with neither filter, `list` returns the stored feed unchanged |
| Core.ListMembership | crates/linkleaf-core/src/lib.rs:299-316 | a link is listed exactly when it is stored and passes the tag condition and the date condition |
| Core.AddedLinkListedThatDay | crates/linkleaf-core/src/lib.rs:161-165 | the link `add` returns is listed by a date filter for the local day it was stamped with: the stamp parses back with the list's format |
| Calendar.DaysInMonth | src/validation.rs:59-66 | every month has 28 to 31 days, and February has 29 exactly in leap years |
| Calendar.ParseDateTextIff | src/validation.rs:4-8 | the `[year]-[month]-[day]` parser yields `d` exactly when `d` is a real date and the text is its four-digit year (optional sign), two-digit month and two-digit day joined by dashes |
| Calendar.ParseTimestampOfText | crates/linkleaf-core/src/lib.rs:14-15 | a timestamp printed with the `YYYY-MM-DD HH:MM:SS` format parses back to itself |
| Validation.ParseDate | src/validation.rs:4-8 | an accepted date is a real calendar date; a rejection carries the error message |
| Validation.ParseDateIff | src/validation.rs:4-8 | `parse_date` accepts `s` as `d` exactly when `d` is valid and `s`, trimmed, spells `d` in the strict format, so time suffixes, other separators, day-first order and unpadded fields are refused |
| Validation.ParseDateRejectsLength | src/validation.rs:4-8 | a trimmed input not 10 or 11 characters long, a time suffix for instance, is rejected |
| Validation.ParseTags | src/validation.rs:10-19 | `parse_tags` never fails, and every tag it yields is non-empty, has no surrounding whitespace and contains no comma |
| Validation.ParseTagsOfJoin | src/validation.rs:10-19 | tags written out comma-separated parse back to the same tags, in the same order and case |
| Validation.ParseTagsEmptyIff | src/validation.rs:10-19 | no tags come out exactly when the input consists of commas and whitespace only, the empty string included |
| Text.Trim | src/validation.rs:13 | `trim` yields a trimmed infix of the input, cut only at whitespace on either side, empty exactly when the input is blank, and the input itself when already trimmed |
| Text.EqIgnoreAsciiCaseIsLowerEq | crates/linkleaf-core/src/lib.rs:304 | `eq_ignore_ascii_case` holds exactly when the ASCII lower-casings are equal |
| Text.Split | src/validation.rs:12 | `split(',')` yields at least one piece and no piece contains the separator |
| Text.JoinSplit | src/validation.rs:12 | joining the pieces of a split with the separator gives the input back |
| Text.SplitJoin | src/validation.rs:12 | splitting separator-free pieces joined by the separator gives the pieces back |
| Text.SplitTagsOfJoin | src/validation.rs:11-16 | the split/trim/drop-empty chain inverts comma-joining of proper tags |
| Text.SplitTagsEmptyIff | src/validation.rs:11-16 | the chain yields nothing exactly when the input consists of commas and whitespace only |
| Api.HexDecodeEncode | src/api.rs:22 | `hex::encode` is invertible: decoding the encoding gives the bytes back |
| Api.DeriveId | src/api.rs:16-24 | the derived id always has 12 characters, all lower-case hex digits, and it is the hex form of the first 6 digest bytes of `url|date` |
| Api.HashInputInjective | src/api.rs:17-20 | when neither date contains `|`, equal hashed texts mean equal URL and equal date |
| Api.ParseTags | src/api.rs:26-35 | no argument gives no tags; every tag produced is non-empty, trimmed and comma-free |
| Api.ParseTagsAgrees | src/api.rs:26-35 | on a given string it produces exactly what the validator's `parse_tags` produces |
| Api.ParseTagsOfJoin | src/api.rs:26-35 | comma-joined tags parse back to the same tags |
| Api.Add | src/api.rs:37-100 | the step-by-step `add` on a local feed value (remove and reinsert, or push and extend) returns exactly `AddSpec` |
| Api.AddReadOutcome | src/api.rs:47-55 | a missing file gives a version-1 feed holding just the new link; any other read error is returned unchanged |
| Api.AddUpdates | src/api.rs:57-76 | a key already present: that link is refreshed with the same id and moved to index 0, the others keep their order, the length is unchanged, and it is the returned link |
| Api.AddInserts | src/api.rs:78-99 | a key not present: the new link with that key as id goes in front of exactly the old links |
| Api.AddKeepsIdsUnique | src/api.rs:57-99 | unique ids stay unique, whatever the hash |
| Api.AddSameUrlSameDay | src/api.rs:46-76 | adding the same URL twice on one UTC day without an id updates one link: it keeps its id, stays at index 0 and carries the second call's values; the length and the tail are unchanged |
| Api.List | src/api.rs:102-105 | `list` succeeds exactly when the read does |
| Api.ListIsUnfilteredCoreList | src/api.rs:102-105 | this `list` equals the library's `list` with neither filter, so the stored feed comes back unchanged |
| Api.HtmlTitle | src/api.rs:107-118 | read errors pass through; the custom title wins; else the trimmed feed title, or `My Links` when the title is blank |
| Api.HtmlTitleIsTrimmedNonEmpty | src/api.rs:111-118 | without a custom title the page title is non-empty and has no surrounding whitespace |

## Left out

- `read_feed` / `write_feed` (`src/feed.rs`, `crates/linkleaf-core/src/fs.rs`): file I/O, directory creation, the temp-file-then-rename write and the protobuf codec are not part of this model. The read is a `Result<Feed, Error>` parameter, and `add` returns the feed it would write.
- Errors from `write_feed` are not modelled, because no write happens in the model.
- Concurrency is not modelled: there is no locking, and the last rename wins.
- `OffsetDateTime::now_local` and `now_utc` are parameters. A local-offset failure is kept as its own error.
- `Uuid::new_v4` is a string parameter. Parsing and printing of `Uuid` values is not modelled: an explicit id is the string it prints as.
- SHA-256 is a function parameter. The UTF-8 encoding of the hashed text is folded into that parameter.
- The `time` crate's error messages are not modelled. `Validation.ParseDate` rejects with one fixed message.
- Core.Add: the `failed to format timestamp` error is not modelled. Formatting cannot fail for the years -9999..9999 a `Timestamp` allows.
- The model does not cover the `time` crate's larger-than-four-digit years, which it accepts only with its `large-dates` feature. The model's dates have years -9999..9999.
- HTML rendering (the Askama template and the link views in `src/api.rs:119-149`) is not part of this model, and neither are the CLI wiring, logging, the RSS module or the example programs. Only the title choice in `html` is modelled.
