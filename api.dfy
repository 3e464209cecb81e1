/**
 * The earlier upsert revision (`src/api.rs`): links are keyed by a single
 * id, the supplied one or one derived from the URL and the UTC calendar day,
 * and the feed is a local value that `add` edits step by step.
 */
module Api {
  import opened Wrappers
  import opened Text
  import opened Calendar
  import opened Feeds
  import Validation
  import Core

  newtype Byte = b: int | 0 <= b < 256

  /** A SHA-256 digest: 32 bytes. */
  type Digest = d: seq<Byte> | |d| == 32 witness seq(32, i => 0 as Byte)

  // ---- lower-case hexadecimal ----

  predicate IsHexDigit(c: char) {
    '0' <= c <= '9' || 'a' <= c <= 'f'
  }

  function HexChar(n: int): (c: char)
    requires 0 <= n < 16
    ensures IsHexDigit(c)
  {
    if n < 10 then ('0' as int + n) as char else ('a' as int + n - 10) as char
  }

  function HexValue(c: char): (r: Option<int>)
    ensures r.Some? <==> IsHexDigit(c)
    ensures r.Some? ==> 0 <= r.value < 16 && HexChar(r.value) == c
  {
    if '0' <= c <= '9' then Some(c as int - '0' as int)
    else if 'a' <= c <= 'f' then Some(c as int - 'a' as int + 10)
    else None
  }

  /** `hex::encode`: two lower-case digits per byte, high nibble first. */
  function HexEncode(bs: seq<Byte>): (s: string)
    ensures |s| == 2 * |bs|
    ensures forall i :: 0 <= i < |s| ==> IsHexDigit(s[i])
  {
    if bs == [] then []
    else [HexChar(bs[0] as int / 16), HexChar(bs[0] as int % 16)] + HexEncode(bs[1..])
  }

  /** Reads back an even-length lower-case hex string. */
  function HexDecode(s: string): Option<seq<Byte>>
  {
    if s == [] then Some([])
    else if |s| == 1 then None
    else
      match (HexValue(s[0]), HexValue(s[1]), HexDecode(s[2..]))
      case (Some(hi), Some(lo), Some(rest)) => Some([(hi * 16 + lo) as Byte] + rest)
      case _ => None
  }

  lemma {:induction false} HexDecodeEncode(bs: seq<Byte>)
    ensures HexDecode(HexEncode(bs)) == Some(bs)
  {
    if bs != [] {
      var b := bs[0] as int;
      var s := HexEncode(bs);
      HexDecodeEncode(bs[1..]);
      assert s[2..] == HexEncode(bs[1..]);
      assert HexValue(s[0]) == Some(b / 16);
      assert HexValue(s[1]) == Some(b % 16);
      assert [bs[0]] + bs[1..] == bs;
    }
  }

  /** The first `2n` hex digits encode the first `n` bytes. */
  lemma {:induction false} HexEncodePrefix(bs: seq<Byte>, n: nat)
    requires n <= |bs|
    ensures HexEncode(bs)[..2 * n] == HexEncode(bs[..n])
  {
    if n > 0 {
      HexEncodePrefix(bs[1..], n - 1);
      assert bs[..n][1..] == bs[1..][..n - 1];
    }
  }

  // ---- derive_id ----

  /** The bytes hashed for a derived id: the URL, a `|`, the date text. */
  function HashInput(url: string, date: string): string {
    url + "|" + date
  }

  /**
   * `derive_id`: the first 12 hex digits of the digest of `url|date`, that
   * is, the hex form of the digest's first 6 bytes.
   */
  function DeriveId(url: string, date: string, sha: string -> Digest): (id: string)
    ensures |id| == 12
    ensures forall i :: 0 <= i < |id| ==> IsHexDigit(id[i])
    ensures HexDecode(id) == Some(sha(HashInput(url, date))[..6])
  {
    var digest := sha(HashInput(url, date));
    HexEncodePrefix(digest, 6);
    HexDecodeEncode(digest[..6]);
    HexEncode(digest)[..12]
  }

  /** In `u|d` with no `|` in `d`, the last `|` sits just before `d`. */
  lemma LastBar(u: string, d: string)
    requires '|' !in d
    ensures var s := HashInput(u, d);
      && s[|s| - |d| - 1] == '|'
      && (forall k :: |s| - |d| <= k < |s| ==> s[k] != '|')
      && s[..|u|] == u && s[|s| - |d|..] == d
  {
    var s := HashInput(u, d);
    forall k | |s| - |d| <= k < |s|
      ensures s[k] != '|'
    {
      assert s[k] == d[k - (|s| - |d|)];
    }
  }

  /**
   * When neither date contains `|`, distinct (URL, date) pairs hash distinct
   * inputs, so the derived id depends on both.
   */
  lemma HashInputInjective(u1: string, d1: string, u2: string, d2: string)
    requires '|' !in d1 && '|' !in d2
    requires HashInput(u1, d1) == HashInput(u2, d2)
    ensures u1 == u2 && d1 == d2
  {
    LastBar(u1, d1);
    LastBar(u2, d2);
    assert |d1| == |d2|;
  }

  // ---- parse_tags ----

  /** `parse_tags`: no argument gives no tags; otherwise the trimmed non-empty comma pieces. */
  function ParseTags(raw: Option<string>): (tags: seq<string>)
    ensures forall i :: 0 <= i < |tags| ==> IsTag(tags[i])
    ensures raw.None? ==> tags == []
  {
    match raw
    case None => []
    case Some(s) => SplitTags(s)
  }

  /** This `parse_tags` and the validator's agree on every string. */
  lemma ParseTagsAgrees(s: string)
    ensures Validation.ParseTags(s) == Ok(ParseTags(Some(s)))
  {
  }

  /** Joining tags with commas and parsing gives the tags back. */
  lemma ParseTagsOfJoin(tags: seq<string>)
    requires forall i :: 0 <= i < |tags| ==> IsTag(tags[i])
    ensures ParseTags(Some(Join(tags, ','))) == tags
  {
    SplitTagsOfJoin(tags);
  }

  // ---- add ----

  datatype Request = Request(
    title: string,
    url: string,
    summary: Option<string>,
    tags: Option<string>,
    via: Option<string>,
    id: Option<string>
  )

  /** The key: the supplied id, else the id derived from the URL and the date text. */
  function KeyOf(req: Request, date: string, sha: string -> Digest): (k: string)
    ensures req.id.Some? ==> k == req.id.value
    ensures req.id.None? ==> |k| == 12 && HexDecode(k) == Some(sha(HashInput(req.url, date))[..6])
  {
    match req.id
    case Some(id) => id
    case None => DeriveId(req.url, date, sha)
  }

  function FieldsOf(req: Request, date: string): Fields {
    Fields(req.title, req.url, date, req.summary, ParseTags(req.tags), req.via)
  }

  /**
   * What `add` computes from the store's read outcome, the UTC clock reading
   * and the request: the returned link and the feed handed to `write_feed`.
   * The stored date is the calendar day of `now` as `YYYY-MM-DD`.
   */
  function AddSpec(read: Result<Feed, Error>, now: Timestamp, req: Request, sha: string -> Digest): (r: Result<Saved, Error>)
    ensures r.Ok? <==> read.Ok? || read.error == NotFound
    ensures r.Ok? ==> r.value.feed.links != [] && r.value.link == r.value.feed.links[0]
    ensures r.Ok? ==> r.value.link.id == KeyOf(req, DateText(now.date), sha)
    ensures r.Ok? ==> Carries(r.value.link, FieldsOf(req, DateText(now.date)))
  {
    var date := DateText(now.date);
    match ReadOrInit(read)
    case Err(e) => Err(e)
    case Ok(start) =>
      var key := KeyOf(req, date, sha);
      var links := Upsert(start.links, ById(key), key, FieldsOf(req, date));
      Ok(Saved(links[0], start.(links := links)))
  }

  /** `add` on a local feed value: remove and reinsert at 0, or push the new link and extend with the old ones. */
  method Add(read: Result<Feed, Error>, now: Timestamp, req: Request, sha: string -> Digest)
    returns (r: Result<Saved, Error>)
    ensures r == AddSpec(read, now, req, sha)
  {
    var date := DateText(now.date);
    var feed: Feed;
    match read {
      case Ok(f) =>
        feed := f;
      case Err(NotFound) =>
        feed := Feed("", 0, []);
        feed := feed.(version := 1);
      case Err(e) =>
        return Err(e);
    }
    ghost var start := feed;
    assert ReadOrInit(read) == Ok(start);
    var key := KeyOf(req, date, sha);
    var pos := Position(feed.links, ById(key));
    if pos.Some? {
      var item := feed.links[pos.value];
      feed := feed.(links := RemoveAt(feed.links, pos.value));
      item := item.(title := req.title, url := req.url, date := date, summary := OrEmpty(req.summary),
                    tags := ParseTags(req.tags), via := OrEmpty(req.via));
      feed := feed.(links := [item] + feed.links);
      assert item == Refreshed(start.links[pos.value], FieldsOf(req, date));
      assert feed.links == Upsert(start.links, ById(key), key, FieldsOf(req, date));
      return Ok(Saved(item, feed));
    }
    var link := Link(key, req.title, req.url, date, OrEmpty(req.summary), ParseTags(req.tags), OrEmpty(req.via));
    var newLinks: seq<Link> := [];
    newLinks := newLinks + [link];
    newLinks := newLinks + feed.links;
    feed := feed.(links := newLinks);
    assert feed.links == Upsert(start.links, ById(key), key, FieldsOf(req, date));
    r := Ok(Saved(link, feed));
  }

  /** A missing file becomes a version-1 feed; any other read error is returned unchanged. */
  lemma AddReadOutcome(read: Result<Feed, Error>, now: Timestamp, req: Request, sha: string -> Digest)
    ensures read.Err? && read.error != NotFound ==> AddSpec(read, now, req, sha) == Err(read.error)
    ensures read == Err(NotFound) ==> var r := AddSpec(read, now, req, sha);
      && r.Ok? && r.value.feed.version == 1 && r.value.feed.links == [r.value.link]
  {
  }

  /**
   * When a link has the key, it moves to index 0 with the new fields and the
   * same id; the length is unchanged and the others keep their order.
   */
  lemma AddUpdates(read: Result<Feed, Error>, start: Feed, now: Timestamp, req: Request, sha: string -> Digest, pos: nat)
    requires ReadOrInit(read) == Ok(start)
    requires Position(start.links, ById(KeyOf(req, DateText(now.date), sha))) == Some(pos)
    ensures var r := AddSpec(read, now, req, sha);
      && r.Ok? && r.value.link == r.value.feed.links[0]
      && r.value.link.id == start.links[pos].id == KeyOf(req, DateText(now.date), sha)
      && r.value.link == Refreshed(start.links[pos], FieldsOf(req, DateText(now.date)))
      && r.value.feed == start.(links := [r.value.link] + RemoveAt(start.links, pos))
      && |r.value.feed.links| == |start.links|
  {
  }

  /** When no link has the key, the new link is prepended and the old links follow in order. */
  lemma AddInserts(read: Result<Feed, Error>, start: Feed, now: Timestamp, req: Request, sha: string -> Digest)
    requires ReadOrInit(read) == Ok(start)
    requires forall j :: 0 <= j < |start.links| ==> start.links[j].id != KeyOf(req, DateText(now.date), sha)
    ensures var r := AddSpec(read, now, req, sha);
      && r.Ok? && r.value.link == r.value.feed.links[0]
      && r.value.link == NewLink(KeyOf(req, DateText(now.date), sha), FieldsOf(req, DateText(now.date)))
      && r.value.feed == start.(links := [r.value.link] + start.links)
  {
  }

  /** Keying by id alone keeps ids unique, with no assumption on the hash. */
  lemma AddKeepsIdsUnique(read: Result<Feed, Error>, start: Feed, now: Timestamp, req: Request, sha: string -> Digest)
    requires ReadOrInit(read) == Ok(start)
    requires UniqueIds(start.links)
    ensures var r := AddSpec(read, now, req, sha);
      r.Ok? && UniqueIds(r.value.feed.links)
  {
    var key := KeyOf(req, DateText(now.date), sha);
    if Position(start.links, ById(key)).None? {
      assert forall j :: 0 <= j < |start.links| ==> Ids(start.links)[j] != key;
    }
    UpsertKeepsIdsUnique(start.links, ById(key), key, FieldsOf(req, DateText(now.date)));
  }

  /**
   * Adding the same URL twice on the same UTC day without an id derives the
   * same key, so the second call updates the first call's link in place:
   * same id, same length.
   */
  lemma AddSameUrlSameDay(read: Result<Feed, Error>, now1: Timestamp, now2: Timestamp,
                          req1: Request, req2: Request, sha: string -> Digest)
    requires read.Ok? || read == Err(NotFound)
    requires req1.id.None? && req2.id.None? && req2.url == req1.url
    requires now2.date == now1.date
    ensures var r1 := AddSpec(read, now1, req1, sha);
      r1.Ok? && var r2 := AddSpec(Ok(r1.value.feed), now2, req2, sha);
      && r2.Ok? && r2.value.link.id == r1.value.link.id
      && r2.value.link == r2.value.feed.links[0]
      && Carries(r2.value.link, FieldsOf(req2, DateText(now2.date)))
      && |r2.value.feed.links| == |r1.value.feed.links|
      && r2.value.feed.links[1..] == r1.value.feed.links[1..]
  {
    var r1 := AddSpec(read, now1, req1, sha);
    var key := KeyOf(req1, DateText(now1.date), sha);
    assert r1.value.feed.links[0].id == key;
    assert Position(r1.value.feed.links, ById(key)) == Some(0);
  }

  // ---- list and the HTML title ----

  /** `list`: the stored feed, or the read error. */
  function List(read: Result<Feed, Error>): (r: Result<Feed, Error>)
    ensures r.Ok? <==> read.Ok?
  {
    read
  }

  /** This `list` is the library's `list` with neither filter. */
  lemma ListIsUnfilteredCoreList(read: Result<Feed, Error>)
    ensures List(read) == Core.ListSpec(read, None, None)
  {
    Core.ListWithoutFilters(read);
  }

  const DefaultTitle := "My Links"

  /** The page title `html` uses: the custom title, else the trimmed feed title, else `My Links` when that is blank. */
  function HtmlTitle(read: Result<Feed, Error>, custom: Option<string>): (r: Result<string, Error>)
    ensures read.Err? ==> r == Err(read.error)
    ensures read.Ok? && custom.Some? ==> r == Ok(custom.value)
    ensures read.Ok? && custom.None? && !IsBlank(read.value.title) ==> r == Ok(Trim(read.value.title))
    ensures read.Ok? && custom.None? && IsBlank(read.value.title) ==> r == Ok(DefaultTitle)
  {
    match read
    case Err(e) => Err(e)
    case Ok(feed) =>
      match custom
      case Some(t) => Ok(t)
      case None =>
        var t := Trim(feed.title);
        if t == [] then Ok(DefaultTitle) else Ok(t)
  }

  /** Without a custom title the page title is never empty and has no surrounding whitespace. */
  lemma HtmlTitleIsTrimmedNonEmpty(feed: Feed)
    ensures var r := HtmlTitle(Ok(feed), None);
      r.Ok? && r.value != [] && Trimmed(r.value)
  {
    assert !IsWhitespace(DefaultTitle[0]) && !IsWhitespace(DefaultTitle[|DefaultTitle| - 1]);
  }
}
