/**
 * The library's upsert engine and query filter (`add` and `list`).
 *
 * `add` reads the feed (a missing file becomes an empty version-1 feed),
 * stamps the link with the local time, and either refreshes the matching
 * link and moves it to the front or puts a new link in front; the match key
 * is the explicit id when there is one and the URL otherwise. `list` keeps
 * the links that pass an optional tag filter and an optional date filter,
 * in stored order.
 */
module Core {
  import opened Wrappers
  import opened Text
  import opened Calendar
  import opened Feeds

  /** A feed being edited in place, as the helpers receive it (`&mut Feed`). */
  class FeedBuffer {
    var title: string
    var version: U32
    var links: seq<Link>

    function Value(): Feed
      reads this
    {
      Feed(title, version, links)
    }

    constructor (f: Feed)
      ensures Value() == f
    {
      title, version, links := f.title, f.version, f.links;
    }

    /**
     * `update_link_in_place`: take the link at `pos` out, overwrite every
     * field but its id, and reinsert it at index 0; return it.
     */
    method UpdateLinkInPlace(pos: nat, f: Fields) returns (item: Link)
      requires pos < |links|
      modifies this
      ensures links == MovedToFront(old(links), pos, f)
      ensures title == old(title) && version == old(version)
      ensures item == links[0]
    {
      item := links[pos];
      links := RemoveAt(links, pos);
      item := item.(title := f.title, url := f.url, date := f.date, summary := OrEmpty(f.summary),
                    tags := f.tags, via := OrEmpty(f.via));
      links := [item] + links;
    }

    /** `insert_new_link_front`: build a link with id `id` and the values of `f`, insert it at index 0, return it. */
    method InsertNewLinkFront(id: string, f: Fields) returns (link: Link)
      modifies this
      ensures links == [NewLink(id, f)] + old(links)
      ensures title == old(title) && version == old(version)
      ensures link == links[0]
    {
      link := Link(id, f.title, f.url, f.date, OrEmpty(f.summary), f.tags, OrEmpty(f.via));
      links := [link] + links;
    }

    /** `links.retain(keep)` with the filter of `list`. */
    method Retain(q: Query)
      modifies this
      ensures links == Kept(old(links), q)
      ensures title == old(title) && version == old(version)
    {
      var stored := links;
      var kept: seq<Link> := [];
      var i := 0;
      while i < |stored|
        invariant 0 <= i <= |stored|
        invariant kept == Kept(stored[..i], q)
        invariant title == old(title) && version == old(version)
      {
        KeptSnoc(stored[..i], stored[i], q);
        assert stored[..i + 1] == stored[..i] + [stored[i]];
        if Keep(stored[i], q) {
          kept := kept + [stored[i]];
        }
        i := i + 1;
      }
      assert stored[..i] == stored;
      links := kept;
    }
  }

  // ---- add ----

  /** The arguments of `add`, apart from the file (the id in its string form). */
  datatype Request = Request(
    title: string,
    url: string,
    summary: Option<string>,
    tags: seq<string>,
    via: Option<string>,
    id: Option<string>
  )

  /** The match key: the explicit id if given, else the URL. */
  function MatchKey(req: Request): Key {
    match req.id
    case Some(id) => ById(id)
    case None => ByUrl(req.url)
  }

  /** The id a new link gets: the explicit id verbatim, else the freshly generated one. */
  function NewId(req: Request, freshId: string): string {
    match req.id
    case Some(id) => id
    case None => freshId
  }

  function FieldsOf(req: Request, date: string): Fields {
    Fields(req.title, req.url, date, req.summary, req.tags, req.via)
  }

  /**
   * What `add` computes: the local clock reading `now` (None when the local
   * offset cannot be determined), the store's read outcome, the request, and
   * the UUID the generator would supply. On success, the returned link and
   * the feed handed to `write_feed`.
   */
  function AddSpec(read: Result<Feed, Error>, now: Option<Timestamp>, req: Request, freshId: string): (r: Result<Saved, Error>)
    ensures r.Ok? <==> now.Some? && (read.Ok? || read.error == NotFound)
    ensures r.Ok? ==> r.value.feed.links != [] && r.value.link == r.value.feed.links[0]
    ensures r.Ok? ==> Carries(r.value.link, FieldsOf(req, TimestampText(now.value)))
  {
    match now
    case None => Err(IndeterminateOffset)
    case Some(t) =>
      match ReadOrInit(read)
      case Err(e) => Err(e)
      case Ok(start) =>
        var links := Upsert(start.links, MatchKey(req), NewId(req, freshId), FieldsOf(req, TimestampText(t)));
        Ok(Saved(links[0], start.(links := links)))
  }

  /** `add`, step by step on a feed edited in place. */
  method Add(read: Result<Feed, Error>, now: Option<Timestamp>, req: Request, freshId: string)
    returns (r: Result<Saved, Error>)
    ensures r == AddSpec(read, now, req, freshId)
  {
    if now.None? {
      return Err(IndeterminateOffset);
    }
    var date := TimestampText(now.value);
    var start: Feed;
    match read {
      case Ok(f) =>
        start := f;
      case Err(NotFound) =>
        start := Feed("", 0, []);
        start := start.(version := 1);
      case Err(e) =>
        return Err(e);
    }
    var feed := new FeedBuffer(start);
    var f := FieldsOf(req, date);
    var item: Link;
    match req.id {
      case Some(uid) =>
        var pos := Position(feed.links, ById(uid));
        if pos.Some? {
          item := feed.UpdateLinkInPlace(pos.value, f);
        } else {
          item := feed.InsertNewLinkFront(uid, f);
        }
      case None =>
        var pos := Position(feed.links, ByUrl(req.url));
        if pos.Some? {
          item := feed.UpdateLinkInPlace(pos.value, f);
        } else {
          item := feed.InsertNewLinkFront(freshId, f);
        }
    }
    r := Ok(Saved(item, feed.Value()));
  }

  /** `add` fails before touching the store when the clock fails, and passes on every read error but "not found". */
  lemma AddErrors(read: Result<Feed, Error>, now: Option<Timestamp>, req: Request, freshId: string)
    ensures now.None? ==> AddSpec(read, now, req, freshId) == Err(IndeterminateOffset)
    ensures now.Some? && read.Err? && read.error != NotFound ==> AddSpec(read, now, req, freshId) == Err(read.error)
    ensures AddSpec(read, now, req, freshId).Ok? <==> now.Some? && (read.Ok? || read.error == NotFound)
  {
  }

  /** On a missing file, `add` writes a version-1 feed holding exactly the new link. */
  lemma AddOnMissingFile(now: Timestamp, req: Request, freshId: string)
    ensures var r := AddSpec(Err(NotFound), Some(now), req, freshId);
      && r.Ok? && r.value.feed.version == 1 && r.value.feed.title == ""
      && r.value.feed.links == [r.value.link]
      && r.value.link == NewLink(NewId(req, freshId), FieldsOf(req, TimestampText(now)))
  {
  }

  /**
   * Update by id: the link with id `k` moves to index 0 with the new values
   * and the same id, the length is unchanged, the others keep their order,
   * it is the only link with id `k` (ids being unique before), and the
   * returned link is the one at index 0.
   */
  lemma AddUpdatesById(read: Result<Feed, Error>, start: Feed, now: Timestamp, req: Request, freshId: string, pos: nat)
    requires ReadOrInit(read) == Ok(start)
    requires req.id.Some? && Position(start.links, ById(req.id.value)) == Some(pos)
    requires UniqueIds(start.links)
    ensures var r := AddSpec(read, Some(now), req, freshId);
      && r.Ok? && r.value.link == r.value.feed.links[0]
      && r.value.feed == start.(links := r.value.feed.links)
      && |r.value.feed.links| == |start.links|
      && r.value.link == Refreshed(start.links[pos], FieldsOf(req, TimestampText(now)))
      && r.value.link.id == req.id.value
      && r.value.feed.links[1..] == RemoveAt(start.links, pos)
      && forall j :: 0 < j < |r.value.feed.links| ==> r.value.feed.links[j].id != req.id.value
  {
    var f := FieldsOf(req, TimestampText(now));
    UpsertByIdLeavesOne(start.links, req.id.value, f);
    assert MovedToFront(start.links, pos, f)[1..] == RemoveAt(start.links, pos);
  }

  /**
   * Insert with an unknown id: a new link carrying that id verbatim goes in
   * front of the old links, whatever their URLs.
   */
  lemma AddInsertsWithGivenId(read: Result<Feed, Error>, start: Feed, now: Timestamp, req: Request, freshId: string)
    requires ReadOrInit(read) == Ok(start)
    requires req.id.Some? && Position(start.links, ById(req.id.value)).None?
    ensures var r := AddSpec(read, Some(now), req, freshId);
      && r.Ok? && r.value.link == r.value.feed.links[0]
      && r.value.link == NewLink(req.id.value, FieldsOf(req, TimestampText(now)))
      && r.value.feed == start.(links := [r.value.link] + start.links)
  {
  }

  /**
   * Update by URL: without an id, the first link with the requested URL
   * moves to index 0 with the new values, keeping its id; the length is
   * unchanged and the others keep their order.
   */
  lemma AddUpdatesByUrl(read: Result<Feed, Error>, start: Feed, now: Timestamp, req: Request, freshId: string, pos: nat)
    requires ReadOrInit(read) == Ok(start)
    requires req.id.None? && Position(start.links, ByUrl(req.url)) == Some(pos)
    ensures pos < |start.links| && start.links[pos].url == req.url
    ensures forall j :: 0 <= j < pos ==> start.links[j].url != req.url
    ensures var r := AddSpec(read, Some(now), req, freshId);
      && r.Ok? && r.value.link == r.value.feed.links[0]
      && r.value.link.id == start.links[pos].id
      && r.value.link == Refreshed(start.links[pos], FieldsOf(req, TimestampText(now)))
      && r.value.feed == start.(links := [r.value.link] + RemoveAt(start.links, pos))
  {
  }

  /** Insert by URL: without an id and with no link at that URL, a link with the fresh id goes in front. */
  lemma AddInsertsWithFreshId(read: Result<Feed, Error>, start: Feed, now: Timestamp, req: Request, freshId: string)
    requires ReadOrInit(read) == Ok(start)
    requires req.id.None? && forall j :: 0 <= j < |start.links| ==> start.links[j].url != req.url
    ensures var r := AddSpec(read, Some(now), req, freshId);
      && r.Ok? && r.value.link == r.value.feed.links[0]
      && r.value.link == NewLink(freshId, FieldsOf(req, TimestampText(now)))
      && r.value.feed == start.(links := [r.value.link] + start.links)
  {
  }

  /** `add` keeps ids unique when the generated id is not already in use. */
  lemma AddKeepsIdsUnique(read: Result<Feed, Error>, start: Feed, now: Timestamp, req: Request, freshId: string)
    requires ReadOrInit(read) == Ok(start)
    requires UniqueIds(start.links)
    requires freshId !in Ids(start.links)
    ensures var r := AddSpec(read, Some(now), req, freshId);
      r.Ok? && UniqueIds(r.value.feed.links)
  {
    var key := MatchKey(req);
    if req.id.Some? && Position(start.links, key).None? {
      assert forall j :: 0 <= j < |start.links| ==> Ids(start.links)[j] != req.id.value;
    }
    UpsertKeepsIdsUnique(start.links, key, NewId(req, freshId), FieldsOf(req, TimestampText(now)));
  }

  /**
   * Two adds with the same explicit id leave exactly one link with that id,
   * at index 0, holding the second call's values.
   */
  lemma AddTwiceSameId(read: Result<Feed, Error>, start: Feed, now1: Timestamp, now2: Timestamp,
                       req1: Request, req2: Request, fresh1: string, fresh2: string)
    requires ReadOrInit(read) == Ok(start) && UniqueIds(start.links)
    requires req1.id.Some? && req2.id == req1.id
    ensures var r1 := AddSpec(read, Some(now1), req1, fresh1);
      r1.Ok? && var r2 := AddSpec(Ok(r1.value.feed), Some(now2), req2, fresh2);
      && r2.Ok? && |r2.value.feed.links| == |r1.value.feed.links|
      && r2.value.feed.links[0].id == req1.id.value
      && Carries(r2.value.feed.links[0], FieldsOf(req2, TimestampText(now2)))
      && forall j :: 0 < j < |r2.value.feed.links| ==> r2.value.feed.links[j].id != req1.id.value
  {
    var k := req1.id.value;
    var r1 := AddSpec(read, Some(now1), req1, fresh1);
    var f1 := FieldsOf(req1, TimestampText(now1));
    UpsertByIdLeavesOne(start.links, k, f1);
    UpsertKeepsIdsUnique(start.links, ById(k), k, f1) by {
      if Position(start.links, ById(k)).None? {
        assert forall j :: 0 <= j < |start.links| ==> Ids(start.links)[j] != k;
      }
    }
    var links1 := r1.value.feed.links;
    assert Position(links1, ById(k)) == Some(0);
    UpsertByIdLeavesOne(links1, k, FieldsOf(req2, TimestampText(now2)));
  }

  /**
   * Two adds without an id and with the same URL leave one link for it: the
   * second refreshes the link the first one put at index 0, keeping its id,
   * and the length does not change.
   */
  lemma AddTwiceSameUrl(read: Result<Feed, Error>, now1: Timestamp, now2: Timestamp,
                        req1: Request, req2: Request, fresh1: string, fresh2: string)
    requires read.Ok? || read == Err(NotFound)
    requires req1.id.None? && req2.id.None? && req2.url == req1.url
    ensures var r1 := AddSpec(read, Some(now1), req1, fresh1);
      r1.Ok? && var r2 := AddSpec(Ok(r1.value.feed), Some(now2), req2, fresh2);
      && r2.Ok? && |r2.value.feed.links| == |r1.value.feed.links|
      && r2.value.link.id == r1.value.link.id
      && r2.value.link == r2.value.feed.links[0]
      && Carries(r2.value.link, FieldsOf(req2, TimestampText(now2)))
      && r2.value.feed.links[1..] == r1.value.feed.links[1..]
  {
    var r1 := AddSpec(read, Some(now1), req1, fresh1);
    assert Position(r1.value.feed.links, ByUrl(req1.url)) == Some(0);
  }

  // ---- list ----

  /** The two filters of `list`: normalised tag needles and a calendar date, each optional. */
  datatype Query = Query(needles: Option<seq<string>>, date: Option<Date>)

  /** `n` is what requested tag `t` becomes once trimmed and lower-cased, and it is not empty. */
  predicate NeedleOf(t: string, n: string) {
    Trim(t) != [] && AsciiLower(Trim(t)) == n
  }

  /** `t.trim().to_ascii_lowercase()` for each requested tag, the empty results dropped. */
  function Needles(tags: seq<string>): (ns: seq<string>)
    ensures |ns| <= |tags|
  {
    if tags == [] then []
    else if Trim(tags[0]) == [] then Needles(tags[1..])
    else [AsciiLower(Trim(tags[0]))] + Needles(tags[1..])
  }

  /** The needles are exactly the lower-cased trims of the requested tags that are not blank. */
  lemma {:induction false} NeedlesMembership(tags: seq<string>, n: string)
    ensures n in Needles(tags) <==> exists i :: 0 <= i < |tags| && NeedleOf(tags[i], n)
  {
    if tags != [] {
      var rest := tags[1..];
      NeedlesMembership(rest, n);
      assert n in Needles(tags) <==> NeedleOf(tags[0], n) || n in Needles(rest);
      if n in Needles(rest) {
        var i :| 0 <= i < |rest| && NeedleOf(rest[i], n);
        assert tags[i + 1] == rest[i];
      }
      if NeedleOf(tags[0], n) {
        assert 0 < |tags|;
      }
      if exists i :: 0 <= i < |tags| && NeedleOf(tags[i], n) {
        var i :| 0 <= i < |tags| && NeedleOf(tags[i], n);
        if i > 0 {
          assert rest[i - 1] == tags[i];
        }
      }
    }
  }

  /** Every needle is non-empty and already lower case. */
  lemma NeedlesNormalised(tags: seq<string>)
    ensures forall n :: n in Needles(tags) ==> n != [] && AsciiLower(n) == n
  {
    forall n | n in Needles(tags)
      ensures n != [] && AsciiLower(n) == n
    {
      NeedlesMembership(tags, n);
      var i :| 0 <= i < |tags| && NeedleOf(tags[i], n);
      AsciiLowerIdempotent(Trim(tags[i]));
    }
  }

  /** Tag condition: no tag filter, or some stored tag equals some needle ignoring ASCII case. */
  predicate TagOk(l: Link, needles: Option<seq<string>>) {
    match needles
    case None => true
    case Some(ns) =>
      exists i, j :: 0 <= i < |l.tags| && 0 <= j < |ns| && EqIgnoreAsciiCase(l.tags[i], ns[j])
  }

  /** Date condition: no date filter, or the stored date parses as a timestamp on that calendar day. */
  predicate DateOk(l: Link, date: Option<Date>) {
    match date
    case None => true
    case Some(p) =>
      match ParseTimestamp(l.date)
      case Some(dt) => dt.date == p
      case None => false
  }

  predicate Keep(l: Link, q: Query) {
    TagOk(l, q.needles) && DateOk(l, q.date)
  }

  /** The links that pass the query, in their order. */
  function Kept(links: seq<Link>, q: Query): (r: seq<Link>)
    ensures |r| <= |links|
  {
    if links == [] then []
    else (if Keep(links[0], q) then [links[0]] else []) + Kept(links[1..], q)
  }

  /** Filtering one more link at the end appends it when it passes. */
  lemma {:induction false} KeptSnoc(links: seq<Link>, l: Link, q: Query)
    ensures Kept(links + [l], q) == Kept(links, q) + (if Keep(l, q) then [l] else [])
  {
    if links != [] {
      KeptSnoc(links[1..], l, q);
      assert (links + [l])[1..] == links[1..] + [l];
    } else {
      assert [l][1..] == [];
    }
  }

  /** `a` is `b` with some elements left out, the rest in the same order. */
  predicate IsSubsequence(a: seq<Link>, b: seq<Link>)
    decreases |b|
  {
    if a == [] then true
    else if b == [] then false
    else if a[0] == b[0] then IsSubsequence(a[1..], b[1..])
    else IsSubsequence(a, b[1..])
  }

  lemma {:induction false} SubsequenceOfTail(a: seq<Link>, b: seq<Link>)
    requires b != [] && IsSubsequence(a, b[1..])
    ensures IsSubsequence(a, b)
    decreases |b|, |a|
  {
    if a != [] && a[0] == b[0] {
      // a[0] == b[0]: keep b[0], and a[1..] lies in b[1..] because a does.
      SubsequenceDropHead(a, b[1..]);
    }
  }

  lemma {:induction false} SubsequenceDropHead(a: seq<Link>, b: seq<Link>)
    requires a != [] && IsSubsequence(a, b)
    ensures IsSubsequence(a[1..], b)
    decreases |b|, |a|
  {
    if b != [] {
      if a[0] == b[0] {
        if a[1..] != [] {
          SubsequenceOfTail(a[1..], b);
        }
      } else {
        SubsequenceDropHead(a, b[1..]);
        if a[1..] != [] {
          SubsequenceOfTail(a[1..], b);
        }
      }
    }
  }

  /** Filtering never reorders or invents links. */
  lemma {:induction false} KeptIsSubsequence(links: seq<Link>, q: Query)
    ensures IsSubsequence(Kept(links, q), links)
  {
    if links != [] {
      KeptIsSubsequence(links[1..], q);
      var rest := Kept(links[1..], q);
      if Keep(links[0], q) {
        assert Kept(links, q) == [links[0]] + rest;
        assert ([links[0]] + rest)[1..] == rest;
      } else {
        assert Kept(links, q) == rest;
        if rest != [] {
          SubsequenceOfTail(rest, links);
        }
      }
    }
  }

  /** A link is in the result exactly when it is stored and passes both conditions. */
  lemma {:induction false} KeptMembership(links: seq<Link>, q: Query, l: Link)
    ensures l in Kept(links, q) <==> l in links && Keep(l, q)
  {
    if links != [] {
      KeptMembership(links[1..], q, l);
      assert l in links <==> l == links[0] || l in links[1..] by {
        assert links == [links[0]] + links[1..];
      }
    }
  }

  /** When every link passes, nothing is dropped. */
  lemma {:induction false} KeptAll(links: seq<Link>, q: Query)
    requires forall i :: 0 <= i < |links| ==> Keep(links[i], q)
    ensures Kept(links, q) == links
  {
    if links != [] {
      KeptAll(links[1..], q);
      assert links == [links[0]] + links[1..];
    }
  }

  /** A tag filter whose requested tags are all blank has no needle, so it drops every link. */
  lemma BlankTagFilterDropsAll(links: seq<Link>, tags: seq<string>, date: Option<Date>)
    requires forall j :: 0 <= j < |tags| ==> IsBlank(tags[j])
    ensures Kept(links, QueryOf(Some(tags), date)) == []
  {
    if Needles(tags) != [] {
      NeedlesMembership(tags, Needles(tags)[0]);
    }
    if Kept(links, QueryOf(Some(tags), date)) != [] {
      var l := Kept(links, QueryOf(Some(tags), date))[0];
      KeptMembership(links, QueryOf(Some(tags), date), l);
    }
  }

  /** Some stored tag of `l`, lower-cased, equals some non-blank requested tag, trimmed and lower-cased. */
  predicate SharesRequestedTag(l: Link, tags: seq<string>) {
    exists i, j :: 0 <= i < |l.tags| && 0 <= j < |tags| && Trim(tags[j]) != []
      && AsciiLower(l.tags[i]) == AsciiLower(Trim(tags[j]))
  }

  lemma RequestedTagFromTagOk(l: Link, tags: seq<string>)
    requires TagOk(l, Some(Needles(tags)))
    ensures SharesRequestedTag(l, tags)
  {
    var ns := Needles(tags);
    var i, k :| 0 <= i < |l.tags| && 0 <= k < |ns| && EqIgnoreAsciiCase(l.tags[i], ns[k]);
    NeedlesMembership(tags, ns[k]);
    var j :| 0 <= j < |tags| && NeedleOf(tags[j], ns[k]);
    EqIgnoreAsciiCaseIsLowerEq(l.tags[i], ns[k]);
    AsciiLowerIdempotent(Trim(tags[j]));
  }

  lemma TagOkFromRequestedTag(l: Link, tags: seq<string>, i: nat, j: nat)
    requires i < |l.tags| && j < |tags| && Trim(tags[j]) != []
    requires AsciiLower(l.tags[i]) == AsciiLower(Trim(tags[j]))
    ensures TagOk(l, Some(Needles(tags)))
  {
    var ns := Needles(tags);
    var n := AsciiLower(Trim(tags[j]));
    assert NeedleOf(tags[j], n);
    NeedlesMembership(tags, n);
    var k :| 0 <= k < |ns| && ns[k] == n;
    AsciiLowerIdempotent(Trim(tags[j]));
    EqIgnoreAsciiCaseIsLowerEq(l.tags[i], n);
  }

  /** The tag condition in terms of the requested tags, both directions. */
  lemma TagOkIff(l: Link, tags: seq<string>)
    ensures TagOk(l, Some(Needles(tags))) <==> SharesRequestedTag(l, tags)
  {
    if TagOk(l, Some(Needles(tags))) {
      RequestedTagFromTagOk(l, tags);
    }
    if SharesRequestedTag(l, tags) {
      var i: nat, j: nat :| i < |l.tags| && j < |tags| && Trim(tags[j]) != []
        && AsciiLower(l.tags[i]) == AsciiLower(Trim(tags[j]));
      TagOkFromRequestedTag(l, tags, i, j);
    }
  }

  /** A link whose date does not parse as a timestamp never passes a date filter. */
  lemma UnparseableDateFails(l: Link, needles: Option<seq<string>>, p: Date)
    requires ParseTimestamp(l.date).None?
    ensures !Keep(l, Query(needles, Some(p)))
  {
  }

  function QueryOf(tags: Option<seq<string>>, date: Option<Date>): Query {
    Query(match tags { case None => None case Some(ts) => Some(Needles(ts)) }, date)
  }

  /** What `list` returns for a read outcome and the two optional filters. */
  function ListSpec(read: Result<Feed, Error>, tags: Option<seq<string>>, date: Option<Date>): (r: Result<Feed, Error>)
    ensures read.Err? ==> r == read
    ensures read.Ok? ==> r.Ok? && r.value.title == read.value.title && r.value.version == read.value.version
    ensures read.Ok? ==> |r.value.links| <= |read.value.links|
  {
    match read
    case Err(e) => Err(e)
    case Ok(feed) => Ok(feed.(links := Kept(feed.links, QueryOf(tags, date))))
  }

  /** `list`: read (errors, "not found" included, pass through), then retain the links that pass. */
  method List(read: Result<Feed, Error>, tags: Option<seq<string>>, date: Option<Date>)
    returns (r: Result<Feed, Error>)
    ensures r == ListSpec(read, tags, date)
  {
    if read.Err? {
      return Err(read.error);
    }
    var feed := new FeedBuffer(read.value);
    var needles: Option<seq<string>> := None;
    if tags.Some? {
      needles := Some(Needles(tags.value));
    }
    feed.Retain(Query(needles, date));
    r := Ok(feed.Value());
  }

  /**
   * `list` passes title and version through and returns a subsequence of the
   * stored links in stored order; errors pass through unchanged.
   */
  lemma ListShape(read: Result<Feed, Error>, tags: Option<seq<string>>, date: Option<Date>)
    ensures read.Err? ==> ListSpec(read, tags, date) == read
    ensures read.Ok? ==> var r := ListSpec(read, tags, date);
      && r.Ok? && r.value.title == read.value.title && r.value.version == read.value.version
      && IsSubsequence(r.value.links, read.value.links)
  {
    if read.Ok? {
      KeptIsSubsequence(read.value.links, QueryOf(tags, date));
    }
  }

  /** Without filters `list` returns the stored feed as it is. */
  lemma ListWithoutFilters(read: Result<Feed, Error>)
    ensures ListSpec(read, None, None) == read
  {
    if read.Ok? {
      KeptAll(read.value.links, QueryOf(None, None));
    }
  }

  /** A link is listed exactly when it is stored and passes both the tag and the date condition. */
  lemma ListMembership(feed: Feed, tags: Option<seq<string>>, date: Option<Date>, l: Link)
    ensures l in ListSpec(Ok(feed), tags, date).value.links <==>
      l in feed.links && TagOk(l, QueryOf(tags, date).needles) && DateOk(l, date)
  {
    KeptMembership(feed.links, QueryOf(tags, date), l);
  }

  /** The link `add` returns is listed by a date filter for the day it was stamped with. */
  lemma AddedLinkListedThatDay(read: Result<Feed, Error>, now: Timestamp, req: Request, freshId: string)
    requires read.Ok? || read == Err(NotFound)
    ensures var s := AddSpec(read, Some(now), req, freshId).value;
      s.link in ListSpec(Ok(s.feed), None, Some(now.date)).value.links
  {
    var s := AddSpec(read, Some(now), req, freshId).value;
    ParseTimestampOfText(now);
    assert s.link.date == TimestampText(now);
    KeptMembership(s.feed.links, QueryOf(None, Some(now.date)), s.link);
    assert s.link == s.feed.links[0];
  }
}
