/**
 * The feed record (a title, a format version and newest-first links), the
 * read outcomes of the store, and the list surgery both revisions of the
 * upsert perform: find the first entry matching a key, move it to the front
 * with new field values, or prepend a new entry.
 */
module Feeds {
  import opened Wrappers

  /** Protobuf `uint32`. */
  newtype U32 = x: int | 0 <= x < 0x1_0000_0000

  datatype Link = Link(
    id: string,
    title: string,
    url: string,
    date: string,
    summary: string,    // "" when there is none
    tags: seq<string>,
    via: string         // "" when there is none
  )

  datatype Feed = Feed(title: string, version: U32, links: seq<Link>)

  /**
   * Why an operation failed: the feed file is missing, it could not be read
   * or decoded, or the local UTC offset could not be determined.
   */
  datatype Error = NotFound | Io(message: string) | Decode(message: string) | IndeterminateOffset

  /** What an upsert returns and what it hands to `write_feed`. */
  datatype Saved = Saved(link: Link, feed: Feed)

  /** Read-or-init: a missing file becomes an empty version-1 feed; any other outcome passes through. */
  function ReadOrInit(read: Result<Feed, Error>): (r: Result<Feed, Error>)
    ensures read == Err(NotFound) ==> r == Ok(Feed("", 1, []))
    ensures read != Err(NotFound) ==> r == read
  {
    match read
    case Err(NotFound) => Ok(Feed("", 1, []))
    case _ => read
  }

  /** The values an upsert writes into a link: every field except the id. */
  datatype Fields = Fields(
    title: string,
    url: string,
    date: string,
    summary: Option<string>,
    tags: seq<string>,
    via: Option<string>
  )

  /** `l` holds the values of `f`, a missing summary or via stored as "". */
  predicate Carries(l: Link, f: Fields) {
    && l.title == f.title && l.url == f.url && l.date == f.date
    && l.summary == OrEmpty(f.summary) && l.tags == f.tags && l.via == OrEmpty(f.via)
  }

  /** `l` with every field but its id overwritten from `f`. */
  function Refreshed(l: Link, f: Fields): (r: Link)
    ensures r.id == l.id && Carries(r, f)
  {
    l.(title := f.title, url := f.url, date := f.date, summary := OrEmpty(f.summary),
       tags := f.tags, via := OrEmpty(f.via))
  }

  /** A new link with the given id and the values of `f`. */
  function NewLink(id: string, f: Fields): (r: Link)
    ensures r.id == id && Carries(r, f)
  {
    Link(id, f.title, f.url, f.date, OrEmpty(f.summary), f.tags, OrEmpty(f.via))
  }

  /** What an upsert looks an existing link up by. */
  datatype Key = ById(id: string) | ByUrl(url: string)

  predicate Matches(l: Link, k: Key) {
    match k
    case ById(id) => l.id == id
    case ByUrl(url) => l.url == url
  }

  /** `links.iter().position(matches)`: the first index whose link matches `k`. */
  function Position(links: seq<Link>, k: Key): (r: Option<nat>)
    ensures r.Some? ==> r.value < |links| && Matches(links[r.value], k)
    ensures r.Some? ==> forall j :: 0 <= j < r.value ==> !Matches(links[j], k)
    ensures r.None? <==> forall j :: 0 <= j < |links| ==> !Matches(links[j], k)
  {
    if links == [] then None
    else if Matches(links[0], k) then Some(0)
    else
      match Position(links[1..], k)
      case None => None
      case Some(p) => Some(p + 1)
  }

  /** `Vec::remove(pos)` seen on the remaining elements. */
  function RemoveAt(links: seq<Link>, pos: nat): (r: seq<Link>)
    requires pos < |links|
    ensures |r| == |links| - 1
  {
    links[..pos] + links[pos + 1..]
  }

  /**
   * The list after updating the entry at `pos`: that entry, refreshed, at
   * index 0; the entries before `pos` one place later; the entries after
   * `pos` where they were.
   */
  function MovedToFront(links: seq<Link>, pos: nat, f: Fields): (r: seq<Link>)
    requires pos < |links|
    ensures |r| == |links|
    ensures r[0] == Refreshed(links[pos], f)
    ensures forall j :: 0 <= j < pos ==> r[j + 1] == links[j]
    ensures forall j :: pos < j < |links| ==> r[j] == links[j]
  {
    [Refreshed(links[pos], f)] + RemoveAt(links, pos)
  }

  /**
   * The upsert shared by both revisions: refresh and move the first link
   * matching `key` to the front, or else put a new link with id `newId` in
   * front of all the others.
   */
  function Upsert(links: seq<Link>, key: Key, newId: string, f: Fields): (r: seq<Link>)
    ensures r != [] && Carries(r[0], f)
  {
    match Position(links, key)
    case Some(pos) => MovedToFront(links, pos, f)
    case None => [NewLink(newId, f)] + links
  }

  // ---- identity ----

  function Ids(links: seq<Link>): (ids: seq<string>)
    ensures |ids| == |links|
  {
    seq(|links|, i requires 0 <= i < |links| => links[i].id)
  }

  /** No two links share an id. */
  predicate UniqueIds(links: seq<Link>) {
    forall i, j :: 0 <= i < j < |links| ==> links[i].id != links[j].id
  }

  /** Moving an entry to the front loses no id and duplicates none. */
  lemma MovedToFrontKeepsIds(links: seq<Link>, pos: nat, f: Fields)
    requires pos < |links|
    ensures multiset(Ids(MovedToFront(links, pos, f))) == multiset(Ids(links))
  {
    var ids := Ids(links);
    var moved := Ids(MovedToFront(links, pos, f));
    assert ids == ids[..pos] + [ids[pos]] + ids[pos + 1..];
    assert moved == [ids[pos]] + ids[..pos] + ids[pos + 1..];
  }

  lemma MovedToFrontKeepsIdsUnique(links: seq<Link>, pos: nat, f: Fields)
    requires pos < |links| && UniqueIds(links)
    ensures UniqueIds(MovedToFront(links, pos, f))
  {
    var r := MovedToFront(links, pos, f);
    forall i, j | 0 <= i < j < |r| ensures r[i].id != r[j].id {
      var oi := if i == 0 then pos else if i <= pos then i - 1 else i;
      var oj := if j == 0 then pos else if j <= pos then j - 1 else j;
      assert r[i].id == links[oi].id && r[j].id == links[oj].id;
    }
  }

  lemma PrependKeepsIdsUnique(links: seq<Link>, l: Link)
    requires UniqueIds(links) && l.id !in Ids(links)
    ensures UniqueIds([l] + links)
  {
    var r := [l] + links;
    forall i, j | 0 <= i < j < |r| ensures r[i].id != r[j].id {
      if i == 0 {
        assert r[j].id == Ids(links)[j - 1];
      } else {
        assert r[i] == links[i - 1] && r[j] == links[j - 1];
      }
    }
  }

  /**
   * An upsert keeps ids unique, provided the id of a new link is not already
   * taken (when the key matches nothing).
   */
  lemma UpsertKeepsIdsUnique(links: seq<Link>, key: Key, newId: string, f: Fields)
    requires UniqueIds(links)
    requires Position(links, key).None? ==> newId !in Ids(links)
    ensures UniqueIds(Upsert(links, key, newId, f))
  {
    match Position(links, key)
    case Some(pos) => MovedToFrontKeepsIdsUnique(links, pos, f);
    case None => PrependKeepsIdsUnique(links, NewLink(newId, f));
  }

  /**
   * Upserting by id `k` (new links also getting `k`) leaves exactly one link
   * with id `k`, at index 0, when ids were unique before.
   */
  lemma UpsertByIdLeavesOne(links: seq<Link>, k: string, f: Fields)
    requires UniqueIds(links)
    ensures var r := Upsert(links, ById(k), k, f);
      r[0].id == k && forall j :: 0 < j < |r| ==> r[j].id != k
  {
    var r := Upsert(links, ById(k), k, f);
    match Position(links, ById(k))
    case Some(pos) =>
      forall j | 0 < j < |r| ensures r[j].id != k {
        if j <= pos { assert r[j] == links[j - 1]; } else { assert r[j] == links[j]; }
      }
    case None =>
      forall j | 0 < j < |r| ensures r[j].id != k {
        assert r[j] == links[j - 1];
      }
  }
}
