/**
 * The signed-in user's short-link table and its resolver (`make_short_url`,
 * `redirect_url`, `update_url`, `delete_url`). The `UrlModel` table is a map
 * from row id to record and the `UrlVisit` table a log of visits. The Hashids
 * codec is an uninterpreted function from row id to slug, which may yield "".
 */
module UrlLinks {
  import opened Options
  import opened Text

  type UserId = nat

  /** One `UrlModel` row. Timestamps are plain integers. */
  datatype UrlRecord = UrlRecord(
    originalUrl: string,
    shortUrl: string,
    user: UserId,
    expiresAt: Option<int>,
    clickCount: nat)

  /** What the request tells about a visitor (computed outside this model: user agent, geolocation, referrer). */
  datatype VisitInfo = VisitInfo(
    ipAddress: Option<string>,
    browser: string, os: string, device: string, isBot: bool,
    country: Option<string>, region: Option<string>, city: Option<string>,
    referrer: Option<string>)

  /** One `UrlVisit` row. */
  datatype Visit = Visit(url: nat, timestamp: int, info: VisitInfo)

  /**
   * A posted expiry field once stripped and handed to the date parser: empty,
   * a timestamp the parser accepted, or text it rejected.
   */
  datatype Expiry = Blank | Valid(at: int) | Malformed

  /** The page `make_short_url` ends on. */
  datatype CreateOutcome =
    | EmptyUrl               // "Please enter a valid URL."
    | AlreadyShortened       // same user, same normalised URL
    | AliasTaken             // custom alias already some link's slug
    | BadExpiry              // the date parser raised outside the try block
    | SlugGenerationFailed   // "Slug generation failed", rolled back
    | SlugConflict           // the generated slug hit the unique constraint, rolled back
    | Created(id: nat)

  /** The page `redirect_url` ends on. */
  datatype Resolution = NotFound | Expired | Redirect(target: string)

  datatype EditOutcome = EditNotFound | Edited
  datatype DeleteOutcome = DeleteNotFound | Deleted

  // ---------------------------------------------------------------- URL normalisation

  predicate HasScheme(u: string) {
    "http://" <= u || "https://" <= u
  }

  /** `http://` is put in front of a URL that does not start with `http://` or `https://`. */
  function NormaliseUrl(u: string): (r: string)
    ensures HasScheme(r)
    ensures HasScheme(u) ==> r == u
    ensures !HasScheme(u) ==> r == "http://" + u
  {
    if HasScheme(u) then u else "http://" + u
  }

  lemma NormaliseUrlIdempotent(u: string)
    ensures NormaliseUrl(NormaliseUrl(u)) == NormaliseUrl(u)
  {
    assert HasScheme(NormaliseUrl(u));
  }

  // ---------------------------------------------------------------- queries on the tables

  /** `UrlModel.objects.filter(original_url=url, user=user).exists()` */
  predicate Shortened(links: map<nat, UrlRecord>, user: UserId, url: string) {
    exists id :: id in links && links[id].user == user && links[id].originalUrl == url
  }

  /** `UrlModel.objects.filter(short_url=slug).exists()` */
  predicate SlugHeld(links: map<nat, UrlRecord>, slug: string) {
    exists id :: id in links && links[id].shortUrl == slug
  }

  /** Number of logged visits of link `id`. */
  function VisitCount(visits: seq<Visit>, id: nat): nat {
    if visits == [] then 0
    else VisitCount(visits[..|visits| - 1], id) + (if visits[|visits| - 1].url == id then 1 else 0)
  }

  /** The log with the visits of link `id` removed (the cascade of a delete). */
  function WithoutVisitsOf(visits: seq<Visit>, id: nat): (r: seq<Visit>)
    ensures forall v :: v in r <==> v in visits && v.url != id
  {
    if visits == [] then []
    else
      var last := visits[|visits| - 1];
      WithoutVisitsOf(visits[..|visits| - 1], id) + (if last.url == id then [] else [last])
  }

  lemma {:induction false} VisitCountAppend(visits: seq<Visit>, v: Visit, id: nat)
    ensures VisitCount(visits + [v], id) == VisitCount(visits, id) + (if v.url == id then 1 else 0)
  {
    assert (visits + [v])[..|visits|] == visits;
  }

  lemma {:induction false} VisitCountNone(visits: seq<Visit>, id: nat)
    requires forall v :: v in visits ==> v.url != id
    ensures VisitCount(visits, id) == 0
  {
    if visits != [] {
      assert visits[|visits| - 1] in visits;
      VisitCountNone(visits[..|visits| - 1], id);
    }
  }

  /** Removing the visits of one link leaves no visit of it and every other link's count as it was. */
  lemma {:induction false} VisitCountWithout(visits: seq<Visit>, gone: nat, id: nat)
    ensures VisitCount(WithoutVisitsOf(visits, gone), id) == if id == gone then 0 else VisitCount(visits, id)
  {
    if visits != [] {
      var init, last := visits[..|visits| - 1], visits[|visits| - 1];
      VisitCountWithout(init, gone, id);
      assert VisitCount(visits, id) == VisitCount(init, id) + (if last.url == id then 1 else 0);
      if last.url == gone {
        assert WithoutVisitsOf(visits, gone) == WithoutVisitsOf(init, gone) + [];
        assert WithoutVisitsOf(init, gone) + [] == WithoutVisitsOf(init, gone);
      } else {
        VisitCountAppend(WithoutVisitsOf(init, gone), last, id);
      }
    }
  }

  // ---------------------------------------------------------------- the table invariant

  /**
   * Row ids come from the sequence, slugs are non-empty and unique, every
   * visit belongs to a stored link, and a link's click count is the number
   * of its logged visits.
   */
  ghost predicate Consistent(links: map<nat, UrlRecord>, visits: seq<Visit>, nextId: nat) {
    && (forall id :: id in links ==> id < nextId)
    && (forall id :: id in links ==> links[id].shortUrl != "")
    && (forall a, b :: a in links && b in links && links[a].shortUrl == links[b].shortUrl ==> a == b)
    && (forall v :: v in visits ==> v.url in links)
    && (forall id :: id in links ==> links[id].clickCount == VisitCount(visits, id))
  }

  /** Inserting a row under the next sequence value with a fresh, non-empty slug keeps the tables consistent. */
  lemma InsertKeepsConsistent(links: map<nat, UrlRecord>, visits: seq<Visit>, nextId: nat, rec: UrlRecord)
    requires Consistent(links, visits, nextId)
    requires rec.shortUrl != "" && !SlugHeld(links, rec.shortUrl) && rec.clickCount == 0
    ensures Consistent(links[nextId := rec], visits, nextId + 1)
  {
    forall v | v in visits ensures v.url != nextId { assert v.url in links; }
    VisitCountNone(visits, nextId);
  }

  /** In consistent tables the row holding a slug is the only one holding it. */
  lemma OnlyHolder(links: map<nat, UrlRecord>, visits: seq<Visit>, nextId: nat, id: nat)
    requires Consistent(links, visits, nextId) && id in links
    ensures forall other :: other in links && links[other].shortUrl == links[id].shortUrl ==> other == id
  {
  }

  /** Counting a click on a stored link and logging one visit of it keeps the tables consistent. */
  lemma VisitKeepsConsistent(links: map<nat, UrlRecord>, visits: seq<Visit>, nextId: nat, id: nat, v: Visit)
    requires Consistent(links, visits, nextId)
    requires id in links && v.url == id
    ensures Consistent(links[id := links[id].(clickCount := links[id].clickCount + 1)], visits + [v], nextId)
  {
    forall other | other in links
      ensures VisitCount(visits + [v], other) == VisitCount(visits, other) + (if other == id then 1 else 0)
    {
      VisitCountAppend(visits, v, other);
    }
  }

  /** Deleting a row together with its visits keeps the tables consistent. */
  lemma DeleteKeepsConsistent(links: map<nat, UrlRecord>, visits: seq<Visit>, nextId: nat, id: nat)
    requires Consistent(links, visits, nextId)
    ensures Consistent(links - {id}, WithoutVisitsOf(visits, id), nextId)
  {
    forall other | other in links - {id}
      ensures VisitCount(WithoutVisitsOf(visits, id), other) == VisitCount(visits, other)
    {
      VisitCountWithout(visits, id, other);
    }
  }

  // ---------------------------------------------------------------- the table

  class LinkTable {
    /** The Hashids encoder (minimum length 4, configured salt); its algorithm is not part of this model. */
    const encode: nat -> string
    var links: map<nat, UrlRecord>
    var visits: seq<Visit>
    /** The next value of the row-id sequence. */
    var nextId: nat

    ghost predicate Valid()
      reads this
    {
      Consistent(links, visits, nextId)
    }

    constructor (encode: nat -> string)
      ensures Valid()
      ensures this.encode == encode && links == map[] && visits == [] && nextId == 1
    {
      this.encode := encode;
      links := map[];
      visits := [];
      nextId := 1;
    }

    /**
     * `make_short_url` (POST). The checks run in this order and the first
     * failure ends the request with the table unchanged: blank URL, already
     * shortened by this user, custom alias taken, unparseable expiry. Then a
     * row is inserted (consuming a sequence value) whose slug is the alias or
     * else `encode(id)`; an empty or already-held slug rolls the insert back.
     */
    method MakeShortUrl(user: UserId, longUrl: string, alias: string, expiry: Expiry) returns (outcome: CreateOutcome)
      requires Valid()
      modifies this
      ensures Valid()
      ensures visits == old(visits)
      ensures !outcome.Created? ==> links == old(links)
      ensures
        var u, a := Trim(longUrl), Trim(alias);
        var url := NormaliseUrl(u);
        var precheck :=
          if u == "" then Some(EmptyUrl)
          else if Shortened(old(links), user, url) then Some(AlreadyShortened)
          else if a != "" && SlugHeld(old(links), a) then Some(AliasTaken)
          else if expiry.Malformed? then Some(BadExpiry)
          else None;
        var slug := if a != "" then a else encode(old(nextId));
        if precheck.Some? then
          outcome == precheck.value && nextId == old(nextId)
        else
          && nextId == old(nextId) + 1
          && outcome == (if slug == "" then SlugGenerationFailed
                         else if SlugHeld(old(links), slug) then SlugConflict
                         else Created(old(nextId)))
          && (outcome.Created? ==>
                links == old(links)[old(nextId) := UrlRecord(url, slug, user, if expiry.Valid? then Some(expiry.at) else None, 0)])
    {
      var u := Trim(longUrl);
      var a := Trim(alias);
      if u == "" {
        return EmptyUrl;
      }
      var url := NormaliseUrl(u);
      if Shortened(links, user, url) {
        return AlreadyShortened;
      }
      if a != "" && SlugHeld(links, a) {
        return AliasTaken;
      }
      if expiry.Malformed? {
        return BadExpiry;
      }
      var expiresAt := if expiry.Valid? then Some(expiry.at) else None;

      var id := nextId;
      nextId := nextId + 1;
      var slug := if a != "" then a else encode(id);
      if slug == "" {
        return SlugGenerationFailed;
      }
      if SlugHeld(links, slug) {
        return SlugConflict;
      }
      InsertKeepsConsistent(links, visits, id, UrlRecord(url, slug, user, expiresAt, 0));
      links := links[id := UrlRecord(url, slug, user, expiresAt, 0)];
      outcome := Created(id);
    }

    /**
     * `redirect_url`: an unknown slug is NotFound and an expired link (expiry
     * set and strictly before `now`) is Expired, both changing nothing;
     * otherwise the click count goes up by one, one visit is logged, and the
     * answer is a redirect to the stored URL.
     */
    method RedirectUrl(slug: string, now: int, info: VisitInfo) returns (r: Resolution)
      requires Valid()
      modifies this
      ensures Valid()
      ensures nextId == old(nextId)
      ensures !SlugHeld(old(links), slug) ==> r == NotFound
      ensures forall id :: id in old(links) && old(links)[id].shortUrl == slug ==>
        var url := old(links)[id];
        if url.expiresAt.Some? && now > url.expiresAt.value then
          r == Expired
        else
          && r == Redirect(url.originalUrl)
          && links == old(links)[id := url.(clickCount := url.clickCount + 1)]
          && visits == old(visits) + [Visit(id, now, info)]
      ensures !r.Redirect? ==> links == old(links) && visits == old(visits)
    {
      if !SlugHeld(links, slug) {
        return NotFound;
      }
      var id :| id in links && links[id].shortUrl == slug;
      OnlyHolder(links, visits, nextId, id);
      var url := links[id];
      if url.expiresAt.Some? && now > url.expiresAt.value {
        return Expired;
      }
      Click(id, Visit(id, now, info));
      r := Redirect(url.originalUrl);
    }

    /** One counted click on a stored link: its click count goes up by one and the visit is logged. */
    method Click(id: nat, v: Visit)
      requires Valid() && id in links && v.url == id
      modifies this
      ensures Valid()
      ensures nextId == old(nextId)
      ensures links == old(links)[id := old(links)[id].(clickCount := old(links)[id].clickCount + 1)]
      ensures visits == old(visits) + [v]
    {
      VisitKeepsConsistent(links, visits, nextId, id, v);
      links := links[id := links[id].(clickCount := links[id].clickCount + 1)];
      visits := visits + [v];
    }

    /**
     * `update_url` (POST) on a link the requester owns: a non-empty posted URL
     * replaces the destination as posted; an expiry the parser accepted
     * replaces the expiry, a blank or rejected one is ignored. Slug and click
     * count never change. A link of another user, or none, is not found.
     */
    method UpdateUrl(requester: UserId, id: nat, longUrl: Option<string>, expiry: Expiry) returns (r: EditOutcome)
      requires Valid()
      modifies this
      ensures Valid()
      ensures visits == old(visits) && nextId == old(nextId)
      ensures r == EditNotFound <==> id !in old(links) || old(links)[id].user != requester
      ensures r == EditNotFound ==> links == old(links)
      ensures r == Edited ==>
        var url := old(links)[id];
        links == old(links)[id := url.(
          originalUrl := if longUrl.Some? && longUrl.value != "" then longUrl.value else url.originalUrl,
          expiresAt := if expiry.Valid? then Some(expiry.at) else url.expiresAt)]
    {
      if id !in links || links[id].user != requester {
        return EditNotFound;
      }
      var url := links[id];
      if longUrl.Some? && longUrl.value != "" {
        url := url.(originalUrl := longUrl.value);
      }
      if expiry.Valid? {
        url := url.(expiresAt := Some(expiry.at));
      }
      links := links[id := url];
      r := Edited;
    }

    /**
     * `delete_url`: only the requester's own link with that id is removed,
     * together with its visits; every other link is left as it was.
     */
    method DeleteUrl(requester: UserId, id: nat) returns (r: DeleteOutcome)
      requires Valid()
      modifies this
      ensures Valid()
      ensures nextId == old(nextId)
      ensures r == DeleteNotFound <==> id !in old(links) || old(links)[id].user != requester
      ensures r == DeleteNotFound ==> links == old(links) && visits == old(visits)
      ensures r == Deleted ==> links == old(links) - {id} && visits == WithoutVisitsOf(old(visits), id)
    {
      if id !in links || links[id].user != requester {
        return DeleteNotFound;
      }
      DeleteKeepsConsistent(links, visits, nextId, id);
      links := links - {id};
      visits := WithoutVisitsOf(visits, id);
      r := Deleted;
    }
  }

  /** A slug resolves to at most one link, so resolution is well defined. */
  lemma SlugNamesOneLink(t: LinkTable, slug: string, a: nat, b: nat)
    requires t.Valid()
    requires a in t.links && b in t.links && t.links[a].shortUrl == slug && t.links[b].shortUrl == slug
    ensures a == b
  {
  }
}
