/**
 * `UrlsService`: the short-link store and the operations on it. The
 * TypeORM repository is a map from row id to record; ids come from a
 * counter standing in for the generated uuid. A second map indexes every
 * row, deleted or not, by short code: it is the database's unique
 * constraint on `shortCode`. Lookups see active rows only, as TypeORM's
 * queries do once a row is soft-deleted.
 */
module Urls {
  import opened Wrappers
  import opened ShortCode

  type Id = nat

  /** The bound of the generate-and-check loop. */
  const MaxAttempts: nat := 5

  const ZeroQuad: Quad := [0, 0, 0, 0]

  /** One byte quadruple per attempt of the loop: the random source. */
  type Draws = s: seq<Quad> | |s| == MaxAttempts
    witness [ZeroQuad, ZeroQuad, ZeroQuad, ZeroQuad, ZeroQuad]

  /** A stored link (`Url` entity); `deleted` stands for a set deletion date. */
  datatype Url = Url(
    id: Id,
    originalUrl: string,
    shortCode: string,
    shortUrl: string,
    clicks: nat,
    createdAt: int,
    userId: Option<string>,
    deleted: bool)

  /** What `shorten` hands back to its caller. */
  datatype ShortLinkInfo = ShortLinkInfo(
    id: Id,
    shortUrl: string,
    shortCode: string,
    originalUrl: string,
    createdAt: int)

  datatype UrlError =
    | OriginalUrlRequired  // BadRequestException: empty originalUrl
    | BaseUrlUndefined     // plain Error: BASE_URL is not configured
    | ShortCodeExhausted   // BadRequestException: all five candidates taken
    | UrlNotFound          // NotFoundException
    | DuplicateShortCode   // the unique constraint on shortCode rejects the insert

  /** `!baseUrl` is false: the variable is set and not empty. */
  predicate IsConfigured(baseUrl: Option<string>) {
    baseUrl.Some? && baseUrl.value != ""
  }

  /** `userId ? { id: userId } : null`: an empty id gives an anonymous link. */
  function OwnerOf(userId: Option<string>): (owner: Option<string>)
    ensures owner.Some? <==> userId.Some? && userId.value != ""
    ensures owner.Some? ==> owner == userId
  {
    if userId.Some? && userId.value != "" then userId else None
  }

  function ShortUrlOf(baseUrl: string, code: string): string {
    baseUrl + "/" + code
  }

  /** `shortUrl` is some non-empty base, a slash and `code`. */
  predicate EndsWithCode(shortUrl: string, code: string) {
    |shortUrl| >= |code| + 2 && shortUrl[|shortUrl| - |code| - 1..] == "/" + code
  }

  /** What every stored row satisfies whatever the base URL was when it was made. */
  predicate WellFormed(u: Url) {
    IsShortCode(u.shortCode) && EndsWithCode(u.shortUrl, u.shortCode)
  }

  predicate IsOwnedActive(u: Url, owner: string) {
    !u.deleted && u.userId == Some(owner)
  }

  /** The five fields `shorten` projects out of the saved record. */
  function Info(u: Url): ShortLinkInfo {
    ShortLinkInfo(u.id, u.shortUrl, u.shortCode, u.originalUrl, u.createdAt)
  }

  /**
   * How rows may change between any two states: rows are never removed;
   * id, short code, short URL, creation date and owner never change;
   * clicks never go down and a deleted row stays deleted.
   */
  ghost predicate Evolves(before: map<Id, Url>, after: map<Id, Url>) {
    forall id :: id in before ==>
      && id in after
      && after[id].id == before[id].id
      && after[id].shortCode == before[id].shortCode
      && after[id].shortUrl == before[id].shortUrl
      && after[id].createdAt == before[id].createdAt
      && after[id].userId == before[id].userId
      && after[id].clicks >= before[id].clicks
      && (before[id].deleted ==> after[id].deleted)
  }

  /**
   * The index of the first of the five draws, from `from` on, whose code is
   * not in `taken`: the attempt at which the loop stops and saves.
   */
  function FirstMiss(taken: set<string>, rand: Draws, from: nat): (k: Option<nat>)
    requires from <= MaxAttempts
    ensures k.Some? ==>
      && from <= k.value < MaxAttempts
      && GenerateShortCode(rand[k.value]) !in taken
      && forall j :: from <= j < k.value ==> GenerateShortCode(rand[j]) in taken
    ensures k.None? ==> forall j :: from <= j < MaxAttempts ==> GenerateShortCode(rand[j]) in taken
    decreases MaxAttempts - from
  {
    if from == MaxAttempts then None
    else if GenerateShortCode(rand[from]) !in taken then Some(from)
    else FirstMiss(taken, rand, from + 1)
  }

  ghost predicate IdsMatchKeys(urls: map<Id, Url>) {
    forall id :: id in urls ==> urls[id].id == id
  }

  /** The active rows of `owner` among ids below `n`, in increasing id order. */
  function OwnedRows(urls: map<Id, Url>, owner: string, n: nat): (rows: seq<Url>)
    requires IdsMatchKeys(urls)
    ensures forall u :: u in rows <==> u.id < n && u.id in urls && urls[u.id] == u && IsOwnedActive(u, owner)
    ensures forall i, j :: 0 <= i < j < |rows| ==> rows[i].id < rows[j].id
  {
    if n == 0 then []
    else
      var k := n - 1;
      OwnedRows(urls, owner, k) + if k in urls && IsOwnedActive(urls[k], owner) then [urls[k]] else []
  }

  ghost predicate NewestFirst(rows: seq<Url>) {
    forall i, j :: 0 <= i < j < |rows| ==> rows[i].createdAt >= rows[j].createdAt
  }

  ghost predicate DistinctIds(rows: seq<Url>) {
    forall i, j :: 0 <= i < j < |rows| ==> rows[i].id != rows[j].id
  }

  /** Places `u` into a newest-first sequence, after the rows at least as new. */
  function InsertByDate(u: Url, rows: seq<Url>): (r: seq<Url>)
    requires NewestFirst(rows)
    ensures NewestFirst(r)
    ensures |r| == |rows| + 1
    ensures r[0] == u || (rows != [] && r[0] == rows[0])
    ensures multiset(r) == multiset(rows) + multiset{u}
  {
    if rows == [] then [u]
    else if rows[0].createdAt >= u.createdAt then
      var rest := InsertByDate(u, rows[1..]);
      var r := [rows[0]] + rest;
      assert rows == [rows[0]] + rows[1..];
      assert forall j :: 0 <= j < |rest| ==> rest[0].createdAt >= rest[j].createdAt;
      assert rows[0].createdAt >= rest[0].createdAt;
      assert forall j :: 1 <= j < |r| ==> r[j] == rest[j - 1];
      assert multiset(r) == multiset{rows[0]} + multiset(rest);
      assert multiset(rows) == multiset{rows[0]} + multiset(rows[1..]);
      r
    else
      [u] + rows
  }

  /** `order: { createdAt: 'DESC' }`: an insertion sort, newest first. */
  function SortNewestFirst(rows: seq<Url>): (r: seq<Url>)
    ensures NewestFirst(r)
    ensures |r| == |rows|
    ensures multiset(r) == multiset(rows)
  {
    if rows == [] then []
    else
      assert rows == [rows[0]] + rows[1..];
      InsertByDate(rows[0], SortNewestFirst(rows[1..]))
  }

  /** Sequences with the same multiset have the same members. */
  lemma SameMembers(a: seq<Url>, b: seq<Url>)
    requires multiset(a) == multiset(b)
    ensures forall v :: v in a <==> v in b
  {
    forall v ensures v in a <==> v in b {
      assert v in a <==> v in multiset(a);
      assert v in b <==> v in multiset(b);
    }
  }

  lemma {:induction false} InsertKeepsIdsDistinct(u: Url, rows: seq<Url>)
    requires NewestFirst(rows) && DistinctIds(rows)
    requires forall v :: v in rows ==> v.id != u.id
    ensures DistinctIds(InsertByDate(u, rows))
  {
    if rows != [] && rows[0].createdAt >= u.createdAt {
      var tail := rows[1..];
      assert forall v :: v in tail ==> v in rows;
      InsertKeepsIdsDistinct(u, tail);
      var rest := InsertByDate(u, tail);
      assert multiset(rest) == multiset(tail + [u]);
      SameMembers(rest, tail + [u]);
      forall j | 0 <= j < |rest|
        ensures rest[j].id != rows[0].id
      {
        if rest[j] != u {
          assert rest[j] in tail + [u];
          assert rest[j] in tail;
          var k :| 0 <= k < |tail| && tail[k] == rest[j];
          assert rows[k + 1] == rest[j];
        }
      }
      var r := InsertByDate(u, rows);
      assert r == [rows[0]] + rest;
    }
  }

  lemma {:induction false} SortKeepsIdsDistinct(rows: seq<Url>)
    requires DistinctIds(rows)
    ensures DistinctIds(SortNewestFirst(rows))
  {
    if rows != [] {
      var tail := rows[1..];
      SortKeepsIdsDistinct(tail);
      SameMembers(SortNewestFirst(tail), tail);
      forall v | v in SortNewestFirst(tail)
        ensures v.id != rows[0].id
      {
        var k :| 0 <= k < |tail| && tail[k] == v;
        assert rows[k + 1] == v;
      }
      InsertKeepsIdsDistinct(rows[0], SortNewestFirst(tail));
    }
  }

  class UrlsService {
    var urls: map<Id, Url>
    var byCode: map<string, Id>
    var nextId: nat

    ghost predicate Valid()
      reads this
    {
      && IdsMatchKeys(urls)
      && (forall id :: id in urls ==> id < nextId && WellFormed(urls[id]))
      && (forall id :: id in urls ==> urls[id].shortCode in byCode && byCode[urls[id].shortCode] == id)
      && (forall code :: code in byCode ==> byCode[code] in urls && urls[byCode[code]].shortCode == code)
    }

    /** The short codes of active rows: what the lookup in the loop finds. */
    ghost function ActiveCodes(): set<string>
      reads this
    {
      set id | id in urls && !urls[id].deleted :: urls[id].shortCode
    }

    /** The short codes of all rows, deleted or not: what the unique constraint guards. */
    ghost function AllCodes(): set<string>
      reads this
    {
      set id | id in urls :: urls[id].shortCode
    }

    constructor ()
      ensures Valid() && urls == map[] && nextId == 0
    {
      urls, byCode, nextId := map[], map[], 0;
    }

    /** `findOne({ where: { shortCode } })`. */
    function FindActiveByCode(code: string): (r: Option<Url>)
      reads this
      requires Valid()
      ensures r.Some? ==> r.value.id in urls && urls[r.value.id] == r.value
      ensures r.Some? ==> !r.value.deleted && r.value.shortCode == code
      ensures r.None? ==> forall id :: id in urls && urls[id].shortCode == code ==> urls[id].deleted
      ensures r.Some? <==> code in ActiveCodes()
    {
      if code in byCode && !urls[byCode[code]].deleted then Some(urls[byCode[code]]) else None
    }

    /** No two rows, deleted or not, share a short code. */
    lemma CodesUnique(i: Id, j: Id)
      requires Valid()
      requires i in urls && j in urls && urls[i].shortCode == urls[j].shortCode
      ensures i == j
    {
    }

    /**
     * `urlsRepository.save` of a new record: the store assigns the id and
     * the creation date, and the unique constraint rejects a short code that
     * any row already holds.
     */
    method Insert(originalUrl: string, shortCode: string, shortUrl: string, user: Option<string>, now: int)
      returns (r: Result<Url, UrlError>)
      requires Valid()
      requires IsShortCode(shortCode) && EndsWithCode(shortUrl, shortCode)
      modifies this
      ensures Valid() && Evolves(old(urls), urls)
      ensures shortCode in old(AllCodes()) ==> r == Failure(DuplicateShortCode)
      ensures shortCode !in old(AllCodes()) ==>
        r == Success(Url(old(nextId), originalUrl, shortCode, shortUrl, 0, now, user, false))
      ensures r.Failure? ==> urls == old(urls) && byCode == old(byCode) && nextId == old(nextId)
      ensures r.Success? ==> r.value.id !in old(urls) && urls == old(urls)[r.value.id := r.value]
    {
      if shortCode in byCode {
        assert urls[byCode[shortCode]].shortCode == shortCode;
        return Failure(DuplicateShortCode);
      }
      assert shortCode !in AllCodes();
      var url := Url(nextId, originalUrl, shortCode, shortUrl, 0, now, user, false);
      urls := urls[nextId := url];
      byCode := byCode[shortCode := nextId];
      nextId := nextId + 1;
      r := Success(url);
    }

    /**
     * `createUniqueShortCode`: checks the base URL, then tries the five
     * draws in turn; the first code no active row holds is saved with
     * `shortUrl = base + "/" + code`. The ghost `lookups` counts the `findOne` calls.
     */
    method CreateUniqueShortCode(originalUrl: string, user: Option<string>, baseUrl: Option<string>, rand: Draws, now: int)
      returns (r: Result<Url, UrlError>, ghost lookups: nat)
      requires Valid()
      modifies this
      ensures Valid() && Evolves(old(urls), urls)
      ensures lookups <= MaxAttempts
      ensures !IsConfigured(baseUrl) ==> r == Failure(BaseUrlUndefined) && lookups == 0
      ensures IsConfigured(baseUrl) && FirstMiss(old(ActiveCodes()), rand, 0).None? ==>
        r == Failure(ShortCodeExhausted) && lookups == MaxAttempts
      ensures IsConfigured(baseUrl) && FirstMiss(old(ActiveCodes()), rand, 0).Some? ==>
        var k := FirstMiss(old(ActiveCodes()), rand, 0).value;
        var code := GenerateShortCode(rand[k]);
        && lookups == k + 1
        && (code in old(AllCodes()) ==> r == Failure(DuplicateShortCode))
        && (code !in old(AllCodes()) ==>
              r == Success(Url(old(nextId), originalUrl, code, ShortUrlOf(baseUrl.value, code), 0, now, user, false)))
      ensures r.Failure? ==> urls == old(urls) && byCode == old(byCode) && nextId == old(nextId)
      ensures r.Success? ==> r.value.id !in old(urls) && urls == old(urls)[r.value.id := r.value]
    {
      if !IsConfigured(baseUrl) {
        return Failure(BaseUrlUndefined), 0;
      }
      var base := baseUrl.value;
      lookups := 0;
      for i := 0 to MaxAttempts
        invariant lookups == i
        invariant forall j :: 0 <= j < i ==> GenerateShortCode(rand[j]) in ActiveCodes()
        invariant urls == old(urls) && byCode == old(byCode) && nextId == old(nextId)
      {
        var shortCode := GenerateShortCode(rand[i]);
        var existing := FindActiveByCode(shortCode);
        lookups := lookups + 1;
        if existing.Some? {
          continue;
        }
        var shortUrl := ShortUrlOf(base, shortCode);
        assert shortUrl[|shortUrl| - |shortCode| - 1..] == "/" + shortCode;
        r := Insert(originalUrl, shortCode, shortUrl, user, now);
        return;
      }
      r := Failure(ShortCodeExhausted);
    }

    /**
     * `shorten`: rejects an empty destination first, then creates the link
     * (owned when a non-empty user id is given) and projects it.
     */
    method Shorten(originalUrl: string, userId: Option<string>, baseUrl: Option<string>, rand: Draws, now: int)
      returns (r: Result<ShortLinkInfo, UrlError>)
      requires Valid()
      modifies this
      ensures Valid() && Evolves(old(urls), urls)
      ensures originalUrl == "" ==> r == Failure(OriginalUrlRequired)
      ensures originalUrl != "" && !IsConfigured(baseUrl) ==> r == Failure(BaseUrlUndefined)
      ensures originalUrl != "" && IsConfigured(baseUrl) && FirstMiss(old(ActiveCodes()), rand, 0).None? ==>
        r == Failure(ShortCodeExhausted)
      ensures originalUrl != "" && IsConfigured(baseUrl) && FirstMiss(old(ActiveCodes()), rand, 0).Some? ==>
        var code := GenerateShortCode(rand[FirstMiss(old(ActiveCodes()), rand, 0).value]);
        && (code in old(AllCodes()) ==> r == Failure(DuplicateShortCode))
        && (code !in old(AllCodes()) ==> r.Success?)
      ensures r.Failure? ==> urls == old(urls) && byCode == old(byCode) && nextId == old(nextId)
      ensures r.Success? ==>
        r.value.id == old(nextId) && r.value.id in urls && urls == old(urls)[r.value.id := urls[r.value.id]]
      ensures r.Success? ==> r.value.id in urls && r.value == Info(urls[r.value.id])
      ensures r.Success? ==>
        r.value.id in urls &&
        urls[r.value.id] == Url(r.value.id, originalUrl, r.value.shortCode, r.value.shortUrl, 0, now, OwnerOf(userId), false)
      ensures r.Success? ==> IsConfigured(baseUrl) && r.value.shortUrl == ShortUrlOf(baseUrl.value, r.value.shortCode)
      ensures r.Success? ==>
        FirstMiss(old(ActiveCodes()), rand, 0).Some? &&
        r.value.shortCode == GenerateShortCode(rand[FirstMiss(old(ActiveCodes()), rand, 0).value])
      ensures r.Success? ==> r.value.shortCode !in old(AllCodes())
    {
      if originalUrl == "" {
        return Failure(OriginalUrlRequired);
      }
      var owner := OwnerOf(userId);
      ghost var miss := FirstMiss(ActiveCodes(), rand, 0);
      ghost var taken := AllCodes();
      var created, _ := CreateUniqueShortCode(originalUrl, owner, baseUrl, rand, now);
      match created
      case Failure(e) =>
        r := Failure(e);
      case Success(url) =>
        assert IsConfigured(baseUrl) && miss.Some?;
        assert url == Url(url.id, originalUrl, GenerateShortCode(rand[miss.value]),
                          ShortUrlOf(baseUrl.value, url.shortCode), 0, now, owner, false);
        assert urls[url.id] == url;
        assert url.shortCode !in taken;
        r := Success(Info(url));
    }

    /** `listUserUrls`: the caller's active links, newest first. */
    function ListUserUrls(userId: string): (list: seq<Url>)
      reads this
      requires Valid()
      ensures forall u :: u in list <==> u.id in urls && urls[u.id] == u && IsOwnedActive(u, userId)
      ensures DistinctIds(list)
      ensures NewestFirst(list)
    {
      SortKeepsIdsDistinct(OwnedRows(urls, userId, nextId));
      SameMembers(SortNewestFirst(OwnedRows(urls, userId, nextId)), OwnedRows(urls, userId, nextId));
      SortNewestFirst(OwnedRows(urls, userId, nextId))
    }

    /** `updateUrl`: replaces the destination of an active row and nothing else. */
    method UpdateUrl(id: Id, newOriginal: string) returns (r: Result<Url, UrlError>)
      requires Valid()
      modifies this
      ensures Valid() && Evolves(old(urls), urls)
      ensures byCode == old(byCode) && nextId == old(nextId)
      ensures (id !in old(urls) || old(urls)[id].deleted) ==> r == Failure(UrlNotFound) && urls == old(urls)
      ensures id in old(urls) && !old(urls)[id].deleted ==>
        r == Success(old(urls)[id].(originalUrl := newOriginal)) && urls == old(urls)[id := r.value]
    {
      if id !in urls || urls[id].deleted {
        return Failure(UrlNotFound);
      }
      var url := urls[id];
      url := url.(originalUrl := newOriginal);
      urls := urls[id := url];
      r := Success(url);
    }

    /** `softDelete(id)`: marks an active row deleted and reports how many rows it touched. */
    method SoftDelete(id: Id) returns (affected: nat)
      requires Valid()
      modifies this
      ensures Valid() && Evolves(old(urls), urls)
      ensures byCode == old(byCode) && nextId == old(nextId)
      ensures affected == if id in old(urls) && !old(urls)[id].deleted then 1 else 0
      ensures affected == 0 ==> urls == old(urls)
      ensures affected == 1 ==> urls == old(urls)[id := old(urls)[id].(deleted := true)]
    {
      if id !in urls || urls[id].deleted {
        return 0;
      }
      urls := urls[id := urls[id].(deleted := true)];
      affected := 1;
    }

    /** `deleteUrl`: `{ ok: true }` when a row was deleted, NotFound otherwise. */
    method DeleteUrl(id: Id) returns (r: Outcome<UrlError>)
      requires Valid()
      modifies this
      ensures Valid() && Evolves(old(urls), urls)
      ensures byCode == old(byCode) && nextId == old(nextId)
      ensures (id !in old(urls) || old(urls)[id].deleted) ==> r == Fail(UrlNotFound) && urls == old(urls)
      ensures id in old(urls) && !old(urls)[id].deleted ==>
        r == Pass && urls == old(urls)[id := old(urls)[id].(deleted := true)]
    {
      var affected := SoftDelete(id);
      if affected == 0 {
        return Fail(UrlNotFound);
      }
      r := Pass;
    }

    /** `findByShortCodeAndCount`: resolves an active code and adds one click. */
    method FindByShortCodeAndCount(shortCode: string) returns (r: Result<string, UrlError>)
      requires Valid()
      modifies this
      ensures Valid() && Evolves(old(urls), urls)
      ensures byCode == old(byCode) && nextId == old(nextId)
      ensures old(FindActiveByCode(shortCode)).None? ==> r == Failure(UrlNotFound) && urls == old(urls)
      ensures old(FindActiveByCode(shortCode)).Some? ==>
        var u := old(FindActiveByCode(shortCode)).value;
        r == Success(u.originalUrl) && urls == old(urls)[u.id := u.(clicks := u.clicks + 1)]
    {
      var found := FindActiveByCode(shortCode);
      if found.None? {
        return Failure(UrlNotFound);
      }
      var url := found.value;
      url := url.(clicks := url.clicks + 1);
      urls := urls[url.id := url];
      r := Success(url.originalUrl);
    }
  }

  /**
   * The redirect example: a fresh anonymous link resolves to its
   * destination and then has exactly one click.
   */
  method ShortenThenRedirect(svc: UrlsService, originalUrl: string, baseUrl: Option<string>, rand: Draws, now: int)
    returns (info: Result<ShortLinkInfo, UrlError>, target: Result<string, UrlError>)
    requires svc.Valid()
    modifies svc
    ensures svc.Valid()
    ensures info.Success? ==>
      && IsConfigured(baseUrl)
      && info.value.shortUrl == ShortUrlOf(baseUrl.value, info.value.shortCode)
      && target == Success(originalUrl)
      && info.value.id in svc.urls && svc.urls[info.value.id].clicks == 1
  {
    info := svc.Shorten(originalUrl, None, baseUrl, rand, now);
    if info.Success? {
      target := svc.FindByShortCodeAndCount(info.value.shortCode);
    } else {
      target := Failure(info.error);
    }
  }

  /** A deleted link can neither be deleted again, updated nor resolved. */
  method DeleteThenUse(svc: UrlsService, id: Id, newOriginal: string)
    returns (first: Outcome<UrlError>, second: Outcome<UrlError>,
             updated: Result<Url, UrlError>, resolved: Result<string, UrlError>)
    requires svc.Valid()
    requires id in svc.urls && !svc.urls[id].deleted
    modifies svc
    ensures svc.Valid()
    ensures first == Pass && second == Fail(UrlNotFound)
    ensures updated == Failure(UrlNotFound) && resolved == Failure(UrlNotFound)
  {
    var code := svc.urls[id].shortCode;
    first := svc.DeleteUrl(id);
    second := svc.DeleteUrl(id);
    updated := svc.UpdateUrl(id, newOriginal);
    resolved := svc.FindByShortCodeAndCount(code);
  }
}
