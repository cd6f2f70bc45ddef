# URL shortener core, modelled in Dafny

This project models the two service classes of a NestJS URL shortener.

- `UrlsService` (src/urls/urls.service.ts) creates links. It turns four random bytes into a short code, tries up to five codes until one is free, and saves the link with `shortUrl = BASE_URL + "/" + code`. It also lists a user's links newest first, replaces a link's destination, soft-deletes a link, and on a redirect resolves a code while counting one click.
- `UsersService` (src/users/users.service.ts) keeps user accounts. It creates, finds, updates and soft-deletes users, stores bcrypt hashes instead of passwords, and refuses an email that another active user already has.

Each service is a class over a map from row id to record. The map stands for the TypeORM repository. The environment is turned into parameters:

- the bytes of `randomBytes(4)`: one quadruple per attempt (`Urls.Draws`);
- `process.env.BASE_URL`: an `Option<string>`;
- the creation and deletion dates: an integer `now`;
- bcrypt: the uninterpreted function `hash` given to `UsersService`'s constructor;
- generated uuids: a counter in each store.

Files:

- `wrappers.dfy`: Option, Result, Outcome.
- `base64.dfy`: base64 as in section 4 of RFC 4648, with a decoder and the round-trip proof.
- `short_code.dfy`: `generateShortCode`.
- `urls.dfy`: the link record and `UrlsService`.
- `users.dfy`: the user record and `UsersService`.

Semantics the model fixes:

- Every query sees active rows only, as TypeORM queries do for soft-deleted rows.
- The unique constraint on `shortCode` (src/urls/url.entity.ts:19) covers every row, deleted or not. The store keeps it as an index from code to row. So a candidate that only a soft-deleted link holds passes the service's `findOne` check, and the insert is then rejected (`DuplicateShortCode`). The service itself has no such error path; it is the database's.
- Codes are not padded: the `\W` filter removes every `+` and `/` of the encoding, so a code has 1 to 6 characters. Four 0xFF bytes give the code `"w"`.
- Short codes are unique among all rows, deleted or not, as src/urls/url.entity.ts:19 declares.
- The service does not check that only a link's owner updates or deletes it, and neither does the model.

## Model

| member | source | states |
|---|---|---|
| Base64.CharOf | src/urls/urls.service.ts:21 | the base64 alphabet: every 6-bit value maps to a letter, digit, '+' or '/'; the decoding table maps it back; only 62 and 63 give '+' and '/' |
| Base64.ValueOf | src/urls/urls.service.ts:21 | the decoding table is defined exactly on the 64 alphabet characters |
| Base64.Encode | src/urls/urls.service.ts:21 | `toString('base64')`: the output has 4·⌈n/3⌉ characters, all from the alphabet or '=' |
| Base64.DecodeEncode | src/urls/urls.service.ts:21 | decoding the encoding of any byte sequence gives the bytes back, so the encoding loses nothing |
| Base64.GroupRoundTrip | src/urls/urls.service.ts:21 | a full 3-byte group decodes back to its three bytes |
| Base64.Final1RoundTrip | src/urls/urls.service.ts:21 | a final single byte ("xy==") decodes back to that byte |
| Base64.Final2RoundTrip | src/urls/urls.service.ts:21 | a final pair of bytes ("xyz=") decodes back to those bytes |
| ShortCode.RemoveNonWord | src/urls/urls.service.ts:21 | `replace(/\W/g, '')`: keeps only `[A-Za-z0-9_]` characters of the input; the length is unchanged exactly when every character is a word character |
| ShortCode.RemoveNonWordCounts | src/urls/urls.service.ts:21 | the filter keeps every word character of the input, as many times as it occurs there, and no other character |
| ShortCode.RemoveNonWordAppend | src/urls/urls.service.ts:21 | the filter distributes over concatenation |
| ShortCode.Slice | src/urls/urls.service.ts:21 | `slice(0, n)`: a prefix of length min(n, length) |
| ShortCode.QuadEncoding | src/urls/urls.service.ts:21 | four bytes encode to one full group plus a final single byte, i.e. six data characters and "==" |
| ShortCode.WordPartOfEncoding | src/urls/urls.service.ts:21 | what survives the filter is the six data characters without '+' and '/', never empty, 1 to 6 ASCII letters and digits |
| ShortCode.GenerateShortCode | src/urls/urls.service.ts:20-22 | every generated code has 1 to 6 characters, all ASCII letters or digits |
| ShortCode.ShortCodeIsFilteredData | src/urls/urls.service.ts:20-22 | the `slice(0, 6)` never cuts anything: the code is the six data characters with '+' and '/' removed |
| ShortCode.FullLengthIff | src/urls/urls.service.ts:20-22 | the code has six characters if and only if no data character is '+' or '/' |
| ShortCode.OneCharacterCode | src/urls/urls.service.ts:20-22 | bytes FF FF FF FF give the one-character code "w": nothing pads the code |
| Urls.OwnerOf | src/urls/urls.service.ts:68 | the link is owned exactly when a non-empty user id is given, and then by that id |
| Urls.FirstMiss | src/urls/urls.service.ts:38-43 | the attempt at which the loop stops is the first whose code is not taken, every earlier code being taken; none when all five are taken |
| Urls.OwnedRows | src/urls/urls.service.ts:85 | the rows matching `where: { user: { id } }`: exactly the active rows of that owner, in increasing id order |
| Urls.InsertByDate | src/urls/urls.service.ts:86 | inserting into a newest-first sequence keeps it newest first; the result's multiset is the input's plus the one row |
| Urls.SortNewestFirst | src/urls/urls.service.ts:86 | `order: { createdAt: 'DESC' }`: the result is newest first and a permutation of the input (same multiset) |
| Urls.SameMembers | src/urls/urls.service.ts:86 | two sequences with the same multiset have the same members |
| Urls.InsertKeepsIdsDistinct | src/urls/urls.service.ts:86 | inserting a row whose id is new keeps the ids distinct |
| Urls.SortKeepsIdsDistinct | src/urls/urls.service.ts:83-88 | sorting keeps the ids distinct, so each row is listed once |
| Urls.UrlsService.FindActiveByCode | src/urls/urls.service.ts:40-42 | `findOne({ where: { shortCode } })`: finds a stored active row with that code exactly when one exists |
| Urls.UrlsService.CodesUnique | src/urls/url.entity.ts:19 | no two rows, deleted or not, share a short code |
| Urls.UrlsService.Insert | src/urls/urls.service.ts:47-54 | the save of a new link: a fresh id, clicks 0, not deleted, the given fields; rejected with the store unchanged when any row already has the code |
| Urls.UrlsService.CreateUniqueShortCode | src/urls/urls.service.ts:25-60 | no base URL: fails before any lookup, store unchanged; otherwise at most 5 lookups (counted by a ghost out-parameter); all codes taken: ShortCodeExhausted, nothing saved; else the first free code is saved with shortUrl = base + "/" + code, clicks 0, the given destination and owner, as exactly one new row |
| Urls.UrlsService.Shorten | src/urls/urls.service.ts:63-81 | empty destination fails first, then a missing base URL, then five taken codes; the first free code fails with DuplicateShortCode exactly when a deleted row holds it and succeeds otherwise; on success exactly one new row, with owner per `OwnerOf`, and the result is its id, shortUrl, shortCode, originalUrl and createdAt; on failure the store is unchanged |
| Urls.UrlsService.ListUserUrls | src/urls/urls.service.ts:83-88 | exactly the stored active rows owned by the user, each once, in non-increasing createdAt order |
| Urls.UrlsService.UpdateUrl | src/urls/urls.service.ts:91-97 | absent or deleted id: NotFound, store unchanged; otherwise only that row's originalUrl changes |
| Urls.UrlsService.SoftDelete | src/urls/urls.service.ts:101 | affected is 1 and the row becomes deleted when it was active, otherwise 0 and nothing changes |
| Urls.UrlsService.DeleteUrl | src/urls/urls.service.ts:100-105 | NotFound when no row was affected; otherwise `{ ok: true }` and only that row is marked deleted |
| Urls.UrlsService.FindByShortCodeAndCount | src/urls/urls.service.ts:108-116 | unknown or deleted code: NotFound, nothing changes; otherwise returns the destination and adds exactly one click to that row only |
| Urls.ShortenThenRedirect | src/urls/urls.service.ts:63-116 | a new link has shortUrl = base + "/" + code, and resolving it returns the destination and leaves one click |
| Urls.DeleteThenUse | src/urls/urls.service.ts:91-116 | after a delete, a second delete, an update and a redirect of that link all fail with NotFound |
| Users.SaveKeepsEmailsUnique | src/users/users.service.ts:24-31 | saving a record keeps emails unique among active users when no other active user holds its email |
| Users.OnlyHolderOfOwnEmail | src/users/users.service.ts:72 | an active user is the only active holder of its own email |
| Users.UsersService.FindByEmail | src/users/users.service.ts:44-48 | returns a user exactly when an active user has the email; that user is stored, active, and the only one with that email |
| Users.UsersService.FindById | src/users/users.service.ts:51-61 | succeeds exactly for a stored active user and returns it; absent or deleted users are NotFound |
| Users.UsersService.Create | src/users/users.service.ts:24-41 | Conflict with the store unchanged when an active user has the email; otherwise adds exactly one active user storing `hash(password)`; emails stay unique among active users |
| Users.UsersService.Update | src/users/users.service.ts:64-84 | NotFound for absent or deleted users; Conflict only when a different active user has the new email; otherwise only the supplied fields change, the password hashed; emails stay unique among active users |
| Users.UsersService.Delete | src/users/users.service.ts:87-95 | sets the deletion date of an active user and changes no other user; NotFound otherwise |
| Users.KeepOwnEmail | src/users/users.service.ts:72-76 | updating a user with its own email succeeds and changes nothing |
| Users.DeleteThenUse | src/users/users.service.ts:87-95 | after a delete, lookups and a second delete fail with NotFound, and the email can be registered again |

## Left out

- Concurrency. Every operation runs alone. The model does not cover the non-atomic read-modify-write of `clicks` (src/urls/urls.service.ts:112-113). It does not cover two requests racing for the same code; there, the unique constraint settles it in the database. No claim about lost updates is made.
- Randomness, clocks, uuids and bcrypt are parameters. The hash is one fixed function, so bcrypt's per-call salt is not modelled. That the stored hash differs from the plaintext is not provable of an uninterpreted hash.
- The HTTP layer is not part of this model: controllers, DTO validation (`@IsUrl`, `@IsEmail`, `@MinLength`), guards, JWT handling and the 302 redirect.
- src/auth/, src/app.module.ts, src/urls/urls.module.ts and src/urls/repository/urls.repository.ts are not part of this model. `UrlsService` does not use the repository wrapper.
- The link entity declares no deletion-date column. A soft-deleted link is modelled as a `deleted` flag: `softDelete` affects 1 row for an active link, else 0. The check `result.affected === 0` is modelled as `affected == 0`; a driver that leaves `affected` undefined is not modelled.
- Deleting a user does not cascade to that user's links (`onDelete: 'CASCADE'`, src/urls/url.entity.ts:34-35). The database does that, and only on a physical delete.
- Urls.UrlsService.ListUserUrls: the database leaves the order of links with equal `createdAt` open. The model sorts them one fixed way and states only the non-increasing order.
- Users.DeleteThenUse: re-registering the email of a soft-deleted user succeeds only if the user table has no unique index on email. The user entity file is not part of this model, so the model assumes none and enforces uniqueness among active users only.
- The user entity file is not part of this model. A user is modelled with only the fields the service touches: id, email, password hash and deletion date.
