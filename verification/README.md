# URL shortener core, modelled in Dafny

This project models the core of a small Express/MongoDB URL shortener
(`server.js`). The service does two things:

- `GET /new/:url` gives a URL a short key. If the URL is already stored, it
  returns the existing record. Otherwise it reads the highest stored
  `sequence_id`, moves its counter `sequenceID` one past it, and inserts
  `{original_url, sequence_id}`. The response's `short_url` ends in the id
  written in base 36.
- `GET /:urlKey` decodes the key with `parseInt(key, 36)` and looks the id up.
  A match redirects to the stored URL. Anything else gets a 404.

Modules, leaves first:

- `Wrappers` holds `Option`. `None` stands for JavaScript's `NaN` and for a
  query that matched nothing.
- `Base36` is the key codec: `Encode` is `id.toString(36)` and `Decode` is
  `parseInt(key, 36)`. It holds the round-trip law in both directions.
- `RecordStore` holds the `urls` collection as a sequence of records, its two
  unique indexes, and the three queries the handlers run.
- `Allocator` is the allocation handler as a function `ShortenStep` on the
  state (collection plus counter). It holds the lemmas on invariants,
  freshness, idempotence and sequences of requests.
- `Resolver` is the redirect route as a function `Lookup`, with lemmas that
  connect it to `Shorten` and `Encode`.
- `Service` holds the class `Shortener`. Its fields are the collection and the
  counter that the handlers' closures share. Its methods `Shorten`, `Resolve`
  and `InsertOne` update them in place or read them, and each is proved
  against the functions above.

Sequence ids are unbounded naturals and keys are strings of characters.

## Model

| member | source | states |
|---|---|---|
| `Base36.DigitValue` | server.js:152 | A character is a base-36 digit exactly when it is `0-9`, `a-z` or `A-Z`. Its value is below 36. A lower-case digit is the rendering of its own value. |
| `Base36.DigitCharValue` | server.js:148 | Every digit value below 36 renders as a lower-case digit that reads back as that value. |
| `Base36.Encode` | server.js:148 | The key of any id is non-empty and uses only `0-9a-z`. It starts with `'0'` exactly when the id is 0, and the key of 0 is `"0"`. |
| `Base36.DecodeDigits` | server.js:152 | A non-empty string has a value exactly when all its characters are digits. That value is below 36^length. |
| `Base36.Decode` | server.js:152 | A key decodes to a number (not NaN) exactly when it is non-empty and every character is a base-36 digit of either case. The value is below 36^length. |
| `Base36.RoundTrip` | server.js:148-152 | Decoding the key of any id gives that id back. |
| `Base36.CanonicalRoundTrip` | server.js:148-152 | Take any string the encoder can produce: lower-case digits, and no leading zero unless the string is `"0"`. It decodes, and encoding its value gives the same string back. |
| `Base36.EncodeInjective` | server.js:148 | Different ids get different keys. |
| `Base36.EncodeAppendsLowDigit` | server.js:148 | Keys are written most significant digit first: the key of `q * 36 + d` is the key of `q` followed by the digit `d`. |
| `Base36.DigitOrder` | server.js:148-152 | Id 36 is encoded as "10", and "10" decodes to 36. |
| `Base36.DecodeIgnoresCase` | server.js:152 | Upper-casing the letters of a key does not change what it decodes to. |
| `RecordStore.FindByUrl` | server.js:115 | The URL query finds a record exactly when some stored record has that URL. The record it returns is stored and has that URL. |
| `RecordStore.FindById` | server.js:65 | The id query finds a record exactly when some stored record has that id. The record it returns is stored and has that id. |
| `RecordStore.MaxRecord` | server.js:37 | The highest-id query is empty exactly when the store is empty. Otherwise it returns a stored record whose id is at least every stored id. |
| `RecordStore.FindByUrlUnique` | server.js:18-22 | Under the unique index on `original_url`, the URL query returns the one record stored for that URL. |
| `RecordStore.FindByIdUnique` | server.js:18-22 | Under the unique index on `sequence_id`, the id query returns the one record stored with that id. |
| `Allocator.NextId` | server.js:37-42 | The next id is above every stored id. On a non-empty store it is exactly one more than a stored id, so it is max + 1. On an empty store the counter keeps its value. |
| `Allocator.ShortenStep` | server.js:32-58 | The returned record has the requested URL and is stored afterwards. For a URL already stored, the state does not change. For a new URL, exactly that record is appended and neither unique index rejects it. The counter becomes its id, and that id is above every earlier id. On an empty store the id is the counter's value. |
| `Allocator.NewIdIsMaxPlusOne` | server.js:37-42 | A new URL on a non-empty store gets (highest stored id) + 1. |
| `Allocator.ShortenPreservesValid` | server.js:18-48 | A request keeps both uniqueness constraints and keeps the counter at 0 while the store is empty. The first URL on an empty store gets id 0. |
| `Allocator.ShortenKeepsOrder` | server.js:37-48 | If ids increase with insertion order before a request, they still do after it. |
| `Allocator.ShortenIdempotent` | server.js:113-136 | Shortening a URL a second time returns the same record and leaves the store and the counter unchanged. This holds from every state, whether or not the indexes are unique. |
| `Allocator.ShortenAll` | server.js:32-58 | Over any sequence of requests, every earlier record stays in place. The store is append-only. |
| `Allocator.ShortenAllPreservesValid` | server.js:18-22 | Any sequence of requests keeps URLs unique and ids unique. |
| `Allocator.ShortenAllFresh` | server.js:37-48 | N distinct, previously unseen URLs append exactly N records, one per URL, in request order. |
| `Allocator.ShortenAllRepeated` | server.js:113-136 | Shortening the same URL any positive number of times leaves the state that a single request leaves. This holds from every state. |
| `Allocator.FirstTwoIds` | server.js:28-48 | On an empty store, two different URLs get ids 0 and 1, in request order. |
| `Resolver.Lookup` | server.js:62-82 | A key redirects exactly when it decodes and a stored record has the decoded id. The target is that record's URL. Otherwise the result is the 404. |
| `Resolver.ResolveStored` | server.js:65-74 | The key of every stored record redirects to that record's URL. |
| `Resolver.ShortenThenResolve` | server.js:45-74 | The key returned for a shortened URL redirects back to that URL. |
| `Resolver.FirstTwoResolve` | server.js:62-80 | After two URLs are shortened on an empty store, `"0"` and `"1"` redirect to them and `"zz"` is not found. |
| `Service.Shortener.constructor` | server.js:16-28 | The service starts over the collection as stored, whose indexes make it unique, with the counter at 0. |
| `Service.Shortener.InsertOne` | server.js:45-49 | An insert succeeds exactly when neither unique index already holds the new URL or id. On success it appends the document. On failure nothing changes. If both indexes were unique before the insert, they stay unique. |
| `Service.Shortener.Shorten` | server.js:32-58 | The in-place handler does exactly what `ShortenStep` does and keeps both indexes. Its insert never fails. The key it returns is the base-36 id, which redirects back to the URL. |
| `Service.Shortener.Resolve` | server.js:62-82 | The redirect route returns `Lookup`'s answer and changes nothing. |

## Left out

- HTTP plumbing is not modelled: Express routing, `next()` chaining, the Jade instructions page (server.js:86-88), and the JSON bodies built by `urlJSON` (server.js:139-144). The redirect and the 404 body are reduced to `Some(url)` and `None`.
- `idToUrl` puts the request's protocol and host before the key (server.js:148). Only the base-36 key is modelled.
- `validateURL` and the `valid-url` library's `isWebUri` (server.js:100-110) are a foreign check. `Shorten` accepts any string, which stands for a URL that passed it.
- The MongoDB connection, index creation and callbacks (server.js:12-25) are not modelled. The collection is an in-memory sequence that never fails. The `if (err) throw err` branches for store failures are therefore absent. The only insert error modelled is a unique-index violation, and `Shorten` is proved never to hit one.
- Concurrency is not modelled. Two requests that interleave between the duplicate check, the max read and the insert can make the insert throw. The model runs one request at a time. server.js has no retry loop and does not recover from a duplicate key, so the model has neither.
- Ids are naturals, so the `doc.sequence_id >= 0` guard (server.js:41) always holds and is not written out. A stored document with a missing or negative `sequence_id` is not modelled.
- `Base36.Decode`: stricter than `parseInt`. It does not skip leading whitespace, accept a sign, or stop at the first non-digit. For example, `parseInt("1z!", 36)` is 71, but the model gives `None`.
- JavaScript numbers are IEEE-754 doubles. Ids and decoded values above 2^53 lose precision in the source but not in the model.
- The database does not specify which match `find(...).limit(1)` returns, nor the order of equal keys under the descending sort. The model takes the first match in sequence order. Under the unique indexes at most one record matches, so the choice makes no difference.
