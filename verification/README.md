# lnk link registry — a Dafny model

This project models the in-memory link registry of `lnk`, a URL shortener.
The registry maps short identifiers (slugs) to target URLs and counts visits
per slug, in total and per calendar day. A slug is either given by the caller
or drawn from a pluggable slug generator. A generated slug is checked against
the stored keys and redrawn a bounded number of times.

The model is functional. The store is an immutable `map<string, Link>`, and
every operation is a pure function from the old map to the new one. This
matches the source, where each operation runs as one step under the store's
lock. A generator is the stream of answers to its successive `Random()` calls
(`Slug.Generator = nat -> Generated`). That covers the UUID-based default
generator, fed a stream of UUID draws, as well as the fixed `test` generator
used by the store's tests.

Modules:

- `Wrappers`: `Option` and `Result`, standing for Go's nil values and `(T, error)` pairs.
- `Models`: the `Link` record, the histogram sum `Total` and its update lemmas.
- `Slug`: lower-case hex text, the canonical UUID text form, `UuidRandom` and the slug-space lemmas.
- `Memory`: the store operations, the retry loop `Genslug` and the store invariant `Valid`.
- `Translation`: `DbLinkToProto`, which flattens the histogram into a list of daily entries.
- `MemoryTest`: the behaviours of the store's tests, stated for all inputs.

The source behaves in two ways that look odd. The model keeps both:

- A create with an explicit, non-empty slug writes the record without checking the key. An existing record under that slug is replaced, and its visit counts are lost (`Memory.ExplicitCreateOverwrites`).
- The retry loop starts its counter at 0 and stops once the counter exceeds `maxrecursion` (5). It can therefore make six generator calls, while its error message says five attempts. The model's error value `CouldNotGenerate(5)` carries the number from the message, and the `calls` field of the result counts the six calls (`Memory.GenslugExhaustedIff`, `MemoryTest.SlugGenRecursion`).

## Model

| member | source | states |
|---|---|---|
| `Models.TotalRemove` | internal/storage/models.go:3-8 | The sum of a histogram is any one day's count plus the sum of the other days, whichever day is taken out first. |
| `Models.TotalUpdate` | internal/storage/memory.go:126-127 | Setting one day's count changes the histogram sum by exactly the change in that count. An absent day counts as zero, as in Go's map read. |
| `Slug.Hex` | internal/storage/slug.go:17 | The hex text of a byte string is two lower-case hex digits per byte. |
| `Slug.UnhexHex` | internal/storage/slug.go:17 | Reading hex text back as bytes recovers the bytes. |
| `Slug.HexUnhex` | internal/storage/slug.go:17 | An even-length lower-case hex text is the hex text of the bytes it reads as. |
| `Slug.UuidString` | internal/storage/slug.go:17 | The UUID text is 36 characters long, with hyphens at positions 8, 13, 18 and 23, and starts with the hex text of time_low. |
| `Slug.UuidRandom` | internal/storage/slug.go:11-18 | A failed UUID draw gives the empty slug together with that error. A successful draw gives no error and exactly 6 hex characters, which form a prefix of the UUID text. The default generator that the store installs when none is given (`Slug.UuidGenerator`) answers its i-th call with `UuidRandom` of the i-th draw. |
| `Slug.SlugIsTimeLowPrefix` | internal/storage/slug.go:17 | A generated slug is the hex text of the first three bytes of the UUID, which belong to time_low. |
| `Slug.SlugDeterminesPrefix` | internal/storage/slug.go:17 | Reading the slug back as hex gives the UUID's first three bytes, so different prefixes give different slugs. |
| `Slug.EverySlugReachable` | internal/storage/slug.go:17 | Every 6-digit lower-case hex text is the slug of some UUID. With the lemma above, slugs correspond one to one with the 3-byte prefixes of a UUID, that is, with the 6-digit lower-case hex texts. |
| `Memory.NewLink` | internal/storage/memory.go:56-60 | A new record has the slug and target as given, zero hits and an empty histogram. It satisfies the hits-equals-sum invariant. |
| `Memory.Put` | internal/storage/memory.go:56-60 | Storing under a slug adds that key and leaves every other record alone. The store grows by one for a new key and keeps its size for a taken one. The store invariant is preserved. |
| `Memory.GenslugFrom` | internal/storage/memory.go:134-158 | From counter value i: every call except the last named a taken slug. Success returns the free slug the last call named. Otherwise the loop either exhausted the counter with all calls colliding, or the last call's error is passed on. |
| `Memory.Genslug` | internal/storage/memory.go:134-158 | Makes 1 to 6 generator calls, and every call but the last collides. It succeeds exactly when the last call gave no error and named a slug not in the store, and returns that slug. A failure is either the generator's own error or exhaustion after six calls. |
| `Memory.GenslugExhaustedIff` | internal/storage/memory.go:137-141 | The loop gives up exactly when all six candidates are taken. It has then made 6 calls, while the error quotes 5 attempts. |
| `Memory.CreateLink` | internal/storage/memory.go:44-63 | A non-empty explicit slug is used verbatim without calling the generator. A nil or empty slug gives exactly the outcome and call count of the retry loop: the first free slug the generator names, or the loop's error, after 1 to 6 calls. On success the slug maps to a fresh record with the target verbatim, and no other record changes. A generated slug was never a key, so the store grows by exactly one. Failures come only from generation and leave the store unchanged. The store invariant is preserved. |
| `Memory.ExplicitCreateOverwrites` | internal/storage/memory.go:48-60 | An explicit slug that is already taken replaces the stored record: the store keeps its size and the record restarts with zero hits and the new target. |
| `Memory.GeneratedSlugsDistinct` | internal/storage/memory.go:44-63 | Two successful generated creates, one after the other, return different slugs, and both records are then stored. |
| `Memory.CreateGetDeleteGet` | internal/storage/memory_test.go:11-37 | After a successful create, get and get-target return the new record and its target. After the delete, both return their not-found errors. |
| `Memory.GetLink` | internal/storage/memory.go:66-77 | Succeeds exactly when the slug is a key and returns the stored record. Otherwise the error names the slug. In a valid store the record carries that slug and is consistent. |
| `Memory.GetTarget` | internal/storage/memory.go:104-114 | Succeeds exactly when the slug is a key and returns the stored target. Otherwise the error names the slug. |
| `Memory.GetTargetAgreesWithGetLink` | internal/storage/memory.go:104-114 | Get-target succeeds exactly when get-link does, and returns the target of the record get-link returns. |
| `Memory.DeleteLink` | internal/storage/memory.go:80-87 | Always returns no error. Removes exactly that key and leaves every other record as it was. An absent slug leaves the store unchanged. The store invariant is preserved. |
| `Memory.DeleteIdempotent` | internal/storage/memory.go:80-87 | Deleting twice gives the same store as deleting once. |
| `Memory.AllLinks` | internal/storage/memory.go:90-100 | Returns as many records as the store has keys. Every returned record is a stored one, and every stored record is returned. In a valid store no slug appears twice. |
| `Memory.Hit` | internal/storage/memory.go:125-128 | One visit raises the total and the given day's count by one. Slug, target and the other days are unchanged. |
| `Memory.HitKeepsConsistent` | internal/storage/memory.go:126-127 | A visit keeps the total equal to the sum of the daily counts. |
| `Memory.HitCommutes` | internal/storage/memory.go:125-128 | Two visits to a record give the same record in either order. |
| `Memory.RegisterHit` | internal/storage/memory.go:118-129 | On a stored slug, applies one visit to that record only and keeps it consistent. On an absent slug, changes nothing and creates no record. The store invariant is preserved. |
| `Memory.RegisterHitCommutes` | internal/storage/memory.go:118-129 | Two hits on a store give the same store in either order, so the order in which the lock serialises them does not matter. |
| `Memory.RegisterHits` | internal/storage/memory.go:118-129 | A run of hits keeps the key set and the store invariant. |
| `Memory.RegisterHitsCount` | internal/storage/memory.go:118-129 | N hits on a stored slug raise its total by exactly N and keep it equal to the histogram sum. Other records are unchanged. |
| `Translation.DbLinkToProto` | internal/translation/links.go:9-21 | Slug, target and hits are copied unchanged. There is one entry per histogram day, and its count is that day's count. Dates are pairwise distinct and their set is the histogram's key set. The entry counts sum to the histogram sum, which equals hits for a consistent record. |
| `MemoryTest.Roundtrip` | internal/storage/memory_test.go:11-37 | Starting from an empty store with the default generator: create returns a 6-character slug, the listing has one record with the target, get finds it, the listing after delete is empty, and get-target fails. |
| `MemoryTest.HitRegistering` | internal/storage/memory_test.go:39-57 | After a create and two hits on any days, the record keeps its target, counts 2 hits and is consistent. |
| `MemoryTest.SlugGenRecursion` | internal/storage/memory_test.go:65-79 | With the test generator the first create returns `test` after one call. The second fails with the five-attempt error after six calls and leaves the store unchanged. |

## Left out

- Locking (`sync.RWMutex`): each operation is modelled as one atomic step. Concurrent callers appear only as a sequence of such steps (`RegisterHitCommutes`, `GeneratedSlugsDistinct`).
- The clock and date formatting in `RegisterHit`: the day bucket is a parameter.
- The random source: `uuid.NewRandom` is an input, a `UuidDraw` that is either 16 bytes or an error. The version and variant bits it sets lie outside the first three bytes and are not modelled. `id.String()` is modelled by `Slug.UuidString` after the canonical layout in section 3 of RFC 4122.
- Aliasing: `GetLink` and `AllLinks` return references (`*Link`) to the live records, so a caller could mutate stored records. The model returns values.
- Counter width: hits and daily counts are unbounded naturals. The `uint64` wrap-around after 2^64 visits is not modelled.
- Error text: errors are datatype values carrying the slug, the cause or the attempt count, not formatted strings. The `%w` wrapping of the generator's error is its `GeneratorError(cause)` constructor.
- Store construction (`NewMemoryStorage`, `WithSlugGenerator`): the generator is passed to `CreateLink` directly, and an empty store is `map[]`.
- Map iteration order in `AllLinks` and `DbLinkToProto`: left open, since each loop round picks any key not yet visited.
- `MemoryTest.Roundtrip`, `MemoryTest.HitRegistering`: the first UUID draw is required to succeed. The store's tests also require that create does not fail, and a create on an empty store fails only when the generator errors.
