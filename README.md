# URL shortener: a verified model of the short-code service and its store

The modelled system maps long URLs to random six-character codes and resolves
codes back. This Dafny project models its core:

- **Mappings** (`mappings.dfy`): the `UrlMapping` entity (id, short code,
  original URL, creation time), its immutable `copy`, and the unique
  constraint on the short code as predicates over the table's rows.
- **Repository** (`repository.dfy`): the `url_mappings` table as a class.
  It holds the rows by id and the unique index on `short_url`. It offers
  `save`, `findByShortUrl`, `existsByShortUrl`, `delete` and `deleteAll`.
- **Validation** (`validation.dfy`): the three rules on the request's
  `originalUrl`. These are not blank, the `https?://label.tld…` pattern and
  at most 2048 characters. The validator reports the set of broken rules.
- **Service** (`service.dfy`): code generation over the 62-character
  alphabet, the retry loop that asks the store until a code is free,
  `shortenUrl` and `getOriginalUrl`.

Modelling choices:

- Randomness is a parameter. One code's random source is a `Draw`, the
  alphabet position picked for each character position. The retry loop
  takes a finite sequence of them.
- `UUID.randomUUID()` and `LocalDateTime.now()` are given values.
- `save` writes by id: it inserts, or it replaces the row with the same id.
  The unique index refuses a write that would give a code to a second row.
  `delete` removes by id and does nothing when no such row exists.
- `findByShortUrl` is declared with a non-null result type. The service and
  the repository tests treat a missing code as `null`, so the model returns
  an `Option`.
- The blank rule follows Java's `String.trim()`: a value is blank when every
  character is at most U+0020.
- The size rule counts UTF-16 code units, as `String.length()` does.
- The pattern is matched against the whole value. Java's `.` does not match a
  line terminator (`\n`, `\r`, U+0085, U+2028, U+2029), so a value containing
  one never matches.

On three points the code's behaviour is easy to misread; the model follows the code:

- A collision is caught only by the existence check before the write. If
  `save` is refused by the unique index it is not retried; the refusal
  reaches the caller.
- A missing code makes `getOriginalUrl` throw `NoSuchElementException`,
  modelled as `Err(NoSuchElement(message))` with the source's message.
- The repository supports update and delete, which the tests use.

## Model

| member | source | states |
|---|---|---|
| Mappings.WithOriginalUrl | src/main/kotlin/no/zachen/urlshortener/model/UrlMapping.kt:12-22 | `copy(originalUrl = u)` keeps id, code and creation time and changes only the URL; the copy equals the original exactly when the URL is the same |
| Mappings.ResolvesFunctional | src/main/kotlin/no/zachen/urlshortener/model/UrlMapping.kt:8-18 | under the unique constraint on `shortUrl` a code resolves to at most one original URL |
| Mappings.WritePreservesTable | src/main/kotlin/no/zachen/urlshortener/model/UrlMapping.kt:8-18 | writing a mapping whose code no other row holds keeps every row under its own id, keeps codes unique, makes the code resolve to its URL and leaves rows under other ids unchanged |
| Mappings.WriteKeepsOtherCodes | src/test/kotlin/no/zachen/urlshortener/integration/repository/UrlMappingRepositoryIntegrationTest.kt:88-104 | saving a mapping does not disturb a code that already resolves, unless the write replaces that code's own row |
| Mappings.RemovalFreesCode | src/test/kotlin/no/zachen/urlshortener/integration/repository/UrlMappingRepositoryIntegrationTest.kt:59-62 | removing a row leaves its code held by no row |
| Repository.UrlMappingRepository.Valid | src/main/kotlin/no/zachen/urlshortener/model/UrlMapping.kt:10-17 | the unique index lists exactly the codes of the rows; a valid table is well keyed and no two rows share a code |
| Repository.UrlMappingRepository.Save | src/main/kotlin/no/zachen/urlshortener/repository/UrlMappingRepository.kt:9 | `save` is refused with a unique violation, changing nothing, exactly when a row under another id holds the code; otherwise the row with that id becomes the mapping and the saved value is returned |
| Repository.UrlMappingRepository.FindByShortUrl | src/main/kotlin/no/zachen/urlshortener/repository/UrlMappingRepository.kt:10 | returns some mapping iff a row holds the code, and then it is that stored row with that code |
| Repository.UrlMappingRepository.ExistsByShortUrl | src/main/kotlin/no/zachen/urlshortener/repository/UrlMappingRepository.kt:12 | true iff some stored row has that code |
| Repository.UrlMappingRepository.Delete | src/test/kotlin/no/zachen/urlshortener/integration/repository/UrlMappingRepositoryIntegrationTest.kt:59-62 | removes exactly the row with the mapping's id; afterwards no row holds its code |
| Repository.UrlMappingRepository.DeleteAll | src/test/kotlin/no/zachen/urlshortener/integration/repository/UrlMappingRepositoryIntegrationTest.kt:23-33 | empties the table, so no code exists afterwards |
| Repository.CrudRoundTrip | src/test/kotlin/no/zachen/urlshortener/integration/repository/UrlMappingRepositoryIntegrationTest.kt:35-63 | on an empty store: find after save returns the saved mapping, find after saving a copy with a new URL returns the copy under the same id and code, find after delete returns none, and the store ends empty |
| Repository.MultipleRecords | src/test/kotlin/no/zachen/urlshortener/integration/repository/UrlMappingRepositoryIntegrationTest.kt:88-104 | two mappings saved under different ids and codes both resolve to their own URLs |
| Validation.Utf16Length | src/main/kotlin/no/zachen/urlshortener/dto/ShortenUrlRequest.kt:13 | the length the size rule measures lies between the number of characters and twice that number |
| Validation.BmpLength | src/main/kotlin/no/zachen/urlshortener/dto/ShortenUrlRequest.kt:13 | for text in the Basic Multilingual Plane the measured length is the number of characters |
| Validation.SchemeLength | src/main/kotlin/no/zachen/urlshortener/dto/ShortenUrlRequest.kt:10 | 8 when the value starts with `https://`, 7 when it starts with `http://`, 0 when it starts with neither |
| Validation.LabelEnd | src/main/kotlin/no/zachen/urlshortener/dto/ShortenUrlRequest.kt:10 | the end of the longest run of `[a-zA-Z0-9-]` from a position: every character before it is in the class, the one at it is not |
| Validation.LabelEndAt | src/main/kotlin/no/zachen/urlshortener/dto/ShortenUrlRequest.kt:10 | any index that closes a run of label characters is that run's end |
| Validation.MessageInjective | src/main/kotlin/no/zachen/urlshortener/dto/ShortenUrlRequest.kt:8-13 | the three rules carry three different messages, so a message names its rule |
| Validation.MessageCount | src/test/kotlin/no/zachen/urlshortener/unit/validation/ShortenUrlRequestTest.kt:42-46 | a set of violations reports exactly as many distinct messages as it has violations |
| Validation.TrimStart | src/main/kotlin/no/zachen/urlshortener/dto/ShortenUrlRequest.kt:8 | like the front half of `String.trim()`: removes exactly a leading run of characters up to U+0020 and leaves a result that is empty or starts above U+0020 |
| Validation.TrimEnd | src/main/kotlin/no/zachen/urlshortener/dto/ShortenUrlRequest.kt:8 | like the back half of `String.trim()`: removes exactly a trailing run of characters up to U+0020 and leaves a result that is empty or ends above U+0020 |
| Validation.BlankIffTrimsToEmpty | src/main/kotlin/no/zachen/urlshortener/dto/ShortenUrlRequest.kt:8 | `IsBlank`, the not-blank rule's failure, holds exactly when the trimmed value is empty (both directions) |
| Validation.MatchesPatternIsRegexLanguage | src/main/kotlin/no/zachen/urlshortener/dto/ShortenUrlRequest.kt:9-12 | `MatchesPattern`, the pattern rule checked on a whole value, accepts a value iff it splits into `https?://`, a non-empty run of `[a-zA-Z0-9-]`, a dot, two letters and a tail without line terminators (both directions) |
| Validation.BlankNeverMatches | src/main/kotlin/no/zachen/urlshortener/dto/ShortenUrlRequest.kt:8-12 | a blank value never has the URL shape |
| Validation.Violations | src/main/kotlin/no/zachen/urlshortener/dto/ShortenUrlRequest.kt:7-14 | a blank value is always also reported malformed; a well-shaped value can break at most the size rule; a value of at most 1024 characters never breaks the size rule |
| Validation.SizeRuleOnBmp | src/main/kotlin/no/zachen/urlshortener/dto/ShortenUrlRequest.kt:13 | for Basic Multilingual Plane text the size rule fails iff the value is longer than 2048 characters |
| Validation.BlankGivesTwoViolations | src/test/kotlin/no/zachen/urlshortener/unit/validation/ShortenUrlRequestTest.kt:33-47 | a blank value within the size limit breaks exactly the blank and the format rules |
| Validation.WellShapedUrlIsValid | src/main/kotlin/no/zachen/urlshortener/dto/ShortenUrlRequest.kt:8-13 | a well-shaped value within the size limit breaks no rule |
| Validation.MalformedUrlGivesOneViolation | src/main/kotlin/no/zachen/urlshortener/dto/ShortenUrlRequest.kt:8-13 | a non-blank value without the URL shape, within the size limit, breaks only the format rule |
| Validation.OverlongWellShapedUrlGivesOneViolation | src/main/kotlin/no/zachen/urlshortener/dto/ShortenUrlRequest.kt:8-13 | a well-shaped value over 2048 UTF-16 units breaks only the size rule |
| Validation.ValidUrlHasNoViolations | src/test/kotlin/no/zachen/urlshortener/unit/validation/ShortenUrlRequestTest.kt:21-31 | "https://example.com/path" breaks no rule |
| Validation.SpacesGiveTwoViolations | src/test/kotlin/no/zachen/urlshortener/unit/validation/ShortenUrlRequestTest.kt:33-47 | "   " breaks exactly the blank and the format rules, two violations, reported as "URL cannot be blank" and "Invalid URL format" |
| Validation.MalformedUrlGivesFormatViolation | src/test/kotlin/no/zachen/urlshortener/unit/validation/ShortenUrlRequestTest.kt:49-60 | "invalid-url" breaks only the format rule, reported as "Invalid URL format" |
| Validation.OverlongUrlGivesSizeViolation | src/test/kotlin/no/zachen/urlshortener/unit/validation/ShortenUrlRequestTest.kt:62-75 | "https://" + 2049 letters a + ".com" breaks only the size rule, reported as "URL length must not exceed 2048 characters" |
| Service.AlphabetLayout | src/main/kotlin/no/zachen/urlshortener/service/UrlShortenerService.kt:49 | the alphabet has 62 characters: a-z, then A-Z, then 0-9, each in ascending order |
| Service.AlphabetIsAsciiAlphanumeric | src/main/kotlin/no/zachen/urlshortener/service/UrlShortenerService.kt:49 | a character is in the alphabet iff it is an ASCII letter or digit, and no character occurs twice |
| Service.IndexOf | src/main/kotlin/no/zachen/urlshortener/service/UrlShortenerService.kt:49 | every ASCII letter or digit has a position in the alphabet |
| Service.GenerateShortUrl | src/main/kotlin/no/zachen/urlshortener/service/UrlShortenerService.kt:48-54 | the code has exactly `shortUrlLength` characters (none for a length of zero or less), each an ASCII letter or digit |
| Service.EveryAlphanumericCodeIsPossible | src/main/kotlin/no/zachen/urlshortener/service/UrlShortenerService.kt:48-54 | every alphanumeric string is the code of some random source, at its own length |
| Service.CodeDeterminesDraws | src/main/kotlin/no/zachen/urlshortener/service/UrlShortenerService.kt:48-54 | two random sources give the same code iff they pick the same alphabet position at every character position |
| Service.Candidates | src/main/kotlin/no/zachen/urlshortener/service/UrlShortenerService.kt:57-58 | the loop's candidates, one per random source, in order; each is six characters long and every character is an ASCII letter or digit |
| Service.FreeOrExhausted | src/main/kotlin/no/zachen/urlshortener/service/UrlShortenerService.kt:56-66 | either the table holds every candidate, or there is exactly one first free candidate |
| Service.UrlShortenerService.GenerateUniqueShortUrl | src/main/kotlin/no/zachen/urlshortener/service/UrlShortenerService.kt:56-66 | returns the first candidate the store does not hold and, as `tried`, its position counted from one, which is the number of loop rounds, each making one existence check; it is six alphanumeric characters; it returns exhausted only when the store holds every candidate; it only reads the store |
| Service.UrlShortenerService.ShortenUrl | src/main/kotlin/no/zachen/urlshortener/service/UrlShortenerService.kt:24-38 | saves and returns a mapping of the given URL, id and time under the first free candidate, a code absent before; the table gains exactly that row, every earlier row is kept unchanged, and the code resolves to the URL; with no free candidate the table is unchanged |
| Service.UrlShortenerService.GetOriginalUrl | src/main/kotlin/no/zachen/urlshortener/service/UrlShortenerService.kt:40-46 | succeeds iff a row holds the code, with that row's URL; otherwise fails with NoSuchElementException and the source's message; the store is only read |
| Service.RetryUntilUnique | src/test/kotlin/no/zachen/urlshortener/UrlShortenerApplicationTests.kt:61-88 | when the first candidate exists and the second does not, the second is returned, with `tried` equal to two |
| Service.ShortenThenResolve | src/test/kotlin/no/zachen/urlshortener/unit/service/UrlShortenerServiceTest.kt:17-41 | resolving the code of a successful shortening gives back the original URL; a failed shortening is reported as it came |
| Service.ShortenTwice | src/main/kotlin/no/zachen/urlshortener/model/UrlMapping.kt:19-20 | shortening one URL twice gives two different codes that both resolve to it: the original URL is not unique |

## Left out

- Concurrency: the check-then-save race between writers, coroutine dispatch (`suspend`, `withContext(Dispatchers.IO)`). Calls are sequential.
- Service.UrlShortenerService.GenerateUniqueShortUrl: the source loop never stops while codes collide. The model tries a finite sequence of random sources and reports `Exhausted` when all are taken; that outcome stands for the loop still running.
- Service.UrlShortenerService.ShortenUrl: refuses with `CodesExhausted` when the finite random source runs out, for the same reason.
- Service.UrlShortenerService.ShortenUrl: requires an id no row has yet, because the entity's id is a fresh `UUID.randomUUID()` (UrlMapping.kt line 15); the collision of two random UUIDs is not modelled. `Service.ShortenThenResolve` and `Service.ShortenTwice` carry the same requirement.
- The distribution of `characters.random()`: probabilistic. Any choice of alphabet positions is allowed.
- `UUID.randomUUID()`, `LocalDateTime.now()` and Hibernate's id generation: foreign calls. The id and the creation time are parameters.
- The `@Cacheable("shortUrls")` cache on `getOriginalUrl`: a library cache. The lookup reads the store every time.
- All logging.
- The HTTP controller, the redirect, the exception handler, configuration, container setup and the build: plumbing outside the core.
- The Jakarta validator and the regex engine themselves: the rules are hand-written predicates. Null values do not arise, because Kotlin's types here are non-null.
- JpaRepository operations the service and the tests do not use (`findById`, `count`, batch writes).
- The retry test mocks the generator to return "foobar" and then "uniqueUrl". The model's generator yields only six alphanumeric characters, so `Service.RetryUntilUnique` states the same scenario for any two generated codes.
