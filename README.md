# Greenlight core in Dafny

A model of the decision and validation logic of the Greenlight movie API (Go): the
request validator, the pagination and sorting filters, the `"<n> mins"` runtime codec,
authentication tokens with their base 32 plaintext, movie validation with the
optimistically locked movies table, the request middleware (rate limiting, bearer-token
authentication, the permission guards, CORS, the status-recording response writer),
and the query-string readers.

One Dafny module per Go file of the core, plus small modules for the parts of Go's
standard library the core leans on:

| file | module | models |
|---|---|---|
| `validator.dfy` | `Validation` | `internal/validator/validator.go` |
| `filters.dfy` | `Filters` | `internal/data/filters.go` |
| `runtime.dfy` | `RuntimeJson` | `internal/data/runtime.go` |
| `tokens.dfy` | `Tokens` | `internal/data/tokens.go` |
| `movies.dfy` | `Movies` | `internal/data/movies.go` |
| `middleware.dfy` | `Middleware` | `cmd/api/middleware.go` |
| `helpers.dfy` | `Helpers` | `cmd/api/helpers.go` (the four readers) |
| `base32.dfy` | `Base32` | `encoding/base32`, RFC 4648 section 6 alphabet, no padding |
| `strconv.dfy` | `Strconv` | `strconv.ParseInt`/`Atoi`, `%d`, `Quote`/`Unquote` on plain text, `int32`/`int64` |
| `strings.dfy` | `Strings` | `strings.Split`, `TrimPrefix`, `HasPrefix`, UTF-8 byte length |
| `wrappers.dfy` | `Wrappers` | `Option` and `Result` |

How the model is built:

- The validator is a class whose `errors` map `AddError` and `Check` update in place.
  Each validation function of the source is a method making the same `Check` calls in
  the same order, proved equal to `Apply(old errors, rules)`, where `rules` lists those
  checks as data. Lemmas then say, per field, when a message appears and which one
  (the first failing check's, because the first message for a key wins).
- State the source changes in place is a class: `Validator`, `Runtime` (the receiver of
  `UnmarshalJSON`), `Movie` (the struct `Insert`/`Update` write back into), the tables
  `MovieModel` and `TokenModel`, the rate limiter registry and the metrics response
  writer. Pure decisions (authentication, guards, sort direction, offset, metadata,
  the readers other than `readInt`) are functions.
- Times are integers in nanoseconds. The clock, the random source, SHA-256, the rate
  library's `Allow()`, the client IP, the user lookup by token and the permission lookup
  are parameters.
- Where the documented behaviour and the code differ, the model follows the code:
  the token length rule counts bytes (`len`), not characters; a malformed header, a
  token failing validation and a token with no matching user all get the same
  invalid-token response, while any other lookup error becomes a server error;
  `Delete` rejects ids below 1 before touching the table.

## Model

| member | source | states |
|---|---|---|
| Validation.Validator.constructor | internal/validator/validator.go:13-15 | a new validator holds no errors |
| Validation.Validator.Valid | internal/validator/validator.go:17-19 | true exactly when the error map is empty |
| Validation.Added | internal/validator/validator.go:22-26 | the key set gains `key`; an existing message for `key` is kept, otherwise `msg` is stored; every other entry is unchanged |
| Validation.Validator.AddError | internal/validator/validator.go:22-26 | the new error map is `Added(old errors, key, msg)` |
| Validation.Validator.Check | internal/validator/validator.go:29-33 | a passing check changes nothing; a failing one acts as `AddError` |
| Validation.FirstFailure | internal/validator/validator.go:29-33 | some check on `key` fails exactly when the result is present, and then it is the message of the earliest failing check on `key` |
| Validation.ApplyRules | internal/validator/validator.go:22-33 | after a run of checks, a key with a message keeps it; a key without one has a message exactly when one of its checks failed, and it is the first failing check's |
| Validation.ApplyKeeps | internal/validator/validator.go:22-33 | errors only accumulate: no key or message is lost, and an invalid validator stays invalid |
| Validation.ApplyConcat | internal/validator/validator.go:29-33 | running two batches of checks one after the other is running their concatenation |
| Validation.PermittedValue | internal/validator/validator.go:36-43 | true exactly when the value occurs in the list (so false for an empty list) |
| Validation.DistinctCount | internal/validator/validator.go:51-59 | a list has at most as many distinct values as entries, with equality exactly when it has no duplicates |
| Validation.Unique | internal/validator/validator.go:51-59 | true exactly when no two positions of the list hold equal values |
| Filters.CheckPage | internal/data/filters.go:26-27 | the two page checks, in order |
| Filters.CheckPageSize | internal/data/filters.go:28-29 | the two page-size checks, in order |
| Filters.ValidateFilters | internal/data/filters.go:24-33 | the validator ends as the five checks, applied in source order, leave it |
| Filters.PageMessage | internal/data/filters.go:26-27 | a page message exists exactly when the page is outside 1..10,000,000 |
| Filters.PageSizeMessage | internal/data/filters.go:28-29 | a page-size message exists exactly when the size is outside 1..100 |
| Filters.SortMessage | internal/data/filters.go:32 | a sort message exists exactly when the sort key is not in the safelist |
| Filters.FilterFailure | internal/data/filters.go:24-33 | the first failure for "page", "page_size" and "sort" is that parameter's own message; other keys have none |
| Filters.FilterErrors | internal/data/filters.go:24-33 | validation records "page", "page_size" or "sort" exactly when that parameter is invalid, with its first failing message; old messages and all other keys are untouched |
| Filters.ValidFiltersInRange | internal/data/filters.go:24-33 | filters that leave a new validator valid have page in 1..10,000,000, size in 1..100 and a safelisted sort key |
| Filters.SortColumn | internal/data/filters.go:37-46 | for a safelisted sort key, the key without one leading "-" (the source panics otherwise) |
| Filters.SortDirection | internal/data/filters.go:49-55 | "DESC" exactly when the sort key starts with "-", else "ASC" |
| Filters.Limit | internal/data/filters.go:57-60 | for validated filters the limit lies in 1..100 |
| Filters.Offset | internal/data/filters.go:62-67 | for validated filters the 64-bit product does not wrap: it is `(page-1)*pageSize`, non-negative and below 2^31 |
| Filters.CalculateMetadata | internal/data/filters.go:71-83 | all zeros when there are no records; otherwise current page, size, first page 1, the total, and the least last page whose pages hold all records |
| Filters.CeilDiv | internal/data/filters.go:80 | the least `q` with `q*b >= a` |
| Strings.Split | internal/data/runtime.go:30 | one more part than separators, and no part holds the separator |
| Strings.JoinSplit | cmd/api/helpers.go:135 | joining the parts of a split gives back the text |
| Strings.SplitJoin | cmd/api/middleware.go:127 | splitting a join of separator-free parts gives back the parts |
| Strings.HasPrefix | internal/data/filters.go:50 | true exactly when the text is the character followed by some rest |
| Strings.TrimPrefix | internal/data/filters.go:40 | removes exactly one leading character when present, else changes nothing |
| Strings.Utf8Len | internal/data/tokens.go:57 | byte length is at least the character count and is zero only for the empty string |
| Strings.AsciiUtf8Len | internal/data/tokens.go:57 | for ASCII text the byte length is the character count |
| Strconv.Wrap64 | internal/data/filters.go:65 | the 64-bit wrapped value agrees with the exact one modulo 2^64, and equals it when in range |
| Strconv.FormatNat | internal/data/runtime.go:15 | non-empty decimal digits denoting the number |
| Strconv.FormatInt | internal/data/runtime.go:15 | non-empty; for a non-negative number its decimal digits, for a negative one "-" followed by the digits of its magnitude |
| Strconv.ParseInt | internal/data/runtime.go:38 | any accepted value lies within the signed range of the bit size, and accepted text is non-empty, all digits but for an optional leading sign |
| Strconv.ParseFormat | internal/data/runtime.go:15-41 | parsing what `%d` printed gives back every in-range number |
| Strconv.Atoi | cmd/api/helpers.go:149 | accepts exactly what 64-bit `ParseInt` accepts |
| Strconv.Unquote | internal/data/runtime.go:25 | an accepted literal is the text between two double quotes |
| Strconv.Quote | internal/data/runtime.go:17 | two characters longer than the text, and unquoting it gives the text back |
| RuntimeJson.TextPrintable | internal/data/runtime.go:15 | "<n> mins" needs no escapes when quoted |
| RuntimeJson.MarshalJSON | internal/data/runtime.go:14-19 | never fails and yields a quoted literal whose text is "<r> mins" |
| RuntimeJson.ParseRuntime | internal/data/runtime.go:23-47 | a non-literal is rejected; accepted input is a quoted "<n> mins" with `n` a base-10 int32 that is the result |
| RuntimeJson.ParseRuntimeAccepts | internal/data/runtime.go:23-47 | conversely, every quoted "<n> mins" with `n` a base-10 int32 (leading zeros and "+" included) is accepted with that value |
| RuntimeJson.RoundTrip | internal/data/runtime.go:14-47 | decoding the encoding of any int32 runtime gives it back |
| RuntimeJson.Runtime.UnmarshalJSON | internal/data/runtime.go:23-47 | succeeds exactly on well-formed input and stores the parsed value; on every error returns `InvalidRuntimeFormat` and leaves the receiver unchanged |
| Base32.EncodeChar | internal/data/tokens.go:45 | maps 0..31 onto A-Z2-7, and the decoder inverts it |
| Base32.EncodeBits | internal/data/tokens.go:45 | one alphabet character per started group of 5 bits |
| Base32.EncodeToString | internal/data/tokens.go:45 | `ceil(8n/5)` characters, all from A-Z2-7 |
| Base32.FromToBits | internal/data/tokens.go:45 | reading back the bits of a number gives the number |
| Base32.ToFromBits | internal/data/tokens.go:45 | writing out the number a bit string denotes gives back the bits |
| Base32.DecodeEncodeBits | internal/data/tokens.go:45 | decoding the characters gives back the bits plus the zero fill |
| Base32.BitsToBytesOfBits | internal/data/tokens.go:45 | regrouping a byte stream with under 8 extra bits into bytes gives back the bytes |
| Base32.DecodeEncode | internal/data/tokens.go:45 | decoding an encoding gives back the bytes |
| Base32.EncodeInjective | internal/data/tokens.go:45 | distinct byte strings have distinct encodings |
| Base32.SixteenBytes | internal/data/tokens.go:34-45 | 16 bytes encode to 26 characters |
| Tokens.ValidateTokenPlaintext | internal/data/tokens.go:55-58 | the validator ends as the two token checks, in order, leave it |
| Tokens.TokenErrors | internal/data/tokens.go:55-58 | a "token" error appears exactly when the plaintext is empty or not 26 bytes; "must be provided" for the empty string; no other key changes |
| Tokens.Base32Bytes | internal/data/tokens.go:57 | base 32 text has as many bytes as characters |
| Tokens.GenerateToken | internal/data/tokens.go:27-53 | fails exactly when the random read fails; else the plaintext is the 26-character base 32 encoding of the 16 random bytes, the hash is SHA-256 of it, user id and scope are copied and expiry is now + ttl |
| Tokens.GeneratedPlaintextValid | internal/data/tokens.go:34-58 | every generated plaintext passes `ValidateTokenPlaintext`, and decodes back to its random bytes |
| Tokens.RowOf | internal/data/tokens.go:75-81 | the stored row holds hash, user id, expiry and scope |
| Tokens.RowIgnoresPlaintext | internal/data/tokens.go:75-81 | the stored row does not depend on the plaintext |
| Tokens.TokenModel.Insert | internal/data/tokens.go:75-88 | appends that row to the table |
| Tokens.TokenModel.New | internal/data/tokens.go:65-73 | a failed generation stores nothing; otherwise the generated token's row is appended |
| Tokens.Remaining | internal/data/tokens.go:90-100 | no row with that scope and user id remains; every other row keeps its count |
| Tokens.TokenModel.DeleteAllForUser | internal/data/tokens.go:90-100 | the table becomes `Remaining(old table, scope, user id)` |
| Tokens.RevokeActivationKeepsAuthentication | internal/data/tokens.go:90-100 | deleting activation tokens keeps every authentication token |
| Movies.TitleMessage | internal/data/movies.go:25-26 | a title message exists exactly when the title is empty or over 500 bytes |
| Movies.YearMessage | internal/data/movies.go:28-30 | a year message exists exactly when the year is 0, before 1888 or after the current year |
| Movies.RuntimeMessage | internal/data/movies.go:32-33 | a runtime message exists exactly when the runtime is not positive |
| Movies.GenresMessage | internal/data/movies.go:35-38 | a genres message exists exactly when the list is nil, empty, over 5 long or has a duplicate |
| Movies.TitleFailure | internal/data/movies.go:25-26 | the first failing title check gives `TitleMessage` |
| Movies.YearFailure | internal/data/movies.go:28-30 | the first failing year check gives `YearMessage` |
| Movies.RuntimeFailure | internal/data/movies.go:32-33 | the first failing runtime check gives `RuntimeMessage` |
| Movies.GenresFailure | internal/data/movies.go:35-38 | the first failing genres check gives `GenresMessage` |
| Movies.GroupKeys | internal/data/movies.go:24-39 | each group of checks is about one field only |
| Movies.MovieFailure | internal/data/movies.go:24-39 | among all eleven checks, each field's first failure is its own message; other keys have none |
| Movies.MovieErrors | internal/data/movies.go:24-39 | validation records for each field without a message exactly its first failing message; old messages and other keys are untouched |
| Movies.CheckTitle | internal/data/movies.go:25-26 | the two title checks, in order |
| Movies.CheckYear | internal/data/movies.go:28-30 | the three year checks, in order |
| Movies.CheckRuntime | internal/data/movies.go:32-33 | the two runtime checks, in order |
| Movies.CheckGenres | internal/data/movies.go:35-38 | the four genres checks, in order, the last through `Unique` |
| Movies.ValidateMovie | internal/data/movies.go:24-39 | the validator ends as the eleven checks, in source order, leave it |
| Movies.Movie.constructor | internal/data/movies.go:14-22 | a movie with the given fields and zero id, creation time and version |
| Movies.CasUpdate | internal/data/movies.go:97-103 | succeeds exactly when the id is stored with the given version; then only that row changes, to the new fields and version + 1 |
| Movies.NoLostUpdate | internal/data/movies.go:97-129 | once an update based on version `v` succeeds, every other update based on `v` fails |
| Movies.MovieModel.constructor | internal/data/movies.go:41-43 | an empty table whose ids start at 1 |
| Movies.MovieModel.Insert | internal/data/movies.go:46-61 | stores the fields under a new id with version 1 and writes id, creation time and version back into the movie |
| Movies.MovieModel.Get | internal/data/movies.go:63-95 | `RecordNotFound` exactly when no row has the id; otherwise a new movie holding that row |
| Movies.MovieModel.Update | internal/data/movies.go:97-130 | succeeds exactly when `CasUpdate` does and then stores its table and writes the new version back; otherwise `EditConflict` with table and movie unchanged |
| Movies.MovieModel.Delete | internal/data/movies.go:132-162 | `RecordNotFound` with the table untouched for an id below 1 or absent; otherwise removes exactly that row |
| Middleware.Stale | cmd/api/middleware.go:61 | true exactly when the client was last seen more than three minutes before now |
| Middleware.Swept | cmd/api/middleware.go:59-64 | keeps exactly the entries seen within the last 3 minutes, unchanged |
| Middleware.SweepIdempotent | cmd/api/middleware.go:59-64 | a second sweep at the same time removes nothing |
| Middleware.SweepKeepsRecent | cmd/api/middleware.go:59-64 | an entry seen within 3 minutes survives the sweep unchanged |
| Middleware.AdmittedSurvives | cmd/api/middleware.go:77-97 | a client admitted at `t` survives every sweep until `t` + 3 minutes |
| Middleware.RateLimiter.constructor | cmd/api/middleware.go:44-47 | an empty registry with the configured switch |
| Middleware.RateLimiter.Admit | cmd/api/middleware.go:71-106 | disabled: admits and leaves the registry alone; enabled: the entry is created if missing, `lastSeen` becomes now, the answer is the limiter's `Allow()`; other entries are untouched |
| Middleware.RateLimiter.Sweep | cmd/api/middleware.go:57-67 | the registry becomes `Swept(old registry, now)` |
| Middleware.BearerToken | cmd/api/middleware.go:127-134 | an extracted token follows "Bearer " and makes up the rest of the header, with no space in it |
| Middleware.BearerTokenShape | cmd/api/middleware.go:127-134 | a header yields token `t` exactly when it is "Bearer " followed by `t` and `t` has no space |
| Middleware.TokenAcceptedIff | cmd/api/middleware.go:137-142 | a token passes validation exactly when it is non-empty and 26 bytes long |
| Middleware.Authenticate | cmd/api/middleware.go:109-162 | no header: anonymous; malformed header or invalid token: invalid-token response whatever the lookup; otherwise not-found gives invalid-token, other lookup errors a server error, and a found user proceeds |
| Middleware.AuthenticatedHeader | cmd/api/middleware.go:126-160 | a non-empty header that gets through is "Bearer " and a 26-byte token for which the authentication-scope lookup found that user |
| Middleware.GeneratedTokenReachesLookup | cmd/api/middleware.go:126-160 | a freshly generated token sent as "Bearer <token>" reaches the lookup and proceeds as the user it finds |
| Middleware.RequireAuthenticatedUser | cmd/api/middleware.go:167-178 | passes exactly for a non-anonymous user, else authentication-required |
| Middleware.RequireActivatedUser | cmd/api/middleware.go:181-195 | anonymous: authentication-required; inactive: inactive-account; passes exactly for an activated user |
| Middleware.RequirePermission | cmd/api/middleware.go:197-220 | the two guards above first; then a permission lookup error is a server error, a missing code not-permitted; passes exactly for an activated user holding the code |
| Middleware.PermissionsUnseenBeforeActivation | cmd/api/middleware.go:197-220 | for anonymous or inactive users the answer does not depend on the permission store |
| Middleware.Preflight | cmd/api/middleware.go:238-239 | true exactly for method OPTIONS with a non-empty requested method |
| Middleware.EnableCORS | cmd/api/middleware.go:222-257 | Allow-Origin is set, to the origin, exactly when the origin is non-empty and trusted; such an OPTIONS request with a requested method gets 200, the preflight headers and no next handler; otherwise the next handler runs |
| Middleware.FirstStatusStable | cmd/api/middleware.go:269-285 | later writer calls never change the first call's status |
| Middleware.MetricsResponseWriter.constructor | cmd/api/middleware.go:308 | nothing recorded yet |
| Middleware.MetricsResponseWriter.WriteHeader | cmd/api/middleware.go:269-276 | records the code only if nothing was recorded; the recorded status stays that of the first call |
| Middleware.MetricsResponseWriter.Write | cmd/api/middleware.go:278-285 | a body write before any header records 200; the recorded status stays that of the first call |
| Helpers.QueryGet | cmd/api/helpers.go:116 | the first value for the key, or "" when there is none |
| Helpers.ReadIDParam | cmd/api/helpers.go:17-26 | the id exactly when the parameter is a base-10 int64 of at least 1; otherwise "invalid id parameter" |
| Helpers.ReadIDParamFormat | cmd/api/helpers.go:17-26 | every positive id printed in decimal reads back as itself |
| Helpers.ReadString | cmd/api/helpers.go:115-123 | the query value, or the default when it is missing or empty |
| Helpers.ReadCSV | cmd/api/helpers.go:127-136 | the default for a missing or empty value; otherwise comma-free parts, one more than the commas, that join back into the value |
| Helpers.ReadCSVJoin | cmd/api/helpers.go:127-136 | a value made by joining comma-free parts reads back as those parts |
| Helpers.ReadInt | cmd/api/helpers.go:141-156 | missing or empty: the default, validator untouched; not an integer: the default and "must be an integer value" under the key (first message wins); otherwise the integer, validator untouched |
| Helpers.ReadIntFormat | cmd/api/helpers.go:141-156 | every int64 printed in decimal is accepted by `Atoi` and read back as itself |

## Left out

- I/O and HTTP plumbing: rendering of responses, JSON envelopes, `readJSON`, `writeJSON`, `recoverPanic`, the routes and the server. Outcomes are named values (`InvalidToken`, `AuthenticationRequired`, ...). The 401/403 response helpers are not part of this model.
- Concurrency: the registry's mutex and the once-a-minute goroutine. `Sweep` is one pass, called with the current time.
- `golang.org/x/time/rate`: the limiter state is an opaque type and `Allow()` a function parameter, so token-bucket refill and burst are not modelled. `realip`: the client address is a parameter.
- Middleware.RateLimiter.Admit: admission is the oracle's answer; nothing is proved about how many requests a bucket admits.
- `crypto/rand` and SHA-256 are parameters. No cryptographic property is stated.
- SQL: the tables are in-memory values. Storage and timeout errors other than "no rows" are not modelled.
- Movies.MovieModel.Insert: never fails. Schema defaults (serial ids, `created_at`, version 1) are taken as the model's assumptions. The migrations are not part of this model.
- Movies.MovieModel.Update: the version is an unbounded integer, so overflow of the version column is not modelled.
- Tokens.TokenModel.Insert: never fails.
- `MovieModel.GetAll`: full-text search, filtering and ordering are left out. Its limit, offset and metadata helpers are modelled.
- The user lookup by token (hash match, scope, expiry) and the permission lookup are function parameters. `internal/data/users.go` and `internal/data/permissions.go` are not part of this model. `Permissions.Include` is taken as membership.
- The request-context plumbing: the user is passed explicitly and always present, so the missing-user panic cannot arise.
- Filters.CalculateMetadata: uses exact integer ceiling division. The source's float64 division agrees only while the total stays below 2^53.
- `ValidateMovie` reads the clock for the current year. Here the year is a parameter.
- Strconv.Quote and Strconv.Unquote: only double-quoted text without escapes. Escape sequences and back-quoted literals are not modelled.
- The `Vary: Authorization` header that `authenticate` adds is not modelled. `enableCORS`'s `Vary` values are.
- `metricsResponseWriter`: forwarding to the wrapped writer, `Header`, `Unwrap` and the expvar counters of `metrics` are not modelled.
- `Matches` and `EmailRX` (regular expressions) are not modelled.
- Go strings are byte strings; here text is a sequence of Unicode scalar values, so inputs are taken to be valid UTF-8 and `len` is the UTF-8 byte count (`Strings.Utf8Len`). Header, query and JSON values holding invalid UTF-8 cannot be expressed. This affects the 26-byte token length, the 500-byte title limit and the split of the `Authorization` header.
- Times are integer nanoseconds. Overflow of `time.Time` arithmetic is not modelled.
