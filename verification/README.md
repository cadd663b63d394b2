# Bead resolver model

A Dafny model of the one handler with real logic in the Artiina Gold
authentication gateway: `GET /:beadId`, which turns an 8-character BeadId
into the provenance record a bead contract holds on the Sepolia network.
Given the path segment, a configuration and a snapshot of the ledger, the
model decides the same outcome the handler does, stopping at the first
failure:

1. format check `^[A-Z0-9]{8}$` → 400 `Invalid BeadId format`;
2. contract configured? → 503 `Service not configured`;
3. `exists(id)` false → 404 `Bead not found`, echoing the id;
4. the reads `beads`, `getBeadMetadata`, `beadToToken`, `getTransferCount`,
   awaited one after another;
5. assembly of the response object, with both timestamps converted by
   `new Date(s * 1000).toISOString()` and `previousVersion = version - 1`
   only for `version > 0` → 200;
6. any error thrown along the way (a failing contract call, a RangeError from
   `toISOString`) → 500 `Internal server error` with the error's message.

Modules:

- `Wrappers` (`wrappers.dfy`): `Option`.
- `BeadIds` (`bead_id.dfy`): the character class, the declarative format
  `IsWellFormed`, and the scanning test `MatchesIdPattern` proved equal to it.
- `Civil` (`civil.dfy`): the calendar arithmetic of ECMAScript time values
  (DayFromYear, leap years, month thresholds). `CivilFromDays` walks forward
  from 1970 a year at a time and then a month at a time; `DayNumber` is the
  independent reference, and the two are proved inverse.
- `IsoTime` (`iso_time.dfy`): `ToIsoString`, the exact text of
  `toISOString` for whole-second timestamps — `YYYY-MM-DDTHH:mm:ss.000Z`,
  `+YYYYYY-…` for years past 9999, and the RangeError (`None`) past the
  largest time value 8.64e15 ms. `ParseIso` reads such a string back, and the
  round trip and injectivity are proved, along with worked instants.
- `Ledger` (`ledger.dfy`): the contract's read interface as a pure snapshot —
  the beads that exist, and for each contract function whether its call
  fails, with the message of the error.
- `Resolver` (`resolver.dfy`): `Resolve`, returning the outcome and the
  exact sequence of contract calls issued.
- `Http` (`http.dfy`): the status code and JSON object for each outcome, and
  the handler `HandleRequest`.

The timestamp conversion, the ledger reads and the resolver are pure functions,
so two resolutions of the same id against the same snapshot give identical
results by construction.

## Model

| member | source | states |
|---|---|---|
| BeadIds.MatchesIdPattern | server.js:52 | the regular-expression test accepts a segment exactly when it has 8 characters and every one is `A`-`Z` or `0`-`9` |
| BeadIds.ScanClass | server.js:52 | scanning the class succeeds exactly when every character of the string is in `[A-Z0-9]` |
| BeadIds.ForeignCharRejected | server.js:52 | one character outside the class anywhere, a lower-case letter included, fails the test |
| BeadIds.PatternExamples | server.js:52 | `AB12CD34` passes; `zz999999`, a 7-character and a 9-character id fail |
| Civil.YearAndDay | server.js:92-93 | the year reached by walking whole years forward contains the day, and January 1 of it plus the offset is the starting day plus the distance walked |
| Civil.MonthAndDay | server.js:92-93 | the month found has the day within it: month threshold plus day of month minus one is the day of the year, and the day of month is in range |
| Civil.CivilFromDays | server.js:92-93 | the date computed for day number n is a valid date from 1970 on whose day number is n |
| Civil.NextYear | server.js:92-93 | January 1 of the next year is January 1 of this year plus the length of this year (365 or 366 by the Gregorian leap rule) |
| Civil.DayFromYearGrows | server.js:92-93 | January 1 advances at least 365 days per year |
| Civil.DayNumberInjective | server.js:92-93 | two valid dates with the same day number are the same date |
| Civil.CivilFromDayNumber | server.js:92-93 | converting the day number of any valid date from 1970 on gives back that date |
| IsoTime.DigitsRoundTrip | server.js:92-93 | a number below 10^w written as w zero-padded digits reads back as itself |
| IsoTime.TimeOfSeconds | server.js:92-93 | the fields of an instant are a valid date and a clock reading whose day number times 86400 plus the seconds of the day is the timestamp |
| IsoTime.ToIsoString | server.js:92-93 | a string exists exactly when the timestamp is at most 8.64e12 seconds; it has 24 characters, or 27 starting with `+`; the 24-character `YYYY-MM-DDTHH:mm:ss.000Z` form is used exactly for instants before year 10000 (below 253402300800 seconds), and the `+` form exactly from then on |
| IsoTime.ShortYearIff | server.js:92-93 | the year of an instant is at most 9999 exactly when the instant is below 253402300800 seconds, the start of year 10000 |
| IsoTime.TailRoundTrip | server.js:92-93 | the month, day and clock text after the year reads back as the same valid fields |
| IsoTime.FieldsRoundTrip | server.js:92-93 | the whole emitted string, in either year form, reads back as the date and clock fields of the instant |
| IsoTime.YearBelowMillion | server.js:92-93 | every in-range timestamp falls in a year below one million, so six expanded-year digits always suffice |
| IsoTime.IsoRoundTrip | server.js:92-93 | parsing the emitted string gives back the same instant |
| IsoTime.IsoInjective | server.js:92-93 | distinct timestamps give distinct strings |
| IsoTime.TimeOfSecondsUnique | server.js:92-93 | any valid date and clock reading that add up to the timestamp are its fields |
| IsoTime.IsoExampleCreated | server.js:92 | 1700000000 becomes `2023-11-14T22:13:20.000Z` |
| IsoTime.IsoExampleUpdated | server.js:93 | 1700050000 becomes `2023-11-15T12:06:40.000Z` |
| IsoTime.IsoExampleLastShortYear | server.js:92-93 | 253402300799 becomes `9999-12-31T23:59:59.000Z` |
| IsoTime.IsoExampleFirstLongYear | server.js:92-93 | 253402300800 becomes `+010000-01-01T00:00:00.000Z` |
| IsoTime.IsoExampleLimit | server.js:92-93 | 8.64e12 becomes `+275760-09-13T00:00:00.000Z`; one second more throws |
| Resolver.Resolve | server.js:47-114 | malformed ids, and only they, end as InvalidFormat; well-formed ids without a contract, and only they, end as Unconfigured; both issue no call; otherwise the calls issued are a prefix of exists, beads, getBeadMetadata, beadToToken, getTransferCount; NotFound exactly when `exists` answered false, echoing the id after one call; every call but the last succeeded and a failing last call gives Internal with its message; Ok only after all five calls |
| Resolver.MalformedIgnoresLedger | server.js:52-57 | a malformed id gets the same answer under every configuration and ledger, with no call issued |
| Resolver.UnconfiguredIgnoresLedger | server.js:60-65 | without a usable contract address a well-formed id gets the same answer under every ledger, with no call issued |
| Resolver.EmptyAddressUnconfigured | server.js:32-35 | the contract object is built only for a truthy address: a well-formed id is answered as unconfigured exactly when the address is the empty string |
| Resolver.FaultIsInternal | server.js:68-112 | a failing call is always the last call issued and the outcome is Internal with that call's message |
| Resolver.ExistsFaultIsInternal | server.js:68-112 | a failing `exists` gives Internal after that single call, whether or not the bead exists |
| Resolver.SuccessFieldSources | server.js:83-98 | on success `sku`, `createdAt` come from the record; `version`, `genesisCID`, `validated`, `isValid`, `lastUpdate` from the metadata; `tokenId`, `transfers` from their reads; `beadId` is the request; `blockchainVerified` is true, `network` is `sepolia`, `contractAddress` the configured one |
| Resolver.SuccessIff | server.js:76-105 | an existing bead resolves successfully exactly when no call fails and both timestamps are within a Date's range |
| Resolver.TimestampOutOfRangeIsInternal | server.js:92-112 | a timestamp past 8.64e12 seconds ends as Internal with the RangeError's message after all five calls |
| Resolver.PreviousVersionIff | server.js:100-103 | `previousVersion` is present exactly when the version is above zero, and then equals version minus one |
| Resolver.ExampleResolution | server.js:47-114 | the example bead resolves to the full expected object with `previousVersion` 1 |
| Resolver.ExampleRejection | server.js:50-53 | `zz999999` is rejected with no ledger call, whatever the ledger holds |
| Http.HandleRequest | server.js:47-114 | the status is one of 200, 400, 404, 500, 503; 400 exactly for a malformed id; 503 exactly for a well-formed id without a usable contract; 404 exactly when `exists` answered false for a well-formed id under a configured contract; 200 only for an existing bead whose five contract calls all succeeded; only non-200 bodies carry `error` |
| Http.Respond | server.js:52-112 | status 200, 400, 503, 404, 500 correspond one-to-one to Ok, InvalidFormat, Unconfigured, NotFound, Internal; every non-200 body has an `error` key and the 200 body has none |
| Http.MalformedIs400 | server.js:52-57 | a malformed id gets 400 with the fixed error and message, whatever the configuration and ledger |
| Http.UnconfiguredIs503 | server.js:60-65 | a well-formed id without a contract gets 503 with the fixed error and message |
| Http.NotFoundIs404 | server.js:68-74 | 404 exactly when `exists` answered false for a well-formed id under a configured contract; its body is the error and the requested id |
| Http.ExistsFaultIs500 | server.js:107-112 | a failing `exists` gets 500 with the error's message, never 404 |
| Http.SuccessBodyFields | server.js:83-98 | the 200 body carries all thirteen fields of the response object (`beadId`, `sku`, `version`, `genesisCID`, `tokenId`, `validated`, `isValid`, `transfers`, `createdAt`, `lastUpdate`, `blockchainVerified`, `network`, `contractAddress`) under their own keys |
| Http.SuccessBodyKeys | server.js:83-105 | the 200 body has exactly those thirteen keys, plus `previousVersion` when the response object has it, and no other |
| Http.SuccessBodyPreviousVersion | server.js:100-105 | the 200 body has a `previousVersion` key exactly when the response object has the field |
| Http.OkBodyPreviousVersion | server.js:100-105 | for a response object whose `previousVersion` follows the version rule, the body's key follows it too |
| Http.PreviousVersionKey | server.js:100-105 | in every 200 answer `previousVersion` is a key exactly when the version is above zero, and then holds version minus one |
| Http.ExampleResponse | server.js:83-105 | the example bead is answered 200 with version 2, previousVersion 1, tokenId 7, transfers 3, its creation time in UTC and `blockchainVerified` true |

## Left out

- Express setup, CORS and JSON middleware, the `/health` and `/` endpoints, `app.listen`, logging and the SIGTERM/SIGINT handlers: plumbing with no decisions in it.
- Construction of the ethers provider and contract, and ABI encoding and decoding: a foreign library. Each contract function is a read of the `Ledger.State` snapshot, and whatever can make a call throw is the per-call entry in `faults`, with the message as an opaque string.
- The unused `tokenURI` ABI entry and the hard-coded default RPC URL and contract address. Because of that default, `ARTIINA_NFT_ADDRESS` is never empty in the code as written, so the 503 branch cannot be reached in a real deployment; the model takes the configuration as a parameter and keeps the branch.
- The five contract calls are separate RPC requests and may observe different blocks; the model reads all of them from one snapshot.
- `Number(...)` narrowing of `uint256` values: version, token id and transfer count are `nat`, without the precision loss of doubles above 2^53. Timestamps are exact: every timestamp up to 8.64e12 is exactly representable after `* 1000`, and every larger one stays above the limit after rounding, so it throws as modelled.
- The text of the raw `error.message` in 500 answers is an opaque string taken from the ledger snapshot; the RangeError's message is V8's `Invalid time value`.
- The key order of the serialized JSON object: bodies are maps from key to value.
- Percent-decoding of the path segment by Express: the model starts from the decoded segment.
- The configuration check looks only at whether the contract object exists, which is built only for a truthy address (present and not the empty string); the RPC endpoint URL plays no part in it. The 404 body carries `error` and `beadId` but no `message`. No overflow error is raised for large values. The model follows the code in each of these.
