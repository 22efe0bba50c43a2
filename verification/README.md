# Signer: verified model

A Dafny model of the parts of the signing service whose promises range over every input or every run: the exact money
arithmetic behind the order caps, the encoders whose bytes get signed or hashed, the registry refresh protocol, the
bounded tables of the enclave and the gateway, the calendar conversions, and the dependency closure of the enclave image.

`dafny verify dfyconfig.toml` checks the whole project.

## How it is laid out

- `Decimal`, `Uint256`, `Digits`: decimal strings, digit vectors and the 256-bit converter against rational and integer
  arithmetic.
- `Unicode`, `Json`, `Lex`: canonical-v1 (RFC 8785, sections 3.2.2.2 and 3.2.3, numbers forbidden) and a parser that
  undoes it.
- `Orders`, `Preimages`: the venue order encoders, the gateway's assembly of the signed request, the request digest, the
  cache key and the sealed identity.
- `Registry`, `TokenTable`, `Auth`: the challenge/refresh protocol, and the branch-free token scan used on both sides.
- `RateLimiter`, `DekCache`, `IntentLedger`, `Backoff`, `Receipts`: state machines over whole runs, and the classes whose
  methods carry them out in place.
- `Calendar`: the two civil-from-days conversions, their inverse, and the timestamps built on them.
- `Closure`: the worklist over the lockfile.
- `Wrappers`, `Text`, `Strings`, `Listing`, `Clock`: shared definitions.

Each stateful operation is a method proved against a function on values, and what holds over runs is proved of that
function. Hashing, signing, hex and JSON decoding of the registry payload are function-valued parameters; clock readings,
random nonces, environment values and the order in which a hash map or a dictionary is iterated are arguments. Table
sizes, rates and lifetimes are parameters, so each result holds for every setting.

## What the notes claim and the code does not do

- A live key is said to reset only after twice the table size in distinct other keys. `RateLimiter.KeysToReset` gives
  the exact number for every table size: the table size when the table is full and the key its oldest, one more
  otherwise. `RateLimiter.RememberedExactly` and `RateLimiter.LifeAfterCheck` say the same in evictions.
- Allowed requests are said to stay within capacity plus rate × elapsed time, but clock readings are taken before the
  lock and can arrive out of order. `RateLimiter.ElapsedBoundsExactly`: over a list of readings the bound holds, for every
  capacity, rate and load, exactly when they never run backwards. `RateLimiter.BackwardsClockExceedsElapsed` is a small
  failing run, and `RateLimiter.ForwardIsTheBound` gives the least time that always bounds.
- A registry challenge is called one-shot. `Registry.BothTakeEffect`: from any state, two refreshes ready on one
  challenge both take effect exactly when their versions increase past the resident one, and after any run
  `Registry.ChallengeUsedTwice` brings that about. `Registry.SharedChallengeOverlaps` shows that two such refreshes must
  have overlapped, `Registry.Holder.Refresh` that a refresh running alone consumes its challenge.
- A half-open circuit is said to let one probe through. `Backoff.EveryProbePasses` says exactly which requests pass.
- A key outside the basic multilingual plane is said to sort after every key inside it.
  `Unicode.SupplementarySortsBefore` has two keys that do not, and `Unicode.SupplementarySortsAfter` says of every such
  pair exactly when it does.
- Distinct splits of the cache key's context are said not to collide. `Preimages.SeparatorsCollide` has identities that
  do, and `Preimages.IdentityKeyIsOwn` says exactly which identities have a preimage of their own. Ids that the registry
  accepts are among them (`Preimages.CacheKeyBindsIdentity`).
- The digest's comment lists fifteen fields; the code hashes sixteen, `permit2` among them, and so does the model.

## Model

| member | source | states |
|---|---|---|
| Decimal.DecimalDigits | poc/enclave/src/signer.rs:200-224 | accepts exactly the strings of at most 64 bytes with digits, at most one dot and at least one digit; the vector has no leading zero |
| Decimal.WellFormedMeans | poc/enclave/src/signer.rs:200-224 | the accepted strings in characters: 1 to 64 of them, digits and at most one dot, not a dot alone |
| Decimal.ParseIsExact | poc/enclave/src/signer.rs:200-224 | the parsed vector and scale denote the rational number the string denotes |
| Decimal.AccumulateRow | poc/enclave/src/signer.rs:231-236 | one row adds digit × b × 10^i to the accumulator's value, and each cell grows by at most 81, so no u32 cell overflows |
| Decimal.CarryAndStrip | poc/enclave/src/signer.rs:237-247 | carrying preserves the value, leaves no carry past the last cell and returns the normal form |
| Decimal.MulDigits | poc/enclave/src/signer.rs:227-248 | the product vector's value is the product, in normal form, for operands short enough for u32 cells, as every parsed operand is |
| Decimal.AddAligned | poc/enclave/src/signer.rs:265-282 | the ripple-carry sum's value is the sum, in normal form |
| Decimal.AddDigits | poc/enclave/src/signer.rs:255-284 | aligning scales and adding is addition of the rational amounts |
| Decimal.CmpScaledIsExact | poc/enclave/src/signer.rs:290-306 | the scale-aligned digit comparison of normal forms is the order of the rationals |
| Decimal.MulAmount | poc/enclave/src/signer.rs:320-325 | a product vector at the sum of scales denotes the product of the amounts |
| Decimal.CmpPositiveDecimals | poc/enclave/src/signer.rs:176-180 | defined exactly on two well-formed operands, and then the order of their values; otherwise the first malformed operand's error |
| Decimal.NotionalExceeds | poc/enclave/src/signer.rs:320-325 | true exactly when qty × price is strictly above the cap; fails exactly on a malformed operand, with the first one's error |
| Decimal.SumExceeds | poc/enclave/src/signer.rs:339-349 | true exactly when the rational sum is strictly above the cap; the first malformed operand decides the error |
| Decimal.NotionalSumExceeds | poc/enclave/src/signer.rs:357-368 | true exactly when the rational sum of qty × price is strictly above the cap; the first malformed operand decides the error |
| Decimal.TotalIgnoresOrder | poc/enclave/src/signer.rs:339-368 | permuted batches have the same total |
| Decimal.OneOrderAgrees | poc/enclave/src/signer.rs:320-368 | on a batch of one the aggregate check compares the same product as the per-order check |
| Decimal.AggregateCapBoundsEveryOrder | poc/enclave/src/signer.rs:357-368 | a batch within the cap keeps every order and every reordering within it |
| Uint256.TimesTenPlus | poc/enclave/src/signer.rs:1149-1154 | one digit step is exactly times ten plus the digit, with a carry of at most 9 out of every byte |
| Uint256.PrefixIsSmaller | poc/enclave/src/signer.rs:1155-1157 | an overflowing prefix means an overflowing whole |
| Uint256.ParseU256BeDecimal | poc/enclave/src/signer.rs:1142-1160 | the 32 big-endian bytes of the decimal's value; overflow reported exactly from 2^256 on, malformed text exactly when not all digits |
| Uint256.BigEndianIsUnique | poc/enclave/src/signer.rs:1142-1160 | two results are equal bytes exactly when the values are equal |
| Unicode.Utf8ReadsBack | poc/enclave/src/signer.rs:1276-1297 | a scalar's UTF-8 form is decoded back whatever follows it |
| Unicode.UnitsInjective | poc/enclave/src/signer.rs:1256-1258 | UTF-16 code units separate distinct strings |
| Unicode.KeyOrderIsTotal | poc/enclave/src/signer.rs:1256-1258 | the key comparison is a strict total order on strings |
| Unicode.KeyOrderByScalars | poc/enclave/src/signer.rs:1256-1258 | the key order of any two strings, read off their first differing scalars or the shorter length |
| Unicode.SupplementarySortsAfter | poc/enclave/src/signer.rs:1222-1224 | a key with a supplementary scalar sorts after an all-basic key exactly when that key is its prefix or is smaller at the first difference, below U+D800 if a supplementary scalar stands there |
| Unicode.SupplementarySortsBefore | poc/enclave/src/signer.rs:1222-1224 | two keys outside the basic plane that sort before a basic one |
| Json.EscapeReadsBack | poc/enclave/src/signer.rs:1276-1297 | every escape or raw scalar is uniquely decodable |
| Json.EscapeIsCanonical | poc/enclave/src/signer.rs:1276-1297 | the escape printed is the shortest spelling of its character in JSON, in lower-case hex, and the only such spelling |
| Json.Words | poc/enclave/src/signer.rs:1235-1272 | the literals and punctuation printed are those of JSON |
| Json.JcsString | poc/enclave/src/signer.rs:1276-1297 | appends exactly the quoted, escaped string |
| Json.CanonicalV1Into | poc/enclave/src/signer.rs:1235-1272 | succeeds exactly on number-free values and appends the print of the normal form |
| Json.CanonicalV1 | poc/enclave/src/signer.rs:1229-1233 | canonical bytes exactly for number-free values, failure otherwise |
| Json.ItemsInto | poc/enclave/src/signer.rs:1245-1254 | the array loop, stopping at the first number |
| Json.FieldsInto | poc/enclave/src/signer.rs:1255-1269 | the object loop over sorted keys, stopping at the first number |
| Json.ParsePrint | poc/enclave/src/signer.rs:1235-1272 | a parser undoes the printer, whatever follows |
| Json.SortFieldsSorts | poc/enclave/src/signer.rs:1256-1258 | distinct keys come out strictly increasing |
| Json.NormalFormDecides | poc/enclave/src/signer.rs:1229-1272 | values with one normal form are equal up to key order at every level |
| Json.SameNormalForm | poc/enclave/src/signer.rs:1229-1272 | values equal up to key order have one normal form |
| Json.SameAsNormal | poc/enclave/src/signer.rs:1229-1272 | every value equals its normal form up to key order, repeated keys or not |
| Json.CanonicalParses | poc/enclave/src/signer.rs:1229-1272 | parsing the canonical bytes gives the normal form, which is the value up to key order |
| Json.CanonicalDecidesSame | poc/enclave/src/signer.rs:1229-1272 | equal canonical bytes exactly for values equal up to key order |
| Calendar.YearContainsDay | poc/enclave/src/signer.rs:727-732 | the year-of-era formula finds the year holding the day |
| Calendar.ConversionsAgree | poc/gateway/src/receipts.rs:50-64 | the gateway's and the enclave's conversions give the same date for every day |
| Calendar.DayRoundTrip | poc/enclave/src/signer.rs:724-736 | every day number gives a real Gregorian date that converts back |
| Calendar.DateRoundTrip | poc/gateway/src/aws.rs:222-228 | every real Gregorian date is recovered from its day number |
| Calendar.NextDayCounts | poc/gateway/src/aws.rs:222-228 | the next calendar day has the next day number |
| Calendar.CivilIsTheCalendar | poc/enclave/src/signer.rs:724-736 | day n is the date n calendar days after 1 January 1970 |
| Calendar.YearOrder | poc/gateway/src/aws.rs:222-228 | a date is in or after a year exactly when its day number is at or past the year's first |
| Calendar.TimestampParses | poc/gateway/src/aws.rs:200-231 | a full timestamp parses to its seconds |
| Calendar.LongYearRefused | poc/gateway/src/aws.rs:200-231 | a five-digit year is refused at the separators |
| Calendar.TimestampRoundTrip | poc/enclave/src/signer.rs:712-749 | the gateway reads ms/1000 back from the enclave's timestamp exactly when the year is below 10000, and otherwise refuses it |
| Calendar.TimestampMillis | poc/enclave/src/signer.rs:712-749 | every timestamp ends in a point, the three digits of its milliseconds and Z |
| Calendar.TimestampShape | poc/enclave/src/signer.rs:712-749 | up to the year 9999 it has 24 characters with each separator in its place |
| Calendar.TimestampIsUnique | poc/enclave/src/signer.rs:712-749 | up to the year 9999 two clock readings have one timestamp exactly when they are equal |
| Calendar.ArchiveDateIsDatePart | poc/gateway/src/receipts.rs:50-64 | the archive date is the date part of every timestamp in that second |
| Orders.FormReadsBack | poc/enclave/src/signer.rs:376-433 | splitting an encoded query on its separators gives back its parameters |
| Orders.BuildBinanceOrderQuery | poc/enclave/src/signer.rs:376-433 | refuses exactly the faulty requests, with the first fault; otherwise the encoded parameters |
| Orders.BinanceQueryIsUnambiguous | poc/enclave/src/signer.rs:376-433 | the query splits into exactly the request's parameters, and two accepted requests share a query only if equal |
| Orders.SafeValueMeans | poc/enclave/src/signer.rs:150-154 | the safe values in characters |
| Orders.OrderAcceptedExactly | poc/enclave/src/signer.rs:376-433 | the accepted orders: safe values, a known side, market without a price or limit with one |
| Orders.BinanceQuerySays | poc/enclave/src/signer.rs:376-433 | splitting the query finds each value of the order under its name, BUY for buy and SELL for sell, price and GTC exactly for a limit order, each option exactly when asked for, no key twice and no other key |
| Orders.BuildOkxOrderBody | poc/enclave/src/signer.rs:487-558 | refuses exactly the faulty requests; otherwise the printed JSON object of the request's fields |
| Orders.OkxBodyIsUnambiguous | poc/enclave/src/signer.rs:487-558 | the body parses to exactly the request's fields, and two accepted requests share a body only if equal |
| Orders.OkxBodySays | poc/enclave/src/signer.rs:487-558 | parsing the body finds each value of the order under its name, the price exactly for a limit order, each option exactly when asked for, and no other member |
| Orders.HeaderMap.Remove | poc/gateway/src/handlers.rs:1746-1760 | takes one header out and leaves the others |
| Orders.BuildBinanceSignedQs | poc/gateway/src/handlers.rs:1740-1788 | the string sent, each refusal, and the headers left over in every case |
| Orders.BinanceSignedUrl | poc/gateway/src/handlers.rs:3504-3543 | the URL sent, each refusal, and the headers left over in every case |
| Orders.TakenIsWhatWasSigned | poc/enclave/src/signer.rs:589-618 | from the enclave's headers the gateway takes the values the enclave signed |
| Orders.SignedStringIs | poc/enclave/src/signer.rs:589-618 | the signed string, character by character around the query and the body |
| Orders.GatewaySendsWhatWasSigned | poc/gateway/src/handlers.rs:1740-1788 | on the enclave's own headers the gateway's query and URL are never refused for the headers' sake, and are the signed string with its signature exactly when the enclave signed an empty body |
| Orders.PlainPasses | poc/gateway/src/handlers.rs:1775-1781 | the encoding of parameters without separators, spaces, line breaks or zero bytes passes the gateway's own check |
| Orders.PassesExactly | poc/gateway/src/handlers.rs:1775-1781 | the gateway refuses exactly an empty query and one with a space, a line break or a zero byte |
| Orders.SafeQueryValueMeans | poc/gateway/src/handlers.rs:3263-3272 | the safe header values in characters |
| Orders.HeadersAddNothing | poc/gateway/src/handlers.rs:1740-1788 | whatever the headers hold, a query that goes out splits into its own parameters and the three stamps, so no header adds a parameter |
| Orders.PlainQueryGoesOut | poc/gateway/src/handlers.rs:3504-3543 | query and URL of such parameters go out as signed, and a venue splits them into those parameters, timestamp, recvWindow and signature |
| Orders.LowercaseStays | poc/gateway/src/handlers.rs:1789-1797 | lowering side and type changes no request that the builders accept as it stands |
| Orders.StampedOrderSays | poc/gateway/src/handlers.rs:1800-1853 | the parameters of an order with its stamps say the order and the stamps, each under its name, and nothing else |
| Orders.SendBinanceOrder | poc/gateway/src/handlers.rs:1800-1853 | an order from the gateway's case folding through builder and headers to the venue: refused only for its own fault, otherwise the signed string with its signature, which a venue splits into the order's values and the three stamps under their names and no other key; the key header alone is left |
| Preimages.EncodeFieldsInjective | poc/enclave/src/receipt.rs:163-166 | length-prefixed fields are determined by their encoding, number included |
| Preimages.FrameLayout | poc/enclave/src/receipt.rs:163-166 | a field is its length in eight big-endian bytes, then the field |
| Preimages.FieldOrder | poc/enclave/src/receipt.rs:175-224 | which member of the request stands at each of the sixteen places |
| Preimages.RequestDigestPreimage | poc/enclave/src/receipt.rs:175-224 | the hasher takes in the sixteen fields in order |
| Preimages.RequestPreimageDecides | poc/enclave/src/receipt.rs:175-224 | two requests share a preimage exactly when they agree on all sixteen fields, absent counting as empty |
| Preimages.DeriveKeyPreimage | poc/enclave/src/dek_cache.rs:256-272 | the loop over sorted entries computes the cache key preimage |
| Preimages.CacheKeyIgnoresOrder | poc/enclave/src/dek_cache.rs:256-272 | the order of map iteration does not reach the key |
| Preimages.CacheKeyInjective | poc/enclave/src/dek_cache.rs:256-272 | for arbitrary maps without separators in them, a preimage determines wrapped key and context |
| Preimages.IdentityPreimageIs | poc/enclave/src/dek_cache.rs:256-272 | the preimage of an identity, byte by byte, for every order of iteration |
| Preimages.IdentityPreimages | poc/enclave/src/dek_cache.rs:256-272 | two identities share a preimage exactly when the wrapped keys agree and customer, separator part and venue read the same joined |
| Preimages.SeparatorsCollide | poc/enclave/src/dek_cache.rs:252-253 | a family of pairs of identities that share every cache key |
| Preimages.IdentityKeyIsOwn | poc/enclave/src/dek_cache.rs:252-253 | an identity and a wrapped key have a preimage no other has exactly when the separator part occurs in neither customer nor venue |
| Preimages.CacheKeyBindsIdentity | poc/enclave/src/registry.rs:142-147 | for safe ids the cache key preimage determines wrapped key, customer and venue |
| Preimages.SealedAadIs | poc/enclave/src/registry.rs:153-159 | the three lines of the sealed identity |
| Preimages.SealedAadInjective | poc/enclave/src/registry.rs:153-159 | for safe ids the sealed identity determines customer, venue and version |
| Registry.EntriesFault | poc/enclave/src/registry.rs:554-566 | no fault exactly when every entry is free of one |
| Registry.CheckEntries | poc/enclave/src/registry.rs:554-566 | the loop returns the first faulty entry's fault |
| Registry.VerifiedEntries | poc/enclave/src/registry.rs:531-566 | signature, parse, emptiness and entry checks in order; accepted entries are those of the signed bytes |
| Registry.VerifiedIsSafe | poc/enclave/src/registry.rs:410-452 | what passed the checks is authentic, ids safe and reserved venues with their owners once resident |
| Registry.SafeIdMeans | poc/enclave/src/registry.rs:410-415 | the safe ids in characters: 1 to 64 letters, digits, dashes and underscores |
| Registry.SpeltIgnoresCase | poc/enclave/src/registry.rs:436-446 | the case-insensitive comparison holds exactly of the spellings of a text in either case |
| Registry.ReservedMeansOwned | poc/enclave/src/registry.rs:436-446 | a customer may hold a venue exactly when the venue, in any case, is not reserved or is its own |
| Registry.ModeIsAsked | poc/enclave/src/registry.rs:77-93 | an entry resides in the mode its text asks for, absent meaning active; a text that names none of the three is refused |
| Registry.GoodEntryExactly | poc/enclave/src/registry.rs:554-566 | the entries without a fault, in terms of their texts |
| Registry.AcceptedExactly | poc/enclave/src/registry.rs:505-637 | a refresh is accepted exactly when the key is there, the nonce is the pending one, the signature is over nonce, version and content hash, there are entries and each is good, and the version is newer |
| Registry.ApplyInv | poc/enclave/src/registry.rs:505-637 | every step of every interleaving keeps the protocol invariant |
| Registry.RunInv | poc/enclave/src/registry.rs:505-637 | the invariant holds in every reachable state |
| Registry.RefreshSafety | poc/enclave/src/registry.rs:505-637 | over every interleaving versions strictly increase, each install carries a verified signature over exactly the installed bytes, the resident registry is the last install, ids are safe and reserved venues held by their owners |
| Registry.SignedMessageFixesVersion | poc/enclave/src/registry.rs:469-475 | the signed bytes determine nonce, version and content hash |
| Registry.SignedMessageLayout | poc/enclave/src/registry.rs:469-475 | 72 bytes: nonce, little-endian version, content hash |
| Registry.NoMessageInstalledTwice | poc/enclave/src/registry.rs:505-637 | no signed message is installed twice |
| Registry.PendingLeavesOnlyBy | poc/enclave/src/registry.rs:267-277 | a nonce leaves the slot only by a later challenge or a successful refresh carrying it |
| Registry.InstallsPeeked | poc/enclave/src/registry.rs:513-529 | every install's nonce was pending when that very refresh peeked |
| Registry.SharedChallengeOverlaps | poc/enclave/src/registry.rs:609-634 | two installs of one challenge overlapped: the later peeked before the earlier cleared |
| Registry.BothTakeEffect | poc/enclave/src/registry.rs:579-634 | from any state with a free lock, two refreshes verified for one challenge both install, carrying that challenge, exactly when their versions increase past the resident one |
| Registry.ChallengeUsedTwice | poc/enclave/src/registry.rs:256-257 | after any run that leaves the lock free, a new challenge is used twice exactly when the two versions increase past the resident one |
| Registry.AloneRefused | poc/enclave/src/registry.rs:505-637 | a refused refresh changes neither registry nor nonce nor history |
| Registry.AloneAccepted | poc/enclave/src/registry.rs:505-637 | an accepted refresh running alone installs the signed entries and consumes the nonce |
| Registry.Holder.constructor | poc/enclave/src/registry.rs:250-262 | boot: empty registry, version 0, no nonce |
| Registry.Holder.IssueChallenge | poc/enclave/src/registry.rs:267-277 | replaces the pending nonce, leaves the registry alone |
| Registry.Holder.Refresh | poc/enclave/src/registry.rs:505-637 | installs and consumes the nonce exactly when every check passes, otherwise the first failing check's error and no change |
| Registry.Resolve | poc/enclave/src/registry.rs:645-677 | the identity of the last entry with the token's hash, none exactly when no entry has it |
| Registry.ResolvedWasSigned | poc/enclave/src/registry.rs:645-677 | in every reachable state a token resolves only to an entry of the last signed payload, in the mode that entry asks for by its text, with safe ids and no reserved venue but its own |
| TokenTable.MaskIdentities | poc/enclave/src/registry.rs:650-653 | and/or with all ones and zero over 64-bit words |
| TokenTable.SelectChooses | poc/enclave/src/registry.rs:650-653 | the branch-free update is the conditional one |
| TokenTable.LastMatchIsLast | poc/gateway/src/auth.rs:322-349 | a match is found exactly when there is one, and it is the last |
| TokenTable.Scan | poc/gateway/src/auth.rs:322-349 | the mask loop returns the last matching index, none exactly when nothing matches, for every table shorter than the largest word |
| Auth.FromEnvVar | poc/gateway/src/auth.rs:190-304 | each refusal and the accepted table, from the variable's value and the two switches |
| Auth.ParseEntries | poc/gateway/src/auth.rs:226-304 | the loop's table, the first bad label, or no valid entries |
| Auth.SpacedReads | poc/gateway/src/auth.rs:227-249 | what precedes an entry's first colon is the token, what follows it the customer, both without the blanks around them; with either empty there is no entry |
| Auth.NoColonNoEntry | poc/gateway/src/auth.rs:232-242 | an entry without a colon is skipped |
| Auth.ConfigurationReads | poc/gateway/src/auth.rs:226-304 | a comma-separated list of written pairs reads back as exactly those pairs, in order |
| Auth.RefusedExactly | poc/gateway/src/auth.rs:226-304 | an entry is refused exactly when its customer has a colon or a slash in it |
| Auth.Lookup | poc/gateway/src/auth.rs:322-349 | the customer of the last entry with the token's digest |
| Auth.RawTokenForCustomer | poc/gateway/src/auth.rs:488-516 | the token of the customer's first entry |
| Auth.FirstTokenIsFirst | poc/gateway/src/auth.rs:488-516 | a token is found exactly for configured customers, and it is that of the first entry |
| Auth.ReadBackExactly | poc/gateway/src/auth.rs:488-516 | with no digest collisions, the token read back resolves to its customer exactly when each other tenant's entry with it is followed by one of the customer's own |
| Auth.TokenReadBackResolves | poc/gateway/src/auth.rs:488-516 | with distinct tokens every configured customer's token reads back and resolves to it |
| Auth.SharedTokenResolvesToLast | poc/gateway/src/auth.rs:322-349 | a token configured for two tenants reads back for one and resolves to the other |
| RateLimiter.CheckValid | poc/enclave/src/rate_limiter.rs:83-150 | every check keeps the order listing the live keys once, live and ghost apart, both queues within bounds, tokens within capacity, ghosts in their queue |
| RateLimiter.ReachableValid | poc/enclave/src/rate_limiter.rs:83-150 | that invariant in every reachable state |
| RateLimiter.EvictionCostsLife | poc/enclave/src/rate_limiter.rs:89-119 | an eviction costs each tracked key one unit of life; a key with none left is forgotten |
| RateLimiter.OtherCheck | poc/enclave/src/rate_limiter.rs:83-150 | what a check of another key does to a tracked key's state and life |
| RateLimiter.OwnCheck | poc/enclave/src/rate_limiter.rs:120-149 | a check spends from the remembered bucket, live or restored, or from a full one |
| RateLimiter.LifeAfterCheck | poc/enclave/src/rate_limiter.rs:20-30 | a key just checked outlives at least max and at most 2 max − 1 evictions |
| RateLimiter.RememberedExactly | poc/enclave/src/rate_limiter.rs:20-30 | a key's state is intact at its next check exactly when fewer evictions happened than its life |
| RateLimiter.SpendInRange | poc/enclave/src/rate_limiter.rs:140-149 | refill and spend keep tokens within zero and capacity |
| RateLimiter.RefilledIs | poc/enclave/src/rate_limiter.rs:140-142 | refill adds rate × time since the last one, never negative, and stops at capacity |
| RateLimiter.AgreesWithUnbounded | poc/enclave/src/rate_limiter.rs:83-150 | while a key is kept, every answer is that of a per-key bucket with no eviction |
| RateLimiter.BucketBudget | poc/enclave/src/rate_limiter.rs:140-149 | allowed requests stay within what the capped first refill leaves plus rate × forward time after it, for every bucket and sequence of readings |
| RateLimiter.AllowedWithinBudget | poc/enclave/src/rate_limiter.rs:83-150 | over any span, from any valid state, in which a key is kept, allowed requests stay within capacity plus rate × forward time within the span |
| RateLimiter.AllowedWithinElapsed | poc/enclave/src/rate_limiter.rs:83-150 | over any such span whose readings never run backwards, allowed requests stay within capacity plus rate × elapsed time |
| RateLimiter.ForwardIsElapsed | poc/enclave/src/rate_limiter.rs:83-86 | forward time is elapsed time exactly when readings never run backwards, and otherwise more |
| RateLimiter.BackwardsClockExceedsElapsed | poc/enclave/src/rate_limiter.rs:83-86 | a run of the limiter, for every table size, whose readings end where they began and which allows three requests at capacity one |
| RateLimiter.DrainedFromFull | poc/enclave/src/rate_limiter.rs:140-149 | a bucket large enough never to be capped hands out, under load, its capacity plus rate × forward time but for a fraction of a token |
| RateLimiter.ForwardIsTheBound | poc/enclave/src/rate_limiter.rs:83-150 | a time bounds what the limiter allows over a list of readings, for every capacity, rate and load, exactly when it is at least their forward movement |
| RateLimiter.ElapsedBoundsExactly | poc/enclave/src/rate_limiter.rs:83-86 | elapsed time is such a bound exactly when the readings never run backwards |
| RateLimiter.EvictionsNeedKeys | poc/enclave/src/rate_limiter.rs:87-133 | checks of at most max distinct keys admit no more often than there are keys |
| RateLimiter.FewKeysNeverReset | poc/enclave/src/rate_limiter.rs:26-28 | fewer than max distinct other keys never reset a live key, nor do max unless the table is full and the key its oldest |
| RateLimiter.MaxKeysResetTheOldest | poc/enclave/src/rate_limiter.rs:26-28 | at a full table one pass over any max new keys resets the oldest |
| RateLimiter.OneMoreKeyResets | poc/enclave/src/rate_limiter.rs:26-28 | from any state, cycling any max + 1 distinct other keys resets a key, which is then answered as if never seen |
| RateLimiter.KeysToReset | poc/enclave/src/rate_limiter.rs:26-28 | the exact number of distinct other keys that can reset a live key |
| RateLimiter.Limiter.constructor | poc/enclave/src/rate_limiter.rs:67-79 | starts empty and valid |
| RateLimiter.Limiter.TryConsume | poc/enclave/src/rate_limiter.rs:83-150 | updates the four tables in place as the state machine does, and answers as it does |
| RateLimiter.Limiter.EvictOldest | poc/enclave/src/rate_limiter.rs:89-119 | moves the oldest key to the ghosts, dropping the oldest ghost and pruning tombstones in a loop |
| DekCache.Clamp | poc/enclave/src/dek_cache.rs:127-136 | the configured size, or the nearer of one and the ceiling when out of range |
| DekCache.StepValid | poc/enclave/src/dek_cache.rs:151-246 | every operation keeps the order a permutation of the keys within the bound |
| DekCache.RunValid | poc/enclave/src/dek_cache.rs:151-246 | in every reachable state the order lists the keys once and the size is within max |
| DekCache.EntriesAreLatestPuts | poc/enclave/src/dek_cache.rs:151-246 | every entry of every reachable state is its key's latest put in an unbounded map |
| DekCache.HitIsLatestPut | poc/enclave/src/dek_cache.rs:151-183 | a hit returns the latest put, only within its time-to-live |
| DekCache.RecentSurvives | poc/enclave/src/dek_cache.rs:189-212 | an entry survives while fewer than max distinct other keys have been touched since it was |
| DekCache.PutThenGet | poc/enclave/src/dek_cache.rs:151-212 | a put followed by fewer than max other keys and a timely get returns the value |
| DekCache.GetThenGet | poc/enclave/src/dek_cache.rs:151-183 | a hit followed by fewer than max other keys and a get within the lifetime hits again |
| DekCache.PutsEvictExactly | poc/enclave/src/dek_cache.rs:189-212 | after a touch, puts of other keys evict a key exactly when they are of at least max distinct keys |
| DekCache.Cache.constructor | poc/enclave/src/dek_cache.rs:127-136 | starts empty with the clamped size |
| DekCache.Cache.Lookup | poc/enclave/src/dek_cache.rs:151-183 | expiry, hit and miss with their effect on map and order |
| DekCache.Cache.Insert | poc/enclave/src/dek_cache.rs:189-212 | the eviction loop and the insertion |
| DekCache.Cache.FlushAll | poc/enclave/src/dek_cache.rs:224-231 | leaves nothing |
| DekCache.Cache.RemoveFromOrder | poc/enclave/src/dek_cache.rs:242-246 | removes the key's first position in the order, leaving the rest as it was |
| IntentLedger.Ledger.constructor | poc/enclave/src/intent_ledger.rs:44-51 | starts empty |
| IntentLedger.Ledger.RecordIfNew | poc/enclave/src/intent_ledger.rs:56-72 | refuses a key exactly when it is among the last max accepted; set and queue hold those keys once each |
| IntentLedger.AcceptSpaced | poc/enclave/src/intent_ledger.rs:20-24 | accepting such a key keeps repeats at least max acceptances apart |
| IntentLedger.RunIsSpaced | poc/enclave/src/intent_ledger.rs:20-24 | over every run two acceptances of one key have at least max others between them |
| Backoff.CircuitTellsItsStory | poc/gateway/src/backoff.rs:54-110 | in every run a circuit is tracked exactly when the operations alone say so, created by a report with room for it and dropped only by a success or by pruning after its window, with backoff min(10 s, 50 ms × 2^k), k counting reports after a half-open allow |
| Backoff.BackoffIs | poc/gateway/src/backoff.rs:17-18 | 50 ms × 2^k for the first eight reports, then 10 s |
| Backoff.RefusesExactly | poc/gateway/src/backoff.rs:54-69 | a request is refused exactly when the operations tell of a circuit whose last report is younger than its backoff |
| Backoff.RunIsBounded | poc/gateway/src/backoff.rs:81-95 | the table never exceeds its bound |
| Backoff.PruneForgetsOnlyOpen | poc/gateway/src/backoff.rs:81-86 | pruning forgets only circuits that would let the next request through |
| Backoff.EveryProbePasses | poc/gateway/src/backoff.rs:5-8 | between reports each of any number of requests passes exactly when the window has passed at its time |
| Backoff.BackoffManager.constructor | poc/gateway/src/backoff.rs:46-50 | starts with no circuit |
| Backoff.BackoffManager.AllowRequest | poc/gateway/src/backoff.rs:54-69 | the answer and the half-open mark |
| Backoff.BackoffManager.ReportSuccess | poc/gateway/src/backoff.rs:72-75 | closes the circuit |
| Backoff.BackoffManager.ReportRateLimited | poc/gateway/src/backoff.rs:78-110 | prunes at the cap, skips a new key when still full, doubles after a failed probe, reopens the window |
| Receipts.RecordDecides | poc/enclave/src/receipt.rs:330-345 | canonical bytes of a string record determine every member |
| Receipts.ReceiptedExactly | poc/enclave/src/receipt.rs:234-236 | the receipted actions: those that begin with sign_, but for sign_data |
| Receipts.RecordReads | poc/enclave/src/receipt.rs:330-345 | parsing the canonical bytes of a string record finds each value under its name and nothing else |
| Receipts.ReceiptSays | poc/enclave/src/receipt.rs:330-353 | after the domain the signed bytes parse to the eleven members, each value under its name |
| Receipts.HeartbeatSays | poc/enclave/src/receipt.rs:463-482 | after the domain the signed bytes parse to the seven members, each value under its name |
| Receipts.ReceiptPayloadDecides | poc/enclave/src/receipt.rs:330-353 | two receipts share a digest preimage exactly when all eleven signed members agree |
| Receipts.HeartbeatPayloadDecides | poc/enclave/src/receipt.rs:463-482 | two heartbeats share a digest preimage exactly when all seven signed members agree, the nonce among them |
| Receipts.PreimageDecides | poc/enclave/src/receipt.rs:30-36 | receipts, heartbeats and attested data never share a preimage, and within a kind only equal documents do |
| Receipts.ReceiptTellsDecision | poc/enclave/src/receipt.rs:285-306 | two receipts have equal members exactly when request, error, policy hash and number agree: allow and deny never read alike |
| Receipts.BodySays | poc/enclave/src/receipt.rs:285-306 | the bytes to be signed say allow and ok exactly without an error, otherwise deny and that error, and the request's own values under their names |
| Receipts.SignReceipt | poc/enclave/src/receipt.rs:355-359 | signs the hash of the domain and the canonical receipt; canonicalisation cannot fail |
| Receipts.SignHeartbeat | poc/enclave/src/receipt.rs:531-545 | signs the hash of the domain and the canonical heartbeat; canonicalisation cannot fail |
| Receipts.CommitInv | poc/enclave/src/receipt.rs:307-325 | number, sign, commit under the lock keeps the invariant, signature failing or not |
| Receipts.ApplyInv | poc/enclave/src/receipt.rs:276-326 | key installs, requests between the two locks, commits and readings, in any order, keep it |
| Receipts.RunInv | poc/enclave/src/receipt.rs:276-326 | the invariant holds in every reachable state |
| Receipts.GapFree | poc/enclave/src/receipt.rs:276-326 | after any run a customer's k-th receipt carries k in decimal, modulo 2^64, and a signature by a key that was resident |
| Receipts.IssuedSays | poc/enclave/src/receipt.rs:276-326 | after any run the k-th receipt of a customer is signed over bytes that say the decision taken, the request's values and the number k, modulo 2^64 |
| Receipts.NumbersAreUnique | poc/enclave/src/receipt.rs:76-85 | a customer's numbers are all different exactly while there are at most 2^64 receipts |
| Receipts.DecisionsAreConserved | poc/enclave/src/receipt.rs:66-75 | every decision begun is issued once, failed to sign once, or still under way |
| Receipts.ReadingExposesLoss | poc/enclave/src/receipt.rs:369-392 | a customer holds a receipt for each number below a reading exactly when it holds every receipt issued to it before the reading |
| Receipts.Issuer.constructor | poc/enclave/src/receipt.rs:65-90 | boot: no key, no counter |
| Receipts.Issuer.InstallKey | poc/enclave/src/receipt.rs:105-116 | replaces the resident key |
| Receipts.Issuer.IssuePre | poc/enclave/src/receipt.rs:276-326 | nothing without a key or for other actions; otherwise the receipt just numbered and signed, whose bytes say the decision taken, or none and no number used |
| Receipts.Issuer.SeqNextFor | poc/enclave/src/receipt.rs:453-459 | counts the receipts issued to this customer, modulo 2^64 |
| Receipts.Issuer.IssueHeartbeat | poc/enclave/src/receipt.rs:491-547 | each refusal in order; otherwise a signed document counting this customer's receipts, with nothing changed |
| Closure.ClosedHoldsReachable | poc/scripts/enclave-closure-check.py:84-104 | a set holding the roots and closed under dependencies holds everything reachable |
| Closure.IndexByName | poc/scripts/enclave-closure-check.py:85-87 | the name index lists exactly the packages of each name |
| Closure.MatchesExactly | poc/scripts/enclave-closure-check.py:98-103 | which packages each of the four forms of a dependency names |
| Closure.PushSuccessors | poc/scripts/enclave-closure-check.py:98-103 | pushes exactly the unseen packages matching a dependency by name, version and source |
| Closure.Walk | poc/scripts/enclave-closure-check.py:91-103 | terminates, and seen is exactly what is reachable from every package with the root's name |
| Closure.RenderSorted | poc/scripts/enclave-closure-check.py:104-104 | a sorted rendering of the set, one line for each package |
| Closure.RenderingIsUnique | poc/scripts/enclave-closure-check.py:104-104 | the rendering does not depend on the order of iteration |
| Closure.LineReads | poc/scripts/enclave-closure-check.py:104-104 | a line reads back as name, version and source, when name and version hold no space |
| Closure.RenderingDetermines | poc/scripts/enclave-closure-check.py:104-104 | without spaces in names and versions, equal renderings mean equal sets |
| Closure.SpacesCollide | poc/scripts/enclave-closure-check.py:104-104 | two packages with a space in name or version that share a line |
| Closure.SnapshotDecides | poc/scripts/enclave-closure-check.py:17-20 | a listing equals the snapshot's exactly when the closures are the same |
| Closure.Closure | poc/scripts/enclave-closure-check.py:84-104 | fails exactly when no package has the root's name, otherwise the sorted rendering of what is reachable, without the roots |

## Left out

- KMS, attestation, vsock, HTTP routes, files, environment access and process spawning.
- SHA-256, HMAC, keccak, secp256k1, Ed25519 and AES-GCM themselves: results about encoders are about the bytes hashed.
- Poisoned-lock recovery, zeroization and timing behaviour.
- Floating-point rounding of rate-limiter tokens: they are reals.
- The request handlers, order policy limits, tenant state and wire error codes around these parts.
- The Binance and OKX cancel builders, and the Bybit, KuCoin, Hyperliquid, x402 and Permit2 encoders.
- The strict JSON lexer: canonical-v1 takes a value with distinct keys, and `Receipts` takes the entry hash as an argument.
- Parsing of the lockfile, tag checks and the command line of the closure script.
- Concurrent access in `RateLimiter`, `DekCache`, `IntentLedger` and `Backoff`: each call there holds one lock throughout, so a run is a sequence of calls with its own clock readings. `Registry` and `Receipts`, which release a lock midway, are modelled as interleaved steps on values, next to classes for calls that do not overlap.
- Preimages.CacheKeyInjective: gives a sufficient condition only, for maps of any shape; for the one shape the enclave builds the exact condition is Preimages.IdentityKeyIsOwn.
- Preimages.RequestPreimageDecides: takes the JSON-valued members as their serialized bytes, and covers fields shorter than 2^64 bytes, the width of the length prefix.
- Receipts.ReadingExposesLoss: covers counters that have not come round, fewer than 2^64 receipts to the customer.
