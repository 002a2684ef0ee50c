# x402 SETTLE server — a Dafny model of its core

The server sells access to its routes for USDC using the x402 payment
protocol on Base Sepolia. For every paid request it queues a job that mints
SETTLE tokens to the payer. It keeps a JSON ledger of settlement entries and
a JSON log of settlement events, and it checks offline EIP-712 transfer
signatures.

This project models that core and proves properties of the model. There is
one module per concern.

- `Common` (common.dfy): values shared by the other modules.
  - `Option` and `Attempt`. `Attempt` stands for a call that may throw.
  - JavaScript's `NaN`-carrying numbers.
  - ASCII lower-casing and `String.prototype.slice`.
  - Decimal numerals, as read by `BigInt` and `parseFloat` and as printed by `toString`.
  - `parseInt(s, 16)`.
- `Types` (types.dfy): the records of src/types.d.ts.
  - The ledger entry `ReflashData`, here `Record`, and the mint job `airDrop`, here `Job`.
  - The x402 payment header and the settle response.
- `Units` (units.dfy): token arithmetic.
  - ethers' `parseUnits` on decimal strings, and the route prices in atomic USDC.
  - `MINT_RATE` = `parseUnits('7000', 18)`.
  - The SETTLE reward of a mint, and the reward the payment requirement quotes.
- `SignatureCheck` (signature.dfy): `checkSig`.
  - The validity window, then the `verifyTypedData` path.
  - The hand-split fallback through `TypedDataEncoder.hash` and `recoverAddress`.
  - The ethers calls are function-valued inputs (`Library`).
- `SettleLedger` (ledger.dfy): the settlement ledger and the event-log flush.
  - The ledger is `loadSettleFile` and `flushNewReflashData`; the event-log flush is `flushNow`.
  - Pure step functions `LoadStep`, `FlushStep` and `FlushNowStep` give one call's effect on the whole module state.
  - Class `Ledger` holds that state in fields and performs the same calls step by step. Its loops are proved to equal the step functions.
- `MintQueue` (mintqueue.dfy): `process_x402`.
  - `DrainStep` is one call; `Drain` follows the retries it schedules.
  - Class `MintService` updates the job queue, the signer ring and the recent-mint list in place.
- `PaymentGate` (paymentgate.dfy): the per-request pipeline.
  - `verifyPayment`, `checkx402paymentHeader`, `createExactPaymentRequirements` and `processPayment`.
  - The x402 library, the facilitator and `isAddress` are function-valued inputs (`Facilitator`).
  - `ProcessPayment` pushes the job onto a `MintService`.

The code fixes the following points, and the model follows it:

- The ledger's recent window (server.ts:333) and the mint queue's recent
  list (verify.ts:41) are two separate arrays. Nothing moves minted entries
  into the ledger, so the ledger flush only ever sees entries that a load put
  into the window.
- `flushNow` writes the event log directly, with no temporary file.
- `flushNow` sorts the pending records in place before it writes. They stay
  sorted when the write fails.

## Model

| member | source | states |
|---|---|---|
| Common.Slice | src/server.ts:99-101 | `slice(a, b)` clamps both ends to the string and returns exactly the characters between them |
| Common.ParseDecimal | src/verify.ts:121-122 | a value is accepted as a number exactly when it is a non-empty string of digits |
| Common.DecimalStringDigits | src/verify.ts:217 | `toString` of a natural number is a non-empty digit string with no leading zero |
| Common.DecimalRoundTrip | src/verify.ts:217 | reading back the printed numeral of n gives n |
| Common.ParseBigIntAccepts | src/verify.ts:278 | `BigInt` accepts a string exactly when it is all decimal digits, and the empty string reads as 0 |
| Common.ParseBigIntOfDecimal | src/verify.ts:217-278 | `BigInt(n.toString())` is n, so the amount a job records reads back at line 278 |
| Common.TrimStart | src/server.ts:101 | the result never starts with white space and is no longer than the input |
| Common.TrimStartRemovesSpace | src/server.ts:101 | what is kept is a suffix of the input, and every character removed is white space |
| Common.HexRun | src/server.ts:101 | `parseInt` reads the longest prefix of hex digits |
| Common.ParseIntHexByte | src/server.ts:101 | two hex digits parse to 16 times the first plus the second |
| Common.ParseIntHexOfNonHex | src/server.ts:101 | text that does not start with a hex digit, white space or a sign parses to NaN |
| Common.ParseIntHex | src/server.ts:101 | all-white-space text parses to NaN; a number needs a hex digit or a sign after the white space |
| Common.ParseIntHexSkipsSpace | src/server.ts:101 | a leading white-space character, including the Unicode space separators, does not change the result |
| Common.ParseIntHexAfterIdeographicSpace | src/server.ts:101 | U+3000 followed by "1" parses to 1 |
| Units.DotIndex | src/verify.ts:133 | the index found is the first '.' in the price, or its length when there is none |
| Units.ParseUnits | src/verify.ts:133 | the empty string, "." and "-" are refused, and only a leading '-' gives a negative amount |
| Units.ParseUnitsNegated | src/verify.ts:133 | a leading '-' negates the amount and is refused exactly when the unsigned text is |
| Units.ParseUnitsFixedPoint | src/verify.ts:133 | `parseUnits("w.f", d)` is w·10^d plus f shifted to its last fraction place, for f of at most d digits |
| Units.ParseUnitsWhole | src/verify.ts:36 | a whole number w parses to w·10^d |
| Units.ParseUnitsExtraDigits | src/verify.ts:133 | a price with more than d fraction digits is never rounded: it is refused unless every extra digit is 0, and then it is w·10^d plus its first d fraction digits |
| Units.ParseUnitsDropsZeros | src/verify.ts:133 | trailing zeros beyond d fraction digits do not change the amount: the price parses as the one cut after d fraction digits |
| Units.RoutePricesInAtomicUnits | src/verify.ts:133 | the route prices 0.001, 0.01, 0.1, 1.00, 10.00 and 100.00 are 10^3 … 10^8 atomic USDC units |
| Units.MintRateIsParsed | src/verify.ts:36 | `MINT_RATE` is `parseUnits('7000', 18)`, that is 7000·10^18 |
| Units.MintedReward | src/verify.ts:277-278 | the entry for n atomic USDC records n·7000·10^12 SETTLE units: exact, since the rate is a multiple of 10^6 |
| Units.AdvertisedReward | src/verify.ts:133-134 | the quote for n atomic USDC is 10^6 times the reward an entry for n records |
| Units.AdvertisedRewardOverstates | src/verify.ts:133-134 | the quoted reward is 10^6 times what an entry for the same amount records, and differs from it for every positive amount |
| Units.AdvertisedRewardCorrected | src/verify.ts:133-134 | the corrected quote is the as-written quote divided by the USDC scale |
| Units.CorrectedQuoteMatchesRecord | src/verify.ts:133-134 | with the correction, the 0.001 USDC price is quoted at the 7 SETTLE its job's entry records |
| SignatureCheck.InWindow | src/server.ts:33-42 | an inside window has no malformed bound; a window whose ends are both `now` contains it; with both bounds absent only the instant 0 is inside |
| SignatureCheck.PassesGate | src/server.ts:23-42 | passing needs an object, a non-empty signature, an EIP-712 part and `now` inside the window; with no validBefore every time after the epoch is refused |
| SignatureCheck.NormaliseV | src/server.ts:74-75 | v = 0 or 1 becomes 27 or 28, any other v is kept, and the result is never 0 or 1 |
| SignatureCheck.WithPrefix | src/server.ts:95 | the result starts with "0x"; a signature that has the prefix is kept, any other gets "0x" in front of it |
| SignatureCheck.RecoveryByte | src/server.ts:101-102 | a text that ends by position 130 gets the default "1b", that is 27; otherwise v is the normalised `parseInt` of the slice at 130..132; v is never 0 or 1 |
| SignatureCheck.SplitSignature | src/server.ts:95-102 | r and s are "0x" followed by the slices 2..66 and 66..130 of the prefixed text, for every length; for at least 132 characters they are 66 characters long and r, s and the v byte reassemble the text; a text of at most 130 characters gets v = 27; a longer one gets the normalised `parseInt` of 130..132; v is never 0 or 1 |
| SignatureCheck.SplitRecoveryByte | src/server.ts:101-102 | two hex digits at 130..132 give that byte, normalised, as v |
| SignatureCheck.Primary | src/server.ts:64-90 | the primary path answers only when `verifyTypedData` recovers an address equal to `from` and `Signature.from` succeeds; the answer is valid |
| SignatureCheck.Fallback | src/server.ts:92-138 | the fallback answers exactly when the digest and `recoverAddress` succeed; it carries the split r, s and v; valid iff the recovered address equals `from` |
| SignatureCheck.CheckSig | src/server.ts:15-143 | null outside the gate, and null when `types` does not parse or is not an object; v is never 0 or 1; valid iff the recovered address equals `from` |
| SignatureCheck.GateIgnoresLibrary | src/server.ts:22-42 | a missing input or a closed window gives null, whatever the library would answer |
| SignatureCheck.WindowBoundsInclusive | src/server.ts:35-41 | both window ends are accepted, and one second beyond either end is refused |
| SignatureCheck.PrimaryAccepts | src/server.ts:65-84 | a signature attributed to `from` that splits is accepted with its normalised recovery id |
| SignatureCheck.FallbackWhenPrimaryFails | src/server.ts:85-138 | when the primary path throws, mismatches or cannot split, the result is exactly the fallback's |
| SettleLedger.FirstOccurrences | src/server.ts:342-348 | deduplication keeps the key set and never lengthens the array |
| SettleLedger.FirstOccurrencesAreFirsts | src/server.ts:342-348 | deduplication keeps exactly the first item of each key, in order |
| SettleLedger.FirstOccurrencesDistinct | src/server.ts:342-348 | after deduplication no two items share a key |
| SettleLedger.FirstOccurrencesOfDistinct | src/server.ts:342-348 | an array with distinct keys is left as it is |
| SettleLedger.FirstOccurrencesIdempotent | src/server.ts:342-348 | deduplicating twice is deduplicating once |
| SettleLedger.Window | src/server.ts:366 | the window is the first min(20, n) entries of the cache |
| SettleLedger.Unpersisted | src/server.ts:301-309 | the selected entries are exactly the window entries whose hash is not indexed |
| SettleLedger.UnpersistedAppend | src/server.ts:301-309 | selection distributes over concatenation, so it keeps the window's order and multiplicity |
| SettleLedger.UnpersistedSingle | src/server.ts:302-304 | one entry is selected exactly when its hash is not indexed |
| SettleLedger.UnpersistedIdempotent | src/server.ts:315-316 | the second filter after the reload keeps every entry the first selected |
| SettleLedger.LoadStep | src/server.ts:334-368 | cache = deduplicated file or []; throws iff the file is missing and "[]" cannot be written; window reset unless it throws; the index never changes |
| SettleLedger.LoadResult | src/server.ts:342-366 | after a load, the cache holds the first entry of each key, keys are distinct, and the window is its first min(20, n) entries |
| SettleLedger.FlushStep | src/server.ts:296-331 | re-entry and an empty selection change nothing; the flag is cleared; the file is kept, set to [], or replaced by the new entries in front of the reloaded content; when the index grows it grows by exactly the written hashes, and with every I/O step succeeding the new content is written and indexed |
| SettleLedger.FlushCrashSafe | src/server.ts:318-325 | a failed temporary write or rename leaves the file, the cache and the index as the reload left them, and a failed rename leaves the new content in the temporary file; the index changes only after the rename succeeded |
| SettleLedger.LoadThenFlushDuplicates | src/server.ts:302-325 | as written, a file holding any one entry is rewritten holding it twice by the first flush after a load |
| SettleLedger.LoadIndexedStep | src/server.ts:334-368 | the corrected load behaves as the load and also indexes the loaded hashes |
| SettleLedger.IndexedLoadThenFlushWritesNothing | src/server.ts:296-331 | after the corrected load, a flush changes nothing whatever the I/O outcomes |
| SettleLedger.InsertDesc | src/server.ts:450 | insertion keeps every event once and keeps block numbers non-increasing |
| SettleLedger.SortByBlockDesc | src/server.ts:450 | the pending events end sorted by non-increasing block number, a missing one as 0, and are a permutation of the input |
| SettleLedger.FlushNowStep | src/server.ts:438-462 | nothing pending or re-entry changes nothing; the flag and the ledger are untouched; pending is cleared iff the write succeeds, which puts them, sorted, before the old log; otherwise the log is unchanged and no record is lost |
| SettleLedger.Ledger.constructor | src/server.ts:286-294 | an empty index, cache and window, the flag clear and no pending events |
| SettleLedger.Ledger.Load | src/server.ts:334-368 | the new state is `LoadStep`'s; `ok` iff it did not throw |
| SettleLedger.Ledger.Dedup | src/server.ts:342-348 | the loop's result equals `FirstOccurrences` |
| SettleLedger.Ledger.SelectNew | src/server.ts:301-309 | the loop's result equals `Unpersisted` |
| SettleLedger.Ledger.IndexHashes | src/server.ts:325 | the index gains exactly the written hashes and nothing else changes |
| SettleLedger.Ledger.FlushNewRecent | src/server.ts:296-331 | the new state is `FlushStep`'s |
| SettleLedger.Ledger.FlushNow | src/server.ts:438-462 | the new state is `FlushNowStep`'s |
| MintQueue.DrainStep | src/verify.ts:257-303 | no job or no signer changes nothing, with no retry; otherwise the signer rotates and a retry follows; a completed mint removes the head job and prepends its entry; anything else keeps both; no job is lost |
| MintQueue.Drain | src/verify.ts:257-303 | over any run of retries, the queue left is a suffix of the queue, and the old entries are a suffix of the new list |
| MintQueue.MintRecordReadsBack | src/verify.ts:286-292 | the entry carries the transaction hash, the job's wallet and amount, and a SETTLE text that reads back as the reward |
| MintQueue.DrainConserves | src/verify.ts:257-303 | over any run of retries, the k jobs that left the queue are its first k, exactly k entries are put in front of the old ones, and they carry those jobs' wallets and amounts, the first job's entry deepest; the signer multiset is kept |
| MintQueue.PrependMinted | src/verify.ts:286-292 | minting k jobs adds exactly k entries |
| MintQueue.AllMintStep | src/verify.ts:258-302 | a call that mints removes the head job, prepends its entry, and leaves a queue whose remaining calls all mint |
| MintQueue.DrainAllMintedJobs | src/verify.ts:258-302 | when every mint succeeds, k calls mint the first k jobs in queue order |
| MintQueue.DrainAllMintedRecent | src/verify.ts:286-292 | the entries of those k mints are prepended in minting order |
| MintQueue.FailedMintIsRetriedFirst | src/verify.ts:296-302 | a failed mint keeps its job at the head, so the retry mints that job |
| MintQueue.PaidJobRecordsSevenSettle | src/verify.ts:277-278 | a job for "1000" units records 7·10^18 SETTLE units |
| MintQueue.MintService.constructor | src/verify.ts:38-51 | an empty queue, the given signer pool and no entries |
| MintQueue.MintService.Enqueue | src/verify.ts:215-218 | the job is appended to the queue and nothing else changes |
| MintQueue.MintService.Step | src/verify.ts:257-303 | the new state and the retry flag are `DrainStep`'s |
| PaymentGate.FindMatching | src/verify.ts:84-86 | the result is the first requirement that matches; none when no requirement matches |
| PaymentGate.SelectRequirement | src/verify.ts:84-86 | the matching requirement when one exists, else the first; none only for an empty list |
| PaymentGate.VerifyPayment | src/verify.ts:53-110 | every refusal is a version-1 402 listing the requirements; a missing or empty header and an undecodable header are refused before verification; it passes iff the facilitator finds the stamped payment valid; a rejection carries the reason and the payer |
| PaymentGate.CheckPaymentHeader | src/verify.ts:112-127 | accepted iff the recipient is the SETTLE contract, case-insensitively, and the value is a numeral of at least the minimum |
| PaymentGate.CheckAcceptsExactly | src/verify.ts:112-127 | n units to the SETTLE contract, in any case, pass iff n reaches the minimum |
| PaymentGate.CheckExamples | src/verify.ts:112-127 | at minimum 1000: "999" is refused, "1000" accepted, an empty value and a transfer to `payTo` refused |
| PaymentGate.PaysAtLeast | src/verify.ts:113-124 | passing needs a non-empty numeral value and the recipient equal ignoring case; passing a minimum passes every lower one |
| PaymentGate.RequirementFor | src/verify.ts:227-255 | a requirement exists exactly when both `parseUnits` and the atomic-amount conversion succeed; it is exact, base-sepolia, JSON, pays `payTo` within 10 s for this resource, takes the amount and the asset from the conversion, names USDC version 2, and quotes the as-written reward |
| PaymentGate.HandlePaymentTo | src/verify.ts:129-225 | an unconvertible price gets no answer; a failed verification returns its 402; a verified payment that fails the header check gets a bare 402 and no job; 200 exactly when verification, the header check and the settle all succeed, with the receipt built from the settle response; a job iff paid with a valid payer, always for "1000" |
| PaymentGate.HandlePayment | src/verify.ts:129-225 | as written, a 200 implies the header check against the SETTLE contract passed, and a job implies a valid payer |
| PaymentGate.SettleFailureIsBare | src/verify.ts:160-201 | a thrown settle, an unreadable response or `success: false` each give a bare 402 and no job |
| PaymentGate.FixedMinimumNotRoutePrice | src/verify.ts:133-153 | the header check uses 1000 units whatever the route price: on the 100 USDC route (10^8 units) a verified, settled 1000-unit transfer to the SETTLE contract is answered 200 and queues a job for a valid payer |
| PaymentGate.JobAmountIsOneTenthCent | src/verify.ts:215-218 | every job records "1000", the 0.001 USDC price, which parses back to 1000, and its entry records 7 SETTLE |
| PaymentGate.JobSettleIsPrinted | src/verify.ts:217 | `toString` of 1000 is "1000" |
| PaymentGate.SettleContractIsNotPayTo | src/verify.ts:30-33 | the SETTLE contract address and `payTo` differ even ignoring case |
| PaymentGate.NeverPaidWhenRecipientChecked | src/verify.ts:88-113 | as written, with a facilitator that checks the recipient, no request is paid and no job is queued |
| PaymentGate.HandlePaymentCorrected | src/verify.ts:129-225 | the corrected handler pays only transfers of at least 1000 units to `payTo` |
| PaymentGate.CorrectedPaysVerifiedTransfer | src/verify.ts:129-225 | with the correction, a transfer to `payTo` that is verified and settled is answered 200 and queues a job for a valid payer |
| PaymentGate.ProcessPayment | src/verify.ts:129-225 | the answer is `HandlePayment`'s, and the mint queue gains exactly its job, if any |

## Left out

- HTTP and Express are not modelled: routing, status codes as sent, the header read, `res.json`, the `X-PAYMENT-RESPONSE` header write and the ISO timestamp. The timestamp and the header text are parameters.
- Time is not modelled. `Date.now()` in `checkSig` and the receipt timestamps are parameters.
- Timers are left out: the fixed five-minute `setInterval` that calls the ledger flush (server.ts:373) and the one-second `setTimeout` of `process_x402`. `Drain` takes one outcome per scheduled call instead.
- The fire-and-forget `process_x402()` trigger is not modelled. `ProcessPayment` only enqueues the job.
- Concurrency is not modelled. Interleavings of the async flushes and of overlapping requests are left out; each call is atomic. The `flushing` flag is kept, so its re-entry guard is modelled.
- ethers, the x402 library and the facilitator service are function-valued inputs. Their behaviour is not modelled: `verifyTypedData`, `Signature.from`, `TypedDataEncoder.hash`, `recoverAddress`, `decodePayment`, `verify`, `settle`, `settleResponseHeader`, `processPriceToAtomicAmount` and `isAddress`.
- `formatEther` is not modelled. The requirement's description carries the quoted reward as a number rather than its formatted text.
- The file system and JSON are not modelled. Each file is Missing, Unreadable, NotAnArray or an array of items.
- SettleLedger.Serialise: JSON string escaping is left out. Key order is fixed to the record's declaration order.
- Non-object items in the settle file are left out. The dedup key treats a missing hash as the empty string.
- The amount the SETTLE contract mints on chain for `mint(wallet, "1000")` (verify.ts:272-274) is outside this model. The model records only the value that line 278 computes for the entry.
- Common.ParseIntHex: it does not state that unsigned text parses to a non-negative number. Only the all-white-space case and the first character after the white space are stated.
- MintQueue.DrainStep: a mint that succeeds on chain but whose `BigInt(obj.settle)` then throws is modelled only as the job being re-queued. That the tokens were already minted is not recorded.
- PaymentGate.CheckPaymentHeader: `parseFloat` is modelled on decimal numerals only. Signs, fractions, exponents and trailing text (where `parseFloat` accepts a numeric prefix) are left out, as are floating-point rounding and `Infinity`.
- Common.ParseBigIntAccepts: `BigInt` is modelled on decimal numerals and the empty string only. Whitespace, signs and the 0x/0o/0b forms are left out.
- SignatureCheck.CheckSig: `Number(validAfter)` and `Number(validBefore)` are compared as exact integers. Precision loss above 2^53 is left out.
- SignatureCheck.CheckSig: the chainId `Number(...)` conversion is modelled on decimal numerals only, with other text giving NaN.
- SignatureCheck.CheckSig: a `types` value that is an array is left out. It is an object in JavaScript and would pass the check.
- Common.Slice: strings are sequences of Unicode scalar values, while JavaScript's `length` and `slice` count UTF-16 code units. For a signature holding a character outside the Basic Multilingual Plane, the split positions of server.ts:95-102 differ from the model's. No proved property depends on this.
- Lower-casing is ASCII-only. Hex addresses are ASCII, so the address comparisons are unaffected.
- Units.ParseUnits: ethers' 512-bit overflow check, its handling of a leading '+' and its other error texts are left out.
- SettleLedger.SortByBlockDesc: the sort is specified as sorted and a permutation. The relative order of records with equal block numbers (`Array.prototype.sort` is stable) is not stated.
- offisig.ts and util.ts are not part of this model, nor the route table, the facilitator pool and `initSettlePersistence`. The model takes the route prices as inputs.

## Findings

| source | as written | input that shows it | evidently intended | confidence | as-written member | corrected member |
|---|---|---|---|---|---|---|
| src/server.ts:334-368 | a load fills the window from the file but never adds the loaded hashes to `persistedHashes` | a settle file holding one entry `e`, loaded and then flushed with every I/O succeeding, is rewritten as `[e, e]` | loaded entries count as already written, so the flush writes nothing new | not executed | SettleLedger.LoadThenFlushDuplicates | SettleLedger.LoadIndexedStep, SettleLedger.IndexedLoadThenFlushWritesNothing |
| src/verify.ts:133-134 | the requirement's description quotes `parseUnits(price, 6) * MINT_RATE` | price "0.001" quotes 7,000,000 SETTLE, while the entry for its mint job records 7 SETTLE | the quote divides by 10^6, as the mint does at verify.ts:277-278 | not executed | Units.AdvertisedRewardOverstates | Units.AdvertisedRewardCorrected, Units.CorrectedQuoteMatchesRecord |
| src/verify.ts:113 | the header check demands recipient `0x8335…2913`, while the requirement announces `payTo` `0xe11B…9625` | a payment the facilitator verifies against `payTo`: it always fails the header check, so it gets a bare 402 | the header check demands the announced `payTo` | not executed; depends on the facilitator checking the recipient | PaymentGate.NeverPaidWhenRecipientChecked | PaymentGate.HandlePaymentCorrected, PaymentGate.CorrectedPaysVerifiedTransfer |
