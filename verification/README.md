# OpenBlob: a verified model

OpenBlob collects short signed messages (microblobs), packs batches of them into EIP-4844 blob
transactions, proves the batches in a zero-knowledge guest, and settles them in a contract that holds
ether. This project models that pipeline in Dafny and proves what its parts promise:

* **Cron** (`Calendar`, `CronSearch`, `CronYear`, `Text`, `Numerals`, `CronParser`). The jumping search for the
  next firing minute refines the minute-by-minute search: it returns the least firing minute, and throws exactly when there is
  none, for the proleptic Gregorian calendar of ECMA-262, section 21.4.1. The parser is proved on the whole
  documented grammar, with JavaScript's reading of numbers down to the rounding to doubles.
* **Blob codec and guest** (`Bytes`, `FieldPacking`, `Rlp`, `Abi`, `Guest`). Packing is a bijection onto
  canonical blobs; RLP decoding succeeds exactly on canonical encodings followed by padding; the guest's flat
  public-inputs layout is the head/tail encoding of the Solidity ABI and is injective; and the guest commits
  exactly for the inputs that one relation accepts, with an output determined by a unique list of entries.
* **Collector store** (`Kv`, `Interleaving`, `Ordering`, `Counting`, `Publisher`, `Bundler`, `Draining`). A
  versionstamped map with three indexes; an invariant over every interleaving of submissions and bundling
  workers, and where each stored record comes from; the trimming of a batch to six blobs; the list, publish,
  mark sequence of the cron job; and what repeated runs of it bundle in the end.
* **Settlement and fetcher** (`Settlement`, `Soundness`, `Fetcher`). The contract over arbitrary trees of
  reentrant and reverted calls; the cached blob fetcher against naive lookup, up to the entries that the guest
  reads out of the fetched bytes; and, across the components, what an accepted proof binds: which entries and which public inputs have a guest run, and which settlements the
  contract therefore lets through.

Code that changes state step by step is modelled by methods with loops and by two classes
(`Bundler.KvServer`, `Settlement.OpenBlob`), each tied to a specification function; the lemmas are about
those functions. Panics and exceptions are `None` or `Err`. Keccak-256, secp256k1 recovery, the proof
verifier and the network's answers are parameters.

`dafny verify dfyconfig.toml` checks the whole project.

## Where the code and its documentation differ

The model follows the code in each case.

* `listMicroblobsByTx` (`collector/app/lib/kv.server.ts:111-113`) is documented to return the RLP entry
  order. It returns the reverse, because the pending list is read newest first: of any two pending records
  the newer is sent first and found last (`Bundler.NewerSentOlderFound`, with two concrete records in
  `Bundler.OrdersDiffer`). The two orders agree exactly for batches of at most one record
  (`Bundler.LookupReverses`, `Bundler.SameOrderIffSingle`).
* `nextCronRun` (`collector/app/lib/cron.ts:96-99`) is documented to throw if nothing matches within one
  year. For `0 0 29 2 *` and 29 February 2096 it returns 29 February 2104 (`CronParser.LeapDayExpression`,
  `CronYear.NextRunBeyondOneYear`). The documented limit is true of a schedule, whatever the start, exactly
  when 29 February is not the only date that satisfies it (`CronYear.OneYearIffNotOnlyLeapDays`). The code
  throws exactly for schedules that can never fire, or past the end of the Date range
  (`CronSearch.SearchFrom`, `CronSearch.NeverFiresIffImpossible`).
* What does not fit a transaction is documented to be left for the next tick
  (`collector/app/lib/blob-publisher.server.ts:14-15`). A record that needs more than six blobs on its own is
  never sent, and everything older than it waits behind it for ever; the queue drains exactly when each pending
  record fits alone (`Draining.RunRepeatedly`, `Draining.DrainsIffEachFits`).
* The circuit is documented to fetch each referenced blob's contents and to keep each user's expenses within the
  deposits (`src/OpenBlob.sol:89-94`). The guest (`ziskProgram/guest/src/main.rs:45-101`) does neither: public
  inputs have a run exactly when they reference a blob (`Soundness.InputsBoundIff`), the entries of a run are
  bound only in their total size (`Soundness.EntriesBoundIff`), a request can be settled exactly when it starts at
  the current root, can be paid and references a blob, collisions aside (`Soundness.SettleableIff`), and so a
  request for all the ether of the contract can (`Soundness.LimitsAreNotEnforced`).
* `proofBlobDA` (`src/OpenBlob.sol:134-136`) is documented to need a fresh proof for any reentrant call. A
  request that leaves the root where it is, made again by the recipient while it is paid, is paid twice on one
  proof: with a root of zero, two wei deposited and a payment of one, in a single transaction
  (`Settlement.ReentrantCallReusesProof`). The exact conditions are `Settlement.ReentrantReuseIff` for that
  call, `Settlement.ReplayAcceptedIff` for any earlier settlement at any later moment, and, over all runs,
  `Settlement.PaidOnceIffNoReturn`: no digest is paid twice, collisions aside, if and only if no accepted walk
  of the root from zero returns to a root that a settlement started from while the block hash bound by that
  settlement can still be had.
* `fetch_blob_data` (`ziskProgram/blob-sync/src/lib.rs:180-182`) is documented to fit the guest's input. Its
  length is accepted exactly when every referenced transaction carries one blob (`Fetcher.GuestLengthCheck`);
  a reference to a transaction with two blobs is fetched and then rejected (`Fetcher.FetchedButRejected`).
* `putMicroblob` writes without a check. On an id that is already stored the indexes stay right exactly when
  the old record is pending with the same creation time (`Kv.PutAgreesIff`).
* The emptiness check at the end of `parseField` (`collector/app/lib/cron.ts:65`) never fires
  (`CronParser.ParseField`).

## Model

| member | source | states |
|---|---|---|
| Calendar.DayFromYearFormula | collector/app/lib/cron.ts:108-114 | The day count by adding up years equals the closed formula of ECMA-262, section 21.4.1.3, behind the Date getters. |
| Calendar.CivilOf | collector/app/lib/cron.ts:108-113 | Year, month and day of a day number: a real date of the calendar that counts back to the same day. |
| Calendar.CivilRoundTrip | collector/app/lib/cron.ts:108-128 | A day number and a valid (year, month, date) determine each other. |
| Calendar.MonthJumpStaysInside | collector/app/lib/cron.ts:117-121 | Every day the month jump skips lies in the month it leaves. |
| Calendar.LeapYearWithinEight | collector/app/lib/cron.ts:104-106 | A leap year comes within eight years, also across a century that is not one. |
| CronSearch.FiresIff | collector/app/lib/cron.ts:108-135 | When a schedule fires, in terms of the civil date, the weekday `(day + 4) % 7`, the hour and the minute alone: with both day fields restricted either one may match, with one restricted that one must. |
| CronSearch.BothRestricted | collector/app/lib/cron.ts:89-94 | With both day fields restricted the firings are the union of those under each field alone. |
| CronSearch.MonthJumpQuiet | collector/app/lib/cron.ts:117-121 | In a month that is not listed, nothing fires before the first instant of the next month. |
| CronSearch.DayJumpQuiet | collector/app/lib/cron.ts:123-126 | On a day that does not match, nothing fires before the next day. |
| CronSearch.HourJumpQuiet | collector/app/lib/cron.ts:127-130 | In an hour that is not listed, nothing fires before the next hour. |
| CronSearch.MinuteStepQuiet | collector/app/lib/cron.ts:131-134 | From a whole minute that is not listed, nothing fires before the next minute. |
| CronSearch.NextDayTime | collector/app/lib/cron.ts:124 | `Date.UTC` with day D + 1 is the start of the following day even where D + 1 overflows the month or year. |
| CronSearch.NextHourTime | collector/app/lib/cron.ts:128 | `Date.UTC` with hour h + 1 is the end of the current hour even for hour 24. |
| CronSearch.MatchWithinHorizon | collector/app/lib/cron.ts:104-106 | Any schedule that is not impossible by its fields matches a minute within 3295 days of any start. |
| CronSearch.NeverFiresIffImpossible | collector/app/lib/cron.ts:89-94 | A schedule never fires if and only if only the day of month is restricted and each listed day exceeds each listed month, February counted as 29. |
| CronSearch.WholeHourChecked | collector/app/lib/cron.ts:127-134 | Minute stepping runs past the end of a matching hour only in the hour where the search started. |
| CronSearch.ExhaustedMeansImpossible | collector/app/lib/cron.ts:106-137 | Using up the iteration cap implies that no firing minute is left. |
| CronSearch.Round | collector/app/lib/cron.ts:108-135 | The loop body: every jump keeps the search sound, and it stops only at a firing minute. |
| CronSearch.SearchFrom | collector/app/lib/cron.ts:100-138 | The jumping loop returns the least firing minute strictly after the start, whose date, weekday, hour and minute the listed fields admit; it throws iff none is left, which away from the end of the Date range means iff the schedule is impossible; it needs under 80000 of the 527040 rounds. |
| CronYear.MatchWithinYear | collector/app/lib/cron.ts:96-106 | Every schedule that is neither impossible nor satisfied by 29 February alone matches within 366 days of any start. |
| CronYear.OneYearIffNotOnlyLeapDays | collector/app/lib/cron.ts:96-99 | The documented limit of one year, that something fires within a year if anything fires later, is true of a schedule for every start iff 29 February is not its only date. |
| CronYear.NextRunBeyondOneYear | collector/app/lib/cron.ts:96-99 | For the schedule of 29 February the next firing after 2096 is in 2104, beyond the documented year. |
| CronSearch.NextRuns | collector/app/lib/cron.ts:96-138 | Calling the search n times on its own results gives exactly the first n firings in order, or all there are when it throws. |
| Text.SplitOfJoin | collector/app/lib/cron.ts:36 | Splitting a joined list of separator-free parts gives the parts back. |
| Text.SpaceIff | collector/app/lib/cron.ts:70 | The characters that `trim` and `\s` take for blanks, by code point. |
| Text.WordsStep | collector/app/lib/cron.ts:70 | Leading blanks are dropped and a word ends at the first blank. |
| Numerals.SmallIsExact | collector/app/lib/cron.ts:41-58 | Integers below 2^53 are read exactly. |
| Numerals.LargeStaysLarge | collector/app/lib/cron.ts:41-58 | Larger integers are rounded to a double, or read as infinite, but never fall below 2^53. |
| Numerals.NumberOfDecimal | collector/app/lib/cron.ts:41-58 | `Number` of a printed integer is the double nearest to it. |
| Numerals.NotANumber | collector/app/lib/cron.ts:41-58 | A text with a character that no numeral has, such as a letter of `MON`, is no number. |
| CronParser.PartValue | collector/app/lib/cron.ts:37-62 | An accepted part denotes a progression with positive step whose ends lie in the field's bounds, in order. |
| CronParser.NoSlash | collector/app/lib/cron.ts:37-59 | A text without a slash has step one, and its ends are those of the whole text. |
| CronParser.WithSlash | collector/app/lib/cron.ts:39-42 | A range, a slash and a step: the step is the number after the slash, and the ends are those of the range. |
| CronParser.DashJoins | collector/app/lib/cron.ts:52-55 | Two texts joined by a dash are no star, hold no slash, and split into the two. |
| CronParser.ReadPart | collector/app/lib/cron.ts:36-62 | The imperative reading of one part, with its two error branches, computes what the part denotes. |
| CronParser.AddProgression | collector/app/lib/cron.ts:63 | The stepping loop adds exactly the members of the arithmetic progression up to the bound. |
| CronParser.ParseField | collector/app/lib/cron.ts:34-67 | The field parser yields the union of its parts or the leftmost error; a result is never empty and stays in bounds. |
| CronParser.PartOfItem | collector/app/lib/cron.ts:7-13 | A printed item of the documented grammar is accepted iff it fits the bounds and its step is positive and finite as a double, and then denotes its documented values, also when a huge step is rounded. |
| CronParser.FieldOfGrammar | collector/app/lib/cron.ts:7-13 | A comma list of such items is accepted iff every item fits, and then denotes exactly their union. |
| CronParser.CommaListRoundTrip | collector/app/lib/cron.ts:34-67 | Printing a non-empty set of in-range values as a comma list, in any order, parses back to that set. |
| CronParser.FoldSunday | collector/app/lib/cron.ts:75-77 | The loop keeps each weekday but 7, and puts 0 for it: 0 is in the result iff 0 or 7 was listed. |
| CronParser.ParseCron | collector/app/lib/cron.ts:69-87 | Five fields, checked in the order of the source, with weekday 7 folded to 0; every parsed schedule is within bounds. |
| CronParser.ScheduleRoundTrip | collector/app/lib/cron.ts:69-87 | Five printed fields with any spacing parse to the schedule they denote; a day field is unrestricted iff it is the single item `*`. |
| CronParser.NextCronRun | collector/app/lib/cron.ts:100-138 | From text to answer: a parse error wins, otherwise the least firing minute, or the error exactly when there is none. |
| CronParser.LeapDayExpression | collector/app/lib/cron.ts:69-87 | The text `0 0 29 2 *` parses to the schedule of 29 February. |
| FieldPacking.PackingUnique | ziskProgram/common/src/lib.rs:143-236 | A payload has at most one packing and a blob at most one payload. |
| FieldPacking.PackingExists | ziskProgram/common/src/lib.rs:217-236 | Every payload of 31 n bytes has a packing. |
| FieldPacking.CanonicalIffPacked | ziskProgram/common/src/lib.rs:196-215 | A blob is a packing of some payload iff every field element starts with a zero byte. |
| FieldPacking.PackingConcat | ziskProgram/common/src/lib.rs:238-253 | Packing blob by blob packs the joined stream, so entries may straddle blobs. |
| FieldPacking.PackedByte | ziskProgram/common/src/lib.rs:225-234 | Payload byte 31 i + j stands at place 32 i + 1 + j, behind a zero byte at 32 i. |
| FieldPacking.PackedBelowModulus | ziskProgram/common/src/lib.rs:225-234 | Every packed field element is below the BLS12-381 scalar modulus. |
| FieldPacking.PackBlob | ziskProgram/common/src/lib.rs:220-236 | Succeeds iff the payload fits; then every byte of the blob is that of the payload in its place, and zero everywhere else. |
| FieldPacking.UnpackBlob | ziskProgram/common/src/lib.rs:199-215 | Succeeds iff the length is right and the blob canonical, and then returns the payload it packs. |
| FieldPacking.UnpackAfterPack | ziskProgram/common/src/lib.rs:196-236 | Unpacking a packed payload returns it, zero-padded. |
| FieldPacking.UnpackBlobs | ziskProgram/common/src/lib.rs:241-253 | Succeeds iff the whole byte string has the length of n blobs and every element of it is canonical; the result packs to it. |
| FieldPacking.DecodeFieldElements | ziskProgram/blob-sync/src/decode.rs:29-39 | The fetcher's decoder accepts the same blobs with the same payload, and otherwise reports the least bad element and its byte. |
| Rlp.HeaderOfPrefix | ziskProgram/common/src/lib.rs:266-274 | Reading a header that was written gives back kind and length, for short and long forms. |
| Rlp.PrefixOfHeader | ziskProgram/common/src/lib.rs:266-274 | Every header that is read is the canonical one: no non-minimal length gets through. |
| Rlp.StringForm | ziskProgram/common/src/lib.rs:299-318 | The encoding of a string as the Yellow Paper, Appendix B, writes it: a low byte alone, a one-byte prefix up to 55 bytes, and otherwise a prefix with the big-endian length. |
| Rlp.ListForm | ziskProgram/common/src/lib.rs:299-318 | The encoding of a list in the same terms: its items behind a one-byte prefix up to 55 bytes, and otherwise behind a prefix with the big-endian length. |
| Rlp.StringIff | ziskProgram/common/src/lib.rs:277-281 | A byte string decodes to `e` iff the input starts with the canonical encoding of `e`. |
| Rlp.ItemsIff | ziskProgram/common/src/lib.rs:276-281 | A list body decodes to `es` iff it is exactly the encodings of `es`, nothing left over. |
| Rlp.EntriesIff | ziskProgram/common/src/lib.rs:264-289 | The decoder returns `es` iff `es` has no empty entry and its canonical encoding is a prefix of the stream. |
| Rlp.DecodeEntries | ziskProgram/common/src/lib.rs:264-289 | The decoding loops compute that relation, for all inputs and all candidate lists at once. |
| Rlp.ReadingUnique | ziskProgram/common/src/lib.rs:255-289 | No stream has two readings. |
| Rlp.RoundTrip | ziskProgram/common/src/lib.rs:255-318 | An encoded list followed by any padding decodes to the list, or is rejected if an entry is empty. |
| Rlp.EncodeEntries | ziskProgram/common/src/lib.rs:299-318 | The two-pass encoder (length sum, then bytes) writes the canonical list encoding. |
| Rlp.EncodeItemsAppend | ziskProgram/common/src/lib.rs:299-318 | The items of a list stand in the order of the entries. |
| Rlp.LengthStrictlyGrows | collector/app/lib/blob-publisher.server.ts:129-136 | Adding an entry makes the encoding strictly longer, also where the list prefix changes form. |
| Abi.FlatIsContractEncoding | ziskProgram/common/src/lib.rs:164-194 | The flat word layout of the six values equals the head/tail encoding of the ABI standard that the contract's `abi.encode` produces, for reference arrays of any length. The prover side calls alloy's `abi_encode_params`, which is not part of this model: the flat layout stands for its output. |
| Abi.PreimageWords | src/OpenBlob.sol:121-130 | What the contract hashes, word by word: the offset 192, the roots, the amount, the block hash, the sender behind twelve zero bytes, the number of references, and their block and transaction numbers in order. |
| Abi.PreimageInjective | src/OpenBlob.sol:121-130 | Equal preimages mean equal references, roots, amount, block hash and sender. |
| Guest.SignedMessageInjective | ziskProgram/common/src/lib.rs:75-107 | The EIP-191 message determines the signed data. |
| Guest.RecoverIff | ziskProgram/common/src/lib.rs:76-107 | An entry recovers to an address iff v is 27 or 28, twice s is below the order of the curve, and recovery with parity `v == 28` from the digest of the header, the decimal length and the entry gives that address. |
| Guest.NotMalleable | ziskProgram/common/src/lib.rs:89-97 | Of two signatures whose s add up to the order of the curve at most one is accepted. |
| Guest.DigestBindsCall | ziskProgram/common/src/lib.rs:155-194 | The guest's digest equals the contract's iff the public inputs agree, unless the preimages collide. |
| Guest.SumEther | ziskProgram/common/src/lib.rs:325-331 | The word returned is the true sum, or 2^256 - 1 if the sum is larger: it clamps and never wraps. |
| Guest.TotalEtherOrderFree | ziskProgram/common/src/lib.rs:320-331 | The sum does not depend on the order of the entries. |
| Guest.TotalEtherAdds | ziskProgram/common/src/lib.rs:325-331 | The sum of one amount is that amount, and the sum of a list is that of its parts. |
| Guest.KeccakSigners | ziskProgram/common/src/lib.rs:342-350 | Absorbing address by address hashes the concatenation. |
| Guest.ConcatAddressesIs | ziskProgram/common/src/lib.rs:342-350 | Bytes 20 k to 20 k + 20 of what is hashed are signer k. |
| Guest.ConcatAddressesInjective | ziskProgram/common/src/lib.rs:333-350 | The hashed bytes determine the signers and their order. |
| Guest.CarriedIsDecoded | ziskProgram/common/src/lib.rs:241-289 | The blobs carry `es` iff their unpacked stream decodes to `es`. |
| Guest.CarriedUnique | ziskProgram/common/src/lib.rs:241-289 | Blob bytes carry at most one list of entries. |
| Guest.RecoverAll | ziskProgram/guest/src/main.rs:77-80 | The loop succeeds iff every pair recovers, and collects the signers in entry order (`Guest.OpensIff` says what that means). |
| Guest.OpensIff | ziskProgram/guest/src/main.rs:45-101 | Acceptance in plain terms: the digest is the contract's hash of the inputs, the blobs carry the entries, there is one authorization for each, and each is a low-s signature of its entry that recovers to the signer at its place. |
| Guest.CommittedWords | ziskProgram/guest/src/main.rs:88-100 | The committed bytes are digest, verdict, total and signers' hash, one word each, in that order. |
| Guest.CommittedBytesInjective | ziskProgram/guest/src/main.rs:88-100 | The committed bytes are four words and determine the output. |
| Guest.RunGuest | ziskProgram/guest/src/main.rs:45-101 | The guest commits iff some entries and signers satisfy the plain condition of `Guest.OpensIff`, and then commits the digest, 1, the capped sum of the amounts, and the hash of those signers joined in entry order. |
| Guest.EndToEnd | ziskProgram/common/src/lib.rs:199-318 | Encode, pad arbitrarily to whole blobs, cut, pack each: the result carries the original entries. |
| Kv.PutAgrees | collector/app/lib/kv.server.ts:50-58 | Storing a pending record with a fresh id keeps all three indexes exact. |
| Kv.PutAgreesIff | collector/app/lib/kv.server.ts:50-58 | For any id: the indexes stay exact iff nothing, or a pending record of the same creation time, is overwritten. |
| Kv.NormalizeLowers | collector/app/lib/kv.server.ts:46-48 | Normalizing adds 32 to each capital ASCII letter and changes nothing else. |
| Kv.BundleAgrees | collector/app/lib/kv.server.ts:86-102 | The checked commit of a pending record keeps all three indexes exact. |
| Kv.MarkAllEffect | collector/app/lib/kv.server.ts:80-106 | Without interference, in whatever store, exactly the listed pending records become bundled under the hash; each keeps id, address, payload, signature, hash and creation time and takes the time of the first round with its id; the count is their number, also with repeated ids. |
| Interleaving.RunKeeps | collector/app/lib/kv.server.ts:80-106 | Every interleaving keeps the indexes exact, the success counts equal to the number of bundled records, and each bundled record under the hash of a worker that was given its id; a record changes at most once, from pending to bundled, and keeps id, address, payload, signature, hash and creation time. |
| Interleaving.ReachableOk | collector/app/lib/kv.server.ts:35-106 | The same for every state reachable from the empty store, with the index keys in plain terms: pending by creation time, bundled by bundling time, and by transaction hash and creation time. |
| Interleaving.StoredHasOrigin | collector/app/lib/kv.server.ts:50-106 | In every reachable state each stored record was submitted during the run with the content it has, and a bundled one carries the time of a commit and the lower-cased hash of a call that was given its id. |
| Interleaving.BundledIsFinal | collector/app/lib/kv.server.ts:86-94 | Once bundled, a record and its transaction hash never change in any continuation. |
| Interleaving.CommitSucceedsIffUntouched | collector/app/lib/kv.server.ts:95-103 | In every reachable state a commit succeeds iff the entry it read is still stored, which is then pending. |
| Interleaving.SubmitKeeps | collector/app/routes/api.microblobs.ts:55-64 | A submission keeps the invariant, whatever the workers hold. |
| Interleaving.LoopIsARun | collector/app/lib/kv.server.ts:80-106 | A worker that runs without interruption is one of the interleavings and does what the sequential loop does. |
| Publisher.PrefixFits | collector/app/lib/blob-publisher.server.ts:129-136 | A proper prefix of a batch encodes strictly shorter. |
| Publisher.PublishMicroblobs | collector/app/lib/blob-publisher.server.ts:124-144 | The trimming loop returns the longest non-empty prefix within six blobs, or reports the blob count of the first record alone. |
| Publisher.TrimmingIsExact | collector/app/lib/blob-publisher.server.ts:129-139 | With a monotone blob count the fitting prefixes are exactly those up to the batch sent, and the error is thrown iff the first record alone does not fit. |
| Bundler.SortIsStable | collector/app/lib/kv.server.ts:131 | The final sort is ascending by creation time and keeps the order of records of one time. |
| Bundler.PendingListing | collector/app/lib/kv.server.ts:66-78 | The pending list holds stored pending records, latest creation time first and ids of one time in descending order; a pending record is left out only if the list is full, and is then older than all listed ones. |
| Ordering.TextLessIff | collector/app/lib/kv.server.ts:66-78 | The order of ids in a listing is the lexicographic one. |
| Bundler.KvServer.PutMicroblob | collector/app/lib/kv.server.ts:50-58 | The unconditional atomic write of a record and its status key. |
| Bundler.KvServer.ListMicroblobs | collector/app/lib/kv.server.ts:66-78 | The newest records of a status index, at most the limit, missing ones dropped. |
| Bundler.KvServer.MarkBundled | collector/app/lib/kv.server.ts:80-106 | Under the lower-cased hash, and from any store: exactly the listed pending records become bundled, with their content unchanged and the time of their first round, the count is their number, and exact indexes stay exact. |
| Bundler.KvServer.ListMicroblobsByTx | collector/app/lib/kv.server.ts:119-132 | The records of the by-transaction index of the lower-cased hash, stably sorted by time. |
| Bundler.KvServer.ProcessPending | collector/app/lib/bundler-cron.server.ts:50-71 | The batch is the longest fitting prefix of the newest 100 pending records, empty only if nothing is pending, nothing can be sent or nothing fits; exactly its records become bundled with their content unchanged, all indexes stay exact, and under a fresh hash the lookup returns the encoded payloads backwards. |
| Bundler.MarkedBatch | collector/app/lib/bundler-cron.server.ts:65-70 | Marking a published batch bundles exactly its records, with their content unchanged, and the count is its size. |
| Bundler.LookupReverses | collector/app/lib/kv.server.ts:119-132 | Under a fresh hash, the lookup by transaction returns exactly the published records in reverse order, and their payloads are the entries that were encoded, last one first. |
| Bundler.SameOrderIffSingle | collector/app/lib/kv.server.ts:111-113 | The documented agreement with the published order holds iff the batch has at most one record. |
| Bundler.NewerSentOlderFound | collector/app/lib/kv.server.ts:111-113 | Of any two pending records the newer is sent first, and the lookup returns the older first. |
| Bundler.OrdersDiffer | collector/app/lib/kv.server.ts:111-113 | Two concrete records that fit one blob, sent in one order and found in the other. |
| Rlp.EntryAlone | collector/app/lib/blob-publisher.server.ts:129-136 | A list encodes at least as long as the list of any one of its entries. |
| Draining.RunDrains | collector/app/lib/bundler-cron.server.ts:50-71 | A run bundles no record that is too large alone or older than a pending one that is, changes nothing else and no record's content, and bundles at least one record unless only such are pending. |
| Draining.RunRepeatedly | collector/app/lib/bundler-cron.server.ts:84-92 | Without submissions, after as many runs as records were pending, exactly those too large alone and those older than one of them are still pending; all others are bundled. |
| Draining.DrainsIffEachFits | collector/app/lib/blob-publisher.server.ts:14-15 | Nothing is left for ever iff each pending record fits a transaction of its own. |
| Settlement.ExecKeeps | src/OpenBlob.sol:104-143 | Any call, with nested reentrant calls and rollbacks, conserves ether, keeps the settlements a walk of accepted requests from the zero root to the current one, and lowers no balance. |
| Settlement.WalkLinks | src/OpenBlob.sol:115-137 | In such a walk each settlement is accepted, starts at the root the previous one left, the first at zero, and is in no earlier block. |
| Settlement.PayoutsCovered | src/OpenBlob.sol:72-143 | Over every run of transactions, ether equals deposits plus forced ether less payouts, so payouts never exceed what came in. |
| Settlement.SettlementForest | src/OpenBlob.sol:132-142 | The settlements of a call form a tree: roots rotate in pre-order, events appear in post-order, innermost first. |
| Settlement.EventsMatchSettlements | src/OpenBlob.sol:137-142 | Every surviving settlement has exactly one event. |
| Settlement.RepeatMeansReturn | src/OpenBlob.sol:115-137 | Inputs settled twice mean that the root returned in between, with the block hash still to be had. |
| Settlement.WalkIsARun | src/OpenBlob.sol:104-143 | Every accepted walk from the zero root is the history of a run with as much ether left as wanted. |
| Settlement.DigestPaidOnce | src/OpenBlob.sol:115-142 | If no accepted walk returns, each digest is paid at most once over every run, collisions aside. |
| Settlement.ReturnPaysTwice | src/OpenBlob.sol:115-142 | If one returns, some run pays one digest twice without any collision. |
| Settlement.PaidOnceIffNoReturn | src/OpenBlob.sol:115-142 | The two together: an if-and-only-if about the verifier and the chain alone, over all runs. |
| Settlement.AcyclicNeverReturns | src/OpenBlob.sol:115-142 | Acyclic accepted edges rule out every return, whatever the block hashes. |
| Settlement.ReplayAcceptedIff | src/OpenBlob.sol:115-140 | At any later moment, also while a recipient is being paid, an earlier request is settled again with the same inputs iff the root is back, `blockhash` of its block number is unchanged, the ether suffices and the recipient does not revert. |
| Settlement.ProofSettlesOnlyItsInputs | src/OpenBlob.sol:118-132 | A proof that the verifier accepts for one digest settles, collisions aside, only requests with the sender, amount, roots, references and block hash of that digest: nobody else can use it. |
| Settlement.OneDigestOneRequest | src/OpenBlob.sol:118-132 | Two settlements with one digest have, collisions aside, the same sender, amount, roots and references. |
| Settlement.ReentrantReuseIff | src/OpenBlob.sol:134-140 | A recipient that makes the request again while it is paid is paid twice on the one proof iff the request does not move the root and the ether covers both payments; otherwise once. |
| Settlement.ReentrantCallReusesProof | src/OpenBlob.sol:134-136 | For every hash function and chain there is a verifier and a run of one deposit of two and one transaction that settles one digest twice, pays two and leaves nothing. |
| Settlement.OpenBlob.constructor | src/OpenBlob.sol:66-69 | Deployment starts at the zero root with no balance, and the invariant holds. |
| Settlement.OpenBlob.DepositFor | src/OpenBlob.sol:72-75 | Adds the value to the balance of the named beneficiary and to no other, and takes it, or reverts whole on overflow. |
| Settlement.OpenBlob.ProofBlobDA | src/OpenBlob.sol:104-143 | The imperative body, which reads `blockhash` in the current block and pays with a callback in the middle, does what the call semantics say, and undoes everything on failure. It succeeds only if the verifier accepts the hash of the encoding of the request's references, roots, amount, the block hash of its block number, and its sender. |
| Settlement.OpenBlob.Pay | src/OpenBlob.sol:139-140 | The transfer succeeds iff the ether suffices and the recipient does not revert; otherwise nothing remains of it. |
| Soundness.EntriesBoundIff | ziskProgram/guest/src/main.rs:45-101 | Given public inputs have a run that shows given entries iff those are non-empty, fit the payloads of as many blobs as referenced, and each has some recoverable signature: nothing else binds them. |
| Soundness.InputsBoundIff | ziskProgram/guest/src/main.rs:45-101 | Public inputs have a run iff they reference at least one blob. |
| Soundness.CommittedIff | ziskProgram/guest/src/main.rs:88-100 | A digest is committed by some run iff some inputs that reference a blob have it. |
| Soundness.SettleableIff | src/OpenBlob.sol:115-140 | With a verifier that accepts exactly the committed digests, a request has a proof that settles it in a state iff it starts at the root, can be paid, and has the digest of inputs that reference a blob. |
| Soundness.LimitsAreNotEnforced | src/OpenBlob.sol:89-94 | In every state and for every sender, the request for the whole ether of the contract has a proof. |
| Soundness.SettlementsReferenceBlobs | src/OpenBlob.sol:118-132 | Over every run, each surviving settlement has the digest of inputs that reference a blob. |
| Fetcher.FlattenBlobs | ziskProgram/blob-sync/src/l1.rs:73-97 | The nested loops list a block's blobs by transaction, then position, skipping filtered and blobless transactions. |
| Fetcher.ListingByTx | ziskProgram/blob-sync/src/lib.rs:141-145 | Filtering that list by transaction index gives that transaction's hashes, numbered from 0, in order; nothing if it has none or another sender is wanted. |
| Fetcher.MatchSidecar | ziskProgram/blob-sync/src/lib.rs:192-206 | The first sidecar whose commitment hashes to the wanted value; an error iff there is none. |
| Fetcher.FetchBlock | ziskProgram/blob-sync/src/lib.rs:92-118 | One block and its sidecars: those of the slot whose time span contains the block's timestamp, or the error for the first thing missing, each under a condition on the block, the clock and the beacon answer that excludes the others. |
| Fetcher.LoadBlocks | ziskProgram/blob-sync/src/lib.rs:86-120 | The first pass caches exactly the referenced blocks with what naive loading gives for them, having requested each of them once; at the first bad block it fails, having requested those up to it. |
| Fetcher.EmitRef | ziskProgram/blob-sync/src/lib.rs:141-165 | One reference pushes its bundles in order, and the verification buffer stays equal to the bundles, block by block. |
| Fetcher.EmitAll | ziskProgram/blob-sync/src/lib.rs:130-166 | The second pass agrees with naive lookup in reference order; the cache lookup never misses. |
| Fetcher.VerifyBuffer | ziskProgram/blob-sync/src/lib.rs:168-175 | Succeeds iff every buffered batch verifies; otherwise names the lowest failing block. |
| Fetcher.FetchBlobs | ziskProgram/blob-sync/src/lib.rs:72-178 | Cached fetching succeeds iff naive lookup does and, with verification on, every block's batch verifies; the bundles are the same, and each kind of error comes in its order. |
| Fetcher.LookupShape | ziskProgram/blob-sync/src/lib.rs:141-164 | A resolved reference gives one bundle per blob of its transaction, at least one, numbered 0, 1, ..., each with a sidecar of its block whose commitment hashes to the transaction's versioned hash at that place. |
| Fetcher.LookupAllJoins | ziskProgram/blob-sync/src/lib.rs:130-166 | The lookup of a list of references is the lookups of its parts joined in order. |
| Fetcher.BundleCount | ziskProgram/blob-sync/src/lib.rs:147-165 | There are at least as many bundles as references, and as many iff each reference has one blob. |
| Fetcher.FetchBlobData | ziskProgram/blob-sync/src/lib.rs:183-190 | The raw blobs of the naive lookup one after the other: bytes 131072 k to 131072 (k + 1) are the blob of bundle k, and with one blob per referenced transaction a blob whose commitment hashes to the versioned hash of reference k; with the exact condition for the guest's length check. |
| Fetcher.LookupSucceeds | ziskProgram/blob-sync/src/lib.rs:130-166 | A reference is resolved iff its block loads, its transaction has blobs, and each of them is matched by a sidecar. |
| Fetcher.LookupError | ziskProgram/blob-sync/src/lib.rs:141-165 | If it is not resolved though its block loads, the error says that the transaction has no blobs, or names the first of its hashes without a sidecar. |
| Fetcher.GuestLengthCheck | ziskProgram/common/src/lib.rs:241-246 | The fetched bytes have the length the guest demands iff every referenced transaction carries one blob. |
| Fetcher.FetchedPacks | ziskProgram/common/src/lib.rs:238-253 | If each fetched blob packs its piece of a stream, the fetched bytes pack the stream. |
| Fetcher.FetchedCarries | ziskProgram/blob-sync/src/lib.rs:180-190 | If the blobs of the references pack a list of entries and its padding piece by piece, the guest reads those entries out of the fetched bytes. |
| Fetcher.FetchedButRejected | ziskProgram/blob-sync/src/lib.rs:180-190 | One reference to a transaction with two blobs: the fetch succeeds and the length is not the one the guest demands. |

## Left out

- Text.Words: a blank expression gives no word instead of one empty word; both are rejected for their count, only the number in the message differs.
- Numerals.NumberOfDecimal: rounding is to the nearest double; the freedom that ECMA-262 gives implementations for digits after the twentieth is not modelled. Negative numbers, fractions, infinities and texts that are no number are not told apart, as the parser rejects them all.
- CronParser.AddProgression: the loop variable is an exact integer; as a double it could be inexact only beyond the field's bound, where the loop ends.
- CronSearch.SearchFrom: start times are whole milliseconds at or after the epoch; `Date.UTC` years 0 to 99 and times before 1970 do not arise.
- Kv.PutAgrees: records are submitted as pending, as the route does; putting an already bundled record is not claimed to keep the indexes exact.
- Kv.Normalize: lower-casing covers ASCII, which is all a hexadecimal hash can hold.
- Rlp.EncodeEntries: lengths are 64-bit (`Fits`), as every list in memory has; the RLP and ABI libraries are not part of this model beyond the encodings their standards define.
- Publisher.PublishMicroblobs: the blob count is an arbitrary function of the encoded length; that it grows with the length is assumed only where stated. The text encoding of payloads, KZG setup, sending and the publisher cache are not modelled.
- Draining.RunRepeatedly: assumes that any hundred pending records have 64-bit encodings, that every run has a publisher and reaches the chain, and that no other worker runs.
- Bundler.KvServer.ProcessPending: assumes that the encoded lengths of the pending records fit 64 bits, and no other worker in between; interference is the subject of `Interleaving`. A thrown error of the publisher leaves the store unchanged.
- Settlement.ExecKeeps: gas is left out; the hashes of the chain's blocks are one fixed function of the block number, read through the 256-block window.
- Soundness.SettleableIff: that the verifier has a proof for exactly the digests that guest runs commit is an assumption; the proof system itself is not modelled.
- Abi.FlatIsContractEncoding: the prover's side stands for the output of alloy's `abi_encode_params`, which is not part of this model.
- Guest.RunGuest: Keccak-256 and secp256k1 recovery are arbitrary functions. The guest does not compare `total_ether_paid` with the accumulated sum, and no such claim is made.
- Fetcher.FetchedCarries: that a versioned hash stands for one blob is the KZG commitment's promise, which is not part of this model; the lemma is about the blobs that were found.
- Fetcher.FetchBlobs: block, beacon and KZG answers are total functions, so repeated requests agree; transport, JSON, headers and error context strings are left out.
- HTTP routes, wallet and environment reading, cron registration, the web interface, host binaries and deployment scripts: wiring only.
- The variant of the fetcher without KZG and the previous contract version: near duplicates of what is modelled.
