# NIP-13 GPU nonce miner: host-side search, in Dafny

This project models the host side of a Nostr proof-of-work miner (NIP-13).
The miner takes an event and a difficulty. It searches for a decimal nonce
such that the event, with a tag `["nonce", "<nonce>", "<difficulty>"]`,
hashes to an id with at least `difficulty` leading zero bits. A GPU kernel
hashes whole batches of nonces. The host does the rest, and the rest is
what is modelled here:

- **Planning.** The host turns device hints into a batch size. It picks a
  power of ten, clamps it to 100 times the work-group size, and caps it so
  the results buffer stays at 100 MiB. It also picks the narrowest and
  widest nonce widths to try.
- **The tier loop.** For each nonce width `w`, the host rebuilds the tag
  list with a `w`-digit placeholder nonce tag and serializes the event. It
  then locates the placeholder's byte offset.
- **Batches.** Within a tier, the nonces `10^(w-1) .. 10^w - 1` go to the
  kernel in contiguous batches. The base nonce is split into two 32-bit
  words.
- **The harvest.** The host reads back one 41-byte record per lane: a flag
  byte, a big-endian 64-bit nonce and a 32-byte id. It scans the lanes in
  order.
- **Validation.** `validateNonce` checks every flagged lane. It re-pads the
  nonce, writes it into the first nonce tag, recomputes the event id,
  checks the NIP-13 difficulty, and checks the committed difficulty.
- **Output.** The first accepted lane ends the search. The nonce is
  re-padded for output and the id is checked once more.

## Modules

| file | module | what it holds |
|---|---|---|
| wrappers.dfy | `Wrappers` | `Option`, `Result` |
| decimal.dfy | `Decimal` | the exact integer meaning of the float expressions `math.Pow(10, k)` and `ceil/floor(log10 x)`; `strconv.Itoa` and `%0*d` as text |
| encoding.dfy | `Encoding` | bytes; big-endian words; the 41-byte lane record; lower-case hex; the 32-bit split of the base nonce |
| tags.dfy | `Tags` | dropping nonce tags and empty tags; the per-tier placeholder tag; "replace the first nonce tag, else append"; in-place replacement on an `array<Tag>` |
| locate.dfy | `Locate` | `bytes.Index`; the kernel's substitution of a nonce into the serialization; the two placeholder locators |
| validation.dfy | `Validation` | `validateNonce` and its verdicts |
| batch_size.dfy | `BatchSize` | auto-detect, clamps, digit floors and the configuration errors, combined into one `Plan` |
| miner.dfy | `Miner` | the harvest, the batch sweep of a tier, the tier loop and the final check |
| nip01.dfy | `Nip01` | NIP-01 compact JSON serialization of an event; where the placeholder lands in it |

The Nostr library calls are fields of the `Validation.Nostr` datatype:
`Event.Serialize`, SHA-256, `nip13.Check` and `nip13.CommittedDifficulty`.
`GetID` is the lower-case hex of the hash of the serialization. The kernel
is a function from the dispatch's arguments and a lane number to that
lane's record. The results buffer is those records laid back to back.

`validateNonce` copies the event with `testEvent := *event`. That copies
the tag slice header but shares its backing array. Writing the nonce tag
through the copy therefore changes the miner's own tags.
`Tags.ReplaceFirstNonce` models this as an in-place update of an
`array<Tag>`. The model then proves that this side effect never changes a
later verdict (`Validation.VerdictIgnoresEarlierCandidates`,
`Miner.LaneVerdict`).

The central guarantee is `Miner.Mine`. When it reports a nonce:

- that nonce is the first one, in the order the search visits them, that
  `validateNonce` accepts (`Miner.IsFirstHit`);
- every earlier nonce of every earlier tier was rejected;
- the count of nonces tested matches the batches run.

The other outcomes are the fatal exits of `main`. They are returned as
`Outcome` values:

- the placeholder cannot be located;
- every width up to the widest is exhausted;
- the final id check fails. In that case the model proves the output
  width differed from the width `validateNonce` used.

How the placeholder is located is a field of the search
(`Locate.Locator`). `FirstOccurrence` is `bytes.Index` as the code does it
(main.go:898-899). `NonceValue` is the corrected locator of the Findings
section. The tier loop and `Miner.Mine` are proved for both.

## Model

| member | source | states |
|---|---|---|
| Decimal.DigitsAtMost | main.go:40 | n has at most w digits exactly when n < 10^w |
| Decimal.DigitsOfTier | main.go:40 | `ceil(log10(n+1)) == w` exactly when n lies in the tier [10^(w-1), 10^w - 1] |
| Decimal.CeilLog10 | main.go:808-819 | the result is the least k with x <= 10^k |
| Decimal.FloorLog10 | main.go:748 | the result is the unique k with 10^k <= x < 10^(k+1) |
| Decimal.FloorLog10Unique | main.go:748 | any k with 10^k <= x < 10^(k+1) is the floor logarithm |
| Decimal.DecimalString | main.go:51 | `strconv.Itoa` gives digits only, of length Digits(n) ("0" for zero), denoting n |
| Decimal.PadSpec | main.go:45 | `%0*d` gives a digit string of length max(width, its own length) that denotes n |
| Decimal.Pad | main.go:45 | `fmt.Sprintf("%0*d", width, n)`: the digits of n left padded with zeros, never truncated; Decimal.PadSpec states its length and value |
| Decimal.TierNonceFits | main.go:876-880 | a nonce of tier w pads to exactly w characters, its own decimal rendering with no zero padding |
| Decimal.PadInjective | main.go:1060-1064 | two paddings of a tier-w nonce agree exactly when the width asked for is at most w |
| Decimal.Placeholder | main.go:880 | the placeholder is w digits denoting 10^(w-1) |
| Decimal.PlaceholderIsPadded | main.go:879-880 | the placeholder is exactly `%0*d` of 10^(w-1) at width w, which is also its `strconv` rendering |
| Decimal.DigitStringsEqual | main.go:45 | two digit strings of the same length denoting the same number are equal, so a rendering is fixed by its width and value |
| Decimal.OneZerosValue | main.go:880 | a one followed by k zeros is a digit string denoting 10^k |
| Encoding.BigEndianOfToBigEndian | main.go:1000-1001 | reading back k big-endian bytes of n < 256^k gives n |
| Encoding.ToBigEndianOfBigEndian | main.go:1000-1001 | writing back the value of a byte string gives the same bytes |
| Encoding.RecordRoundTrip | main.go:997-1003 | decoding an encoded lane record (flag, nonce, id) gives that record |
| Encoding.DecodeRecord | main.go:1000-1003 | the flag byte, the big-endian nonce of bytes 1..9 and the id of bytes 9..41; Encoding.RecordRoundTrip and Encoding.BytesRoundTrip make it the inverse of the encoding |
| Encoding.BytesRoundTrip | main.go:997-1003 | every 41 bytes re-encode to themselves after decoding |
| Encoding.RecordsLayout | main.go:997-1003 | lane i's record sits at bytes 41i .. 41i+41 of the buffer, which holds 41 bytes per lane |
| Encoding.HexShape | main.go:61-64 | the hex id has two lower-case hex characters per byte |
| Encoding.Hex | main.go:61-64 | `%02x` of each byte, concatenated; Encoding.HexShape and Encoding.HexInjective characterise it |
| Encoding.HexInjective | main.go:61-64 | different ids have different hex texts |
| Encoding.HexEncode | main.go:61-64 | the loop builds the hex text of the id, byte by byte |
| Encoding.SplitJoin | main.go:954-955 | the low and high 32-bit words rejoin to any nonce below 2^64; a split of a joined pair gives the pair back |
| Encoding.SplitNonce | main.go:954-955 | the low and high 32-bit words of the base nonce; Encoding.SplitJoin makes JoinNonce its inverse |
| Tags.FilteredConcat | main.go:824-830 | filtering distributes over concatenation |
| Tags.Filtered | main.go:824-830 | the tags that are non-empty and not nonce tags, in order; the Tags.Filtered* lemmas state its properties |
| Tags.FilteredMembers | main.go:824-830 | a tag survives exactly when it was present, is non-empty and is not a nonce tag |
| Tags.FilteredAllKept | main.go:824-830 | no surviving tag is empty or a nonce tag |
| Tags.FilteredIdempotent | main.go:884-890 | filtering twice is filtering once |
| Tags.FilterTags | main.go:824-830 | the loop keeps exactly the non-empty, non-nonce tags, in order |
| Tags.FirstNonce | main.go:49-50 | the index of the first nonce tag, with no nonce tag before it; -1 when there is none |
| Tags.TierTagsShape | main.go:884-891 | a tier's tags are the surviving tags followed by one placeholder nonce tag, which is the only nonce tag |
| Tags.FilteredUpdateNonce | main.go:51 | replacing a nonce tag by a nonce tag leaves the other tags unchanged |
| Tags.SetNonceTagSpec | main.go:47-58 | the first nonce tag is replaced, or the tag is appended when there is none; every other tag is unchanged |
| Tags.SetNonceTag | main.go:47-58 | the tag list validateNonce checks: the first nonce tag replaced, else the tag appended; Tags.SetNonceTagSpec states it |
| Tags.InPlaceEffect | main.go:49-55 | what the caller's shared tag array holds afterwards: only an in-place replacement, never the append; Tags.ReplaceFirstNonce computes it |
| Tags.SetNonceTagAbsorbs | main.go:1066-1071 | setting a nonce tag overrides any nonce tag set before it, in place or by value |
| Tags.SameApartFirstNonce | main.go:49-55 | tag lists that differ only in nonce tag values have the first nonce tag at the same index |
| Tags.SameApartSetNonce | main.go:47-58 | such lists give the same result once a nonce tag is set |
| Tags.SameApartStep | main.go:49-55 | an in-place nonce write keeps a list the same apart from nonce values |
| Tags.SameApartFiltered | main.go:884-890 | such lists filter to the same tags |
| Tags.ReplaceFirstNonce | main.go:37-55 | the shared tag array's first nonce tag is overwritten in place; reports whether there was one |
| Locate.IndexFrom | main.go:899 | the first occurrence of the pattern at or after i, with none before it; -1 when there is none |
| Locate.IndexOf | main.go:899 | `bytes.Index`: -1 exactly when the pattern never occurs; otherwise the first occurrence |
| Locate.Substitute | main.go:943 | what the kernel is handed the offset for, used to state the finding and not part of `Kernel`: the copy of the input with the nonce text written at the offset: same length, the nonce at the offset, every other byte unchanged |
| Locate.SubstituteSame | main.go:943 | writing the text already at the offset changes nothing |
| Locate.OccursParts | main.go:899 | an occurrence of a concatenation is an occurrence of each part, one after the other |
| Locate.AsciiConcat | main.go:898 | `[]byte` of ASCII text distributes over concatenation |
| Locate.AsciiOccurs | main.go:898-899 | occurrences in ASCII text and in its bytes coincide |
| Locate.AsciiIndexOf | main.go:898-899 | `bytes.Index` on the bytes agrees with the search on the text |
| Locate.AsciiInjective | main.go:898 | different ASCII texts have different bytes |
| Locate.NonceValueOffset | main.go:898-902 | the corrected locator: -1 exactly when no nonce tag holds the placeholder; otherwise the offset follows `["nonce","` and is followed by `"` |
| Locate.PlaceholderOffset | main.go:898-899 | the locator as written: `bytes.Index` of the placeholder's digits anywhere in the serialization; Nip01.KindCapturesPlaceholder shows where it goes wrong |
| Locate.LocatePlaceholder | main.go:898-902 | under either locator, -1 or an occurrence of the placeholder; as written, -1 exactly when the digits occur nowhere, otherwise their first occurrence; corrected, -1 exactly when no nonce tag holds them |
| Validation.ValidateNonce | main.go:35-92 | the verdict is acceptance by the three checks on the candidate event; the caller's tag array gets the candidate nonce tag in place |
| Validation.CheckCandidate | main.go:67-91 | the first failing check of the three decides the verdict; Validation.AcceptedIsProofOfWork characterises acceptance |
| Validation.AcceptedIsProofOfWork | main.go:67-91 | a candidate is accepted exactly when its event hashes to the kernel's id, that id passes `nip13.Check`, and the event commits to the difficulty |
| Validation.NonceValueSpec | main.go:40-45 | the candidate nonce text is digits denoting n, at least difficulty/4 + 2 wide |
| Validation.WidthFloorsAgree | main.go:40-45 | for a tier-w nonce, validation pads to w exactly when difficulty/4 + 2 <= w |
| Validation.VerdictIgnoresEarlierCandidates | main.go:37-58 | nonce tags written by earlier calls through the shared array do not change a verdict |
| BatchSize.OptimalSize | main.go:686-697 | the estimate is the smaller of a tenth of the capacity and 1% of memory per work item |
| BatchSize.AutoBatchPowerRoundsDown | main.go:699-726 | the estimate is rounded down to a power of ten, at most 10^6 on GPUs and 10^5 on CPUs; small estimates default to 10^4 |
| BatchSize.AutoBatchPower | main.go:704-726 | the GPU and CPU decision tables; BatchSize.AutoBatchPowerRoundsDown states them as rounding down |
| BatchSize.LimitToWorkGroupSpec | main.go:742-753 | a batch above 100 times the work-group size becomes the largest power of ten at or below that bound; a batch within it is kept |
| BatchSize.LimitToWorkGroup | main.go:742-753 | the work-group clamp; BatchSize.LimitToWorkGroupSpec states it |
| BatchSize.LimitResultsBufferSpec | main.go:840-851 | the batch keeps its size exactly when 41 bytes per lane fit in 100 MiB; otherwise it becomes the most lanes that fit |
| BatchSize.LimitResultsBuffer | main.go:840-851 | the 100 MiB results-buffer cap; BatchSize.LimitResultsBufferSpec states it |
| BatchSize.MaxDigitsSpec | main.go:808-812 | the widest tier has at least 10 digits and holds 100 times 2^difficulty nonces; above 10 it is the least width that does |
| BatchSize.MaxDigits | main.go:808-812 | ceil(log10(2^difficulty)) + 2, at least 10; BatchSize.MaxDigitsSpec states what it guarantees |
| BatchSize.MinDigitsSpec | main.go:816-819 | the narrowest tier has at least 5 digits and its first nonce is at least the batch size; above 5 it is the least width whose first nonce is |
| BatchSize.MinDigits | main.go:816-819 | ceil(log10(batchSize)) + 1, at least 5; BatchSize.MinDigitsSpec states what it guarantees |
| BatchSize.PlanMiningSpec | main.go:594-600 | a configuration error exactly when the difficulty is outside [0, 256] or the power outside [-1, 10]; otherwise a well-formed plan within both clamps, whose narrowest width is MinDigits of the batch before the buffer cap and whose widest is MaxDigits |
| BatchSize.PlanMining | main.go:594-851 | the range checks, auto-detect, clamps and digit bounds in the source's order; BatchSize.PlanMiningSpec states the result |
| BatchSize.PlanFromBatch | main.go:816-851 | the capped batch, its buffer and the digit bounds form a well-formed plan |
| Miner.ReadResults | main.go:976-994 | the buffer read back holds 41 bytes per dispatched lane |
| Miner.LaneAtReadResults | main.go:997-1003 | lane i's decoded record is what lane i wrote; its flag byte is 1 exactly when the lane flagged a candidate |
| Miner.FirstAccepted | main.go:997-1018 | the first lane whose flagged candidate validateNonce accepts, with no accepted lane before it |
| Miner.LaneVerdict | main.go:1006 | validating lane i against the in-place-modified tags gives the verdict on the tier's own tags |
| Miner.ScanLane | main.go:998-1016 | one lane: accepted exactly when it is flagged and validated, with its nonce and id; the tags change as the in-place write does |
| Miner.Harvest | main.go:997-1018 | the scan stops at the first accepted lane and returns its nonce and id; it reports nothing when no lane is accepted |
| Miner.BatchFrom | main.go:921-1023 | the first nonce of the batch holding p when batches follow each other from the tier's start |
| Miner.BatchFromLane | main.go:1020-1021 | every nonce of a batch maps to that batch's start |
| Miner.BatchFromNext | main.go:1020-1021 | the next batch starts where this one ends |
| Miner.BatchStart | main.go:921-1023 | the batch of nonce p starts at or below p and holds p |
| Miner.BatchCountBounds | main.go:925-989 | a batch has 1 to batchSize lanes, stays in the tier and fits the results buffer (the `readSize` clamp never fires) |
| Miner.BatchCount | main.go:925-929 | the lanes of the batch at `start`: the rest of the tier, at most batchSize; Miner.BatchCountBounds bounds it |
| Miner.BatchLanes | main.go:997-1003 | lane i of the batch at `start` is nonce start + i, and its verdict is that nonce's verdict |
| Miner.LaneOfBatch | main.go:932-979 | the record of nonce start + i is what lane i of that dispatch writes |
| Miner.ExtendRejected | main.go:997-1018 | rejected lanes extend the rejected prefix of the tier |
| Miner.AcceptedLane | main.go:1006-1011 | an accepted lane is an accepted nonce of the tier |
| Miner.FirstHitInBatch | main.go:997-1018 | the first accepted lane after a rejected prefix is the first hit of the whole search |
| Miner.DispatchBatch | main.go:925-1018 | one batch: either the first hit, or every nonce up to the batch's end is rejected |
| Miner.NextBatch | main.go:1020-1021 | the next batch start is the tier's end or a batch boundary |
| Miner.SearchTier | main.go:921-1044 | the sweep ends with the first hit of the tier, or with the whole tier rejected; the tested count matches |
| Miner.NextTier | main.go:1041-1044 | an exhausted tier leads to width w + 1 with every narrower nonce rejected |
| Miner.EnterTier | main.go:922 | nonces below 10^(w-1) lie in narrower tiers, so entering a tier keeps the rejected prefix |
| Miner.TierLeavesFiltered | main.go:884-890 | the next tier filters the modified tags back to the original survivors |
| Miner.PrepareTier | main.go:876-902 | the tier's tags are the survivors plus the placeholder tag, the serialization is that event's, and the offset is the search's locator applied to it (`bytes.Index` for the locator as written) |
| Miner.TierOffset | main.go:898-902 | the offset the kernel writes at in tier w; Miner.TierOffsetLocates states what it is |
| Miner.TierOffsetLocates | main.go:898-902 | the tier's offset is -1 or an occurrence of the placeholder's digits; with the locator as written, -1 exactly when they occur nowhere and otherwise their first occurrence |
| Miner.LocatedNext | main.go:898-902 | a tier whose offset is not -1 extends the run of tiers that located their placeholder by one |
| Miner.LocatedOffsets | main.go:898-902 | every tier in a located run has an offset of at least 0 |
| Miner.FinalAgreesWithValidation | main.go:1060-1071 | the output tags equal the tags validateNonce accepted exactly when the two widths agree |
| Miner.MismatchNeedsWiderPadding | main.go:1082-1085 | the final id check fails only if the output width differs from validation's width |
| Miner.Finish | main.go:1058-1085 | the event's tag array ends holding the re-padded nonce in its first nonce tag (FinalTags); the event is returned when its id is the kernel's, otherwise a final mismatch |
| Miner.RunTier | main.go:874-1045 | one tier: the placeholder missing (offset -1, which for the locator as written means its digits occur nowhere), or else located (offset >= 0, extending the run of located tiers) and then the first hit or the tier exhausted with the tags reset |
| Miner.InitialTags | main.go:823-830 | the tag array the tiers rewrite is fresh and starts with the event's tags minus the empty and nonce tags |
| Miner.SearchTiers | main.go:823-1045 | the tier loop ends with the first hit of the whole search, a tier whose placeholder is missing (offset -1) after every narrower tier was rejected, or every width rejected; every tier it entered before the last located its placeholder, and so did the hit's tier |
| Miner.Mine | main.go:874-1085 | for either locator, including `bytes.Index` as written: the reported nonce is the first accepted nonce in search order and its output event hashes to the kernel's id; each fatal exit comes with its reason; every tier searched located its placeholder (offset >= 0), and a missing placeholder stops the search at the first tier where it is missing |
| Miner.TierNonceFillsPlaceholder | main.go:876-880 | a tier-w nonce's text is exactly as wide as the placeholder |
| Miner.KernelSeesBatchStart | main.go:954-961 | the kernel's two words rejoin to the batch's first nonce |
| Miner.ValidatedEventIsMinedEvent | main.go:40-58 | the event validateNonce checks is the event carrying n as the tier's w-digit nonce exactly when difficulty/4 + 2 <= w |
| Miner.HonestHitPassesIdCheck | main.go:67-71 | a lane whose id is the hash of the tier-w event passes the id check once difficulty/4 + 2 <= w |
| Nip01.EscapeDigits | main.go:894 | JSON escaping leaves a digit string unchanged |
| Nip01.NonceTagText | main.go:891 | the nonce tag serializes as `["nonce","` + value + `","` + difficulty + `"]` |
| Nip01.NonceLastSplit | main.go:891-894 | an event whose last tag is the nonce tag serializes as a prefix, the nonce text, then a suffix independent of the nonce |
| Nip01.SubstituteNonce | main.go:943 | writing a same-width nonce over the nonce value yields the serialization of the event with that nonce |
| Nip01.LeadFields | main.go:894 | the serialization up to the tag list is `[0,` + fields + `,[` with no `[` in the fields |
| Nip01.FirstAfterBrackets | main.go:899 | a pattern starting `["` first occurs right after the opening of the tag list |
| Nip01.KindHoldsPlaceholder | main.go:880-894 | when the kind equals 10^(w-1), the placeholder's digits occur at the kind field, before the nonce tag |
| Nip01.KindCapturesPlaceholder | main.go:898-899 | with such a kind, `bytes.Index` returns an offset at or before the kind field, and substituting any other nonce there does not give the event with that nonce |
| Nip01.NonceTagFirst | main.go:891-894 | in an event whose only tag is the nonce tag, the marker search finds that tag |
| Nip01.MarkerFindsNonceValue | main.go:898-902 | the corrected locator returns the nonce value's offset, and substituting any same-width nonce there gives the event with that nonce |

## Left out

- OpenCL: platform and device discovery, buffers, kernel set-up and release. The kernel is a function from its arguments and a lane number to the lane's record. Its hashing is not modelled, and `Kernel` does not perform the textual nonce substitution; `Locate.Substitute` models that substitution only to state what the kernel would write at the offset the locator returns (the finding below); `kernels.go` is not part of this model.
- The go-nostr library and the NIP-13 package are abstract functions: `Event.Serialize`, SHA-256, `nip13.Check` and `nip13.CommittedDifficulty`. `Nip01` gives a concrete serializer only to exhibit the finding, for ASCII text.
- Floating point: `math.Pow` and `math.Log10` are computed exactly on integers. Float rounding near powers of ten is not modelled.
- Nonces are unbounded integers. The `int64` and `uint64` overflow of tiers of 19 or more digits is not modelled. The widest width is at least 10 digits, and `MaxDigits` for difficulty 256 is 80 digits, beyond what Go's 64-bit nonce can hold. A plan's batch is at most 2,557,502 lanes (100 MiB / 41 bytes); the batch of up to 10^10 before that cap only sets the narrowest width, at most 11 digits.
- `Miner.KernelSeesBatchStart`: holds only for batch starts below 2^64. The `int32` conversion of the kernel arguments is not modelled.
- Whether the kernel clears the flag of lanes it does not flag, and what it writes to lanes beyond the dispatch, is not modelled. The kernel gives every dispatched lane a record.
- The progress bar, `vlog` and `--verbose` logging, the benchmark mode, command-line parsing other than the two range checks, and reading the event from standard input.
- `log.Fatalf` exits are `Outcome` and `ConfigError` values. Failures of OpenCL calls are left out.
- The device hints are plain inputs. In `BatchSize.DeviceHints`, `maxWorkGroupSize` is at least 1, as every OpenCL device reports.
- `Nip01` handles ASCII text only. UTF-8 and JSON escaping of non-ASCII characters are not modelled.
- Nip01.MarkerFindsNonceValue: proved only for events whose only tag is the nonce tag and whose pubkey has no `[`. The case with earlier, filtered tags is not proved. The serializer escapes every `"` and no kept tag starts with "nonce", so the marker cannot start in an earlier tag, but that argument is not carried out.
- Encoding.HexInjective: a hex decoder is not modelled. Injectivity of the encoding is proved in its place.
- The output of the mined event as JSON, after the final check, is not modelled.

## Findings

| source | as written | input that shows it | evidently intended | confidence | as-written member | corrected member |
|---|---|---|---|---|---|---|
| main.go:898-899 | `bytes.Index(serialized, placeholder)` takes the FIRST occurrence of the placeholder digits anywhere in the serialized event | any event whose kind equals 10^(w-1) for a tier width w it reaches (digits in `created_at` can be matched the same way). With a batch of at most 10^4 lanes the first tier is w = 5, so kind 10000, a NIP-51 mute list, is hit. Its serialization `[0,"<pubkey>",<created_at>,10000,[...,["nonce","10000","<d>"]],...]` holds "10000" in the kind field before the nonce tag, so the kernel overwrites the kind instead of the nonce | locate the placeholder where it is the nonce tag's value, that is, after `["nonce","` | not executed | Nip01.KindCapturesPlaceholder (with Locate.PlaceholderOffset) | Nip01.MarkerFindsNonceValue (with Locate.NonceValueOffset, the `NonceValue` locator that Miner.Mine also accepts) |
