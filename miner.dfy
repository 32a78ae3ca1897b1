/** The tiered nonce search of `main` (main.go:806-1085). For each nonce
    width w from the plan's narrowest to its widest, the event is given a
    w-digit placeholder nonce tag and serialized once; the tier's nonces
    10^(w-1) .. 10^w - 1 are then dispatched to the kernel in contiguous
    batches, and each batch's lane records are scanned in lane order until
    a candidate passes validateNonce. The kernel is a function from its
    arguments and a lane number to that lane's record. */
module Miner {
  import opened Wrappers
  import opened Decimal
  import opened Encoding
  import opened Tags
  import opened Locate
  import opened Validation
  import opened BatchSize

  /** The arguments of one dispatch (main.go:932-973): the serialized
      event, its length, the placeholder's offset, the difficulty, the
      batch's first nonce as two 32-bit words, and the nonce width. */
  datatype KernelArgs = KernelArgs(
    input: seq<Byte>,
    length: nat,
    offset: int,
    difficulty: nat,
    baseLow: U32,
    baseHigh: U32,
    width: nat)

  /** One dispatch: the record that lane i writes. */
  type Kernel = (KernelArgs, nat) -> LaneRecord

  // ---------------------------------------------------------------------
  // The results buffer of one dispatch
  // ---------------------------------------------------------------------

  /** Dispatching `count` lanes and reading back their records
      (main.go:976-994): the records of lanes 0 .. count - 1 back to back. */
  function ReadResults(kernel: Kernel, args: KernelArgs, count: nat): (b: seq<Byte>)
    ensures |b| == RecordSize * count
  {
    var rs := seq(count, i requires 0 <= i < count => kernel(args, i));
    RecordsLength(rs);
    Records(rs)
  }

  /** The flag byte of lane i says "candidate found". */
  predicate Flagged(results: seq<Byte>, i: nat)
    requires RecordSize * (i + 1) <= |results|
  {
    results[RecordSize * i] == 1
  }

  /** The host's decoding of lane i's record (main.go:999-1003). */
  function LaneAt(results: seq<Byte>, i: nat): LaneRecord
    requires RecordSize * (i + 1) <= |results|
  {
    DecodeRecord(results[RecordSize * i .. RecordSize * i + RecordSize])
  }

  /** Decoding lane i of the buffer gives back what lane i wrote. */
  lemma LaneAtReadResults(kernel: Kernel, args: KernelArgs, count: nat, i: nat)
    requires i < count
    ensures LaneAt(ReadResults(kernel, args, count), i) == kernel(args, i)
    ensures Flagged(ReadResults(kernel, args, count), i) <==> kernel(args, i).flag == 1
  {
    var rs := seq(count, j requires 0 <= j < count => kernel(args, j));
    RecordsLayout(rs, i);
    RecordRoundTrip(rs[i]);
  }

  // ---------------------------------------------------------------------
  // Harvest: scanning the lanes of one dispatch (main.go:997-1018)
  // ---------------------------------------------------------------------

  /** Lane i is flagged and validateNonce accepts its nonce and id against
      event e. */
  predicate LaneAccepted(env: Nostr, e: Event, results: seq<Byte>, i: nat, difficulty: nat)
    requires RecordSize * (i + 1) <= |results|
  {
    Flagged(results, i) && CheckCandidate(env, e, LaneAt(results, i).nonce, LaneAt(results, i).id, difficulty) == Accepted
  }

  /** The lowest accepted lane in from .. count - 1, if any. */
  function FirstAccepted(env: Nostr, e: Event, results: seq<Byte>, count: nat, difficulty: nat, from: nat)
    : (r: Option<nat>)
    requires RecordSize * count <= |results|
    decreases count - from
    ensures r.Some? ==> from <= r.value < count && LaneAccepted(env, e, results, r.value, difficulty)
    ensures forall j :: from <= j < count && (r.None? || j < r.value) ==> !LaneAccepted(env, e, results, j, difficulty)
  {
    if from >= count then None
    else if LaneAccepted(env, e, results, from, difficulty) then Some(from)
    else FirstAccepted(env, e, results, count, difficulty, from + 1)
  }

  /** The verdict on a flagged lane against the scan's current tags is
      its verdict against the tier's tags, and the lane's validation keeps
      the tags apart from base only in the nonce tag. */
  lemma LaneVerdict(env: Nostr, header: Header, t: seq<Tag>, base: seq<Tag>, results: seq<Byte>,
                    i: nat, difficulty: nat, n: nat, id: Digest, ok: bool)
    requires RecordSize * (i + 1) <= |results| && Flagged(results, i)
    requires SameApartFromNonce(t, base)
    requires n == LaneAt(results, i).nonce && id == LaneAt(results, i).id
    requires ok <==> CheckCandidate(env, Event(header, t), n, id, difficulty) == Accepted
    ensures ok <==> LaneAccepted(env, Event(header, base), results, i, difficulty)
    ensures SameApartFromNonce(InPlaceEffect(t, CandidateTag(n, difficulty)), base)
  {
    VerdictIgnoresEarlierCandidates(env, header, t, base, n, id, difficulty);
    SameApartStep(t, base, CandidateTag(n, difficulty));
  }

  /** The effect of lane i's scan on the caller's tag list: a flagged
      lane's validation overwrites the first nonce tag in place. */
  function ScanStep(t: seq<Tag>, results: seq<Byte>, i: nat, difficulty: nat): seq<Tag>
    requires RecordSize * (i + 1) <= |results|
  {
    if Flagged(results, i) then InPlaceEffect(t, CandidateTag(LaneAt(results, i).nonce, difficulty)) else t
  }

  /** The caller's tag list after the lanes before `upto` were scanned. */
  function Scanned(t: seq<Tag>, results: seq<Byte>, upto: nat, difficulty: nat): seq<Tag>
    requires RecordSize * upto <= |results|
  {
    if upto == 0 then t
    else ScanStep(Scanned(t, results, upto - 1, difficulty), results, upto - 1, difficulty)
  }

  /** One lane of the scan (main.go:998-1016): an unflagged lane is
      skipped; a flagged lane's nonce and id are decoded and validated. */
  method ScanLane(env: Nostr, header: Header, tags: array<Tag>, results: seq<Byte>, i: nat,
                  difficulty: nat, ghost base: seq<Tag>)
    returns (ok: bool, nonce: U64, id: Digest)
    requires RecordSize * (i + 1) <= |results|
    requires SameApartFromNonce(tags[..], base)
    modifies tags
    ensures ok <==> LaneAccepted(env, Event(header, base), results, i, difficulty)
    ensures ok ==> nonce == LaneAt(results, i).nonce && id == LaneAt(results, i).id
    ensures tags[..] == ScanStep(old(tags[..]), results, i, difficulty)
    ensures SameApartFromNonce(tags[..], base)
  {
    if results[RecordSize * i] != 1 {
      return false, 0, seq(32, _ => 0);
    }
    // Nonce big-endian from bytes 1..9, id copied from bytes 9..41.
    var lane := DecodeRecord(results[RecordSize * i .. RecordSize * i + RecordSize]);
    nonce := lane.nonce;
    id := lane.id;
    ghost var before := tags[..];
    ok := ValidateNonce(env, header, tags, nonce, id, difficulty);
    LaneVerdict(env, header, before, base, results, i, difficulty, nonce, id, ok);
  }

  /** The scan of main.go:997-1018. Lanes are taken in ascending order;
      unflagged lanes and flagged lanes that fail validation are skipped;
      the first accepted lane ends the scan. `base` is the tag list the
      tier started from, which the array differs from only in the value
      of its nonce tag. */
  method Harvest(env: Nostr, header: Header, tags: array<Tag>, results: seq<Byte>, count: nat,
                 difficulty: nat, ghost base: seq<Tag>)
    returns (found: bool, nonce: U64, id: Digest)
    requires RecordSize * count <= |results|
    requires SameApartFromNonce(tags[..], base)
    modifies tags
    ensures var hit := FirstAccepted(env, Event(header, base), results, count, difficulty, 0);
      && (found <==> hit.Some?)
      && (found ==> nonce == LaneAt(results, hit.value).nonce && id == LaneAt(results, hit.value).id)
      && tags[..] == Scanned(old(tags[..]), results, if found then hit.value + 1 else count, difficulty)
    ensures SameApartFromNonce(tags[..], base)
  {
    ghost var e := Event(header, base);
    var i := 0;
    while i < count
      invariant 0 <= i <= count
      invariant FirstAccepted(env, e, results, count, difficulty, i) == FirstAccepted(env, e, results, count, difficulty, 0)
      invariant tags[..] == Scanned(old(tags[..]), results, i, difficulty)
      invariant SameApartFromNonce(tags[..], base)
    {
      var ok, candidateNonce, candidateId := ScanLane(env, header, tags, results, i, difficulty, base);
      assert tags[..] == Scanned(old(tags[..]), results, i + 1, difficulty);
      if ok {
        return true, candidateNonce, candidateId;
      }
      i := i + 1;
    }
    return false, 0, seq(32, _ => 0);
  }

  // ---------------------------------------------------------------------
  // The search, tier by tier and batch by batch
  // ---------------------------------------------------------------------

  /** The fixed inputs of a search: the collaborators, the kernel, the
      event's header and tags as read, the difficulty, the plan, and how
      the placeholder is located (`FirstOccurrence` is main.go:899 as
      written). */
  datatype Search = Search(
    env: Nostr,
    kernel: Kernel,
    header: Header,
    tags: seq<Tag>,
    difficulty: nat,
    plan: Plan,
    locator: Locator)

  lemma DigitStringIsAscii(s: string)
    requires IsDigitString(s)
    ensures IsAscii(s)
  {
  }

  /** The event of tier w: the surviving tags and the w-digit placeholder
      (main.go:879-891). */
  function TierEvent(s: Search, w: nat): Event
    requires w >= 1
  {
    Event(s.header, TierTags(s.tags, w, s.difficulty))
  }

  /** The serialization sent to the kernel for tier w (main.go:894). */
  function TierInput(s: Search, w: nat): seq<Byte>
    requires w >= 1
  {
    s.env.serialize(TierEvent(s, w))
  }

  /** Where the kernel writes its nonce in tier w (main.go:898-902); -1
      when the placeholder cannot be found. */
  function TierOffset(s: Search, w: nat): int
    requires w >= 1
  {
    DigitStringIsAscii(Placeholder(w));
    LocatePlaceholder(s.locator, TierInput(s, w), Ascii(Placeholder(w)))
  }

  /** The offset of tier w is -1 or an occurrence of the placeholder's
      digits. With the locator as written it is -1 exactly when those
      digits occur nowhere in the serialization, and otherwise their first
      occurrence, wherever in the event that is. */
  lemma TierOffsetLocates(s: Search, w: nat)
    requires w >= 1
    ensures IsAscii(Placeholder(w))
    ensures var r := TierOffset(s, w);
      && (r == -1 || OccursAt(TierInput(s, w), Ascii(Placeholder(w)), r))
      && (s.locator.FirstOccurrence? ==>
            && (r == -1 <==> forall j :: !OccursAt(TierInput(s, w), Ascii(Placeholder(w)), j))
            && (r >= 0 ==> forall j :: j < r ==> !OccursAt(TierInput(s, w), Ascii(Placeholder(w)), j)))
  {
    DigitStringIsAscii(Placeholder(w));
  }

  /** Tier w located its placeholder. */
  ghost predicate Located(s: Search, w: nat)
    requires w >= 1
  {
    TierOffset(s, w) >= 0
  }

  /** Every tier from the plan's narrowest up to, not including, w located
      its placeholder. */
  ghost predicate LocatedBelow(s: Search, w: nat)
    requires s.plan.minDigits >= 1
  {
    forall v :: s.plan.minDigits <= v < w ==> Located(s, v)
  }

  /** A tier that located its placeholder extends the run of located
      tiers below it by one. */
  lemma LocatedNext(s: Search, w: nat)
    requires s.plan.minDigits >= 1 && w >= 1
    requires LocatedBelow(s, w) && TierOffset(s, w) >= 0
    ensures LocatedBelow(s, w + 1)
  {
  }

  /** The located tiers, stated on their offsets. */
  lemma LocatedOffsets(s: Search, w: nat)
    requires s.plan.minDigits >= 1 && LocatedBelow(s, w)
    ensures forall v :: s.plan.minDigits <= v < w ==> TierOffset(s, v) >= 0
  {
    forall v | s.plan.minDigits <= v < w
      ensures TierOffset(s, v) >= 0
    {
      assert Located(s, v);
    }
  }

  /** The first nonce of the batch holding nonce p, when batches of `size`
      nonces follow each other from `first` on. */
  function BatchFrom(first: nat, size: Positive, p: nat): (r: nat)
    requires first <= p
    decreases p - first
    ensures first <= r <= p < r + size
  {
    if p < first + size then first else BatchFrom(first + size, size, p)
  }

  /** The nonces start .. start + size - 1 after a batch boundary share
      their batch. */
  lemma {:induction false} BatchFromLane(first: nat, size: Positive, start: nat, p: nat)
    requires first <= start <= p < start + size && BatchFrom(first, size, start) == start
    ensures BatchFrom(first, size, p) == start
    decreases start - first
  {
    if start >= first + size {
      BatchFromLane(first + size, size, start, p);
    }
  }

  /** The batch after a boundary starts a boundary. */
  lemma {:induction false} BatchFromNext(first: nat, size: Positive, start: nat)
    requires first <= start && BatchFrom(first, size, start) == start
    ensures BatchFrom(first, size, start + size) == start + size
    decreases start - first
  {
    if start >= first + size {
      BatchFromNext(first + size, size, start);
    }
  }

  /** The first nonce of the batch holding nonce p of tier w: batches start
      at 10^(w-1) and follow each other every batchSize nonces. */
  function BatchStart(s: Search, w: nat, p: nat): (r: nat)
    requires w >= 1 && Pow10(w - 1) <= p
    ensures Pow10(w - 1) <= r <= p < r + s.plan.batchSize
  {
    BatchFrom(Pow10(w - 1), s.plan.batchSize, p)
  }

  /** The number of lanes of the batch starting at `start` (main.go:925-929):
      a full batch, or what is left of the tier. */
  function BatchCount(s: Search, w: nat, start: nat): int
  {
    Min(s.plan.batchSize, Pow10(w) - start)
  }

  /** Every batch of a tier holds between 1 and batchSize lanes, ends
      inside the tier, and its records fit the results buffer, so the read
      is never clamped. */
  lemma BatchCountBounds(s: Search, w: nat, start: nat)
    requires WellFormedPlan(s.plan)
    requires w >= 1 && Pow10(w - 1) <= start < Pow10(w)
    ensures 1 <= BatchCount(s, w, start) <= s.plan.batchSize
    ensures start + BatchCount(s, w, start) <= Pow10(w)
    ensures RecordSize * BatchCount(s, w, start) <= s.plan.resultsBufferSize
  {
  }

  /** The arguments of the dispatch that starts at nonce `start` of tier w. */
  function TierArgs(s: Search, w: nat, start: nat): KernelArgs
    requires w >= 1
  {
    var input := TierInput(s, w);
    var split := SplitNonce(start);
    KernelArgs(input, |input|, TierOffset(s, w), s.difficulty, split.0, split.1, w)
  }

  /** The record written for nonce p of tier w: lane p - start of the
      dispatch that starts at BatchStart. */
  function LaneRecordAt(s: Search, w: nat, p: nat): LaneRecord
    requires w >= 1 && Pow10(w - 1) <= p
  {
    var start := BatchStart(s, w, p);
    s.kernel(TierArgs(s, w, start), p - start)
  }

  /** The lane of nonce p of tier w is flagged and its candidate accepted. */
  predicate Accepts(s: Search, w: nat, p: nat)
    requires w >= 1 && Pow10(w - 1) <= p
  {
    var r := LaneRecordAt(s, w, p);
    r.flag == 1 && CheckCandidate(s.env, TierEvent(s, w), r.nonce, r.id, s.difficulty) == Accepted
  }

  /** No lane before nonce p of tier w, in search order, was accepted. */
  ghost predicate RejectedBefore(s: Search, w: nat, p: nat)
  {
    forall v, q ::
      (1 <= v && s.plan.minDigits <= v && Pow10(v - 1) <= q < Pow10(v) && (v < w || (v == w && q < p)))
      ==> !Accepts(s, v, q)
  }

  /** Nonce p of tier w is the first accepted lane in search order, and
      its lane reported nonce n and id `id`. */
  ghost predicate IsFirstHit(s: Search, w: nat, p: nat, n: nat, id: Digest)
  {
    && s.plan.minDigits <= w <= s.plan.maxDigits
    && 1 <= w && Pow10(w - 1) <= p < Pow10(w)
    && Accepts(s, w, p)
    && LaneRecordAt(s, w, p).nonce == n
    && LaneRecordAt(s, w, p).id == id
    && RejectedBefore(s, w, p)
  }

  /** The width of the nonce written into the output (main.go:1058-1064):
      its digit count, at least the narrowest tier's width. */
  function FinalWidth(s: Search, n: nat): nat
  {
    if Digits(n) < s.plan.minDigits then s.plan.minDigits else Digits(n)
  }

  /** The tag list of the output event when nonce n was found in tier w
      (main.go:1064-1071). */
  function FinalTags(s: Search, w: nat, n: nat): seq<Tag>
    requires w >= 1
  {
    SetNonceTag(TierTags(s.tags, w, s.difficulty), NonceTag(Pad(n, FinalWidth(s, n)), s.difficulty))
  }

  /** How a search ends. `PlaceholderMissing`, `Exhausted` and
      `FinalIdMismatch` are the fatal exits of main.go:900-902, 1054-1056
      and 1080-1082. */
  datatype Outcome =
    | Found(nonce: U64, id: Digest, tags: seq<Tag>)
    | PlaceholderMissing(width: nat)
    | Exhausted
    | FinalIdMismatch(nonce: U64, id: Digest)

  /** Within a tier, lane i of the dispatch starting at a batch boundary
      is the lane of nonce start + i. */
  lemma BatchLanes(s: Search, w: nat, start: nat, count: nat, i: nat, p: nat)
    requires w >= 1 && Pow10(w - 1) <= start && BatchStart(s, w, start) == start
    requires i < count <= s.plan.batchSize && p == start + i
    ensures BatchStart(s, w, p) == start
    ensures LaneAt(ReadResults(s.kernel, TierArgs(s, w, start), count), i) == LaneRecordAt(s, w, p)
    ensures LaneAccepted(s.env, TierEvent(s, w), ReadResults(s.kernel, TierArgs(s, w, start), count), i, s.difficulty)
        <==> Accepts(s, w, p)
  {
    LaneOfBatch(s, w, start, i, p);
    LaneAtReadResults(s.kernel, TierArgs(s, w, start), count, i);
  }

  /** Nonce start + i shares the batch that starts at `start` and is
      lane i of its dispatch. */
  lemma LaneOfBatch(s: Search, w: nat, start: nat, i: nat, p: nat)
    requires w >= 1 && Pow10(w - 1) <= start && BatchStart(s, w, start) == start
    requires i < s.plan.batchSize && p == start + i
    ensures BatchStart(s, w, p) == start
    ensures LaneRecordAt(s, w, p) == s.kernel(TierArgs(s, w, start), i)
  {
    BatchFromLane(Pow10(w - 1), s.plan.batchSize, start, p);
  }

  /** The output tags are the tags validateNonce accepted exactly when the
      output width equals validateNonce's width. */
  lemma FinalAgreesWithValidation(s: Search, w: nat, n: nat)
    requires WellFormedPlan(s.plan) && w >= 1
    ensures FinalTags(s, w, n) == CandidateEvent(TierEvent(s, w), n, s.difficulty).tags
        <==> FinalWidth(s, n) == ValidationWidth(n, s.difficulty)
  {
    var ts := TierTags(s.tags, w, s.difficulty);
    var a := NonceTag(Pad(n, FinalWidth(s, n)), s.difficulty);
    var b := CandidateTag(n, s.difficulty);
    if SetNonceTag(ts, a) == SetNonceTag(ts, b) {
      SetNonceTagSpec(ts, a);
      SetNonceTagSpec(ts, b);
      assert a[1] == b[1];
      PadSpec(n, FinalWidth(s, n));
      PadSpec(n, ValidationWidth(n, s.difficulty));
    }
  }

  /** Lanes 0 .. upto - 1 of the dispatch starting at a batch boundary
      of tier w were not accepted: the rejected prefix of the
      search grows to p = start + upto. */
  lemma ExtendRejected(s: Search, w: nat, start: nat, count: nat, upto: nat, p: nat)
    requires w >= 1 && Pow10(w - 1) <= start && BatchStart(s, w, start) == start
    requires upto <= count <= s.plan.batchSize && p == start + upto
    requires RejectedBefore(s, w, start)
    requires forall j :: 0 <= j < upto ==>
      !LaneAccepted(s.env, TierEvent(s, w), ReadResults(s.kernel, TierArgs(s, w, start), count), j, s.difficulty)
    ensures RejectedBefore(s, w, p)
  {
    forall v, q | 1 <= v && s.plan.minDigits <= v && Pow10(v - 1) <= q < Pow10(v)
        && (v < w || (v == w && q < p))
      ensures !Accepts(s, v, q)
    {
      if v == w && start <= q {
        BatchLanes(s, w, start, count, q - start, q);
      }
    }
  }

  /** The accepted lane i of the dispatch starting at a batch boundary is
      the accepted nonce p = start + i, and the lane's record is nonce p's. */
  lemma AcceptedLane(s: Search, w: nat, start: nat, count: nat, results: seq<Byte>, i: nat, p: nat)
    requires w >= 1 && Pow10(w - 1) <= start && BatchStart(s, w, start) == start
    requires i < count <= s.plan.batchSize && p == start + i
    requires results == ReadResults(s.kernel, TierArgs(s, w, start), count)
    requires LaneAccepted(s.env, TierEvent(s, w), results, i, s.difficulty)
    ensures BatchStart(s, w, p) == start
    ensures Accepts(s, w, p) && LaneRecordAt(s, w, p) == LaneAt(results, i)
  {
    BatchLanes(s, w, start, count, i, p);
  }

  /** The first accepted lane i of the dispatch starting at a batch boundary
      of tier w, when no earlier nonce was accepted, is the first
      hit of the search. */
  lemma FirstHitInBatch(s: Search, w: nat, start: nat, count: nat, results: seq<Byte>, i: nat,
                        p: nat, n: nat, id: Digest)
    requires s.plan.minDigits <= w <= s.plan.maxDigits && w >= 1
    requires Pow10(w - 1) <= start && BatchStart(s, w, start) == start
    requires count <= s.plan.batchSize && start + count <= Pow10(w)
    requires RejectedBefore(s, w, start)
    requires results == ReadResults(s.kernel, TierArgs(s, w, start), count)
    requires FirstAccepted(s.env, TierEvent(s, w), results, count, s.difficulty, 0) == Some(i)
    requires p == start + i && n == LaneAt(results, i).nonce && id == LaneAt(results, i).id
    ensures IsFirstHit(s, w, p, n, id) && BatchStart(s, w, p) == start
  {
    AcceptedLane(s, w, start, count, results, i, p);
    ExtendRejected(s, w, start, count, i, p);
  }

  /** One dispatch of tier w starting at the batch boundary `start`
      (main.go:925-1018): size the batch, split the base nonce, run the
      kernel, read back the records and harvest them. */
  method DispatchBatch(s: Search, w: nat, tags: array<Tag>, input: seq<Byte>, offset: int, start: nat)
    returns (hit: bool, nonce: U64, id: Digest, count: nat, ghost hitP: nat)
    requires WellFormedPlan(s.plan) && s.plan.minDigits <= w <= s.plan.maxDigits
    requires input == TierInput(s, w) && offset == TierOffset(s, w)
    requires Pow10(w - 1) <= start < Pow10(w) && BatchStart(s, w, start) == start
    requires SameApartFromNonce(tags[..], TierTags(s.tags, w, s.difficulty))
    requires RejectedBefore(s, w, start)
    modifies tags
    ensures SameApartFromNonce(tags[..], TierTags(s.tags, w, s.difficulty))
    ensures count == BatchCount(s, w, start)
    ensures hit ==> IsFirstHit(s, w, hitP, nonce, id) && BatchStart(s, w, hitP) == start
    ensures !hit ==> RejectedBefore(s, w, start + count)
  {
    var d := s.difficulty;
    count := Pow10(w) - 1 - start + 1;
    if count > s.plan.batchSize {
      count := s.plan.batchSize;
    }
    BatchCountBounds(s, w, start);
    var split := SplitNonce(start);
    var args := KernelArgs(input, |input|, offset, d, split.0, split.1, w);
    assert args == TierArgs(s, w, start);
    var readSize := count * RecordSize;
    if readSize > s.plan.resultsBufferSize {
      assert false;
    }
    var results := ReadResults(s.kernel, args, count);
    ghost var tierTags := TierTags(s.tags, w, d);
    hit, nonce, id := Harvest(s.env, s.header, tags, results, count, d, tierTags);
    ghost var first := FirstAccepted(s.env, Event(s.header, tierTags), results, count, d, 0);
    hitP := 0;
    if hit {
      hitP := start + first.value;
      FirstHitInBatch(s, w, start, count, results, first.value, hitP, nonce, id);
    } else {
      ExtendRejected(s, w, start, count, count, start + count);
    }
  }

  /** The batch after a full batch starts a batch boundary; a short
      batch ends the tier. */
  lemma NextBatch(s: Search, w: nat, start: nat, count: nat, next: nat)
    requires WellFormedPlan(s.plan) && w >= 1
    requires Pow10(w - 1) <= start < Pow10(w) && BatchStart(s, w, start) == start
    requires count == BatchCount(s, w, start) && next == start + count
    ensures next <= Pow10(w)
    ensures next == Pow10(w) || BatchStart(s, w, next) == next
  {
    if count == s.plan.batchSize {
      BatchFromNext(Pow10(w - 1), s.plan.batchSize, start);
    }
  }

  /** The sweep of tier w (main.go:921-1044): from 10^(w-1) on, batches of
      BatchCount lanes are dispatched and harvested, each starting where
      the previous one ended, until a lane is accepted or the tier is
      exhausted. `tested` counts the nonces of the earlier tiers. */
  method SearchTier(s: Search, w: nat, tags: array<Tag>, input: seq<Byte>, offset: int, tested: nat)
    returns (found: bool, nonce: U64, id: Digest, totalTested: nat, ghost hitP: nat)
    requires WellFormedPlan(s.plan) && s.plan.minDigits <= w <= s.plan.maxDigits
    requires input == TierInput(s, w) && offset == TierOffset(s, w) && offset >= 0
    requires tags[..] == TierTags(s.tags, w, s.difficulty)
    requires RejectedBefore(s, w, Pow10(w - 1))
    modifies tags
    ensures SameApartFromNonce(tags[..], TierTags(s.tags, w, s.difficulty))
    ensures !found ==> RejectedBefore(s, w, Pow10(w)) && totalTested == tested + (Pow10(w) - Pow10(w - 1))
    ensures found ==>
      && IsFirstHit(s, w, hitP, nonce, id)
      && totalTested == tested + (BatchStart(s, w, hitP) - Pow10(w - 1))
  {
    ghost var tierTags := tags[..];
    var baseNonce := Pow10(w - 1);
    var maxNonce := Pow10(w) - 1;
    var currentNonce := baseNonce;
    found, nonce, id, totalTested, hitP := false, 0, seq(32, _ => 0), tested, 0;
    while currentNonce <= maxNonce && !found
      invariant baseNonce <= currentNonce <= Pow10(w)
      invariant currentNonce == Pow10(w) || BatchStart(s, w, currentNonce) == currentNonce
      invariant SameApartFromNonce(tags[..], tierTags)
      invariant totalTested == tested + (currentNonce - baseNonce)
      invariant !found ==> RejectedBefore(s, w, currentNonce)
      invariant found ==> IsFirstHit(s, w, hitP, nonce, id) && BatchStart(s, w, hitP) == currentNonce
      decreases Pow10(w) - currentNonce, if found then 0 else 1
    {
      var hit, n, candidateId, count, p := DispatchBatch(s, w, tags, input, offset, currentNonce);
      if hit {
        found, nonce, id, hitP := true, n, candidateId, p;
      } else {
        var next := currentNonce + count;
        NextBatch(s, w, currentNonce, count, next);
        currentNonce := next;
        totalTested := totalTested + count;
      }
    }
  }

  /** An exhausted tier hands over to the next width: nothing before
      its first nonce was accepted, and the count of tested nonces is
      the count of all nonces of the tiers before it. */
  lemma NextTier(s: Search, w: nat, next: nat, tested: nat, total: nat)
    requires 1 <= w && 1 <= s.plan.minDigits && next == w + 1
    requires RejectedBefore(s, w, Pow10(w))
    requires tested + Pow10(s.plan.minDigits - 1) == Pow10(w - 1)
    requires total == tested + (Pow10(w) - Pow10(w - 1))
    ensures RejectedBefore(s, next, 0)
    ensures total + Pow10(s.plan.minDigits - 1) == Pow10(next - 1)
  {
  }

  /** A tier's search starts with nothing accepted before its first nonce. */
  lemma EnterTier(s: Search, w: nat)
    requires w >= 1 && RejectedBefore(s, w, 0)
    ensures RejectedBefore(s, w, Pow10(w - 1))
  {
  }

  /** The tags left after a tier keep the event's surviving tags. */
  lemma TierLeavesFiltered(s: Search, w: nat, t: seq<Tag>)
    requires w >= 1 && SameApartFromNonce(t, TierTags(s.tags, w, s.difficulty))
    ensures Filtered(t) == Filtered(s.tags)
  {
    SameApartFiltered(t, TierTags(s.tags, w, s.difficulty));
    TierTagsShape(s.tags, w, s.difficulty);
  }

  /** The set-up of tier w (main.go:876-902): drop the nonce and empty
      tags, append the w-digit placeholder nonce tag, serialize the event
      and locate the placeholder. */
  method PrepareTier(s: Search, w: nat, eventTags: array<Tag>)
    returns (tierTags: array<Tag>, serialized: seq<Byte>, offset: int)
    requires w >= 1 && Filtered(eventTags[..]) == Filtered(s.tags)
    ensures fresh(tierTags)
    ensures tierTags[..] == TierTags(s.tags, w, s.difficulty)
    ensures serialized == TierInput(s, w) && offset == TierOffset(s, w)
  {
    var placeholder := Pad(Pow10(w - 1), w);
    PlaceholderIsPadded(w);
    var filtered := FilterTags(eventTags[..]);
    var ts := filtered + [NonceTag(placeholder, s.difficulty)];
    assert ts == TierTags(s.tags, w, s.difficulty);
    tierTags := new Tag[|ts|](i requires 0 <= i < |ts| => ts[i]);
    assert tierTags[..] == ts;
    serialized := s.env.serialize(Event(s.header, tierTags[..]));
    DigitStringIsAscii(placeholder);
    offset := LocatePlaceholder(s.locator, serialized, Ascii(placeholder));
  }

  /** The output event of a first hit hashes to an id other than the
      kernel's only when the output width differs from validateNonce's:
      with equal widths the output event is the event validateNonce
      accepted. */
  lemma MismatchNeedsWiderPadding(s: Search, w: nat, p: nat, n: nat, id: Digest)
    requires WellFormedPlan(s.plan) && IsFirstHit(s, w, p, n, id)
    requires GetID(s.env, Event(s.header, FinalTags(s, w, n))) != Hex(id)
    ensures ValidationWidth(n, s.difficulty) != FinalWidth(s, n)
  {
    FinalAgreesWithValidation(s, w, n);
  }

  /** The output of a hit (main.go:1058-1085): the nonce is re-padded to
      FinalWidth, written into the first nonce tag, and the event's id is
      recomputed and compared with the kernel's. */
  method Finish(s: Search, eventTags: array<Tag>, ghost w: nat, ghost p: nat, nonce: U64, id: Digest)
    returns (out: Outcome)
    requires WellFormedPlan(s.plan) && IsFirstHit(s, w, p, nonce, id)
    requires SameApartFromNonce(eventTags[..], TierTags(s.tags, w, s.difficulty))
    modifies eventTags
    ensures out.Found? || out.FinalIdMismatch?
    ensures eventTags[..] == FinalTags(s, w, nonce)
    ensures out.Found? ==>
      && out == Found(nonce, id, FinalTags(s, w, nonce))
      && GetID(s.env, Event(s.header, out.tags)) == Hex(id)
    ensures out.FinalIdMismatch? ==>
      && out == FinalIdMismatch(nonce, id)
      && GetID(s.env, Event(s.header, FinalTags(s, w, nonce))) != Hex(id)
      && ValidationWidth(nonce, s.difficulty) != FinalWidth(s, nonce)
  {
    var d := s.difficulty;
    ghost var tierTags := TierTags(s.tags, w, d);
    TierTagsShape(s.tags, w, d);
    SameApartFirstNonce(eventTags[..], tierTags);
    var finalWidth := Digits(nonce);
    if finalWidth < s.plan.minDigits {
      finalWidth := s.plan.minDigits;
    }
    var nonceTag := NonceTag(Pad(nonce, finalWidth), d);
    SameApartSetNonce(eventTags[..], tierTags, nonceTag);
    var replaced := ReplaceFirstNonce(eventTags, nonceTag);
    assert eventTags[..] == FinalTags(s, w, nonce);
    var idHex := HexEncode(id);
    var expected := GetID(s.env, Event(s.header, eventTags[..]));
    if expected != idHex {
      MismatchNeedsWiderPadding(s, w, p, nonce, id);
      return FinalIdMismatch(nonce, id);
    }
    return Found(nonce, id, eventTags[..]);
  }

  /** One tier (main.go:876-1045): set it up, then sweep it unless the
      placeholder cannot be located. */
  method RunTier(s: Search, w: nat, eventTags: array<Tag>, tested: nat)
    returns (found: bool, missing: bool, nonce: U64, id: Digest, tierTags: array<Tag>,
             totalTested: nat, ghost hitP: nat)
    requires WellFormedPlan(s.plan) && s.plan.minDigits <= w <= s.plan.maxDigits
    requires Filtered(eventTags[..]) == Filtered(s.tags)
    requires RejectedBefore(s, w, 0)
    requires tested + Pow10(s.plan.minDigits - 1) == Pow10(w - 1)
    requires LocatedBelow(s, w)
    ensures fresh(tierTags)
    ensures missing ==> !found && TierOffset(s, w) == -1
    ensures !missing ==> TierOffset(s, w) >= 0 && LocatedBelow(s, w + 1)
    ensures !missing && !found ==>
      && Filtered(tierTags[..]) == Filtered(s.tags)
      && RejectedBefore(s, w + 1, 0)
      && totalTested + Pow10(s.plan.minDigits - 1) == Pow10(w)
    ensures found ==>
      && !missing
      && IsFirstHit(s, w, hitP, nonce, id)
      && SameApartFromNonce(tierTags[..], TierTags(s.tags, w, s.difficulty))
      && totalTested + Pow10(s.plan.minDigits - 1) == BatchStart(s, w, hitP)
  {
    var serialized, offset;
    tierTags, serialized, offset := PrepareTier(s, w, eventTags);
    if offset == -1 {
      return false, true, 0, seq(32, _ => 0), tierTags, tested, 0;
    }
    missing := false;
    LocatedNext(s, w);
    EnterTier(s, w);
    found, nonce, id, totalTested, hitP := SearchTier(s, w, tierTags, serialized, offset, tested);
    if !found {
      TierLeavesFiltered(s, w, tierTags[..]);
      NextTier(s, w, w + 1, tested, totalTested);
    }
  }

  /** The event's tags before the first tier, held in the array the tiers
      rewrite. */
  method InitialTags(s: Search) returns (eventTags: array<Tag>)
    ensures fresh(eventTags)
    ensures Filtered(eventTags[..]) == Filtered(s.tags)
  {
    var initial := FilterTags(s.tags);
    eventTags := new Tag[|initial|](i requires 0 <= i < |initial| => initial[i]);
    assert eventTags[..] == initial;
    FilteredIdempotent(s.tags);
  }

  /** The tier loop (main.go:823-830, 874-1045): widths from the plan's
      narrowest on, until a tier yields a hit, a placeholder cannot be
      located (`missing`), or the widest tier is exhausted. */
  method SearchTiers(s: Search)
    returns (found: bool, missing: bool, width: nat, nonce: U64, id: Digest, eventTags: array<Tag>,
             totalTested: nat, ghost hitP: nat)
    requires WellFormedPlan(s.plan)
    ensures fresh(eventTags)
    ensures LocatedBelow(s, width)
    ensures found ==> LocatedBelow(s, width + 1)
    ensures missing ==>
      && !found
      && s.plan.minDigits <= width <= s.plan.maxDigits
      && TierOffset(s, width) == -1
      && RejectedBefore(s, width, 0)
    ensures !missing && !found ==>
      && width == s.plan.maxDigits + 1
      && RejectedBefore(s, s.plan.maxDigits + 1, 0)
      && totalTested + Pow10(s.plan.minDigits - 1) == Pow10(s.plan.maxDigits)
    ensures found ==>
      && !missing
      && IsFirstHit(s, width, hitP, nonce, id)
      && SameApartFromNonce(eventTags[..], TierTags(s.tags, width, s.difficulty))
      && totalTested + Pow10(s.plan.minDigits - 1) == BatchStart(s, width, hitP)
  {
    eventTags := InitialTags(s);
    width := s.plan.minDigits;
    found, missing, nonce, id, totalTested, hitP := false, false, 0, seq(32, _ => 0), 0, 0;

    while width <= s.plan.maxDigits
      invariant s.plan.minDigits <= width <= s.plan.maxDigits + 1
      invariant fresh(eventTags)
      invariant !found && !missing
      invariant LocatedBelow(s, width)
      invariant Filtered(eventTags[..]) == Filtered(s.tags)
      invariant RejectedBefore(s, width, 0)
      invariant totalTested + Pow10(s.plan.minDigits - 1) == Pow10(width - 1)
    {
      found, missing, nonce, id, eventTags, totalTested, hitP := RunTier(s, width, eventTags, totalTested);
      if missing || found {
        return;
      }
      // Nothing accepted: the tier is exhausted and the width grows by one.
      width := width + 1;
    }
  }

  /** The search and its final check (main.go:1058-1085). */
  method Mine(s: Search) returns (out: Outcome, totalTested: nat)
    requires WellFormedPlan(s.plan)
    ensures out.PlaceholderMissing? ==>
      && s.plan.minDigits <= out.width <= s.plan.maxDigits
      && TierOffset(s, out.width) == -1
      && (forall v :: s.plan.minDigits <= v < out.width ==> TierOffset(s, v) >= 0)
      && RejectedBefore(s, out.width, 0)
    ensures out.Exhausted? ==>
      && (forall v :: s.plan.minDigits <= v <= s.plan.maxDigits ==> TierOffset(s, v) >= 0)
      && RejectedBefore(s, s.plan.maxDigits + 1, 0)
      && totalTested == Pow10(s.plan.maxDigits) - Pow10(s.plan.minDigits - 1)
    ensures out.Found? ==>
      && (exists w, p :: IsFirstHit(s, w, p, out.nonce, out.id)
            && (forall v :: s.plan.minDigits <= v <= w ==> TierOffset(s, v) >= 0)
            && out.tags == FinalTags(s, w, out.nonce)
            && totalTested == BatchStart(s, w, p) - Pow10(s.plan.minDigits - 1))
      && GetID(s.env, Event(s.header, out.tags)) == Hex(out.id)
    ensures out.FinalIdMismatch? ==>
      && (exists w, p :: IsFirstHit(s, w, p, out.nonce, out.id)
            && (forall v :: s.plan.minDigits <= v <= w ==> TierOffset(s, v) >= 0)
            && GetID(s.env, Event(s.header, FinalTags(s, w, out.nonce))) != Hex(out.id))
      && ValidationWidth(out.nonce, s.difficulty) != FinalWidth(s, out.nonce)
  {
    var found, missing, width, nonce, id, eventTags;
    ghost var p;
    found, missing, width, nonce, id, eventTags, totalTested, p := SearchTiers(s);
    LocatedOffsets(s, if found then width + 1 else width);
    if missing {
      return PlaceholderMissing(width), totalTested;
    }
    if !found {
      return Exhausted, totalTested;
    }
    out := Finish(s, eventTags, width, p, nonce, id);
  }

  // ---------------------------------------------------------------------
  // Properties of the tiers
  // ---------------------------------------------------------------------

  /** Every nonce of tier w has exactly w digits, so its text fills the
      w-character placeholder with no padding. */
  lemma TierNonceFillsPlaceholder(w: nat, p: nat)
    requires w >= 1 && Pow10(w - 1) <= p < Pow10(w)
    ensures Digits(p) == w
    ensures Pad(p, w) == DecimalString(p)
    ensures |Pad(p, w)| == |Placeholder(w)|
  {
    DigitsOfTier(p, w);
    TierNonceFits(p, w);
  }

  /** The kernel receives the batch's first nonce intact as two 32-bit
      words while it is below 2^64. */
  lemma KernelSeesBatchStart(s: Search, w: nat, start: nat)
    requires w >= 1 && start < TWO64
    ensures JoinNonce(TierArgs(s, w, start).baseLow, TierArgs(s, w, start).baseHigh) == start
  {
    SplitJoin(start, 0, 0);
  }

  /** The event validateNonce checks for nonce n of tier w is the event
      carrying n as the tier's w-digit nonce exactly when
      difficulty / 4 + 2 <= w; otherwise validateNonce pads the nonce to
      more characters than the placeholder the kernel filled. */
  lemma ValidatedEventIsMinedEvent(s: Search, w: nat, n: nat)
    requires w >= 1 && Pow10(w - 1) <= n < Pow10(w)
    ensures CandidateEvent(TierEvent(s, w), n, s.difficulty)
         == Event(s.header, SetNonceTag(TierTags(s.tags, w, s.difficulty), NonceTag(Pad(n, w), s.difficulty)))
        <==> s.difficulty / 4 + 2 <= w
  {
    var ts := TierTags(s.tags, w, s.difficulty);
    var a := CandidateTag(n, s.difficulty);
    var b := NonceTag(Pad(n, w), s.difficulty);
    WidthFloorsAgree(n, w, s.difficulty);
    if SetNonceTag(ts, a) == SetNonceTag(ts, b) {
      SetNonceTagSpec(ts, a);
      SetNonceTagSpec(ts, b);
      assert a[1] == b[1];
    }
  }

  /** A lane that hashed the event carrying its nonce n as the tier's
      w-digit nonce passes validateNonce's id check when
      difficulty / 4 + 2 <= w. */
  lemma HonestHitPassesIdCheck(s: Search, w: nat, n: nat, id: Digest)
    requires w >= 1 && Pow10(w - 1) <= n < Pow10(w)
    requires s.difficulty / 4 + 2 <= w
    requires id == s.env.sha256(s.env.serialize(
      Event(s.header, SetNonceTag(TierTags(s.tags, w, s.difficulty), NonceTag(Pad(n, w), s.difficulty)))))
    ensures CheckCandidate(s.env, TierEvent(s, w), n, id, s.difficulty) != IdMismatch
  {
    ValidatedEventIsMinedEvent(s, w, n);
  }
}
