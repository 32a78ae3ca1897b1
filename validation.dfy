/** Host-side re-validation of a candidate nonce reported by the kernel
    (`validateNonce`, main.go:35-92). The Nostr library calls it makes are
    collaborators given as function values: the canonical serialization
    (`Event.Serialize`), SHA-256, `nip13.Check` and
    `nip13.CommittedDifficulty`. */
module Validation {
  import opened Decimal
  import opened Encoding
  import opened Tags

  /** The fields of a Nostr event that the miner never changes. */
  datatype Header = Header(pubkey: string, createdAt: int, kind: int, content: string)

  /** An event without its id: the id is what the hash of the serialization
      must reproduce. */
  datatype Event = Event(header: Header, tags: seq<Tag>)

  datatype Nostr = Nostr(
    serialize: Event -> seq<Byte>,     // `Event.Serialize`
    sha256: seq<Byte> -> Digest,       // SHA-256
    check: (string, int) -> bool,      // `nip13.Check(id, difficulty) == nil`
    committed: (Event, string) -> int) // `nip13.CommittedDifficulty` of the event with that id

  /** `Event.GetID`: the lower-case hex of the hash of the serialization. */
  function GetID(env: Nostr, e: Event): string
  {
    Hex(env.sha256(env.serialize(e)))
  }

  /** The width validateNonce pads a candidate to:
      max(digits of n, difficulty / 4 + 2) (main.go:40-44). */
  function ValidationWidth(n: nat, difficulty: nat): nat
  {
    if Digits(n) < difficulty / 4 + 2 then difficulty / 4 + 2 else Digits(n)
  }

  /** The nonce text validateNonce writes into the nonce tag. */
  function NonceValue(n: nat, difficulty: nat): string
  {
    Pad(n, ValidationWidth(n, difficulty))
  }

  /** The nonce tag validateNonce writes. */
  function CandidateTag(n: nat, difficulty: nat): Tag
  {
    NonceTag(NonceValue(n, difficulty), difficulty)
  }

  /** The copy of the event that validateNonce checks. */
  function CandidateEvent(e: Event, n: nat, difficulty: nat): Event
  {
    Event(e.header, SetNonceTag(e.tags, CandidateTag(n, difficulty)))
  }

  datatype Verdict = Accepted | IdMismatch | DifficultyRejected | CommittedMismatch

  /** The three checks of validateNonce, in order; the first that fails
      decides the verdict (main.go:67-91). */
  function CheckCandidate(env: Nostr, e: Event, n: nat, id: Digest, difficulty: nat): Verdict
  {
    var candidate := CandidateEvent(e, n, difficulty);
    var idHex := Hex(id);
    if GetID(env, candidate) != idHex then IdMismatch
    else if !env.check(idHex, difficulty) then DifficultyRejected
    else if env.committed(candidate, idHex) != difficulty then CommittedMismatch
    else Accepted
  }

  /** validateNonce. The event's tag list lives in `tags`, shared with the
      caller: the first nonce tag is overwritten in place (the caller sees
      it), while an appended tag stays in the local copy. Any failed check
      yields false; nothing aborts. */
  method ValidateNonce(env: Nostr, header: Header, tags: array<Tag>, n: U64, id: Digest, difficulty: nat)
    returns (ok: bool)
    modifies tags
    ensures ok <==> CheckCandidate(env, Event(header, old(tags[..])), n, id, difficulty) == Accepted
    ensures tags[..] == InPlaceEffect(old(tags[..]), CandidateTag(n, difficulty))
  {
    ghost var before := tags[..];
    var width := Digits(n);
    var minDigits := difficulty / 4 + 2;
    if width < minDigits {
      width := minDigits;
    }
    var nonceTag := NonceTag(Pad(n, width), difficulty);
    var replaced := ReplaceFirstNonce(tags, nonceTag);
    var testTags := tags[..];
    if !replaced {
      testTags := testTags + [nonceTag];
    }
    var testEvent := Event(header, testTags);
    assert testEvent == CandidateEvent(Event(header, before), n, difficulty);
    var idHex := HexEncode(id);
    var expected := GetID(env, testEvent);
    if expected != idHex {
      return false;
    }
    if !env.check(idHex, difficulty) {
      return false;
    }
    if env.committed(testEvent, idHex) != difficulty {
      return false;
    }
    return true;
  }

  // ---------------------------------------------------------------------
  // Properties
  // ---------------------------------------------------------------------

  /** A candidate is accepted exactly when it is a proof of work: the hash
      of the event that carries the candidate's nonce tag IS the reported
      id, that id passes nip13.Check, and the committed difficulty is the
      target. */
  lemma AcceptedIsProofOfWork(env: Nostr, e: Event, n: nat, id: Digest, difficulty: nat)
    ensures CheckCandidate(env, e, n, id, difficulty) == Accepted <==>
      && env.sha256(env.serialize(CandidateEvent(e, n, difficulty))) == id
      && env.check(Hex(id), difficulty)
      && env.committed(CandidateEvent(e, n, difficulty), Hex(id)) == difficulty
  {
    var digest := env.sha256(env.serialize(CandidateEvent(e, n, difficulty)));
    if Hex(digest) == Hex(id) {
      HexInjective(digest, id);
    }
  }

  /** The candidate's nonce text denotes the candidate and is
      max(digits, difficulty / 4 + 2) characters long. */
  lemma NonceValueSpec(n: nat, difficulty: nat)
    ensures IsDigitString(NonceValue(n, difficulty))
    ensures ValueOf(NonceValue(n, difficulty)) == n
    ensures |NonceValue(n, difficulty)| == ValidationWidth(n, difficulty)
    ensures ValidationWidth(n, difficulty) >= difficulty / 4 + 2
  {
    PadSpec(n, ValidationWidth(n, difficulty));
  }

  /** For a nonce of the w-digit tier, validateNonce writes the nonce as
      the tier's w-digit nonce iff difficulty / 4 + 2 <= w; otherwise it
      pads to more characters than the placeholder has. */
  lemma WidthFloorsAgree(n: nat, w: nat, difficulty: nat)
    requires w >= 1 && Pow10(w - 1) <= n < Pow10(w)
    ensures ValidationWidth(n, difficulty) == w <==> difficulty / 4 + 2 <= w
    ensures NonceValue(n, difficulty) == Pad(n, w) <==> difficulty / 4 + 2 <= w
  {
    DigitsOfTier(n, w);
    PadInjective(n, ValidationWidth(n, difficulty), w);
  }

  /** Earlier validations do not influence later ones: against a tag list
      that differs from base only in the nonce tag written in place, the
      verdict is the verdict against base. */
  lemma VerdictIgnoresEarlierCandidates(env: Nostr, header: Header, t: seq<Tag>, base: seq<Tag>,
                                        n: nat, id: Digest, difficulty: nat)
    requires SameApartFromNonce(t, base)
    ensures CheckCandidate(env, Event(header, t), n, id, difficulty)
         == CheckCandidate(env, Event(header, base), n, id, difficulty)
  {
    SameApartSetNonce(t, base, CandidateTag(n, difficulty));
  }
}
