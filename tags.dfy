/** The event's tag list as the miner rewrites it: the filter that drops
    nonce tags and empty tags (main.go:824-830, 884-890), the per-tier
    placeholder nonce tag (main.go:891), and the "replace the first nonce tag
    in place, else append" step of validateNonce (main.go:47-58) and of the
    final output (main.go:1065-1071). */
module Tags {
  import opened Decimal

  type Tag = seq<string>

  predicate IsNonceTag(t: Tag)
  {
    |t| > 0 && t[0] == "nonce"
  }

  /** The condition of the filter loops: a tag survives when it is
      non-empty and is not a nonce tag (empty tags are dropped too). */
  predicate Kept(t: Tag)
  {
    |t| > 0 && t[0] != "nonce"
  }

  /** The tags that survive the filter, in their original order. */
  function Filtered(ts: seq<Tag>): seq<Tag>
  {
    if ts == [] then []
    else
      var last := ts[|ts| - 1];
      Filtered(ts[..|ts| - 1]) + (if Kept(last) then [last] else [])
  }

  /** Filtering distributes over concatenation: the relative order of the
      surviving tags is kept. */
  lemma {:induction false} FilteredConcat(a: seq<Tag>, b: seq<Tag>)
    ensures Filtered(a + b) == Filtered(a) + Filtered(b)
  {
    if b != [] {
      var b' := b[..|b| - 1];
      assert (a + b)[..|a + b| - 1] == a + b';
      FilteredConcat(a, b');
    } else {
      assert a + b == a;
    }
  }

  /** A tag survives exactly when it is in the input and passes the filter. */
  lemma {:induction false} FilteredMembers(ts: seq<Tag>, t: Tag)
    ensures t in Filtered(ts) <==> t in ts && Kept(t)
  {
    if ts != [] {
      var p := ts[..|ts| - 1];
      FilteredMembers(p, t);
      assert ts == p + [ts[|ts| - 1]];
    }
  }

  lemma {:induction false} FilteredAllKept(ts: seq<Tag>)
    ensures forall j :: 0 <= j < |Filtered(ts)| ==> Kept(Filtered(ts)[j])
  {
    forall j | 0 <= j < |Filtered(ts)| ensures Kept(Filtered(ts)[j]) {
      FilteredMembers(ts, Filtered(ts)[j]);
    }
  }

  /** Filtering twice is filtering once. */
  lemma {:induction false} FilteredIdempotent(ts: seq<Tag>)
    ensures Filtered(Filtered(ts)) == Filtered(ts)
  {
    if ts != [] {
      var p := ts[..|ts| - 1];
      var last := ts[|ts| - 1];
      FilteredIdempotent(p);
      var tail := if Kept(last) then [last] else [];
      FilteredConcat(Filtered(p), tail);
      if Kept(last) {
        assert [last][..0] == [];
      }
    }
  }

  /** The filter loop: copy every surviving tag, in order, into a new list. */
  method FilterTags(ts: seq<Tag>) returns (r: seq<Tag>)
    ensures r == Filtered(ts)
  {
    r := [];
    for i := 0 to |ts|
      invariant r == Filtered(ts[..i])
    {
      assert ts[..i + 1][..i] == ts[..i];
      if |ts[i]| > 0 && ts[i][0] != "nonce" {
        r := r + [ts[i]];
      }
    }
    assert ts[..|ts|] == ts;
  }

  /** `nostr.Tag{"nonce", value, strconv.Itoa(difficulty)}`. */
  function NonceTag(value: string, difficulty: nat): Tag
  {
    ["nonce", value, DecimalString(difficulty)]
  }

  /** The tag list of tier w: the surviving tags, then one placeholder
      nonce tag. */
  function TierTags(ts: seq<Tag>, w: nat, difficulty: nat): seq<Tag>
    requires w >= 1
  {
    Filtered(ts) + [NonceTag(Placeholder(w), difficulty)]
  }

  // ---------------------------------------------------------------------
  // The first nonce tag, replaced in place or appended
  // ---------------------------------------------------------------------

  /** Index of the first nonce tag, -1 when there is none. */
  function FirstNonce(ts: seq<Tag>): (r: int)
    ensures -1 <= r < |ts|
    ensures r >= 0 ==> IsNonceTag(ts[r])
    ensures forall j :: 0 <= j < |ts| && (r < 0 || j < r) ==> !IsNonceTag(ts[j])
  {
    if ts == [] then -1
    else if IsNonceTag(ts[0]) then 0
    else
      var k := FirstNonce(ts[1..]);
      assert forall j :: 1 <= j < |ts| ==> ts[j] == ts[1..][j - 1];
      if k < 0 then -1 else k + 1
  }

  /** The first nonce tag is at i when ts[i] is one and no earlier tag is. */
  lemma FirstNonceIs(ts: seq<Tag>, i: nat)
    requires i < |ts| && IsNonceTag(ts[i])
    requires forall j :: 0 <= j < i ==> !IsNonceTag(ts[j])
    ensures FirstNonce(ts) == i
  {
  }

  /** What validateNonce's copy of the event ends up with: the first nonce
      tag replaced by t, or t appended when there is none. */
  function SetNonceTag(ts: seq<Tag>, t: Tag): seq<Tag>
  {
    var i := FirstNonce(ts);
    if i >= 0 then ts[i := t] else ts + [t]
  }

  /** What the caller's tag list ends up with: `testEvent := *event` copies
      only the slice header, so the in-place write reaches the caller while
      an append does not. */
  function InPlaceEffect(ts: seq<Tag>, t: Tag): seq<Tag>
  {
    var i := FirstNonce(ts);
    if i >= 0 then ts[i := t] else ts
  }

  /** The tier tag list holds the surviving tags in order and exactly one
      nonce tag, the placeholder, at the end. */
  lemma TierTagsShape(ts: seq<Tag>, w: nat, difficulty: nat)
    requires w >= 1
    ensures var r := TierTags(ts, w, difficulty);
      && |r| == |Filtered(ts)| + 1
      && FirstNonce(r) == |r| - 1
      && r[|r| - 1] == NonceTag(Placeholder(w), difficulty)
      && (forall j :: 0 <= j < |r| - 1 ==> Kept(r[j]))
      && Filtered(r) == Filtered(ts)
  {
    var f := Filtered(ts);
    var t := NonceTag(Placeholder(w), difficulty);
    var r := f + [t];
    FilteredAllKept(ts);
    assert forall j :: 0 <= j < |r| - 1 ==> r[j] == f[j];
    FirstNonceIs(r, |f|);
    FilteredIdempotent(ts);
    FilteredConcat(f, [t]);
    assert [t][..0] == [];
  }

  /** Overwriting one nonce tag by another leaves the surviving tags alone. */
  lemma FilteredUpdateNonce(ts: seq<Tag>, i: nat, t: Tag)
    requires i < |ts| && IsNonceTag(ts[i]) && IsNonceTag(t)
    ensures Filtered(ts[i := t]) == Filtered(ts)
  {
    var u := ts[i := t];
    assert ts == ts[..i] + [ts[i]] + ts[i + 1..];
    assert u == ts[..i] + [t] + ts[i + 1..];
    FilteredConcat(ts[..i] + [ts[i]], ts[i + 1..]);
    FilteredConcat(ts[..i], [ts[i]]);
    FilteredConcat(ts[..i] + [t], ts[i + 1..]);
    FilteredConcat(ts[..i], [t]);
    assert [t][..0] == [] && [ts[i]][..0] == [];
  }

  /** Setting the nonce tag replaces the first nonce tag (or appends one),
      leaves every other tag where it was, and makes t the first nonce tag. */
  lemma SetNonceTagSpec(ts: seq<Tag>, t: Tag)
    requires IsNonceTag(t)
    ensures var r := SetNonceTag(ts, t);
      && Filtered(r) == Filtered(ts)
      && FirstNonce(r) == (if FirstNonce(ts) >= 0 then FirstNonce(ts) else |ts|)
      && r[FirstNonce(r)] == t
      && |r| == (if FirstNonce(ts) >= 0 then |ts| else |ts| + 1)
      && (forall j :: 0 <= j < |ts| && j != FirstNonce(ts) ==> r[j] == ts[j])
  {
    var i := FirstNonce(ts);
    var r := SetNonceTag(ts, t);
    if i >= 0 {
      FilteredUpdateNonce(ts, i, t);
      assert forall j :: 0 <= j < i ==> r[j] == ts[j];
      FirstNonceIs(r, i);
    } else {
      FilteredConcat(ts, [t]);
      assert [t][..0] == [];
      assert forall j :: 0 <= j < |ts| ==> r[j] == ts[j];
      FirstNonceIs(r, |ts|);
    }
  }

  /** A later validation overrides an earlier one completely: once some
      nonce tag a has been written in place, setting b gives the same tag
      list as setting b on the untouched list. */
  lemma {:induction false} SetNonceTagAbsorbs(ts: seq<Tag>, a: Tag, b: Tag)
    requires IsNonceTag(a)
    ensures SetNonceTag(InPlaceEffect(ts, a), b) == SetNonceTag(ts, b)
    ensures SetNonceTag(SetNonceTag(ts, a), b) == SetNonceTag(ts, b)
  {
    var i := FirstNonce(ts);
    if i >= 0 {
      var u := ts[i := a];
      FirstNonceIs(u, i);
      assert u[i := b] == ts[i := b];
    } else {
      var u := ts + [a];
      FirstNonceIs(u, |ts|);
      assert u[|ts| := b] == ts + [b];
    }
  }

  /** t agrees with base except, possibly, for the nonce tag written at
      base's first nonce position: the state of the mining event's tags
      after any number of validations. */
  ghost predicate SameApartFromNonce(t: seq<Tag>, base: seq<Tag>)
  {
    && |t| == |base|
    && forall j :: 0 <= j < |t| ==> t[j] == base[j] || (j == FirstNonce(base) && IsNonceTag(t[j]))
  }

  lemma SameApartFirstNonce(t: seq<Tag>, base: seq<Tag>)
    requires SameApartFromNonce(t, base)
    ensures FirstNonce(t) == FirstNonce(base)
  {
    var f := FirstNonce(base);
    var g := FirstNonce(t);
    if f < 0 {
      assert t == base;
    } else {
      assert IsNonceTag(t[f]);
      assert g >= 0;
    }
  }

  /** Validations against a list that agrees with base apart from the nonce
      tag see exactly the tags they would see against base. */
  lemma SameApartSetNonce(t: seq<Tag>, base: seq<Tag>, b: Tag)
    requires SameApartFromNonce(t, base)
    ensures SetNonceTag(t, b) == SetNonceTag(base, b)
    ensures InPlaceEffect(t, b) == InPlaceEffect(base, b)
  {
    SameApartFirstNonce(t, base);
    var f := FirstNonce(base);
    if f < 0 {
      assert t == base;
    } else {
      assert t[f := b] == base[f := b];
    }
  }

  /** One more in-place write of a nonce tag keeps the relation. */
  lemma SameApartStep(t: seq<Tag>, base: seq<Tag>, a: Tag)
    requires SameApartFromNonce(t, base) && IsNonceTag(a)
    ensures SameApartFromNonce(InPlaceEffect(t, a), base)
  {
    SameApartFirstNonce(t, base);
  }

  /** The filter does not see the overwritten nonce tag. */
  lemma SameApartFiltered(t: seq<Tag>, base: seq<Tag>)
    requires SameApartFromNonce(t, base)
    ensures Filtered(t) == Filtered(base)
  {
    var f := FirstNonce(base);
    if f < 0 {
      assert t == base;
    } else {
      assert t == base[f := t[f]];
      FilteredUpdateNonce(base, f, t[f]);
    }
  }

  /** The in-place loop `for i, tag := range tags { if nonce { tags[i] = t; break } }`. */
  method ReplaceFirstNonce(tags: array<Tag>, t: Tag) returns (replaced: bool)
    modifies tags
    ensures replaced <==> FirstNonce(old(tags[..])) >= 0
    ensures tags[..] == InPlaceEffect(old(tags[..]), t)
  {
    replaced := false;
    var i := 0;
    while i < tags.Length
      invariant 0 <= i <= tags.Length
      invariant tags[..] == old(tags[..])
      invariant forall j :: 0 <= j < i ==> !IsNonceTag(tags[j])
    {
      if |tags[i]| > 0 && tags[i][0] == "nonce" {
        assert FirstNonce(tags[..]) == i;
        tags[i] := t;
        replaced := true;
        return;
      }
      i := i + 1;
    }
    assert FirstNonce(tags[..]) == -1;
  }
}
