/** NIP-01's serialization of an event: the JSON array
    [0,<pubkey>,<created_at>,<kind>,<tags>,<content>] written compactly,
    strings escaped as NIP-01 prescribes. The miner treats the serializer
    as a collaborator; this concrete one shows where each placeholder
    locator makes the kernel write its nonce. */
module Nip01 {
  import opened Decimal
  import opened Tags
  import opened Locate
  import opened Validation

  /** NIP-01 escapes line feed, double quote, backslash, carriage return,
      tab, backspace and form feed; every other character is kept. */
  function EscapeChar(c: char): string
  {
    if c == '\n' then "\\n"
    else if c == '"' then "\\\""
    else if c == '\\' then "\\\\"
    else if c == '\r' then "\\r"
    else if c == '\t' then "\\t"
    else if c as int == 8 then "\\b"
    else if c as int == 12 then "\\f"
    else [c]
  }

  function Escape(s: string): string
  {
    if s == [] then [] else EscapeChar(s[0]) + Escape(s[1..])
  }

  function JsonString(s: string): string
  {
    Quote + Escape(s) + Quote
  }

  /** An integer as JSON writes it. */
  function JsonInt(n: int): string
  {
    if n < 0 then "-" + DecimalString(-n) else DecimalString(n)
  }

  /** The items, comma separated. */
  function Join(items: seq<string>): string
  {
    if items == [] then ""
    else if |items| == 1 then items[0]
    else Join(items[..|items| - 1]) + "," + items[|items| - 1]
  }

  function Strings(t: Tag): seq<string>
  {
    if t == [] then [] else Strings(t[..|t| - 1]) + [JsonString(t[|t| - 1])]
  }

  function TagJson(t: Tag): string
  {
    "[" + Join(Strings(t)) + "]"
  }

  function TagItems(ts: seq<Tag>): seq<string>
  {
    if ts == [] then [] else TagItems(ts[..|ts| - 1]) + [TagJson(ts[|ts| - 1])]
  }

  /** The text of an event up to its kind: "[0,", the quoted pubkey, the
      creation time, each followed by a comma. The Nostr library writes the
      pubkey between quotes without escaping it; for a hex key, the only
      kind the protocol allows, escaping changes nothing. */
  function Lead(h: Header): string
  {
    "[0," + JsonString(h.pubkey) + "," + JsonInt(h.createdAt) + ","
  }

  function Text(e: Event): string
  {
    Lead(e.header) + JsonInt(e.header.kind) + ",[" + Join(TagItems(e.tags)) + "],"
      + JsonString(e.header.content) + "]"
  }

  // ---------------------------------------------------------------------
  // A nonce tag written last
  // ---------------------------------------------------------------------

  /** The text of the tags f ahead of one more tag. */
  function Prior(f: seq<Tag>): string
  {
    if f == [] then "" else Join(TagItems(f)) + ","
  }

  /** The text before the value of a nonce tag that follows the tags f. */
  function Before(h: Header, f: seq<Tag>): string
  {
    Lead(h) + JsonInt(h.kind) + ",[" + Prior(f) + NonceMarker
  }

  /** The text after the value of the last tag, a nonce tag of the given
      difficulty. */
  function After(h: Header, difficulty: nat): string
  {
    Quote + "," + Quote + DecimalString(difficulty) + Quote + "]" + "]," + JsonString(h.content) + "]"
  }

  lemma {:induction false} EscapeDigits(s: string)
    requires IsDigitString(s)
    ensures Escape(s) == s
  {
    if s != [] {
      EscapeDigits(s[1..]);
    }
  }

  lemma JoinSnoc(items: seq<string>, x: string)
    requires items != []
    ensures Join(items + [x]) == Join(items) + "," + x
  {
    assert (items + [x])[..|items|] == items;
  }

  lemma EscapeNonce()
    ensures Escape("nonce") == "nonce"
  {
    var n := "nonce";
    assert EscapeChar('e') == "e" && n[4..] == "e" && Escape(n[4..]) == "e";
    assert EscapeChar('c') == "c" && n[3..][1..] == n[4..] && Escape(n[3..]) == "ce";
    assert EscapeChar('n') == "n" && n[2..][1..] == n[3..] && Escape(n[2..]) == "nce";
    assert EscapeChar('o') == "o" && n[1..][1..] == n[2..] && Escape(n[1..]) == "once";
  }

  lemma StringsOfThree(t: Tag)
    requires |t| == 3
    ensures Strings(t) == [JsonString(t[0]), JsonString(t[1]), JsonString(t[2])]
  {
    var t1, t2 := t[..1], t[..2];
    assert t1[..0] == [] && t2[..1] == t1 && t[..2] == t2;
    assert Strings(t1) == [JsonString(t[0])];
    assert Strings(t2) == [JsonString(t[0]), JsonString(t[1])];
  }

  lemma JoinOfThree(a: string, b: string, c: string)
    ensures Join([a, b, c]) == a + "," + b + "," + c
  {
    assert Join([a]) == a;
    assert [a, b][..1] == [a] && Join([a, b]) == a + "," + b;
    assert [a, b, c][..2] == [a, b];
  }

  /** A nonce tag with a digit value v is written `["nonce","v","d"]`. */
  lemma NonceTagText(v: string, difficulty: nat)
    requires IsDigitString(v)
    ensures TagJson(NonceTag(v, difficulty)) == NonceMarker + v + Quote + "," + Quote + DecimalString(difficulty) + Quote + "]"
  {
    var d := DecimalString(difficulty);
    EscapeDigits(v);
    EscapeDigits(d);
    EscapeNonce();
    StringsOfThree(NonceTag(v, difficulty));
    JoinOfThree(JsonString("nonce"), JsonString(v), JsonString(d));
    var q := Quote;
    assert TagJson(NonceTag(v, difficulty))
        == "[" + ((q + "nonce" + q) + "," + (q + v + q) + "," + (q + d + q)) + "]";
    Regroup("[", q, "nonce", ",", v, d, "]");
  }

  /** The pieces of a three-string tag regrouped around its second and
      third strings. */
  lemma Regroup<T>(l: seq<T>, q: seq<T>, n: seq<T>, c: seq<T>, v: seq<T>, d: seq<T>, r: seq<T>)
    ensures l + ((q + n + q) + c + (q + v + q) + c + (q + d + q)) + r
         == (l + q + n + q + c + q) + v + q + c + q + d + q + r
  {
  }

  /** The text of an event whose last tag is a nonce tag with a digit value
      v is Before, then v, then After: v is not escaped and nothing after
      it depends on the tags before it. */
  lemma NonceLastSplit(h: Header, f: seq<Tag>, v: string, difficulty: nat)
    requires IsDigitString(v)
    ensures Text(Event(h, f + [NonceTag(v, difficulty)])) == Before(h, f) + v + After(h, difficulty)
  {
    var t := NonceTag(v, difficulty);
    var d := DecimalString(difficulty);
    NonceTagText(v, difficulty);
    assert (f + [t])[..|f|] == f;
    assert TagItems(f + [t]) == TagItems(f) + [TagJson(t)];
    assert Join(TagItems(f + [t])) == Prior(f) + TagJson(t) by {
      if f != [] {
        JoinSnoc(TagItems(f), TagJson(t));
      } else {
        assert Join(TagItems(f + [t])) == TagJson(t);
      }
    }
    RegroupText(Lead(h) + JsonInt(h.kind) + ",[", Prior(f), NonceMarker, v, Quote, ",", d, "]", "],",
                JsonString(h.content), "]");
  }

  /** The pieces of an event's text regrouped around a last tag's value. */
  lemma RegroupText<T>(l: seq<T>, p: seq<T>, m: seq<T>, v: seq<T>, q: seq<T>, cm: seq<T>, d: seq<T>,
                       rb: seq<T>, e2: seq<T>, c: seq<T>, e3: seq<T>)
    ensures l + (p + (m + v + q + cm + q + d + q + rb)) + e2 + c + e3
         == (l + p + m) + v + (q + cm + q + d + q + rb + e2 + c + e3)
  {
  }

  /** Writing another value of the same width over the value of a nonce
      tag that comes last gives the text of the event carrying that value. */
  lemma SubstituteNonce(h: Header, f: seq<Tag>, v: string, v': string, difficulty: nat)
    requires IsDigitString(v) && IsDigitString(v') && |v| == |v'|
    ensures |Before(h, f)| + |v'| <= |Text(Event(h, f + [NonceTag(v, difficulty)]))|
    ensures Substitute(Text(Event(h, f + [NonceTag(v, difficulty)])), |Before(h, f)|, v')
         == Text(Event(h, f + [NonceTag(v', difficulty)]))
  {
    NonceLastSplit(h, f, v, difficulty);
    NonceLastSplit(h, f, v', difficulty);
    var b, a := Before(h, f), After(h, difficulty);
    var s := b + v + a;
    assert s[..|b|] == b && s[|b| + |v|..] == a;
  }

  // ---------------------------------------------------------------------
  // Where each locator makes the kernel write
  // ---------------------------------------------------------------------

  lemma {:induction false} EscapeKeepsOutBracket(s: string)
    requires '[' !in s
    ensures '[' !in Escape(s)
  {
    if s != [] {
      assert '[' !in s[1..] by { assert forall i :: 0 <= i < |s[1..]| ==> s[1..][i] == s[i + 1]; }
      EscapeKeepsOutBracket(s[1..]);
    }
  }

  /** The quoted pubkey, the creation time and the kind, comma separated. */
  function Fields(h: Header): string
  {
    JsonString(h.pubkey) + "," + JsonInt(h.createdAt) + "," + JsonInt(h.kind)
  }

  lemma Regroup7<T>(a: seq<T>, b: seq<T>, c: seq<T>, d: seq<T>, e: seq<T>, f: seq<T>, g: seq<T>)
    ensures a + b + c + d + e + f + g == a + (b + c + d + e + f) + g
  {
  }

  lemma JsonIntKeepsOutBracket(n: int)
    ensures '[' !in JsonInt(n)
  {
    var d := DecimalString(if n < 0 then -n else n);
    assert '[' !in d;
  }

  lemma FieldsKeepOutBracket(h: Header)
    requires '[' !in h.pubkey
    ensures '[' !in Fields(h)
  {
    EscapeKeepsOutBracket(h.pubkey);
    JsonIntKeepsOutBracket(h.createdAt);
    JsonIntKeepsOutBracket(h.kind);
  }

  /** Between its opening "[0," and the "[" that opens its tags, the text
      of an event whose pubkey has no '[' has no '['. */
  lemma LeadFields(h: Header)
    requires '[' !in h.pubkey
    ensures Lead(h) + JsonInt(h.kind) + ",[" == "[0," + Fields(h) + ",["
    ensures '[' !in Fields(h)
  {
    FieldsKeepOutBracket(h);
    Regroup7("[0,", JsonString(h.pubkey), ",", JsonInt(h.createdAt), ",", JsonInt(h.kind), ",[");
  }

  /** In `[0,<fields>,[<pat>...` with no '[' in the fields, the first
      occurrence of a pattern that starts with `["` is the one after the
      tags' own '['. */
  lemma FirstAfterBrackets(text: string, fields: string, pat: string, rest: string)
    requires text == "[0," + fields + ",[" + pat + rest
    requires '[' !in fields && |pat| >= 2 && pat[0] == '[' && pat[1] == '"'
    ensures IndexOf(text, pat) == 5 + |fields|
  {
    var k := 5 + |fields|;
    assert text[k..k + |pat|] == pat;
    assert OccursAt(text, pat, k);
    forall j | 0 <= j < k
      ensures !OccursAt(text, pat, j)
    {
      if j < 3 {
        assert text[1] == '0' && text[2] == ',';
      } else if j < 3 + |fields| {
        assert text[j] == fields[j - 3];
      } else if j == 3 + |fields| {
        assert text[j] == ',';
      } else {
        assert text[j + 1] == '[';
      }
      assert text[j] != '[' || text[j + 1] != '"';
      assert text[j..j + |pat|][0] == text[j];
    }
    var r := IndexOf(text, pat);
    assert r != -1;
    assert r <= k;
  }

  /** The second of seven pieces occurs right after the first. */
  lemma SecondOccurs<T>(a: seq<T>, p: seq<T>, c: seq<T>, d: seq<T>, e: seq<T>, v: seq<T>, g: seq<T>)
    ensures OccursAt(a + p + c + d + e + v + g, p, |a|)
  {
    var s := a + p + c + d + e + v + g;
    assert s == a + p + (c + d + e + v + g);
    assert s[|a|..|a| + |p|] == p;
  }

  /** The kind field of an event whose kind is the first nonce of tier w
      holds the placeholder, ahead of the nonce tag. */
  lemma KindHoldsPlaceholder(h: Header, f: seq<Tag>, w: nat, difficulty: nat)
    requires w >= 1 && h.kind == Pow10(w - 1)
    ensures OccursAt(Text(Event(h, f + [NonceTag(Placeholder(w), difficulty)])), Placeholder(w), |Lead(h)|)
    ensures |Lead(h)| + w < |Before(h, f)|
  {
    var p := Placeholder(w);
    NonceLastSplit(h, f, p, difficulty);
    PlaceholderIsPadded(w);
    assert JsonInt(h.kind) == p;
    SecondOccurs(Lead(h), p, ",[", Prior(f), NonceMarker, p, After(h, difficulty));
  }

  /** Writing v ahead of b's end leaves the p that follows b in place. */
  lemma SubstituteAheadKeeps<T>(b: seq<T>, p: seq<T>, a: seq<T>, r: nat, v: seq<T>)
    requires r + |v| <= |b|
    ensures Substitute(b + p + a, r, v)[|b|..|b| + |p|] == p
  {
    var s := Substitute(b + p + a, r, v);
    forall i | 0 <= i < |p|
      ensures s[|b| + i] == p[i]
    {
      assert s[|b| + i] == (b + p + a)[|b| + i];
    }
  }

  /** main.go:898-899 as written: when the event's kind is the first
      nonce of tier w (kind 10000, a NIP-51 mute list, and the first tier
      w = 5), `bytes.Index` finds the placeholder in the kind field, ahead
      of the nonce tag, and a lane that writes its nonce v there hashes a
      text that is not the event carrying v. */
  lemma KindCapturesPlaceholder(h: Header, f: seq<Tag>, w: nat, difficulty: nat, v: string)
    requires w >= 1 && h.kind == Pow10(w - 1)
    requires IsDigitString(v) && |v| == w && v != Placeholder(w)
    requires IsAscii(Text(Event(h, f + [NonceTag(Placeholder(w), difficulty)])))
    ensures var text := Text(Event(h, f + [NonceTag(Placeholder(w), difficulty)]));
      var r := PlaceholderOffset(Ascii(text), Ascii(Placeholder(w)));
      0 <= r <= |Lead(h)| && r + w < |Before(h, f)| && |Before(h, f)| + w <= |text|
      && Substitute(text, r, v) != Text(Event(h, f + [NonceTag(v, difficulty)]))
  {
    var p := Placeholder(w);
    var text := Text(Event(h, f + [NonceTag(p, difficulty)]));
    KindHoldsPlaceholder(h, f, w, difficulty);
    NonceLastSplit(h, f, p, difficulty);
    NonceLastSplit(h, f, v, difficulty);
    AsciiIndexOf(text, p);
    var r := IndexOf(text, p);
    assert 0 <= r <= |Lead(h)|;
    SubstituteAheadKeeps(Before(h, f), p, After(h, difficulty), r, v);
    var b := Before(h, f);
    assert (b + v + After(h, difficulty))[|b|..|b| + w] == v;
  }

  lemma RegroupAround<T>(x: seq<T>, m: seq<T>, p: seq<T>, q: seq<T>, r: seq<T>)
    ensures x + m + p + (q + r) == x + (m + p + q) + r
  {
  }

  /** In an event with no other tags whose pubkey has no '[', the first
      `["nonce","<placeholder>"` starts where the nonce tag does. */
  lemma NonceTagFirst(h: Header, w: nat, difficulty: nat)
    requires w >= 1 && '[' !in h.pubkey
    ensures IndexOf(Text(Event(h, [NonceTag(Placeholder(w), difficulty)])), NonceMarker + Placeholder(w) + Quote)
         == |Before(h, [])| - 10
  {
    var p := Placeholder(w);
    assert [] + [NonceTag(p, difficulty)] == [NonceTag(p, difficulty)];
    NonceLastSplit(h, [], p, difficulty);
    LeadFields(h);
    var pat := NonceMarker + p + Quote;
    var after := After(h, difficulty);
    var x := "[0," + Fields(h) + ",[";
    assert after[0] == '"';
    assert after == Quote + after[1..];
    assert x + Prior([]) == x;
    RegroupAround(x, NonceMarker, p, Quote, after[1..]);
    FirstAfterBrackets(Text(Event(h, [NonceTag(p, difficulty)])), Fields(h), pat, after[1..]);
  }

  /** The corrected locator: for an event with no other tags whose pubkey
      has no '[' (a hex key has none), whatever its kind, the nonce is
      written over the nonce tag's value, and a lane that writes v hashes
      exactly the text of the event carrying v. */
  lemma MarkerFindsNonceValue(h: Header, w: nat, difficulty: nat, v: string)
    requires w >= 1 && '[' !in h.pubkey && IsDigitString(v) && |v| == w
    requires IsAscii(Text(Event(h, [NonceTag(Placeholder(w), difficulty)])))
    ensures var text := Text(Event(h, [NonceTag(Placeholder(w), difficulty)]));
      NonceValueOffset(Ascii(text), Ascii(Placeholder(w))) == |Before(h, [])|
      && |Before(h, [])| + w <= |text|
      && Substitute(text, |Before(h, [])|, v) == Text(Event(h, [NonceTag(v, difficulty)]))
  {
    var p := Placeholder(w);
    var text := Text(Event(h, [NonceTag(p, difficulty)]));
    assert [] + [NonceTag(p, difficulty)] == [NonceTag(p, difficulty)];
    assert [] + [NonceTag(v, difficulty)] == [NonceTag(v, difficulty)];
    SubstituteNonce(h, [], p, v, difficulty);
    NonceTagFirst(h, w, difficulty);
    MarkerAscii();
    AsciiConcat(NonceMarker, p);
    AsciiConcat(NonceMarker + p, Quote);
    AsciiIndexOf(text, NonceMarker + p + Quote);
  }
}
