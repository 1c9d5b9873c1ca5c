/** Signing and checking a snapshot: HMAC over its JSON without the signature, printed in hexadecimal. */
module Signature {
  import opened Literals
  import opened Options
  import opened Text
  import opened Snapshots

  type Bytes = seq<bv8>

  /** The keyed hash and the serialiser, which the system takes from libraries. */
  datatype Scheme = Scheme(mac: (Bytes, Bytes) -> Bytes, marshal: Snapshot -> Bytes)

  // ---------- Hexadecimal ----------

  function HexEncode(b: Bytes): string {
    if b == [] then "" else [HexDigit(b[0] as int / 16), HexDigit(b[0] as int % 16)] + HexEncode(b[1..])
  }

  function HexDecode(s: string): Option<Bytes> {
    if s == "" then Some([])
    else if |s| == 1 then None
    else
      var hi :- HexValue(s[0]);
      var lo :- HexValue(s[1]);
      var rest :- HexDecode(s[2..]);
      Some([(16 * hi + lo) as bv8] + rest)
  }

  predicate IsHex(c: char) {
    HexValue(c).Some?
  }

  lemma ByteParts(b: bv8)
    ensures 16 * (b as int / 16) + b as int % 16 == b as int
    ensures (16 * (b as int / 16) + b as int % 16) as bv8 == b
  {
  }

  lemma HexOfByte(b: bv8, rest: string)
    requires HexDecode(rest).Some?
    ensures var s := [HexDigit(b as int / 16), HexDigit(b as int % 16)] + rest;
            && HexDecode(s) == Some([b] + HexDecode(rest).value)
            && IsHex(s[0]) && IsHex(s[1])
  {
    hide HexDigit, HexValue;
    HexDigitValue(b as int / 16);
    HexDigitValue(b as int % 16);
    ByteParts(b);
    var s := [HexDigit(b as int / 16), HexDigit(b as int % 16)] + rest;
    assert s[2..] == rest;
  }

  /** Decoding undoes encoding, and encoding uses only hexadecimal characters. */
  lemma {:induction false} HexRoundTrip(b: Bytes)
    ensures HexDecode(HexEncode(b)) == Some(b) && forall c <- HexEncode(b) :: IsHex(c)
  {
    hide HexDigit, HexDecode, IsHex;
    if b == [] {
      assert HexDecode("") == Some([]) by { NoHex(); }
    } else {
      HexRoundTrip(b[1..]);
      HexOfByte(b[0], HexEncode(b[1..]));
      assert b == [b[0]] + b[1..];
    }
  }

  lemma NoHex()
    ensures HexDecode("") == Some([])
  {
  }

  // ---------- The comparison loop ----------

  /** Or-ing the xor of the bytes together leaves zero exactly when the sequences are equal. */
  method SameBytes(provided: Bytes, want: Bytes) returns (same: bool)
    ensures same <==> provided == want
  {
    if |provided| != |want| {
      return false;
    }
    var diff: bv8 := 0;
    for i := 0 to |provided|
      invariant diff == 0 <==> provided[..i] == want[..i]
    {
      XorIsZero(diff, provided[i], want[i]);
      assert provided[..i + 1] == provided[..i] + [provided[i]] && want[..i + 1] == want[..i] + [want[i]];
      diff := diff | (provided[i] ^ want[i]);
    }
    assert provided[..|provided|] == provided && want[..|want|] == want;
    same := diff == 0;
  }

  lemma XorIsZero(diff: bv8, a: bv8, b: bv8)
    ensures diff | (a ^ b) == 0 <==> diff == 0 && a == b
  {
  }

  // ---------- Signing and checking ----------

  function Digest(scheme: Scheme, key: Bytes, snap: Snapshot): Bytes {
    scheme.mac(key, scheme.marshal(Unsigned(snap)))
  }

  function Sign(scheme: Scheme, key: Bytes, snap: Snapshot): Option<string> {
    if key == [] then None else Some(HexEncode(Digest(scheme, key, snap)))
  }

  function Provided(snap: Snapshot): Option<Bytes> {
    HexDecode(TrimPrefix(Trim(snap.meta.signature), "sha256:"))
  }

  /** What the check accepts: any spelling of the digest in hexadecimal, under a key that is set. */
  predicate Verifies(scheme: Scheme, key: Bytes, snap: Snapshot) {
    key != [] && Provided(snap) == Some(Digest(scheme, key, snap))
  }

  method VerifySnapshot(scheme: Scheme, key: Bytes, snap: Snapshot) returns (ok: bool)
    ensures ok <==> Verifies(scheme, key, snap)
  {
    var computed := Sign(scheme, key, snap);
    var provided := HexDecode(TrimPrefix(Trim(snap.meta.signature), "sha256:"));
    if computed.None? || provided.None? {
      return false;
    }
    var want := HexDecode(computed.value);
    HexRoundTrip(Digest(scheme, key, snap));
    ok := SameBytes(provided.value, want.value);
  }

  lemma HexTrims(s: string)
    requires forall c <- s :: IsHex(c)
    ensures Trim(s) == s && TrimPrefix(s, "sha256:") == s
  {
    if s != "" {
      assert IsHex(s[0]) && IsHex(s[|s| - 1]);
      assert s[0] != 's';
    }
  }

  lemma LabelTrims(s: string)
    requires s != "" && forall c <- s :: IsHex(c)
    ensures TrimPrefix(Trim("sha256:" + s), "sha256:") == s
  {
    var t := "sha256:" + s;
    assert IsHex(s[|s| - 1]) && t[|t| - 1] == s[|s| - 1];
    assert Trim(t) == t;
  }

  /** A snapshot signed under a key verifies under that key, with or without the algorithm label. */
  lemma SignedVerifies(scheme: Scheme, key: Bytes, snap: Snapshot)
    requires key != []
    ensures var sig := Sign(scheme, key, snap).value;
            Verifies(scheme, key, snap.WithSignature(sig))
            && (sig != "" ==> Verifies(scheme, key, snap.WithSignature("sha256:" + sig)))
  {
    var digest := Digest(scheme, key, snap);
    var sig := HexEncode(digest);
    HexRoundTrip(digest);
    HexTrims(sig);
    if sig != "" {
      LabelTrims(sig);
    }
    assert forall s :: Unsigned(snap.WithSignature(s)) == Unsigned(snap);
  }

  /** The bytes of a block of the hash. */
  const BLOCK: nat := 64

  function WithoutZeros(key: Bytes): Bytes {
    if key != [] && key[|key| - 1] == 0 then WithoutZeros(key[..|key| - 1]) else key
  }

  /** HMAC fills a key up to a block with zero bytes (section 2 of RFC 2104), so these are the same key to it. */
  predicate SameKey(key: Bytes, own: Bytes) {
    key == own || (|key| <= BLOCK && |own| <= BLOCK && WithoutZeros(key) == WithoutZeros(own))
  }

  /** Digests under two keys meet where the texts are equal and the keys are the same, and only there. */
  ghost predicate Separates(mac: (Bytes, Bytes) -> Bytes, key: Bytes, own: Bytes) {
    forall a, b :: mac(key, a) == mac(own, b) <==> SameKey(key, own) && a == b
  }

  function Capital(c: char): char {
    if 'a' <= c <= 'f' then (c as int - 32) as char else c
  }

  /** The same hexadecimal text in capitals. */
  function Capitals(s: string): string {
    if s == "" then "" else [Capital(s[0])] + Capitals(s[1..])
  }

  lemma CapitalValue(c: char)
    ensures HexValue(c).Some? ==> HexValue(Capital(c)) == HexValue(c)
  {
  }

  lemma HexStep(a: char, b: char, rest: string)
    requires HexDecode([a, b] + rest).Some?
    ensures HexValue(a).Some? && HexValue(b).Some? && HexDecode(rest).Some?
  {
    assert ([a, b] + rest)[2..] == rest;
  }

  lemma {:induction false} CapitalsDecode(s: string)
    requires HexDecode(s).Some?
    ensures HexDecode(Capitals(s)) == HexDecode(s) && forall c <- Capitals(s) :: IsHex(c)
    decreases |s|
  {
    hide HexValue, Capital;
    if s != "" {
      assert |s| >= 2;
      var a, b, rest := s[0], s[1], s[2..];
      assert s == [a, b] + rest && s[1..] == [b] + rest && s[1..][1..] == rest;
      HexStep(a, b, rest);
      CapitalsDecode(rest);
      CapitalValue(a);
      CapitalValue(b);
      assert Capitals(s) == [Capital(a), Capital(b)] + Capitals(rest);
      assert ([Capital(a), Capital(b)] + Capitals(rest))[2..] == Capitals(rest);
    }
  }

  /** A signature verifies in any spelling: with blanks around it, with the label, in capitals. */
  lemma SpellingsVerify(scheme: Scheme, key: Bytes, snap: Snapshot, before: string, labelled: bool, capitals: bool,
                        after: string)
    requires key != [] && Blanks(before) && Blanks(after)
    ensures var sig := Sign(scheme, key, snap).value;
            var spelled := (if labelled then "sha256:" else "") + (if capitals then Capitals(sig) else sig);
            Verifies(scheme, key, snap.WithSignature(before + spelled + after))
  {
    hide HexDecode, HexEncode, Trim;
    var digest := Digest(scheme, key, snap);
    var sig := HexEncode(digest);
    HexRoundTrip(digest);
    CapitalsDecode(sig);
    var hex := if capitals then Capitals(sig) else sig;
    var spelled := (if labelled then "sha256:" else "") + hex;
    assert spelled != "" ==> Visible(spelled[0]) && Visible(spelled[|spelled| - 1]) by {
      HexVisible(hex);
    }
    TrimStrips(before, spelled, after);
    assert TrimPrefix(spelled, "sha256:") == hex by {
      assert hex != "" ==> IsHex(hex[0]) && hex[0] != 's';
    }
    assert forall s :: Unsigned(snap.WithSignature(s)) == Unsigned(snap);
  }

  lemma HexVisible(s: string)
    requires forall c <- s :: IsHex(c)
    ensures forall i :: 0 <= i < |s| ==> Visible(s[i])
  {
    forall i | 0 <= i < |s| ensures Visible(s[i]) {
      assert s[i] in s && IsHex(s[i]);
    }
  }

  ghost predicate InjectiveMac(mac: (Bytes, Bytes) -> Bytes, key: Bytes) {
    forall a, b :: mac(key, a) == mac(key, b) ==> a == b
  }

  ghost predicate InjectiveRender(render: Json -> Bytes) {
    forall a, b :: render(a) == render(b) ==> a == b
  }

  function GoScheme(mac: (Bytes, Bytes) -> Bytes, render: Json -> Bytes): Scheme {
    Scheme(mac, s => render(SnapshotJson(GoEncoder, s)))
  }

  function RustScheme(mac: (Bytes, Bytes) -> Bytes, render: Json -> Bytes): Scheme {
    Scheme(mac, s => render(SnapshotJson(RustEncoder, s)))
  }

  /** One signature covers one content: two snapshots that both verify with it agree on every other field. */
  lemma TamperEvident(mac: (Bytes, Bytes) -> Bytes, render: Json -> Bytes, key: Bytes, a: Snapshot, b: Snapshot)
    requires InjectiveMac(mac, key) && InjectiveRender(render)
    requires a.meta.signature == b.meta.signature
    requires Verifies(GoScheme(mac, render), key, a) && Verifies(GoScheme(mac, render), key, b)
    ensures a == b
  {
    var scheme := GoScheme(mac, render);
    assert mac(key, scheme.marshal(Unsigned(a))) == mac(key, scheme.marshal(Unsigned(b)));
    assert render(SnapshotJson(GoEncoder, Unsigned(a))) == render(SnapshotJson(GoEncoder, Unsigned(b)));
    JsonInjective(GoEncoder, Unsigned(a), GoEncoder, Unsigned(b));
    assert a == Unsigned(a).WithSignature(a.meta.signature);
    assert b == Unsigned(b).WithSignature(b.meta.signature);
  }

  /** A signature of the controller that either connector accepts on another snapshot means the same content. */
  lemma SameSignatureSameContent(mac: (Bytes, Bytes) -> Bytes, render: Json -> Bytes, key: Bytes, checker: Scheme,
                                 sent: Snapshot, seen: Snapshot)
    requires InjectiveMac(mac, key) && InjectiveRender(render)
    requires checker == GoScheme(mac, render) || checker == RustScheme(mac, render)
    requires Verifies(GoScheme(mac, render), key, sent) && Verifies(checker, key, seen)
    requires Provided(sent) == Provided(seen)
    ensures Unsigned(sent) == Unsigned(seen)
  {
    var a, b := Unsigned(sent), Unsigned(seen);
    var e := if checker == GoScheme(mac, render) then GoEncoder else RustEncoder;
    assert mac(key, render(SnapshotJson(GoEncoder, a))) == mac(key, render(SnapshotJson(e, b)));
    assert render(SnapshotJson(GoEncoder, a)) == render(SnapshotJson(e, b));
    JsonInjective(GoEncoder, a, e, b);
  }

  /**
   The Rust connector, with a key of its own, accepts what the Go controller signed exactly when its key is the
   same and the two write the snapshot alike: every resource carries both port bounds, which the controller
   leaves out and the connector writes as null when absent, and no text holds a character that only Go escapes.
   */
  lemma RustAcceptsGo(mac: (Bytes, Bytes) -> Bytes, render: Json -> Bytes, key: Bytes, own: Bytes, snap: Snapshot)
    requires key != [] && Separates(mac, key, own) && InjectiveRender(render)
    ensures Verifies(RustScheme(mac, render), own, snap.WithSignature(Sign(GoScheme(mac, render), key, snap).value))
       <==> own != [] && SameKey(key, own) && WrittenAlike(Unsigned(snap))
  {
    var go, rust := GoScheme(mac, render), RustScheme(mac, render);
    var signed := snap.WithSignature(Sign(go, key, snap).value);
    SignedVerifies(go, key, snap);
    assert Unsigned(signed) == Unsigned(snap);
    var sent, seen := SnapshotJson(GoEncoder, Unsigned(snap)), SnapshotJson(RustEncoder, Unsigned(snap));
    assert Digest(go, key, signed) == mac(key, render(sent));
    assert Digest(rust, own, signed) == mac(own, render(seen));
    SameJson(Unsigned(snap));
    assert mac(key, render(sent)) == mac(own, render(seen)) <==> SameKey(key, own) && render(sent) == render(seen);
  }

  lemma OneKeySeparates(mac: (Bytes, Bytes) -> Bytes, key: Bytes)
    requires InjectiveMac(mac, key)
    ensures Separates(mac, key, key)
  {
  }

  /** An ampersand in one address is enough for a refusal, with both bounds present and one key. */
  lemma AmpersandRefused(mac: (Bytes, Bytes) -> Bytes, render: Json -> Bytes, key: Bytes, meta: Meta)
    returns (snap: Snapshot)
    requires key != [] && InjectiveMac(mac, key) && InjectiveRender(render)
    ensures snap.meta == meta && (forall r <- snap.resources :: BothBounds(r))
    ensures !Verifies(RustScheme(mac, render), key, snap.WithSignature(Sign(GoScheme(mac, render), key, snap).value))
  {
    var r := Resource("r", "dns", "a&b", 443, "TCP", Some(443), Some(443), []);
    snap := Snapshot(meta, [r]);
    OneKeySeparates(mac, key);
    RustAcceptsGo(mac, render, key, key, snap);
    assert r in Unsigned(snap).resources && r.address[1] == '&' && !PlainText(r.address);
  }
}
