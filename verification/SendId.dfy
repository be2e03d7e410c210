/** Deterministic send ids: a name composed from the send intent, hashed to a version 5 UUID. */
module SendId {
  import opened Options

  /** The intent a ledger row stands for; the two constructors are the two unique constraints of the table. */
  datatype SendKey =
    | CampaignKey(workspaceId: string, campaignId: string, contactId: string)
    | FlowKey(workspaceId: string, flowRunId: string, nodeId: string)
  {
    /** Workspace, campaign and run ids are UUIDs, so they hold no colon; contact and node ids come last. */
    predicate WellFormed() {
      ':' !in workspaceId && (if CampaignKey? then ':' !in campaignId else ':' !in flowRunId)
    }
  }

  function SendName(k: SendKey): string {
    match k
    case CampaignKey(w, c, p) => "campaign:" + (w + ":" + (c + ":" + p))
    case FlowKey(w, r, n) => "flow:" + (w + ":" + (r + ":" + n))
  }

  lemma SplitAtColon(a: string, x: string, b: string, y: string)
    requires a + ":" + x == b + ":" + y
    requires ':' !in a && ':' !in b
    ensures a == b && x == y
  {
    var s := a + ":" + x;
    assert forall i :: 0 <= i < |a| ==> s[i] == a[i];
    assert forall i :: 0 <= i < |b| ==> s[i] == b[i];
    assert s[|a|] == ':' && s[|b|] == ':';
    assert |a| == |b|;
    assert a == s[..|a|] && x == s[|a| + 1..];
    assert b == s[..|b|] && y == s[|b| + 1..];
  }

  /** Two intents with the same composed name are the same intent, across both kinds. */
  lemma SendNameInjective(a: SendKey, b: SendKey)
    requires a.WellFormed() && b.WellFormed()
    requires SendName(a) == SendName(b)
    ensures a == b
  {
    assert SendName(a)[0] == if a.CampaignKey? then 'c' else 'f';
    assert SendName(b)[0] == if b.CampaignKey? then 'c' else 'f';
    var prefix := if a.CampaignKey? then "campaign:" else "flow:";
    var secondA := if a.CampaignKey? then a.campaignId else a.flowRunId;
    var secondB := if b.CampaignKey? then b.campaignId else b.flowRunId;
    var lastA := if a.CampaignKey? then a.contactId else a.nodeId;
    var lastB := if b.CampaignKey? then b.contactId else b.nodeId;
    assert SendName(a)[|prefix|..] == a.workspaceId + ":" + (secondA + ":" + lastA);
    assert SendName(b)[|prefix|..] == b.workspaceId + ":" + (secondB + ":" + lastB);
    SplitAtColon(a.workspaceId, secondA + ":" + lastA, b.workspaceId, secondB + ":" + lastB);
    SplitAtColon(secondA, lastA, secondB, lastB);
  }

  // ---------- UUID version 5, section 4.3 of RFC 4122 ----------

  type Sha1 = f: seq<bv8> -> seq<bv8> | forall m: seq<bv8> :: |f(m)| == 20
    witness (m: seq<bv8>) => seq(20, i => 0 as bv8)

  function HexChar(n: bv8): char {
    if n == 0 then '0' else if n == 1 then '1' else if n == 2 then '2' else if n == 3 then '3'
    else if n == 4 then '4' else if n == 5 then '5' else if n == 6 then '6' else if n == 7 then '7'
    else if n == 8 then '8' else if n == 9 then '9' else if n == 10 then 'a' else if n == 11 then 'b'
    else if n == 12 then 'c' else if n == 13 then 'd' else if n == 14 then 'e' else 'f'
  }

  /** The value of a hex digit in either case, or None. */
  function HexValue(c: char): Option<bv8> {
    if c == '0' then Some(0) else if c == '1' then Some(1) else if c == '2' then Some(2) else if c == '3' then Some(3)
    else if c == '4' then Some(4) else if c == '5' then Some(5) else if c == '6' then Some(6) else if c == '7' then Some(7)
    else if c == '8' then Some(8) else if c == '9' then Some(9) else if c == 'a' || c == 'A' then Some(10) else if c == 'b' || c == 'B' then Some(11)
    else if c == 'c' || c == 'C' then Some(12) else if c == 'd' || c == 'D' then Some(13) else if c == 'e' || c == 'E' then Some(14) else if c == 'f' || c == 'F' then Some(15)
    else None
  }

  function ToHex(bytes: seq<bv8>): (s: string)
    ensures |s| == 2 * |bytes|
    ensures forall i :: 0 <= i < |bytes| ==> s[2 * i] == HexChar(bytes[i] >> 4) && s[2 * i + 1] == HexChar(bytes[i] & 0x0f)
  {
    if bytes == [] then []
    else
      var rest := ToHex(bytes[1..]);
      [HexChar(bytes[0] >> 4), HexChar(bytes[0] & 0x0f)] + rest
  }

  function FromHex(s: string): (r: Option<seq<bv8>>)
    requires |s| % 2 == 0
    ensures r.Some? ==> 2 * |r.value| == |s|
  {
    if s == [] then Some([])
    else
      var hi, lo, rest := HexValue(s[0]), HexValue(s[1]), FromHex(s[2..]);
      if hi.Some? && lo.Some? && rest.Some? then Some([(hi.value << 4) | lo.value] + rest.value) else None
  }

  function DropHyphens(s: string): string {
    if s == [] then [] else if s[0] == '-' then DropHyphens(s[1..]) else [s[0]] + DropHyphens(s[1..])
  }

  /** Sixteen bytes, or None for the thrown error. */
  function ParseUuid(s: string): (r: Option<seq<bv8>>)
    ensures r.Some? ==> |r.value| == 16
  {
    var hex := DropHyphens(s);
    if |hex| == 32 then FromHex(hex) else None
  }

  function FormatUuid(bytes: seq<bv8>): (s: string)
    requires |bytes| == 16
    ensures |s| == 36
  {
    var hex := ToHex(bytes);
    hex[0..8] + "-" + hex[8..12] + "-" + hex[12..16] + "-" + hex[16..20] + "-" + hex[20..32]
  }

  lemma HexValueOfHexChar(n: bv8)
    requires n < 16
    ensures HexValue(HexChar(n)) == Some(n)
    ensures HexChar(n) != '-'
  {
  }

  lemma NibblesMakeTheByte(b: bv8)
    ensures b >> 4 < 16 && b & 0x0f < 16
    ensures ((b >> 4) << 4) | (b & 0x0f) == b
  {
  }

  lemma {:induction false} HexRoundTrip(bytes: seq<bv8>)
    ensures FromHex(ToHex(bytes)) == Some(bytes)
    ensures '-' !in ToHex(bytes)
  {
    if bytes != [] {
      HexRoundTrip(bytes[1..]);
      NibblesMakeTheByte(bytes[0]);
      HexValueOfHexChar(bytes[0] >> 4);
      HexValueOfHexChar(bytes[0] & 0x0f);
      var s := ToHex(bytes);
      assert s[2..] == ToHex(bytes[1..]);
      assert s[0] == HexChar(bytes[0] >> 4) && s[1] == HexChar(bytes[0] & 0x0f);
      assert [bytes[0]] + bytes[1..] == bytes;
    }
  }

  lemma {:induction false} DropHyphensSplits(a: string, b: string)
    ensures DropHyphens(a + b) == DropHyphens(a) + DropHyphens(b)
  {
    if a == [] {
      assert a + b == b;
    } else {
      DropHyphensSplits(a[1..], b);
      assert (a + b)[1..] == a[1..] + b;
    }
  }

  lemma {:induction false} NothingToDrop(a: string)
    requires '-' !in a
    ensures DropHyphens(a) == a
  {
    if a != [] {
      NothingToDrop(a[1..]);
    }
  }

  /** Appending a hyphen and a hyphen-free group adds just the group. */
  lemma DropHyphensGroup(front: string, group: string)
    requires '-' !in group
    ensures DropHyphens(front + "-" + group) == DropHyphens(front) + group
  {
    DropHyphensSplits(front + "-", group);
    DropHyphensSplits(front, "-");
    NothingToDrop(group);
    assert DropHyphens("-") == DropHyphens("-"[1..]) == "";
    assert DropHyphens(front) + "" == DropHyphens(front);
  }

  /** The printed form reads back as the same sixteen bytes, so printing loses nothing. */
  lemma UuidRoundTrip(bytes: seq<bv8>)
    requires |bytes| == 16
    ensures ParseUuid(FormatUuid(bytes)) == Some(bytes)
  {
    HexRoundTrip(bytes);
    var hex := ToHex(bytes);
    var a, b, c, d, e := hex[0..8], hex[8..12], hex[12..16], hex[16..20], hex[20..32];
    NothingToDrop(a);
    DropHyphensGroup(a, b);
    DropHyphensGroup(a + "-" + b, c);
    DropHyphensGroup(a + "-" + b + "-" + c, d);
    DropHyphensGroup(a + "-" + b + "-" + c + "-" + d, e);
    assert a + b + c + d + e == hex;
  }

  function Uuidv5Bytes(digest: seq<bv8>): (r: seq<bv8>)
    requires |digest| == 20
    ensures |r| == 16
  {
    digest[6 := (digest[6] & 0x0f) | 0x50][8 := (digest[8] & 0x3f) | 0x80][..16]
  }

  method Uuidv5(name: seq<bv8>, namespace: string, sha1: Sha1) returns (r: Option<string>)
    ensures r.None? <==> ParseUuid(namespace).None?
    ensures r.Some? ==> r.value == FormatUuid(Uuidv5Bytes(sha1(ParseUuid(namespace).value + name)))
    ensures r.Some? ==> ParseUuid(r.value) == Some(Uuidv5Bytes(sha1(ParseUuid(namespace).value + name)))
    ensures r.Some? ==> |r.value| == 36 && r.value[14] == '5' && r.value[19] in "89ab"
  {
    hide FormatUuid, ParseUuid, ToHex, DropHyphens;
    var namespaceBytes := ParseUuid(namespace);
    if namespaceBytes.None? {
      return None;
    }
    var digest := sha1(namespaceBytes.value + name);
    var hash := new bv8[20](i requires 0 <= i < 20 => digest[i]);
    hash[6] := (hash[6] & 0x0f) | 0x50;
    hash[8] := (hash[8] & 0x3f) | 0x80;
    assert hash[..16] == Uuidv5Bytes(digest);
    UuidRoundTrip(hash[..16]);
    VersionAndVariant(digest);
    r := Some(FormatUuid(hash[..16]));
  }

  /** All but six bits of the sixteen bytes are the hash's own. */
  lemma OnlySixBitsAreForced(digest: seq<bv8>, i: nat)
    requires |digest| == 20 && i < 16
    ensures i != 6 && i != 8 ==> Uuidv5Bytes(digest)[i] == digest[i]
    ensures Uuidv5Bytes(digest)[6] & 0x0f == digest[6] & 0x0f && Uuidv5Bytes(digest)[6] & 0xf0 == 0x50
    ensures Uuidv5Bytes(digest)[8] & 0x3f == digest[8] & 0x3f && Uuidv5Bytes(digest)[8] & 0xc0 == 0x80
  {
    ForcedBits(digest[6], digest[8]);
  }

  lemma ForcedBits(a: bv8, b: bv8)
    ensures ((a & 0x0f) | 0x50) & 0x0f == a & 0x0f && ((a & 0x0f) | 0x50) & 0xf0 == 0x50
    ensures ((b & 0x3f) | 0x80) & 0x3f == b & 0x3f && ((b & 0x3f) | 0x80) & 0xc0 == 0x80
  {
  }

  /** Groups of eight, four, four, four and twelve digits. */
  lemma HyphensOfAUuid(bytes: seq<bv8>, i: nat)
    requires |bytes| == 16 && i < 36
    ensures FormatUuid(bytes)[i] == '-' <==> i == 8 || i == 13 || i == 18 || i == 23
  {
    HexRoundTrip(bytes);
    var hex, s := ToHex(bytes), FormatUuid(bytes);
    assert i < 8 ==> s[i] == hex[i];
    assert 8 < i < 13 ==> s[i] == hex[i - 1];
    assert 13 < i < 18 ==> s[i] == hex[i - 2];
    assert 18 < i < 23 ==> s[i] == hex[i - 3];
    assert 23 < i ==> s[i] == hex[i - 4];
  }

  /** The version digit is 5 and the variant digit is one of 8, 9, a and b, whatever the hash was. */
  lemma VersionAndVariant(digest: seq<bv8>)
    requires |digest| == 20
    ensures FormatUuid(Uuidv5Bytes(digest))[14] == '5'
    ensures FormatUuid(Uuidv5Bytes(digest))[19] in "89ab"
  {
    var bytes := Uuidv5Bytes(digest);
    var hex := ToHex(bytes);
    assert FormatUuid(bytes)[14] == hex[12] == HexChar(bytes[6] >> 4);
    assert FormatUuid(bytes)[19] == hex[16] == HexChar(bytes[8] >> 4);
    VersionNibble(digest[6]);
    VariantNibble(digest[8]);
  }

  lemma VersionNibble(b: bv8)
    ensures (((b & 0x0f) | 0x50) >> 4) == 5
  {
  }

  lemma VariantNibble(b: bv8)
    ensures (((b & 0x3f) | 0x80) >> 4) in {8 as bv8, 9, 10, 11}
  {
  }

  // ---------- the id of a send intent ----------

  /** How names become ids, and the intents this is ever done for: those of the jobs, so finitely many. */
  datatype NameDigest = NameDigest(id: string -> string, intents: set<SendKey>)
  {
    predicate Serves(k: SendKey) {
      k in intents && k.WellFormed()
    }
  }

  /** No two composed names that occur share an id. */
  ghost predicate CollisionFree(digest: NameDigest) {
    forall a: SendKey, b: SendKey ::
      digest.Serves(a) && digest.Serves(b) && DeriveSendId(digest, a) == DeriveSendId(digest, b) ==> SendName(a) == SendName(b)
  }

  function DeriveSendId(digest: NameDigest, k: SendKey): string {
    digest.id(SendName(k))
  }

  lemma SendIdsIdentifyIntents(digest: NameDigest, a: SendKey, b: SendKey)
    requires CollisionFree(digest) && digest.Serves(a) && digest.Serves(b)
    ensures DeriveSendId(digest, a) == DeriveSendId(digest, b) <==> a == b
  {
    if DeriveSendId(digest, a) == DeriveSendId(digest, b) {
      SendNameInjective(a, b);
    }
  }

  const SEND_ID_NAMESPACE := "6f1c9a3e-5d2b-4f8a-9c17-2e0b7d4a6591"

  const NAMESPACE_BYTES: seq<bv8> := [
    0x6f, 0x1c, 0x9a, 0x3e, 0x5d, 0x2b, 0x4f, 0x8a, 0x9c, 0x17, 0x2e, 0x0b, 0x7d, 0x4a, 0x65, 0x91]

  /** The two digits of a byte. */
  function Digits(b: bv8): string {
    [HexChar(b >> 4), HexChar(b & 0x0f)]
  }

  lemma TwoAt(s: string, at: nat, x: char, y: char)
    requires at + 2 <= |s| && s[at] == x && s[at + 1] == y
    ensures s[at..at + 2] == [x, y]
  {
  }

  lemma HexAt(bytes: seq<bv8>, hex: string, i: nat, at: nat)
    requires hex == ToHex(bytes) && i < |bytes| && at == 2 * i
    ensures |hex| == 2 * |bytes| && hex[at..at + 2] == Digits(bytes[i])
  {
    hide ToHex, HexChar;
    assert hex[2 * i] == HexChar(bytes[i] >> 4) && hex[2 * i + 1] == HexChar(bytes[i] & 0x0f);
    TwoAt(hex, at, HexChar(bytes[i] >> 4), HexChar(bytes[i] & 0x0f));
  }

  /** The text `hex` reads as the bytes, two digits each. */
  predicate Reads(hex: string, bytes: seq<bv8>) {
    hex == ToHex(bytes)
  }

  lemma ReadsAt(bytes: seq<bv8>, hex: string, i: nat, at: nat)
    requires Reads(hex, bytes) && i < |bytes| && at == 2 * i
    ensures |hex| == 2 * |bytes| && hex[at..at + 2] == Digits(bytes[i])
  {
    HexAt(bytes, hex, i, at);
  }

  lemma HexOfFour(bytes: seq<bv8>, hex: string, i: nat, at: nat)
    requires Reads(hex, bytes) && i + 4 <= |bytes| && at == 2 * i
    ensures |hex| == 2 * |bytes|
    ensures hex[at..at + 8] == (Digits(bytes[i]) + Digits(bytes[i + 1])) + (Digits(bytes[i + 2]) + Digits(bytes[i + 3]))
  {
    hide *;
    ReadsAt(bytes, hex, i, at);
    ReadsAt(bytes, hex, i + 1, at + 2);
    ReadsAt(bytes, hex, i + 2, at + 4);
    ReadsAt(bytes, hex, i + 3, at + 6);
    FourPairs(hex, at, Digits(bytes[i]), Digits(bytes[i + 1]), Digits(bytes[i + 2]), Digits(bytes[i + 3]));
  }

  lemma FourPairs(s: string, i: nat, a: string, b: string, c: string, d: string)
    requires i + 8 <= |s|
    requires s[i..i + 2] == a && s[i + 2..i + 4] == b && s[i + 4..i + 6] == c && s[i + 6..i + 8] == d
    ensures s[i..i + 8] == (a + b) + (c + d)
  {
    var first, second := s[i..i + 4], s[i + 4..i + 8];
    assert first == s[i..i + 2] + s[i + 2..i + 4] && second == s[i + 4..i + 6] + s[i + 6..i + 8];
    assert s[i..i + 8] == first + second;
  }

  lemma NamespaceDigits()
    ensures Digits(0x6f) + Digits(0x1c) == "6f1c" && Digits(0x9a) + Digits(0x3e) == "9a3e"
    ensures Digits(0x5d) + Digits(0x2b) == "5d2b" && Digits(0x4f) + Digits(0x8a) == "4f8a"
    ensures Digits(0x9c) + Digits(0x17) == "9c17" && Digits(0x2e) + Digits(0x0b) == "2e0b"
    ensures Digits(0x7d) + Digits(0x4a) == "7d4a" && Digits(0x65) + Digits(0x91) == "6591"
  {
  }

  lemma FormatFromQuarters(bytes: seq<bv8>, p: string, q: string, r: string, t: string)
    requires |bytes| == 16 && |p| == 8 && |q| == 8 && |r| == 8 && |t| == 8
    requires ToHex(bytes)[0..8] == p && ToHex(bytes)[8..16] == q && ToHex(bytes)[16..24] == r && ToHex(bytes)[24..32] == t
    ensures FormatUuid(bytes) == p + "-" + q[..4] + "-" + q[4..] + "-" + r[..4] + "-" + (r[4..] + t)
  {
    hide ToHex;
    var hex := ToHex(bytes);
    assert hex[8..12] == hex[8..16][..4] && hex[12..16] == hex[8..16][4..];
    assert hex[16..20] == hex[16..24][..4] && hex[20..32] == hex[16..24][4..] + hex[24..32];
  }

  lemma NamespaceText()
    ensures SEND_ID_NAMESPACE == "6f1c9a3e" + "-" + "5d2b" + "-" + "4f8a" + "-" + "9c17" + "-" + ("2e0b" + "7d4a6591")
  {
  }

  lemma NamespaceParses()
    ensures ParseUuid(SEND_ID_NAMESPACE) == Some(NAMESPACE_BYTES)
  {
    hide Digits, ToHex, ParseUuid, FormatUuid;
    var hex := ToHex(NAMESPACE_BYTES);
    NamespaceQuarters();
    FormatFromQuarters(NAMESPACE_BYTES, hex[0..8], hex[8..16], hex[16..24], hex[24..32]);
    assert hex[8..16][..4] == "5d2b" && hex[8..16][4..] == "4f8a" && hex[16..24][..4] == "9c17" && hex[16..24][4..] == "2e0b";
    NamespaceText();
    UuidRoundTrip(NAMESPACE_BYTES);
  }

  lemma NamespaceQuarters()
    ensures var hex := ToHex(NAMESPACE_BYTES);
            hex[0..8] == "6f1c9a3e" && hex[8..16] == "5d2b4f8a" && hex[16..24] == "9c172e0b" && hex[24..32] == "7d4a6591"
  {
    hide Digits, ToHex;
    HexOfFour(NAMESPACE_BYTES, ToHex(NAMESPACE_BYTES), 0, 0);
    HexOfFour(NAMESPACE_BYTES, ToHex(NAMESPACE_BYTES), 4, 8);
    HexOfFour(NAMESPACE_BYTES, ToHex(NAMESPACE_BYTES), 8, 16);
    HexOfFour(NAMESPACE_BYTES, ToHex(NAMESPACE_BYTES), 12, 24);
    NamespaceDigits();
  }

  /** The sixteen bytes of a name's id, with `utf8` the encoding of its text. */
  function NameBytes(sha1: Sha1, utf8: string -> seq<bv8>, name: string): (r: seq<bv8>)
    ensures |r| == 16
  {
    Uuidv5Bytes(sha1(NAMESPACE_BYTES + utf8(name)))
  }

  /** The digest of the send ledger: UUID version 5 under the namespace of sends. */
  function UuidDigest(sha1: Sha1, utf8: string -> seq<bv8>, intents: set<SendKey>): NameDigest {
    NameDigest(name => FormatUuid(NameBytes(sha1, utf8, name)), intents)
  }

  /** What is asked of the hash: among the names that occur, the bytes that version and variant leave differ. */
  ghost predicate HashSeparates(sha1: Sha1, utf8: string -> seq<bv8>, intents: set<SendKey>) {
    forall a, b :: a in intents && b in intents && a.WellFormed() && b.WellFormed() && SendName(a) != SendName(b) ==>
      NameBytes(sha1, utf8, SendName(a)) != NameBytes(sha1, utf8, SendName(b))
  }

  /** Printing loses nothing, so the ids collide exactly when the hash bytes do. */
  lemma CollisionFreeIffHashSeparates(sha1: Sha1, utf8: string -> seq<bv8>, intents: set<SendKey>)
    ensures CollisionFree(UuidDigest(sha1, utf8, intents)) <==> HashSeparates(sha1, utf8, intents)
  {
    var d := UuidDigest(sha1, utf8, intents);
    forall a: SendKey, b: SendKey
      ensures DeriveSendId(d, a) == DeriveSendId(d, b) <==>
              NameBytes(sha1, utf8, SendName(a)) == NameBytes(sha1, utf8, SendName(b))
    {
      UuidRoundTrip(NameBytes(sha1, utf8, SendName(a)));
      UuidRoundTrip(NameBytes(sha1, utf8, SendName(b)));
    }
  }

  /** The id of a campaign or flow intent, as the insert sites compute it. */
  method DeriveId(sha1: Sha1, utf8: string -> seq<bv8>, intents: set<SendKey>, key: SendKey) returns (id: string)
    ensures id == DeriveSendId(UuidDigest(sha1, utf8, intents), key)
    ensures ParseUuid(id) == Some(NameBytes(sha1, utf8, SendName(key)))
  {
    NamespaceParses();
    var r := Uuidv5(utf8(SendName(key)), SEND_ID_NAMESPACE, sha1);
    id := r.value;
  }
}
