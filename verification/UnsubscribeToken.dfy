/** Unsubscribe tokens: base64url, signing under the primary secret, and verification over the retained ones. */
module UnsubscribeToken {
  import opened Options
  import opened JsText

  type Byte = n: int | 0 <= n < 256

  // ---------- base64url, section 5 of RFC 4648, without padding ----------

  function Symbol(n: int): char
    requires 0 <= n < 64
  {
    if n < 26 then ('A' as int + n) as char
    else if n < 52 then ('a' as int + (n - 26)) as char
    else if n < 62 then ('0' as int + (n - 52)) as char
    else if n == 62 then '-' else '_'
  }

  function ValueOf(c: char): (n: int)
    ensures -1 <= n < 64
  {
    if 'A' <= c <= 'Z' then c as int - 'A' as int
    else if 'a' <= c <= 'z' then c as int - 'a' as int + 26
    else if '0' <= c <= '9' then c as int - '0' as int + 52
    else if c == '-' then 62 else if c == '_' then 63 else -1
  }

  /** Three bytes as four symbols. */
  function Quad(a: Byte, b: Byte, c: Byte): string {
    [Symbol(a / 4), Symbol(a % 4 * 16 + b / 16), Symbol(b % 16 * 4 + c / 64), Symbol(c % 64)]
  }

  function Encode(bytes: seq<Byte>): (s: string)
    ensures s == [] <==> bytes == []
  {
    if bytes == [] then []
    else if |bytes| == 1 then Quad(bytes[0], 0, 0)[..2]
    else if |bytes| == 2 then Quad(bytes[0], bytes[1], 0)[..3]
    else Quad(bytes[0], bytes[1], bytes[2]) + Encode(bytes[3..])
  }

  predicate InAlphabet(s: string) {
    |s| % 4 != 1 && forall i :: 0 <= i < |s| ==> ValueOf(s[i]) >= 0
  }

  /** Four symbols as three bytes. */
  function Bytes(w: char, x: char, y: char, z: char): seq<Byte>
    requires ValueOf(w) >= 0 && ValueOf(x) >= 0 && ValueOf(y) >= 0 && ValueOf(z) >= 0
  {
    [ValueOf(w) * 4 + ValueOf(x) / 16, ValueOf(x) % 16 * 16 + ValueOf(y) / 4, ValueOf(y) % 4 * 64 + ValueOf(z)]
  }

  /** Leftover bits of the last symbol are dropped: a short group decodes as if zero symbols followed. */
  function DecodeStrict(s: string): seq<Byte>
    requires InAlphabet(s)
  {
    if s == [] then []
    else if |s| == 2 then Bytes(s[0], s[1], 'A', 'A')[..1]
    else if |s| == 3 then Bytes(s[0], s[1], s[2], 'A')[..2]
    else Bytes(s[0], s[1], s[2], s[3]) + DecodeStrict(s[4..])
  }

  lemma SymbolRoundTrip(n: int)
    requires 0 <= n < 64
    ensures ValueOf(Symbol(n)) == n && Symbol(n) != '.'
  {
  }

  /** The four symbols of three bytes give those bytes back. */
  lemma QuadRoundTrip(a: Byte, b: Byte, c: Byte)
    ensures var q := Quad(a, b, c);
            && |q| == 4 && (forall i :: 0 <= i < 4 ==> ValueOf(q[i]) >= 0 && q[i] != '.')
            && Bytes(q[0], q[1], q[2], q[3]) == [a, b, c]
  {
    hide Symbol, ValueOf;
    SymbolRoundTrip(a / 4);
    SymbolRoundTrip(a % 4 * 16 + b / 16);
    SymbolRoundTrip(b % 16 * 4 + c / 64);
    SymbolRoundTrip(c % 64);
    SextetsMakeBytes(a, b);
    SextetsMakeBytes(b, c);
    assert c == c / 64 * 64 + c % 64;
  }

  /** A byte cut in two, its lower part carrying the next byte's upper part, comes back whole. */
  lemma SextetsMakeBytes(a: Byte, b: Byte)
    ensures a / 4 * 4 + (a % 4 * 16 + b / 16) / 16 == a && (a % 4 * 16 + b / 16) % 16 == b / 16
    ensures a / 16 * 16 + (a % 16 * 4 + b / 64) / 4 == a && (a % 16 * 4 + b / 64) % 4 == b / 64
  {
  }

  /** The missing symbols of a short group are zero. */
  lemma ShortQuads(a: Byte, b: Byte)
    ensures Quad(a, 0, 0)[2] == 'A' && Quad(a, 0, 0)[3] == 'A' && Quad(a, b, 0)[3] == 'A'
  {
  }

  /** Encoding is undone by decoding, and never writes a dot. */
  lemma {:induction false} EncodingRoundTrip(bytes: seq<Byte>)
    ensures InAlphabet(Encode(bytes)) && DecodeStrict(Encode(bytes)) == bytes
    ensures Lacks(Encode(bytes), '.')
  {
    hide Symbol, ValueOf, Quad, Bytes;
    if |bytes| >= 3 {
      var head, tail := Quad(bytes[0], bytes[1], bytes[2]), Encode(bytes[3..]);
      QuadRoundTrip(bytes[0], bytes[1], bytes[2]);
      EncodingRoundTrip(bytes[3..]);
      assert (head + tail)[4..] == tail && |head + tail| % 4 == |tail| % 4;
      assert bytes == [bytes[0], bytes[1], bytes[2]] + bytes[3..];
    } else if |bytes| == 2 {
      QuadRoundTrip(bytes[0], bytes[1], 0);
      ShortQuads(bytes[0], bytes[1]);
    } else if |bytes| == 1 {
      QuadRoundTrip(bytes[0], 0, 0);
      ShortQuads(bytes[0], 0);
    }
  }

  /** The alphabet of section 5: capitals, small letters, digits, hyphen and underscore, in this order. */
  lemma AlphabetInOrder(n: int)
    requires 0 <= n < 64
    ensures n == 0 ==> Symbol(n) == 'A'
    ensures n == 26 ==> Symbol(n) == 'a'
    ensures n == 52 ==> Symbol(n) == '0'
    ensures n == 62 ==> Symbol(n) == '-'
    ensures n == 63 ==> Symbol(n) == '_'
    ensures n !in {0, 26, 52, 62, 63} ==> Symbol(n) as int == Symbol(n - 1) as int + 1
  {
  }

  /** Four symbols are the digits, most significant first, of the number that the three bytes are. */
  lemma QuadIsTheNumber(a: Byte, b: Byte, c: Byte)
    ensures var q := Quad(a, b, c);
            a * 65536 + b * 256 + c == ValueOf(q[0]) * 262144 + ValueOf(q[1]) * 4096 + ValueOf(q[2]) * 64 + ValueOf(q[3])
  {
    hide Symbol, ValueOf;
    SymbolRoundTrip(a / 4);
    SymbolRoundTrip(a % 4 * 16 + b / 16);
    SymbolRoundTrip(b % 16 * 4 + c / 64);
    SymbolRoundTrip(c % 64);
    assert a == a / 4 * 4 + a % 4 && b == b / 16 * 16 + b % 16 && c == c / 64 * 64 + c % 64;
  }

  // ---------- tokens ----------

  datatype Payload = Payload(sendId: string, contactId: string, workspaceId: string, exp: int)

  /**
   * What lies outside: the JSON text of a payload as bytes and the guarded parse back, the MAC, and how the
   * runtime decodes text that is not base64url.
   */
  datatype Env = Env(
    write: Payload -> seq<Byte>,
    read: seq<Byte> -> Option<Payload>,
    mac: (string, string) -> seq<Byte>,
    lenient: string -> seq<Byte>)

  /** JSON gives a payload back, is never empty, and a MAC is never empty. */
  ghost predicate Sound(env: Env) {
    && (forall p :: env.read(env.write(p)) == Some(p) && env.write(p) != [])
    && (forall secret, text :: env.mac(secret, text) != [])
  }

  function Decode(env: Env, s: string): seq<Byte> {
    if InAlphabet(s) then DecodeStrict(s) else env.lenient(s)
  }

  function SignWith(env: Env, secret: string, encodedPayload: string): string {
    Encode(env.mac(secret, encodedPayload))
  }

  function SignUnsubscribeToken(env: Env, secret: string, payload: Payload): string {
    var encodedPayload := Encode(env.write(payload));
    encodedPayload + ['.'] + SignWith(env, secret, encodedPayload)
  }

  /** The two environment variables. */
  datatype Secrets = Secrets(primary: Option<string>, previous: Option<string>)

  function PreviousSecrets(secrets: Secrets): seq<string> {
    if Given(secrets.previous) then Split(secrets.previous.value, ',') else []
  }

  /** The primary first, then each retired secret. */
  function Candidates(secrets: Secrets): seq<string>
    requires Given(secrets.primary)
  {
    [secrets.primary.value] + PreviousSecrets(secrets)
  }

  predicate Matches(env: Env, secret: string, encodedPayload: string, signature: seq<Byte>) {
    Decode(env, SignWith(env, secret, encodedPayload)) == signature
  }

  /** Two non-empty parts and a set primary secret: what verification needs before it compares anything. */
  predicate Readable(secrets: Secrets, token: string) {
    var parts := Split(token, '.');
    |parts| == 2 && parts[0] != "" && parts[1] != "" && Given(secrets.primary)
  }

  predicate FirstMatch(env: Env, secrets: Secrets, token: string, i: int)
    requires Readable(secrets, token)
  {
    var parts, candidates := Split(token, '.'), Candidates(secrets);
    && 0 <= i < |candidates| && Matches(env, candidates[i], parts[0], Decode(env, parts[1]))
    && forall j :: 0 <= j < i ==> !Matches(env, candidates[j], parts[0], Decode(env, parts[1]))
  }

  /** The payload, or None; `position` is the log line for a match that is not the primary's. */
  method VerifyUnsubscribeToken(env: Env, secrets: Secrets, token: string) returns (r: Option<Payload>, position: Option<nat>)
    ensures r.Some? || position.Some? ==>
              var parts := Split(token, '.');
              |parts| == 2 && parts[0] != "" && parts[1] != "" && secrets.primary.Some? && secrets.primary.value != ""
    ensures r.Some? ==> Readable(secrets, token) && exists i :: FirstMatch(env, secrets, token, i)
    ensures Readable(secrets, token) && (exists i :: FirstMatch(env, secrets, token, i)) ==>
              r == env.read(Decode(env, Split(token, '.')[0]))
    ensures position.Some? <==> Readable(secrets, token) && exists i :: FirstMatch(env, secrets, token, i) && i > 0
    ensures position.Some? ==> FirstMatch(env, secrets, token, position.value)
  {
    hide Decode, SignWith, Split;
    var parts := Split(token, '.');
    if |parts| != 2 {
      return None, None;
    }
    var encodedPayload, signature := parts[0], parts[1];
    if encodedPayload == "" || signature == "" || !Given(secrets.primary) {
      return None, None;
    }
    var actualSig := Decode(env, signature);
    var candidates := Candidates(secrets);
    var matchedIndex := -1;
    var i := 0;
    while i < |candidates|
      invariant 0 <= i <= |candidates| && -1 <= matchedIndex < i
      invariant matchedIndex >= 0 ==> Matches(env, candidates[matchedIndex], encodedPayload, actualSig)
      invariant forall j :: 0 <= j < (if matchedIndex >= 0 then matchedIndex else i) ==> !Matches(env, candidates[j], encodedPayload, actualSig)
    {
      var expectedSig := Decode(env, SignWith(env, candidates[i], encodedPayload));
      var isMatch := |expectedSig| == |actualSig| && expectedSig == actualSig;
      if isMatch && matchedIndex == -1 {
        matchedIndex := i;
      }
      i := i + 1;
    }
    if matchedIndex == -1 {
      return None, None;
    }
    assert FirstMatch(env, secrets, token, matchedIndex);
    position := None;
    if matchedIndex > 0 {
      position := Some(matchedIndex);
    }
    r := env.read(Decode(env, encodedPayload));
  }

  /**
   * A token is honoured only for the MAC of its own payload part under the primary or a retired secret: the first
   * such secret is the one reported.
   */
  lemma OnlyTheMacIsHonoured(env: Env, secrets: Secrets, token: string, i: int)
    requires Readable(secrets, token)
    ensures FirstMatch(env, secrets, token, i) ==>
              && 0 <= i && (i == 0 || Given(secrets.previous))
              && var secret := if i == 0 then secrets.primary.value
                               else if i <= |Split(secrets.previous.value, ',')| then Split(secrets.previous.value, ',')[i - 1] else "";
                 Decode(env, Split(token, '.')[1]) == env.mac(secret, Split(token, '.')[0])
  {
    hide Split;
    if FirstMatch(env, secrets, token, i) {
      EncodingRoundTrip(env.mac(Candidates(secrets)[i], Split(token, '.')[0]));
    }
  }

  /** A token is its payload, encoded, then a dot, then the MAC of that text under the secret, encoded. */
  lemma TokenIsPayloadAndMac(env: Env, secret: string, payload: Payload)
    requires Sound(env)
    ensures var parts := Split(SignUnsubscribeToken(env, secret, payload), '.');
            && |parts| == 2 && InAlphabet(parts[0]) && InAlphabet(parts[1])
            && DecodeStrict(parts[0]) == env.write(payload) && DecodeStrict(parts[1]) == env.mac(secret, parts[0])
  {
    TokenSplits(env, secret, payload);
    EncodingRoundTrip(env.write(payload));
    EncodingRoundTrip(env.mac(secret, Encode(env.write(payload))));
  }

  // ---------- the boot check ----------

  const MAX_PREVIOUS_SECRETS: nat := 5
  const MIN_SECRET_LENGTH: nat := 32

  datatype BootError =
    | PrimaryMissingOrShort | PrimaryHasSeparator | PreviousHasSpace | TooManyPrevious
    | EmptyEntry | ShortEntry | DuplicateEntry

  predicate HasSpace(s: string) {
    exists i :: 0 <= i < |s| && IsSpace(s[i])
  }

  predicate EntryStands(entries: seq<string>, primary: string, i: nat)
    requires i < |entries|
  {
    |entries[i]| >= MIN_SECRET_LENGTH && entries[i] != primary && entries[i] !in entries[..i]
  }

  /** What the worker demands of both variables before it starts. */
  predicate Accepted(secrets: Secrets) {
    && secrets.primary.Some? && |secrets.primary.value| >= MIN_SECRET_LENGTH
    && Lacks(secrets.primary.value, ',') && !HasSpace(secrets.primary.value)
    && (Given(secrets.previous) ==>
          && !HasSpace(secrets.previous.value)
          && |PreviousSecrets(secrets)| <= MAX_PREVIOUS_SECRETS
          && forall i :: 0 <= i < |PreviousSecrets(secrets)| ==> EntryStands(PreviousSecrets(secrets), secrets.primary.value, i))
  }

  method AssertUnsubscribeTokenSecrets(secrets: Secrets) returns (error: Option<BootError>)
    ensures error.None? <==> Accepted(secrets)
  {
    if secrets.primary.None? || |secrets.primary.value| < MIN_SECRET_LENGTH {
      return Some(PrimaryMissingOrShort);
    }
    var primary := secrets.primary.value;
    if !Lacks(primary, ',') || HasSpace(primary) {
      return Some(PrimaryHasSeparator);
    }
    if Given(secrets.previous) {
      if HasSpace(secrets.previous.value) {
        return Some(PreviousHasSpace);
      }
      var entries := Split(secrets.previous.value, ',');
      if |entries| > MAX_PREVIOUS_SECRETS {
        return Some(TooManyPrevious);
      }
      var seen: set<string> := {};
      var i := 0;
      while i < |entries|
        invariant 0 <= i <= |entries| && seen == (set e | e in entries[..i])
        invariant forall j :: 0 <= j < i ==> EntryStands(entries, primary, j)
      {
        var entry := entries[i];
        if |entry| == 0 {
          assert !EntryStands(entries, primary, i);
          return Some(EmptyEntry);
        }
        if |entry| < MIN_SECRET_LENGTH {
          assert !EntryStands(entries, primary, i);
          return Some(ShortEntry);
        }
        if entry == primary || entry in seen {
          assert !EntryStands(entries, primary, i);
          return Some(DuplicateEntry);
        }
        assert entries[..i + 1] == entries[..i] + [entry];
        seen := seen + {entry};
        i := i + 1;
      }
    }
    return None;
  }

  // ---------- rotation ----------

  lemma SignatureMatchesItself(env: Env, secret: string, encodedPayload: string)
    ensures Matches(env, secret, encodedPayload, Decode(env, SignWith(env, secret, encodedPayload)))
  {
  }

  lemma TokenSplits(env: Env, secret: string, payload: Payload)
    requires Sound(env)
    ensures var encodedPayload := Encode(env.write(payload));
            Split(SignUnsubscribeToken(env, secret, payload), '.') == [encodedPayload, SignWith(env, secret, encodedPayload)]
            && encodedPayload != "" && SignWith(env, secret, encodedPayload) != ""
            && Decode(env, encodedPayload) == env.write(payload)
  {
    var encodedPayload := Encode(env.write(payload));
    var signature := SignWith(env, secret, encodedPayload);
    EncodingRoundTrip(env.write(payload));
    EncodingRoundTrip(env.mac(secret, encodedPayload));
    SplitAtFirst(encodedPayload, signature, '.');
    SplitOfLacking(signature, '.');
  }

  lemma {:induction false} LeastMatch(env: Env, secrets: Secrets, token: string, i: nat) returns (first: nat)
    requires Readable(secrets, token) && i < |Candidates(secrets)|
    requires Matches(env, Candidates(secrets)[i], Split(token, '.')[0], Decode(env, Split(token, '.')[1]))
    ensures FirstMatch(env, secrets, token, first) && first <= i
  {
    hide Matches, Split;
    var parts, candidates := Split(token, '.'), Candidates(secrets);
    first := 0;
    while !Matches(env, candidates[first], parts[0], Decode(env, parts[1]))
      invariant first <= i
      invariant forall j :: 0 <= j < first ==> !Matches(env, candidates[j], parts[0], Decode(env, parts[1]))
      decreases i - first
    {
      first := first + 1;
    }
  }

  /** A token signed under any secret still among the candidates verifies to its own payload. */
  lemma RetainedSecretVerifies(env: Env, secrets: Secrets, secret: string, payload: Payload)
    requires Sound(env) && Given(secrets.primary) && secret in Candidates(secrets)
    ensures var token := SignUnsubscribeToken(env, secret, payload);
            && Readable(secrets, token) && (exists i :: FirstMatch(env, secrets, token, i))
            && env.read(Decode(env, Split(token, '.')[0])) == Some(payload)
  {
    var token := SignUnsubscribeToken(env, secret, payload);
    TokenSplits(env, secret, payload);
    SignatureMatchesItself(env, secret, Encode(env.write(payload)));
    hide SignUnsubscribeToken, Split, Matches, Decode;
    var i :| 0 <= i < |Candidates(secrets)| && Candidates(secrets)[i] == secret;
    var first := LeastMatch(env, secrets, token, i);
  }

  /** Where no two secrets share the payload's MAC, a token verifies exactly while its secret is retained. */
  lemma VerifiesIffRetained(env: Env, secrets: Secrets, secret: string, payload: Payload)
    requires Sound(env) && Given(secrets.primary)
    requires forall c :: c in Candidates(secrets) && c != secret ==>
               env.mac(c, Encode(env.write(payload))) != env.mac(secret, Encode(env.write(payload)))
    ensures var token := SignUnsubscribeToken(env, secret, payload);
            Readable(secrets, token) && ((exists i :: FirstMatch(env, secrets, token, i)) <==> secret in Candidates(secrets))
  {
    var token := SignUnsubscribeToken(env, secret, payload);
    var encodedPayload := Encode(env.write(payload));
    TokenSplits(env, secret, payload);
    if secret in Candidates(secrets) {
      RetainedSecretVerifies(env, secrets, secret, payload);
    } else {
      hide SignUnsubscribeToken, Split, Candidates;
      forall c | c in Candidates(secrets) ensures !Matches(env, c, encodedPayload, Decode(env, SignWith(env, secret, encodedPayload))) {
        EncodingRoundTrip(env.mac(c, encodedPayload));
        EncodingRoundTrip(env.mac(secret, encodedPayload));
      }
    }
  }

  /** The variables an operator sets for a list of secrets, the primary first. */
  function VariablesFor(keys: seq<string>): Secrets
    requires keys != []
  {
    Secrets(Some(keys[0]), if |keys| == 1 then None else Some(Join(keys[1..], ',')))
  }

  predicate Listable(keys: seq<string>) {
    keys != [] && forall i :: 0 <= i < |keys| ==> keys[i] != "" && Lacks(keys[i], ',')
  }

  /** Joining a list of secrets with commas and reading it back gives the list. */
  lemma VariablesReadBack(keys: seq<string>)
    requires Listable(keys)
    ensures Given(VariablesFor(keys).primary) && Candidates(VariablesFor(keys)) == keys
  {
    if |keys| > 1 {
      SplitOfJoin(keys[1..], ',');
      assert keys[1] != "" && keys[1..][0] == keys[1];
    }
    assert keys == [keys[0]] + keys[1..];
  }

  /** The boot check lets through only variables that come from a list: of distinct secrets, at most six, each readable back. */
  lemma AcceptedVariablesAreAList(secrets: Secrets)
    requires Accepted(secrets)
    ensures Given(secrets.primary) && Listable(Candidates(secrets)) && |Candidates(secrets)| <= MAX_PREVIOUS_SECRETS + 1
    ensures forall i, j :: 0 <= i < j < |Candidates(secrets)| ==> Candidates(secrets)[i] != Candidates(secrets)[j]
    ensures Given(secrets.previous) ==> VariablesFor(Candidates(secrets)) == secrets
  {
    var entries := PreviousSecrets(secrets);
    var candidates := Candidates(secrets);
    if Given(secrets.previous) {
      JoinOfSplit(secrets.previous.value, ',');
      assert candidates[1..] == entries;
      forall i, j | 0 <= i < j < |candidates| ensures candidates[i] != candidates[j] {
        assert EntryStands(entries, secrets.primary.value, j - 1);
        assert i > 0 ==> entries[i - 1] in entries[..j - 1];
      }
    }
    forall i | 0 <= i < |candidates| ensures candidates[i] != "" && Lacks(candidates[i], ',') {
      assert i > 0 ==> EntryStands(entries, secrets.primary.value, i - 1);
    }
  }

  predicate SoundSecret(secret: string) {
    |secret| >= 32 && forall i :: 0 <= i < |secret| ==> secret[i] != ',' && !IsSpace(secret[i])
  }

  /** What the boot check lets through, said of the list: long secrets, without commas or white space, distinct, at most six. */
  lemma AcceptedIff(secrets: Secrets)
    requires Given(secrets.primary)
    ensures var list := Candidates(secrets);
            Accepted(secrets) <==>
              && |list| <= 6
              && (forall i :: 0 <= i < |list| ==> SoundSecret(list[i]))
              && (forall i, j :: 0 <= i < j < |list| ==> list[i] != list[j])
  {
    var list := Candidates(secrets);
    if Accepted(secrets) {
      AcceptedVariablesAreAList(secrets);
      SoundEntries(secrets);
    } else if |list| <= 6 && (forall i :: 0 <= i < |list| ==> SoundSecret(list[i])) {
      assert SoundSecret(list[0]) && list[1..] == PreviousSecrets(secrets);
      if Given(secrets.previous) {
        var entries := PreviousSecrets(secrets);
        SpaceIsInAnEntry(secrets.previous.value);
        forall k | 0 <= k < |entries| ensures |entries[k]| >= 32 && !HasSpace(entries[k]) {
          assert SoundSecret(list[k + 1]);
        }
        var i :| 0 <= i < |entries| && !EntryStands(entries, secrets.primary.value, i);
        DuplicateInTheList(secrets, i);
      }
    }
  }

  lemma DuplicateInTheList(secrets: Secrets, i: nat)
    requires Given(secrets.primary) && i < |PreviousSecrets(secrets)| && |PreviousSecrets(secrets)[i]| >= MIN_SECRET_LENGTH
    requires !EntryStands(PreviousSecrets(secrets), secrets.primary.value, i)
    ensures exists a, b :: 0 <= a < b < |Candidates(secrets)| && Candidates(secrets)[a] == Candidates(secrets)[b]
  {
    var entries, list := PreviousSecrets(secrets), Candidates(secrets);
    assert list[i + 1] == entries[i];
    if entries[i] != secrets.primary.value {
      var j :| 0 <= j < i && entries[..i][j] == entries[i];
      assert list[j + 1] == list[i + 1];
    } else {
      assert list[0] == list[i + 1];
    }
  }

  predicate SomeSpace(parts: seq<string>) {
    exists k :: 0 <= k < |parts| && HasSpace(parts[k])
  }

  lemma SomeSpaceUnfolds(head: string, rest: seq<string>)
    ensures SomeSpace([head] + rest) <==> HasSpace(head) || SomeSpace(rest)
  {
    hide HasSpace;
    var parts := [head] + rest;
    assert parts[0] == head && forall k :: 0 <= k < |rest| ==> parts[k + 1] == rest[k];
    assert forall k :: 1 <= k < |parts| ==> parts[k] == rest[k - 1];
  }

  /** White space anywhere in a list of entries is in one of them: the separator is none. */
  lemma {:induction false} SpaceIsInAnEntry(s: string)
    ensures HasSpace(s) <==> SomeSpace(Split(s, ','))
  {
    if s != [] {
      SpaceIsInAnEntry(s[1..]);
      SpaceAtTheFront(s[0], s[1..]);
      assert s == [s[0]] + s[1..];
      var rest := Split(s[1..], ',');
      if s[0] == ',' {
        SomeSpaceUnfolds("", rest);
      } else {
        SomeSpaceUnfolds([s[0]] + rest[0], rest[1..]);
        SomeSpaceUnfolds(rest[0], rest[1..]);
        SpaceAtTheFront(s[0], rest[0]);
        assert rest == [rest[0]] + rest[1..];
      }
    } else {
      assert Split(s, ',') == [""];
    }
  }

  lemma SpaceAtTheFront(c: char, s: string)
    ensures HasSpace([c] + s) <==> IsSpace(c) || HasSpace(s)
  {
    var whole := [c] + s;
    assert whole[0] == c && forall i :: 0 <= i < |s| ==> whole[i + 1] == s[i];
    assert forall i :: 1 <= i < |whole| ==> whole[i] == s[i - 1];
  }

  lemma SoundEntries(secrets: Secrets)
    requires Accepted(secrets) && Given(secrets.primary)
    ensures forall i :: 0 <= i < |Candidates(secrets)| ==> SoundSecret(Candidates(secrets)[i])
  {
    var list := Candidates(secrets);
    if Given(secrets.previous) {
      SpaceIsInAnEntry(secrets.previous.value);
      JoinOfSplit(secrets.previous.value, ',');
    }
    forall i | 0 <= i < |list| ensures SoundSecret(list[i]) {
      if i > 0 {
        var entries := PreviousSecrets(secrets);
        assert EntryStands(entries, secrets.primary.value, i - 1) && list[i] == entries[i - 1];
        assert !HasSpace(entries[i - 1]);
      }
    }
  }

  /** The secrets that are set, one list per deployment. Each is a list of names, and no secret that was dropped comes back. */
  predicate History(lists: seq<seq<string>>) {
    && (forall i :: 0 <= i < |lists| ==> Listable(lists[i]))
    && forall i, key :: 0 < i < |lists| && key in lists[i] && key !in lists[i - 1] ==> NeverBefore(lists, i, key)
  }

  predicate NeverBefore(lists: seq<seq<string>>, i: nat, key: string)
    requires i <= |lists|
  {
    forall j :: 0 <= j < i ==> key !in lists[j]
  }

  /** The first rotation that drops a secret drops it for good. */
  lemma {:induction false} OnceDroppedStaysDropped(lists: seq<seq<string>>, key: string, used: nat, dropped: nat, t: nat)
    requires History(lists) && used <= dropped <= t < |lists|
    requires key in lists[used] && key !in lists[dropped]
    ensures key !in lists[t]
  {
    if dropped < t {
      OnceDroppedStaysDropped(lists, key, used, dropped, t - 1);
      assert key in lists[t] ==> NeverBefore(lists, t, key);
    }
  }

  /** No two secrets that are ever set give this payload the same MAC. */
  ghost predicate Separated(env: Env, lists: seq<seq<string>>, payload: Payload) {
    forall i, j, a, b :: 0 <= i < |lists| && 0 <= j < |lists| && a in lists[i] && b in lists[j] && a != b ==>
      env.mac(a, Encode(env.write(payload))) != env.mac(b, Encode(env.write(payload)))
  }

  /**
   * Over a whole history of rotations, a token signed under the primary of its day verifies to its payload
   * at a later deployment if and only if every deployment since then has retained that secret.
   */
  lemma LinkLivesUntilItsSecretIsDropped(env: Env, lists: seq<seq<string>>, signedAt: nat, t: nat, payload: Payload)
    requires Sound(env) && History(lists) && signedAt <= t < |lists| && Separated(env, lists, payload)
    ensures var key := lists[signedAt][0];
            var token, secrets := SignUnsubscribeToken(env, key, payload), VariablesFor(lists[t]);
            && Readable(secrets, token) && env.read(Decode(env, Split(token, '.')[0])) == Some(payload)
            && ((exists i :: FirstMatch(env, secrets, token, i)) <==> forall k :: signedAt <= k <= t ==> key in lists[k])
  {
    hide SignUnsubscribeToken, Split, FirstMatch, Readable, Decode;
    var key := lists[signedAt][0];
    var secrets := VariablesFor(lists[t]);
    VariablesReadBack(lists[t]);
    VerifiesIffRetained(env, secrets, key, payload);
    TokenReadsBack(env, key, payload);
    forall k | signedAt <= k <= t && key !in lists[k] ensures key !in lists[t] {
      OnceDroppedStaysDropped(lists, key, signedAt, k, t);
    }
  }

  lemma TokenReadsBack(env: Env, secret: string, payload: Payload)
    requires Sound(env)
    ensures Split(SignUnsubscribeToken(env, secret, payload), '.') != []
    ensures env.read(Decode(env, Split(SignUnsubscribeToken(env, secret, payload), '.')[0])) == Some(payload)
  {
    TokenSplits(env, secret, payload);
  }
}
