/** The capability token of `escrow.py`: unpadded base64url segments joined by dots, and their verification. */
module CapabilityToken {
  import opened Hashing
  import opened Text
  import opened JsonValues

  // ----- Base64url (section 5 of RFC 4648) -----

  type Sextet = n: nat | n < 64

  function CharOf(n: Sextet): (c: char) {
    if n < 26 then 'A' + n as char
    else if n < 52 then 'a' + (n - 26) as char
    else if n < 62 then '0' + (n - 52) as char
    else if n == 62 then '-' else '_'
  }

  /** The decoder's table after '-' and '_' were translated: both spellings of 62 and 63 are accepted. */
  function ValueOf(c: char): (v: Option<Sextet>) {
    if 'A' <= c <= 'Z' then Some(c as int - 'A' as int)
    else if 'a' <= c <= 'z' then Some(c as int - 'a' as int + 26)
    else if '0' <= c <= '9' then Some(c as int - '0' as int + 52)
    else if c == '-' || c == '+' then Some(62)
    else if c == '_' || c == '/' then Some(63)
    else None
  }

  lemma AlphabetRoundTrip(n: Sextet)
    ensures ValueOf(CharOf(n)) == Some(n)
    ensures CharOf(n) != '=' && CharOf(n) != '.' && !IsSpace(CharOf(n)) && CharOf(n) as int < 128
  {
  }

  /** The sextets of a byte string; a last group of one or two bytes gives two or three of them. */
  function Sextets(b: Bytes): (s: seq<Sextet>)
    ensures |s| == |b| / 3 * 4 + (if |b| % 3 == 0 then 0 else |b| % 3 + 1)
  {
    if b == [] then []
    else
      var x := b[0] as int;
      if |b| == 1 then [x / 4, x % 4 * 16]
      else
        var y := b[1] as int;
        if |b| == 2 then [x / 4, x % 4 * 16 + y / 16, y % 16 * 4]
        else
          var z := b[2] as int;
          [x / 4, x % 4 * 16 + y / 16, y % 16 * 4 + z / 64, z % 64] + Sextets(b[3..])
  }

  function Spell(s: seq<Sextet>): (t: string)
    ensures |t| == |s| && forall i :: 0 <= i < |s| ==> t[i] == CharOf(s[i])
  {
    seq(|s|, i requires 0 <= i < |s| => CharOf(s[i]))
  }

  function Pads(n: nat): (t: string)
    ensures |t| == n && forall c :: c in t ==> c == '='
  {
    seq(n, _ => '=')
  }

  /** `rstrip("=")`. */
  function RStripPads(t: string): (r: string) {
    if t != "" && t[|t| - 1] == '=' then RStripPads(t[..|t| - 1]) else t
  }

  /** `urlsafe_b64encode`. */
  function EncodePadded(b: Bytes): (t: string) {
    Spell(Sextets(b)) + Pads(PadsFor(|b|))
  }

  /** `_b64url_encode`. */
  function Encode(b: Bytes): (t: string) {
    RStripPads(EncodePadded(b))
  }

  /**
    The lenient decoder: characters outside the alphabet are skipped; a pad that completes a group
    ends the input; input that ends inside a group is an error.
  */
  function Scan(t: string, quad: nat, left: nat, pads: nat, out: Bytes): (r: Option<Bytes>)
    requires quad < 4 && (quad == 0 ==> left == 0) && (quad == 1 ==> left < 64) && (quad == 2 ==> left < 16) && (quad == 3 ==> left < 4)
    decreases |t|
  {
    if t == "" then (if quad == 0 then Some(out) else None)
    else if t[0] == '=' then
      if quad >= 2 && quad + pads + 1 >= 4 then Some(out)
      else Scan(t[1..], quad, left, if quad >= 2 then pads + 1 else pads, out)
    else
      match ValueOf(t[0])
      case None => Scan(t[1..], quad, left, pads, out)
      case Some(v) =>
        if quad == 0 then Scan(t[1..], 1, v, 0, out)
        else if quad == 1 then Scan(t[1..], 2, v % 16, 0, out + [(left * 4 + v / 16) as byte])
        else if quad == 2 then Scan(t[1..], 3, v % 4, 0, out + [(left * 16 + v / 4) as byte])
        else Scan(t[1..], 0, 0, 0, out + [(left * 64 + v) as byte])
  }

  /** `_b64url_decode`: pad to a multiple of four, then decode; text that is not ASCII is an error. */
  function Decode(t: string): (r: Option<Bytes>) {
    if exists c :: c in t && c as int >= 128 then None
    else Scan(t + Pads((4 - |t| % 4) % 4), 0, 0, 0, [])
  }

  lemma {:induction false} RStripSpelled(s: seq<Sextet>, n: nat)
    ensures RStripPads(Spell(s) + Pads(n)) == Spell(s)
  {
    if n > 0 {
      var t := Spell(s) + Pads(n);
      assert t[|t| - 1] in Pads(n);
      assert t[..|t| - 1] == Spell(s) + Pads(n - 1);
      RStripSpelled(s, n - 1);
    } else {
      assert Spell(s) + Pads(0) == Spell(s);
      if s != [] {
        AlphabetRoundTrip(s[|s| - 1]);
      }
    }
  }

  /** How many pads an encoding of n bytes lost. */
  function PadsFor(n: nat): (k: nat) {
    if n % 3 == 0 then 0 else 3 - n % 3
  }

  lemma PadLength(n: nat, length: nat)
    requires length == n / 3 * 4 + (if n % 3 == 0 then 0 else n % 3 + 1)
    ensures (4 - length % 4) % 4 == PadsFor(n)
  {
    var k := n / 3;
    assert length % 4 == (if n % 3 == 0 then 0 else n % 3 + 1);
  }

  lemma SpelledChars(s: seq<Sextet>)
    ensures forall c :: c in Spell(s) ==> c != '=' && c != '.' && !IsSpace(c) && c as int < 128
  {
    forall c | c in Spell(s) ensures c != '=' && c != '.' && !IsSpace(c) && c as int < 128 {
      var i :| 0 <= i < |s| && Spell(s)[i] == c;
      AlphabetRoundTrip(s[i]);
    }
  }

  lemma EncodeUnfold(b: Bytes)
    ensures Encode(b) == RStripPads(Spell(Sextets(b)) + Pads(PadsFor(|b|)))
  {
    hide Sextets, Spell, RStripPads, Pads;
  }

  /** No pad, no dot, no space and only ASCII ever appears in an encoding, and its length tells the padding. */
  lemma {:induction false} EncodeShape(b: Bytes)
    ensures Encode(b) == Spell(Sextets(b))
    ensures forall c :: c in Encode(b) ==> c != '=' && c != '.' && !IsSpace(c) && c as int < 128
    ensures (4 - |Encode(b)| % 4) % 4 == PadsFor(|b|)
  {
    hide *;
    EncodeUnfold(b);
    RStripSpelled(Sextets(b), PadsFor(|b|));
    SpelledChars(Sextets(b));
    PadLength(|b|, |Encode(b)|);
  }

  lemma ScanData(n: Sextet, tail: string, quad: nat, left: nat, pads: nat, out: Bytes)
    requires quad < 4 && (quad == 0 ==> left == 0) && (quad == 1 ==> left < 64) && (quad == 2 ==> left < 16) && (quad == 3 ==> left < 4)
    ensures Scan([CharOf(n)] + tail, quad, left, pads, out) ==
              if quad == 0 then Scan(tail, 1, n, 0, out)
              else if quad == 1 then Scan(tail, 2, n % 16, 0, out + [(left * 4 + n / 16) as byte])
              else if quad == 2 then Scan(tail, 3, n % 4, 0, out + [(left * 16 + n / 4) as byte])
              else Scan(tail, 0, 0, 0, out + [(left * 64 + n) as byte])
  {
    AlphabetRoundTrip(n);
    assert ([CharOf(n)] + tail)[1..] == tail;
  }

  lemma TwoDigits(x: nat, tail: string, out: Bytes)
    requires x < 256
    ensures Scan([CharOf(x / 4), CharOf(x % 4 * 16)] + tail, 0, 0, 0, out) == Scan(tail, 2, 0, 0, out + [x as byte])
  {
    var s, t := x / 4, x % 4 * 16;
    assert [CharOf(s), CharOf(t)] + tail == [CharOf(s)] + ([CharOf(t)] + tail);
    ScanData(s, [CharOf(t)] + tail, 0, 0, 0, out);
    ScanData(t, tail, 1, s, 0, out);
    assert s * 4 + t / 16 == x && t % 16 == 0;
  }

  lemma ThreeDigits(x: nat, y: nat, tail: string, out: Bytes)
    requires x < 256 && y < 256
    ensures Scan([CharOf(x / 4), CharOf(x % 4 * 16 + y / 16), CharOf(y % 16 * 4)] + tail, 0, 0, 0, out)
         == Scan(tail, 3, 0, 0, out + [x as byte, y as byte])
  {
    var s, t, u := x / 4, x % 4 * 16 + y / 16, y % 16 * 4;
    assert [CharOf(s), CharOf(t), CharOf(u)] + tail == [CharOf(s)] + ([CharOf(t)] + ([CharOf(u)] + tail));
    ScanData(s, [CharOf(t)] + ([CharOf(u)] + tail), 0, 0, 0, out);
    ScanData(t, [CharOf(u)] + tail, 1, s, 0, out);
    assert s * 4 + t / 16 == x && t % 16 == y / 16;
    ScanData(u, tail, 2, y / 16, 0, out + [x as byte]);
    assert y / 16 * 16 + u / 4 == y && u % 4 == 0;
    assert out + [x as byte] + [y as byte] == out + [x as byte, y as byte];
  }

  lemma FourDigits(x: nat, y: nat, z: nat, tail: string, out: Bytes)
    requires x < 256 && y < 256 && z < 256
    ensures Scan([CharOf(x / 4), CharOf(x % 4 * 16 + y / 16), CharOf(y % 16 * 4 + z / 64), CharOf(z % 64)] + tail, 0, 0, 0, out)
         == Scan(tail, 0, 0, 0, out + [x as byte, y as byte, z as byte])
  {
    hide Scan, CharOf;
    var s, t, u, v := x / 4, x % 4 * 16 + y / 16, y % 16 * 4 + z / 64, z % 64;
    assert [CharOf(s), CharOf(t), CharOf(u), CharOf(v)] + tail == [CharOf(s)] + ([CharOf(t)] + ([CharOf(u)] + ([CharOf(v)] + tail)));
    ScanData(s, [CharOf(t)] + ([CharOf(u)] + ([CharOf(v)] + tail)), 0, 0, 0, out);
    ScanData(t, [CharOf(u)] + ([CharOf(v)] + tail), 1, s, 0, out);
    assert s * 4 + t / 16 == x && t % 16 == y / 16;
    ScanData(u, [CharOf(v)] + tail, 2, y / 16, 0, out + [x as byte]);
    assert y / 16 * 16 + u / 4 == y && u % 4 == z / 64;
    ScanData(v, tail, 3, z / 64, 0, out + [x as byte] + [y as byte]);
    assert z / 64 * 64 + v == z;
    assert out + [x as byte] + [y as byte] + [z as byte] == out + [x as byte, y as byte, z as byte];
  }

  lemma SpellConcat(a: seq<Sextet>, b: seq<Sextet>)
    ensures Spell(a + b) == Spell(a) + Spell(b)
  {
  }

  lemma ShortGroup(b: Bytes, tail: string, out: Bytes)
    requires 1 <= |b| <= 2
    ensures Scan(Spell(Sextets(b)) + tail, 0, 0, 0, out) == Scan(tail, |b| + 1, 0, 0, out + b)
  {
    hide Scan;
    var x := b[0] as int;
    if |b| == 1 {
      assert Spell(Sextets(b)) == [CharOf(x / 4), CharOf(x % 4 * 16)];
      TwoDigits(x, tail, out);
      assert b == [b[0]];
    } else {
      var y := b[1] as int;
      assert Spell(Sextets(b)) == [CharOf(x / 4), CharOf(x % 4 * 16 + y / 16), CharOf(y % 16 * 4)];
      ThreeDigits(x, y, tail, out);
      assert b == [b[0], b[1]];
    }
  }

  lemma WholeGroup(b: Bytes, tail: string, out: Bytes)
    requires |b| >= 3
    ensures Scan(Spell(Sextets(b)) + tail, 0, 0, 0, out) == Scan(Spell(Sextets(b[3..])) + tail, 0, 0, 0, out + b[..3])
  {
    hide Scan;
    var x, y, z := b[0] as int, b[1] as int, b[2] as int;
    var head: seq<Sextet> := [x / 4, x % 4 * 16 + y / 16, y % 16 * 4 + z / 64, z % 64];
    assert Sextets(b) == head + Sextets(b[3..]);
    SpellConcat(head, Sextets(b[3..]));
    assert Spell(head) == [CharOf(x / 4), CharOf(x % 4 * 16 + y / 16), CharOf(y % 16 * 4 + z / 64), CharOf(z % 64)];
    var rest := Spell(Sextets(b[3..])) + tail;
    assert Spell(Sextets(b)) + tail == Spell(head) + rest;
    FourDigits(x, y, z, rest, out);
    assert b[..3] == [b[0], b[1], b[2]];
  }

  /** Where the decoder stands after the data characters of n bytes. */
  function Waiting(n: nat): (quad: nat)
    ensures quad < 4 && quad != 1
  {
    if n % 3 == 0 then 0 else n % 3 + 1
  }

  /** Scanning an encoding gives back the bytes and leaves the decoder waiting for the pads. */
  lemma {:induction false} ScanSextets(b: Bytes, tail: string, out: Bytes)
    ensures Scan(Spell(Sextets(b)) + tail, 0, 0, 0, out) == Scan(tail, Waiting(|b|), 0, 0, out + b)
    decreases |b|
  {
    hide Scan, Sextets, Spell;
    if b == [] {
      NoSextets();
      assert Spell([]) + tail == tail && out + b == out;
    } else if |b| <= 2 {
      ShortGroup(b, tail, out);
    } else {
      WholeGroup(b, tail, out);
      ScanSextets(b[3..], tail, out + b[..3]);
      assert out + b[..3] + b[3..] == out + b;
    }
  }

  lemma NoSextets()
    ensures Sextets([]) == [] && Spell([]) == ""
  {
  }

  lemma ScanPads(n: nat, quad: nat, out: Bytes)
    requires (n, quad) in {(0, 0), (1, 3), (2, 2)}
    ensures Scan(Pads(n), quad, 0, 0, out) == Some(out)
  {
    if n == 2 {
      assert Pads(2)[0] == '=' && Pads(2)[1..][0] == '=';
    }
  }

  /** Dropping the pads loses nothing: every byte string of every length comes back. */
  lemma RoundTrip(b: Bytes)
    ensures Decode(Encode(b)) == Some(b)
  {
    hide Scan, Sextets, Spell, Encode, IsSpace, PadsFor, Waiting;
    EncodeShape(b);
    ScanSextets(b, Pads(PadsFor(|b|)), []);
    PadsComplete(|b|);
    ScanPads(PadsFor(|b|), Waiting(|b|), b);
    assert [] + b == b;
  }

  lemma PadsComplete(n: nat)
    ensures (PadsFor(n), Waiting(n)) in {(0, 0), (1, 3), (2, 2)}
  {
  }

  // ----- Minting and verifying -----

  /** JSON text in UTF-8: `dumps` with sorted keys, and `loads`, which may refuse. */
  datatype Codec = Codec(dump: Json -> Bytes, load: Bytes -> Option<Json>)

  datatype SignatureSpec = SignatureSpec(algorithm: Json, keyId: Json, value: string)

  datatype Signer = Signer(algorithm: string, keyId: string, sign: string -> string, verify: (string, SignatureSpec) -> bool)

  datatype TokenError = SegmentCount | Unreadable | NotObjects | WrongType | BadSignature

  /** What a capability is bound to. */
  datatype Claims = Claims(escrow: string, digest: string, scope: seq<string>, audience: string, expiry: int, nonce: string)

  const TOKEN_TYPE: string := "acp-cap+jwt"

  function Payload(c: Claims): (j: Json) {
    Obj(map["escrow_id" := Str(c.escrow), "action_intent_digest" := Str(c.digest),
            "scope" := Arr(seq(|c.scope|, i requires 0 <= i < |c.scope| => Str(c.scope[i]))),
            "audience" := Str(c.audience), "exp" := Num(c.expiry as real), "nonce" := Str(c.nonce)])
  }

  function Header(s: Signer): (j: Json) {
    Obj(map["alg" := Str(s.algorithm), "typ" := Str(TOKEN_TYPE), "kid" := Str(s.keyId)])
  }

  function SigningInput(header: string, payload: string): (m: string) {
    header + "." + payload
  }

  /** `_sign_capability_token`. */
  function Mint(c: Claims, s: Signer, codec: Codec): (token: string) {
    var m := SigningInput(Encode(codec.dump(Header(s))), Encode(codec.dump(Payload(c))));
    m + "." + s.sign(m)
  }

  function GetOr(j: Json, k: string, default: Json): (v: Json) {
    if j.Obj? && k in j.fields then j.fields[k] else default
  }

  /** `verify_capability_token`. */
  function Verify(token: string, s: Signer, codec: Codec): (r: Result<Json, TokenError>) {
    var parts := Split(token, '.');
    if |parts| != 3 then Err(SegmentCount)
    else
      var h, p := Decode(parts[0]), Decode(parts[1]);
      if h.None? || codec.load(h.value).None? then Err(Unreadable)
      else if p.None? || codec.load(p.value).None? then Err(Unreadable)
      else
        var header, payload := codec.load(h.value).value, codec.load(p.value).value;
        if !header.Obj? || !payload.Obj? then Err(NotObjects)
        else if GetOr(header, "typ", Null) != Str(TOKEN_TYPE) then Err(WrongType)
        else if !s.verify(SigningInput(parts[0], parts[1]), SignatureSpec(GetOr(header, "alg", Str("")), GetOr(header, "kid", Str("")), parts[2])) then
          Err(BadSignature)
        else Ok(payload)
  }

  /** JSON objects survive the trip through their text. */
  ghost predicate Faithful(codec: Codec) {
    forall j: Json :: j.Obj? ==> codec.load(codec.dump(j)) == Some(j)
  }

  /** The signer accepts its own signatures, and they contain no dot. */
  ghost predicate SelfConsistent(s: Signer) {
    forall m: string :: '.' !in s.sign(m) && s.verify(m, SignatureSpec(Str(s.algorithm), Str(s.keyId), s.sign(m)))
  }

  lemma ThreeParts(a: string, b: string, c: string)
    requires '.' !in a && '.' !in b && '.' !in c
    ensures Split(SigningInput(a, b) + "." + c, '.') == [a, b, c]
  {
    SplitPiece(a, b + "." + c, '.');
    SplitPiece(b, c, '.');
    SplitWhole(c, '.');
    assert SigningInput(a, b) + "." + c == a + ['.'] + (b + "." + c);
    assert b + "." + c == b + ['.'] + c;
  }

  /** For every claim set: verifying what was minted returns exactly the claims minted. */
  lemma VerifyAfterMint(c: Claims, s: Signer, codec: Codec)
    requires Faithful(codec) && SelfConsistent(s)
    ensures Verify(Mint(c, s, codec), s, codec) == Ok(Payload(c))
  {
    hide Split, Encode, Decode, IsSpace;
    var hb, pb := codec.dump(Header(s)), codec.dump(Payload(c));
    EncodeShape(hb);
    EncodeShape(pb);
    RoundTrip(hb);
    RoundTrip(pb);
    var m := SigningInput(Encode(hb), Encode(pb));
    ThreeParts(Encode(hb), Encode(pb), s.sign(m));
    assert codec.load(hb) == Some(Header(s)) && codec.load(pb) == Some(Payload(c));
  }

  /** Different claims are minted into tokens with different payloads: nothing of the binding is lost. */
  lemma PayloadBindsClaims(c: Claims, d: Claims)
    ensures Payload(c) == Payload(d) ==> c == d
  {
    if Payload(c) == Payload(d) {
      var x, y := Payload(c).fields, Payload(d).fields;
      assert x["escrow_id"] == y["escrow_id"] && x["action_intent_digest"] == y["action_intent_digest"] && x["audience"] == y["audience"];
      assert x["nonce"] == y["nonce"] && x["exp"] == y["exp"] && x["scope"] == y["scope"];
      forall i | 0 <= i < |c.scope| ensures c.scope[i] == d.scope[i] {
        assert x["scope"].items[i] == y["scope"].items[i];
      }
      assert |x["scope"].items| == |c.scope| && |y["scope"].items| == |d.scope|;
    }
  }

  /** A token is accepted only if the signer vouches for its first two segments, and the answer is what the second one spells. */
  lemma AcceptedIsSigned(token: string, s: Signer, codec: Codec)
    requires Verify(token, s, codec).Ok?
    ensures var parts := Split(token, '.');
            && |parts| == 3 && token == SigningInput(parts[0], parts[1]) + "." + parts[2]
            && Decode(parts[1]).Some? && codec.load(Decode(parts[1]).value) == Some(Verify(token, s, codec).value)
            && exists spec: SignatureSpec :: spec.value == parts[2] && s.verify(SigningInput(parts[0], parts[1]), spec)
  {
    var parts := Split(token, '.');
    JoinAfterSplit(token, '.');
    hide Split, Decode, IsSpace;
    var header := codec.load(Decode(parts[0]).value).value;
    assert s.verify(SigningInput(parts[0], parts[1]), SignatureSpec(GetOr(header, "alg", Str("")), GetOr(header, "kid", Str("")), parts[2]));
  }

  function Join(parts: seq<string>, c: char): (t: string)
    requires parts != []
  {
    if |parts| == 1 then parts[0] else parts[0] + [c] + Join(parts[1..], c)
  }

  lemma {:induction false} SplitThenJoin(t: string, c: char)
    ensures Join(Split(t, c), c) == t
  {
    if t != "" {
      SplitThenJoin(t[1..], c);
      var rest := Split(t[1..], c);
      assert t == [t[0]] + t[1..];
      if t[0] == c {
        assert Split(t, c)[1..] == rest;
      } else {
        assert Split(t, c)[1..] == rest[1..];
      }
    }
  }

  lemma JoinAfterSplit(t: string, c: char)
    ensures |Split(t, c)| == 3 ==> t == Split(t, c)[0] + [c] + Split(t, c)[1] + [c] + Split(t, c)[2]
  {
    SplitThenJoin(t, c);
    hide Split;
    var p := Split(t, c);
    if |p| == 3 {
      assert Join(p[1..], c) == p[1] + [c] + Join(p[2..], c);
      assert Join(p[2..], c) == p[2];
    }
  }

  lemma StripNothing(t: string)
    requires t != "" && !IsSpace(t[0]) && !IsSpace(t[|t| - 1])
    ensures Strip(t) == t
  {
  }

  /** Minted tokens go through the stripping of the token digest unchanged. */
  lemma MintedIsStripped(c: Claims, s: Signer, codec: Codec)
    requires codec.dump(Header(s)) != []
    requires forall m: string :: s.sign(m) != "" && !IsSpace(s.sign(m)[|s.sign(m)| - 1])
    ensures Strip(Mint(c, s, codec)) == Mint(c, s, codec) != ""
  {
    hide IsSpace, Encode;
    var h := Encode(codec.dump(Header(s)));
    EncodeShape(codec.dump(Header(s)));
    var m := SigningInput(h, Encode(codec.dump(Payload(c))));
    var token := Mint(c, s, codec);
    assert h != "" && token[0] == h[0] && h[0] in h;
    assert token[|token| - 1] == s.sign(m)[|s.sign(m)| - 1];
    StripNothing(token);
  }
}
