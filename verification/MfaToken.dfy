/** The opaque token between password and second factor: `base64url(payload || hmac)` with payload
    `staff_id|expires_at`. HMAC, base64url and UTF-8 are parameters with the laws they are used for. */
module MfaToken {
  import opened Wrappers
  import opened Text

  type Bytes = seq<bv8>

  const TTL_SECONDS := 900
  const TAG_BYTES := 32

  /** The range of `OffsetDateTime`, in Unix seconds. */
  type UnixTime = t: int | -377_705_116_800 <= t <= 253_402_300_799

  datatype Primitives = Primitives(
    hmac: (Bytes, Bytes) -> Bytes,
    encode: Bytes -> string,
    decode: string -> Option<Bytes>,
    utf8: string -> Bytes,
    fromUtf8: Bytes -> Option<string>)
  {
    ghost predicate Lawful() {
      && (forall key, msg :: |hmac(key, msg)| == TAG_BYTES)
      && (forall b :: decode(encode(b)) == Some(b))
      && decode("") == Some([])
      && (forall b, s :: fromUtf8(b) == Some(s) <==> b == utf8(s))
      && utf8("") == []
    }
  }

  // ----- the laws can be met -----

  function Repeat(b: bv8, n: nat): (bs: Bytes)
    ensures |bs| == n
  {
    seq(n, _ => b)
  }

  /** Each character as so many ones, and a zero. */
  function Unary(s: string): Bytes {
    if s == "" then [] else Repeat(1, s[0] as int) + [0] + Unary(s[1..])
  }

  lemma {:induction false} UnaryInjective(s: string, t: string)
    requires Unary(s) == Unary(t)
    ensures s == t
  {
    if s != "" && t != "" {
      var m, n := s[0] as int, t[0] as int;
      var a, b := Unary(s), Unary(t);
      assert a[m] == 0 && (forall i :: 0 <= i < m ==> a[i] == 1);
      assert b[n] == 0 && (forall i :: 0 <= i < n ==> b[i] == 1);
      assert m == n;
      assert a[m + 1..] == Unary(s[1..]) && b[n + 1..] == Unary(t[1..]);
      UnaryInjective(s[1..], t[1..]);
      assert s == [s[0]] + s[1..] && t == [t[0]] + t[1..];
    }
  }

  ghost function FromUnary(b: Bytes): (s: Option<string>)
    ensures s.Some? ==> Unary(s.value) == b
    ensures s.None? ==> forall t :: Unary(t) != b
  {
    if t :| Unary(t) == b then Some(t) else None
  }

  function Letters(b: Bytes): string {
    if b == [] then "" else [b[0] as char] + Letters(b[1..])
  }

  lemma {:induction false} LettersInjective(a: Bytes, b: Bytes)
    requires Letters(a) == Letters(b)
    ensures a == b
  {
    if a != [] && b != [] {
      assert Letters(a)[0] == Letters(b)[0] && Letters(a)[1..] == Letters(b)[1..];
      LettersInjective(a[1..], b[1..]);
      assert a[0] == b[0];
      assert a == [a[0]] + a[1..] && b == [b[0]] + b[1..];
    }
  }

  ghost function FromLetters(s: string): (b: Option<Bytes>)
    ensures b.Some? ==> Letters(b.value) == s
    ensures b.None? ==> forall c :: Letters(c) != s
  {
    if c :| Letters(c) == s then Some(c) else None
  }

  lemma {:induction false} SomePrimitivesAreLawful()
    ensures exists p: Primitives :: p.Lawful()
  {
    var p := Primitives(
      (key, msg) => Repeat(0, TAG_BYTES), b => Letters(b), s => FromLetters(s), s => Unary(s), b => FromUnary(b));
    forall b ensures p.decode(p.encode(b)) == Some(b) {
      LettersInjective(p.decode(p.encode(b)).value, b);
    }
    assert p.decode("") == p.decode(p.encode([]));
    forall b, s ensures p.fromUtf8(b) == Some(s) <==> b == p.utf8(s) {
      if b == p.utf8(s) {
        UnaryInjective(p.fromUtf8(b).value, s);
      }
    }
    assert p.Lawful();
  }

  datatype Error =
    | EmptyToken | BadBase64 | TooShort | HmacMismatch | NotUtf8 | NoSeparator | BadTimestamp | Expired

  function Payload(staffId: string, expiresAt: string): string {
    staffId + "|" + expiresAt
  }

  function Sign(p: Primitives, secret: Bytes, payload: string): Bytes {
    p.utf8(payload) + p.hmac(secret, p.utf8(payload))
  }

  function Issue(p: Primitives, secret: Bytes, staffId: string, now: UnixTime): string {
    p.encode(Sign(p, secret, Payload(staffId, PrintInt(now + TTL_SECONDS))))
  }

  function Verify(p: Primitives, secret: Bytes, token: string, now: UnixTime): Result<string, Error> {
    if token == "" then Err(EmptyToken)
    else match p.decode(token)
      case None => Err(BadBase64)
      case Some(decoded) =>
        if |decoded| < TAG_BYTES + 1 then Err(TooShort)
        else
          var end := |decoded| - TAG_BYTES;
          if p.hmac(secret, decoded[..end]) != decoded[end..] then Err(HmacMismatch)
          else match p.fromUtf8(decoded[..end])
            case None => Err(NotUtf8)
            case Some(payload) => CheckPayload(payload, now)
  }

  function CheckPayload(payload: string, now: UnixTime): Result<string, Error> {
    match LastIndexOf(payload, '|')
    case None => Err(NoSeparator)
    case Some(separator) =>
      match ParseI64(payload[separator + 1..])
      case None => Err(BadTimestamp)
      case Some(expiresAt) => if now > expiresAt then Err(Expired) else Ok(payload[..separator])
  }

  /** The token is the signature of `staffId|expiry` under this secret, and `expiry` has no separator. */
  ghost predicate Genuine(p: Primitives, secret: Bytes, token: string, staffId: string, expiry: string) {
    '|' !in expiry && p.decode(token) == Some(Sign(p, secret, Payload(staffId, expiry)))
  }

  lemma {:induction false} PayloadParts(staffId: string, expiry: string)
    requires '|' !in expiry
    ensures LastIndexOf(Payload(staffId, expiry), '|') == Some(|staffId|)
    ensures Payload(staffId, expiry)[..|staffId|] == staffId && Payload(staffId, expiry)[|staffId| + 1..] == expiry
  {
    LastIndexOfTail(staffId, '|', expiry);
  }

  /** A genuine token passes every check up to its expiry. */
  lemma {:induction false} GenuineReaches(p: Primitives, secret: Bytes, token: string, staffId: string,
                                        expiry: string, now: UnixTime)
    requires p.Lawful() && Genuine(p, secret, token, staffId, expiry)
    ensures Verify(p, secret, token, now) == CheckPayload(Payload(staffId, expiry), now)
  {
    var payload := Payload(staffId, expiry);
    var bytes := p.utf8(payload);
    var decoded := Sign(p, secret, payload);
    assert |p.hmac(secret, bytes)| == TAG_BYTES;
    assert p.fromUtf8(bytes) == Some(payload);
    assert p.fromUtf8([]) == Some("");
    assert decoded[..|decoded| - TAG_BYTES] == bytes;
    assert decoded[|decoded| - TAG_BYTES..] == p.hmac(secret, bytes);
  }

  /** The issued token gives its staff id back, whatever characters that has, at exactly the times up
      to and including 900 seconds after issue. */
  lemma {:induction false} IssuedTokenLives(p: Primitives, secret: Bytes, staffId: string, issued: UnixTime,
                                            now: UnixTime)
    requires p.Lawful()
    ensures Verify(p, secret, Issue(p, secret, staffId, issued), now)
         == if now <= issued + 900 then Ok(staffId) else Err(Expired)
  {
    var expiry := PrintInt(issued + TTL_SECONDS);
    PrintHasNo(issued + TTL_SECONDS, '|');
    ParsePrint(issued + TTL_SECONDS);
    PayloadParts(staffId, expiry);
    GenuineReaches(p, secret, Issue(p, secret, staffId, issued), staffId, expiry, now);
  }

  // ----- on bytes -----

  /** What a token consists of: the UTF-8 of `staffId|expiry`, and its HMAC under the secret. */
  ghost predicate Carries(p: Primitives, secret: Bytes, token: string, staffId: string, expiry: string) {
    var payload := p.utf8(staffId + "|" + expiry);
    p.decode(token) == Some(payload + p.hmac(secret, payload))
  }

  /** The issued token carries the staff id and the decimal instant 900 seconds later. */
  lemma {:induction false} IssuedBytes(p: Primitives, secret: Bytes, staffId: string, now: UnixTime)
    requires p.Lawful()
    ensures Carries(p, secret, Issue(p, secret, staffId, now), staffId, PrintInt(now + 900))
  {
  }

  lemma {:induction false} PayloadAccepted(payload: string, staffId: string, now: UnixTime)
    requires CheckPayload(payload, now) == Ok(staffId)
    ensures |staffId| < |payload|
    ensures
      var expiry := payload[|staffId| + 1..];
      && payload == Payload(staffId, expiry) && '|' !in expiry
      && ParseI64(expiry).Some? && now <= ParseI64(expiry).value
  {
    hide ParseI64;
  }

  lemma {:induction false} AcceptedIsGenuine(p: Primitives, secret: Bytes, token: string, staffId: string,
                                             now: UnixTime) returns (expiry: string)
    requires p.Lawful() && Verify(p, secret, token, now) == Ok(staffId)
    ensures Genuine(p, secret, token, staffId, expiry)
    ensures ParseI64(expiry).Some? && now <= ParseI64(expiry).value
  {
    hide CheckPayload, ParseI64;
    var decoded := p.decode(token).value;
    var end := |decoded| - TAG_BYTES;
    var payload := p.fromUtf8(decoded[..end]).value;
    PayloadAccepted(payload, staffId, now);
    expiry := payload[|staffId| + 1..];
    assert decoded == decoded[..end] + decoded[end..];
    assert decoded[..end] == p.utf8(payload);
  }

  /** Which tokens are accepted, and as whom: those that carry, authenticated, the staff id and an expiry that
      has not passed. */
  lemma {:induction false} AcceptedExactlyGenuine(p: Primitives, secret: Bytes, token: string, staffId: string,
                                                  now: UnixTime)
    requires p.Lawful()
    ensures Verify(p, secret, token, now) == Ok(staffId) <==>
      exists expiry ::
        && '|' !in expiry && ParseI64(expiry).Some? && now <= ParseI64(expiry).value
        && p.decode(token) ==
           Some(p.utf8(staffId + "|" + expiry) + p.hmac(secret, p.utf8(staffId + "|" + expiry)))
  {
    hide Verify, ParseI64;
    if Verify(p, secret, token, now) == Ok(staffId) {
      var expiry := AcceptedIsGenuine(p, secret, token, staffId, now);
      assert Payload(staffId, expiry) == staffId + "|" + expiry;
    }
    if expiry :|
      && '|' !in expiry && ParseI64(expiry).Some? && now <= ParseI64(expiry).value
      && p.decode(token) == Some(p.utf8(staffId + "|" + expiry) + p.hmac(secret, p.utf8(staffId + "|" + expiry)))
    {
      assert Payload(staffId, expiry) == staffId + "|" + expiry;
      PayloadParts(staffId, expiry);
      GenuineReaches(p, secret, token, staffId, expiry, now);
    }
  }

  /** What is accepted was authenticated under this secret, over exactly the bytes in front of the last 32. */
  lemma {:induction false} AcceptedIsAuthenticated(p: Primitives, secret: Bytes, token: string, staffId: string,
                                                   now: UnixTime)
    requires p.Lawful() && Verify(p, secret, token, now) == Ok(staffId)
    ensures token != "" && p.decode(token).Some? && |p.decode(token).value| >= 33
    ensures
      var bytes := p.decode(token).value;
      bytes[|bytes| - 32..] == p.hmac(secret, bytes[..|bytes| - 32])
  {
  }

  /** Each refusal in the order of the checks: no token, not base64url, under 33 bytes, a wrong tag, no UTF-8, no
      separator, no 64-bit number after the last one, or one that has passed. */
  lemma {:induction false} RefusalsExactly(p: Primitives, secret: Bytes, token: string, now: UnixTime)
    ensures
      var r := Verify(p, secret, token, now);
      if token == "" then r == Err(EmptyToken)
      else if p.decode(token).None? then r == Err(BadBase64)
      else
        var bytes := p.decode(token).value;
        if |bytes| <= 32 then r == Err(TooShort)
        else
          var body := bytes[..|bytes| - 32];
          if bytes != body + p.hmac(secret, body) then r == Err(HmacMismatch)
          else if p.fromUtf8(body).None? then r == Err(NotUtf8)
          else if '|' !in p.fromUtf8(body).value then r == Err(NoSeparator)
          else exists staffId, expiry ::
            && '|' !in expiry && p.fromUtf8(body).value == staffId + "|" + expiry
            && r == if ParseI64(expiry).None? then Err(BadTimestamp)
                    else if now > ParseI64(expiry).value then Err(Expired)
                    else Ok(staffId)
  {
    hide ParseI64;
    if token != "" && p.decode(token).Some? && |p.decode(token).value| > 32 {
      var bytes := p.decode(token).value;
      var body, tag := bytes[..|bytes| - 32], bytes[|bytes| - 32..];
      assert bytes == body + tag;
      assert bytes == body + p.hmac(secret, body) <==> tag == p.hmac(secret, body) by {
        assert (body + p.hmac(secret, body))[|body|..] == p.hmac(secret, body);
      }
      if p.hmac(secret, body) == tag && p.fromUtf8(body).Some? && '|' in p.fromUtf8(body).value {
        var payload := p.fromUtf8(body).value;
        var k := LastIndexOf(payload, '|').value;
        var staffId, expiry := payload[..k], payload[k + 1..];
        assert payload == staffId + "|" + expiry;
      }
    }
  }
}
