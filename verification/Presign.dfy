/** Percent-encoding (sections 2.1 and 2.3 of RFC 3986) and the canonical query of a presigned URL. */
module Presign {
  import opened Wrappers
  import opened Text

  type Octets = seq<Octet>

  predicate Unreserved(c: char) {
    'A' <= c <= 'Z' || 'a' <= c <= 'z' || '0' <= c <= '9' || c == '-' || c == '.' || c == '_' || c == '~'
  }

  const HEX := "0123456789ABCDEF"

  function EncodeOctet(c: Octet, encodeSlash: bool): string {
    if Unreserved(c) then [c]
    else if c == '/' && !encodeSlash then "/"
    else ['%', HEX[c as int / 16], HEX[c as int % 16]]
  }

  function UriEncode(s: Octets, encodeSlash: bool): string {
    if s == [] then "" else EncodeOctet(s[0], encodeSlash) + UriEncode(s[1..], encodeSlash)
  }

  lemma {:induction false} EncodeNext(s: Octets, i: nat, encodeSlash: bool, out: string)
    requires i < |s|
    ensures out + UriEncode(s[i..], encodeSlash)
         == out + EncodeOctet(s[i], encodeSlash) + UriEncode(s[i + 1..], encodeSlash)
  {
    assert s[i..][1..] == s[i + 1..];
  }

  method UriEncodeLoop(s: Octets, encodeSlash: bool) returns (out: string)
    ensures out == UriEncode(s, encodeSlash)
  {
    out := "";
    for i := 0 to |s|
      invariant out + UriEncode(s[i..], encodeSlash) == UriEncode(s, encodeSlash)
    {
      var b := s[i];
      EncodeNext(s, i, encodeSlash, out);
      if 'A' <= b <= 'Z' || 'a' <= b <= 'z' || '0' <= b <= '9' || b == '-' || b == '.' || b == '_' || b == '~' {
        out := out + [b];
      } else if b == '/' && !encodeSlash {
        out := out + "/";
      } else {
        out := out + ['%', HEX[b as int / 16], HEX[b as int % 16]];
      }
    }
  }

  // ----- decoding -----

  function HexValue(c: char): Option<nat> {
    if '0' <= c <= '9' then Some(c as int - '0' as int)
    else if 'A' <= c <= 'F' then Some(c as int - 'A' as int + 10)
    else if 'a' <= c <= 'f' then Some(c as int - 'a' as int + 10)
    else None
  }

  /** Section 2.1 of RFC 3986; a `%` without two hex digits, or a non-octet, is an error. */
  function PercentDecode(s: string): Option<Octets> {
    if s == "" then Some([])
    else if s[0] == '%' then
      if |s| < 3 || HexValue(s[1]).None? || HexValue(s[2]).None? then None
      else Prepend((16 * HexValue(s[1]).value + HexValue(s[2]).value) as char, PercentDecode(s[3..]))
    else if s[0] as int >= 256 then None
    else Prepend(s[0], PercentDecode(s[1..]))
  }

  function Prepend(c: Octet, rest: Option<Octets>): Option<Octets> {
    match rest case Some(r) => Some([c] + r) case None => None
  }

  lemma {:induction false} HexDigits(c: Octet)
    ensures HexValue(HEX[c as int / 16]) == Some(c as int / 16)
    ensures HexValue(HEX[c as int % 16]) == Some(c as int % 16)
  {
  }

  lemma {:induction false} DecodeOctet(c: Octet, encodeSlash: bool, rest: string)
    ensures PercentDecode(EncodeOctet(c, encodeSlash) + rest) == Prepend(c, PercentDecode(rest))
  {
    var x := EncodeOctet(c, encodeSlash);
    if |x| == 1 {
      assert (x + rest)[1..] == rest;
    } else {
      HexDigits(c);
      hide HexValue;
      assert (x + rest)[3..] == rest && (x + rest)[1] == x[1] && (x + rest)[2] == x[2];
    }
  }

  lemma {:induction false} DecodeEncode(s: Octets, encodeSlash: bool)
    ensures PercentDecode(UriEncode(s, encodeSlash)) == Some(s)
  {
    if s != [] {
      var rest := UriEncode(s[1..], encodeSlash);
      assert UriEncode(s, encodeSlash) == EncodeOctet(s[0], encodeSlash) + rest;
      hide EncodeOctet, PercentDecode, UriEncode;
      DecodeEncode(s[1..], encodeSlash);
      DecodeOctet(s[0], encodeSlash, rest);
      assert [s[0]] + s[1..] == s;
    }
  }

  lemma {:induction false} Injective(s: Octets, t: Octets, encodeSlash: bool)
    requires UriEncode(s, encodeSlash) == UriEncode(t, encodeSlash)
    ensures s == t
  {
    DecodeEncode(s, encodeSlash);
    DecodeEncode(t, encodeSlash);
  }

  /** Letters, digits, `-`, `.`, `_` and `~` pass unchanged, and `/` where it is not to be encoded; every other
      octet becomes a percent sign and its two upper-case hexadecimal digits. */
  lemma {:induction false} OctetIs(c: Octet, encodeSlash: bool)
    ensures UriEncode([c], encodeSlash) ==
      if 'A' <= c <= 'Z' || 'a' <= c <= 'z' || '0' <= c <= '9' || c in "-._~" || (c == '/' && !encodeSlash) then [c]
      else ['%', "0123456789ABCDEF"[c as int / 16], "0123456789ABCDEF"[c as int % 16]]
  {
    assert UriEncode([c], encodeSlash) == EncodeOctet(c, encodeSlash) + UriEncode([], encodeSlash);
  }

  /** And octet by octet. */
  lemma {:induction false} EncodeConcat(s: Octets, t: Octets, encodeSlash: bool)
    ensures UriEncode(s + t, encodeSlash) == UriEncode(s, encodeSlash) + UriEncode(t, encodeSlash)
  {
    if s == [] {
      assert s + t == t;
    } else {
      assert (s + t)[1..] == s[1..] + t;
      EncodeConcat(s[1..], t, encodeSlash);
    }
  }

  /** Only these characters, `%` and an unencoded `/` come out. */
  lemma {:induction false} Alphabet(s: Octets, encodeSlash: bool, c: char)
    requires c in UriEncode(s, encodeSlash)
    ensures 'A' <= c <= 'Z' || 'a' <= c <= 'z' || '0' <= c <= '9' || c in "-._~%" || (c == '/' && !encodeSlash)
  {
    hide EncodeOctet;
    if c in EncodeOctet(s[0], encodeSlash) {
      OctetAlphabet(s[0], encodeSlash, c);
    } else {
      Alphabet(s[1..], encodeSlash, c);
    }
  }

  lemma {:induction false} OctetAlphabet(o: Octet, encodeSlash: bool, c: char)
    requires c in EncodeOctet(o, encodeSlash)
    ensures 'A' <= c <= 'Z' || 'a' <= c <= 'z' || '0' <= c <= '9' || c in "-._~%" || (c == '/' && !encodeSlash)
  {
  }

  // ----- the object path -----

  function EncodeAll(parts: seq<Octets>): seq<string> {
    if parts == [] then [] else [UriEncode(parts[0], true)] + EncodeAll(parts[1..])
  }

  function SplitOctets(s: Octets): (parts: seq<Octets>)
    ensures parts == Split(s, '/')
  {
    if s == [] then [""]
    else
      var rest := SplitOctets(s[1..]);
      if s[0] == '/' then [""] + rest else [[s[0]] + rest[0]] + rest[1..]
  }

  lemma {:induction false} EncodeAllCons(first: Octets, rest: seq<Octets>)
    ensures EncodeAll([first] + rest) == [UriEncode(first, true)] + EncodeAll(rest)
  {
    assert ([first] + rest)[1..] == rest;
  }

  lemma {:induction false} OctetSlash(c: Octet)
    ensures if c == '/' then EncodeOctet(c, false) == "/" else '/' !in EncodeOctet(c, false)
  {
    HexDigits(c);
  }

  /** An object key keeps its path: the encoded path splits into the encoded segments. */
  lemma {:induction false} PathKeepsSegments(key: Octets)
    ensures Split(UriEncode(key, false), '/') == EncodeAll(SplitOctets(key))
  {
    hide EncodeOctet;
    if key != [] {
      PathKeepsSegments(key[1..]);
      var rest, tail := SplitOctets(key[1..]), UriEncode(key[1..], false);
      var x := EncodeOctet(key[0], false);
      OctetSlash(key[0]);
      if key[0] == '/' {
        EncodeAllCons("", rest);
        assert (x + tail)[1..] == tail;
      } else {
        SplitPrefix(x, tail, '/');
        EncodeSegment(key[0], rest);
      }
    }
  }

  /** The first segment grows by one encoded octet. */
  lemma {:induction false} EncodeSegment(c: Octet, parts: seq<Octets>)
    requires c != '/' && parts != []
    ensures EncodeAll([[c] + parts[0]] + parts[1..])
         == [EncodeOctet(c, false) + EncodeAll(parts)[0]] + EncodeAll(parts)[1..]
  {
    EncodeAllCons([c] + parts[0], parts[1..]);
    assert ([c] + parts[0])[1..] == parts[0];
  }

  // ----- the canonical query -----

  datatype Param = Param(key: Octets, value: Octets)

  function EncodeParam(p: Param): string {
    UriEncode(p.key, true) + "=" + UriEncode(p.value, true)
  }

  function EncodeParams(ps: seq<Param>): (r: seq<string>)
    ensures |r| == |ps|
  {
    seq(|ps|, i requires 0 <= i < |ps| => EncodeParam(ps[i]))
  }

  function CanonicalQuery(ps: seq<Param>): string
    requires ps != []
  {
    Join(EncodeParams(ps), '&')
  }

  /** `key=value` pairs, each half encoded, joined by `&`. */
  lemma {:induction false} QueryIs(p: Param, rest: seq<Param>)
    ensures CanonicalQuery([p] + rest) ==
      UriEncode(p.key, true) + "=" + UriEncode(p.value, true) + (if rest == [] then "" else "&" + CanonicalQuery(rest))
  {
    assert EncodeParams([p] + rest)[1..] == EncodeParams(rest);
  }

  /** The reading side: split on `&`, each part on `=`, then percent-decode both halves. */
  function ParseParam(s: string): Option<Param> {
    var halves := Split(s, '=');
    if |halves| != 2 then None
    else match (PercentDecode(halves[0]), PercentDecode(halves[1]))
      case (Some(k), Some(v)) => Some(Param(k, v))
      case _ => None
  }

  function ParseParams(parts: seq<string>): Option<seq<Param>> {
    if parts == [] then Some([])
    else match (ParseParam(parts[0]), ParseParams(parts[1..]))
      case (Some(p), Some(rest)) => Some([p] + rest)
      case _ => None
  }

  function ParseQuery(q: string): Option<seq<Param>> {
    ParseParams(Split(q, '&'))
  }

  lemma {:induction false} NoSeparators(s: Octets)
    ensures '&' !in UriEncode(s, true) && '=' !in UriEncode(s, true) && '/' !in UriEncode(s, true)
  {
    if '&' in UriEncode(s, true) {
      Alphabet(s, true, '&');
    }
    if '=' in UriEncode(s, true) {
      Alphabet(s, true, '=');
    }
    if '/' in UriEncode(s, true) {
      Alphabet(s, true, '/');
    }
  }

  lemma {:induction false} ParseEncodedParam(p: Param)
    ensures ParseParam(EncodeParam(p)) == Some(p) && '&' !in EncodeParam(p)
  {
    var k, v := UriEncode(p.key, true), UriEncode(p.value, true);
    NoSeparators(p.key);
    NoSeparators(p.value);
    SplitFirst(k, v, '=');
    SplitWhole(v, '=');
    DecodeEncode(p.key, true);
    DecodeEncode(p.value, true);
  }

  lemma {:induction false} ParseEncodedParams(ps: seq<Param>)
    ensures ParseParams(EncodeParams(ps)) == Some(ps)
  {
    if ps != [] {
      ParseEncodedParam(ps[0]);
      ParseEncodedParams(ps[1..]);
      assert EncodeParams(ps)[1..] == EncodeParams(ps[1..]);
      assert [ps[0]] + ps[1..] == ps;
    }
  }

  /** Reading a canonical query gives back exactly its parameters, in order. */
  lemma {:induction false} QueryRoundTrip(ps: seq<Param>)
    requires ps != []
    ensures ParseQuery(CanonicalQuery(ps)) == Some(ps)
  {
    forall i | 0 <= i < |ps| ensures '&' !in EncodeParams(ps)[i] {
      ParseEncodedParam(ps[i]);
    }
    SplitJoin(EncodeParams(ps), '&');
    ParseEncodedParams(ps);
  }

  // ----- the sort -----

  /** Byte-wise lexicographic order; a proper prefix is less. */
  predicate Less(a: string, b: string) {
    b != "" && (a == "" || a[0] < b[0] || (a[0] == b[0] && Less(a[1..], b[1..])))
  }

  lemma {:induction false} LessIsAsymmetric(a: string, b: string)
    requires Less(a, b)
    ensures !Less(b, a)
  {
    if a != "" && a[0] == b[0] {
      LessIsAsymmetric(a[1..], b[1..]);
    }
  }

  /** Decided at the first place where the two differ. */
  lemma {:induction false} LessAt(a: string, b: string, k: nat)
    requires k < |a| && k < |b| && a[..k] == b[..k] && a[k] < b[k]
    ensures Less(a, b)
  {
    if k > 0 {
      assert a[0] == a[..k][0] && b[0] == b[..k][0];
      assert a[1..][..k - 1] == a[..k][1..] && b[1..][..k - 1] == b[..k][1..];
      LessAt(a[1..], b[1..], k - 1);
    }
  }

  /** Inserted before the first key that is not less. */
  function Insert(p: Param, ps: seq<Param>): seq<Param> {
    if ps == [] || !Less(ps[0].key, p.key) then [p] + ps else [ps[0]] + Insert(p, ps[1..])
  }

  /** The stable sort by key. */
  function SortByKey(ps: seq<Param>): seq<Param> {
    if ps == [] then [] else Insert(ps[0], SortByKey(ps[1..]))
  }

  ghost predicate Sorted(ps: seq<Param>) {
    forall i :: 0 <= i < |ps| - 1 ==> !Less(ps[i + 1].key, ps[i].key)
  }

  lemma {:induction false} InsertKeepsSorted(p: Param, ps: seq<Param>)
    requires Sorted(ps)
    ensures Sorted(Insert(p, ps)) && multiset(Insert(p, ps)) == multiset{p} + multiset(ps)
    ensures Insert(p, ps)[0] == p || (ps != [] && Insert(p, ps)[0] == ps[0])
  {
    if ps != [] && Less(ps[0].key, p.key) {
      assert ps == [ps[0]] + ps[1..];
      assert Sorted(ps[1..]) by {
        forall i | 0 <= i < |ps[1..]| - 1 ensures !Less(ps[1..][i + 1].key, ps[1..][i].key) {
          assert !Less(ps[(i + 1) + 1].key, ps[i + 1].key);
        }
      }
      InsertKeepsSorted(p, ps[1..]);
      LessIsAsymmetric(ps[0].key, p.key);
      assert |ps| > 1 ==> !Less(ps[0 + 1].key, ps[0].key);
      ConsSorted(ps[0], Insert(p, ps[1..]));
    } else {
      ConsSorted(p, ps);
    }
  }

  lemma {:induction false} ConsSorted(p: Param, ps: seq<Param>)
    requires Sorted(ps) && (ps != [] ==> !Less(ps[0].key, p.key))
    ensures Sorted([p] + ps)
  {
    var qs := [p] + ps;
    forall i | 0 <= i < |qs| - 1 ensures !Less(qs[i + 1].key, qs[i].key) {
      if i > 0 {
        assert !Less(ps[(i - 1) + 1].key, ps[i - 1].key);
      }
    }
  }

  lemma {:induction false} SortSorts(ps: seq<Param>)
    ensures Sorted(SortByKey(ps)) && multiset(SortByKey(ps)) == multiset(ps)
  {
    if ps != [] {
      SortSorts(ps[1..]);
      InsertKeepsSorted(ps[0], SortByKey(ps[1..]));
      assert ps == [ps[0]] + ps[1..];
    }
  }

  /** The parameters of one key, in order. */
  function OfKey(ps: seq<Param>, key: Octets): seq<Param> {
    if ps == [] then []
    else (if ps[0].key == key then [ps[0]] else []) + OfKey(ps[1..], key)
  }

  lemma {:induction false} InsertIsStable(p: Param, ps: seq<Param>, key: Octets)
    ensures OfKey(Insert(p, ps), key) == OfKey([p] + ps, key)
  {
    assert ([p] + ps)[1..] == ps;
    if ps != [] && Less(ps[0].key, p.key) {
      LessIsAsymmetric(ps[0].key, p.key);
      InsertIsStable(p, ps[1..], key);
      assert Insert(p, ps)[1..] == Insert(p, ps[1..]);
      assert ([p] + ps[1..])[1..] == ps[1..];
    }
  }

  /** Parameters of the same key keep their order. */
  lemma {:induction false} SortIsStable(ps: seq<Param>, key: Octets)
    ensures OfKey(SortByKey(ps), key) == OfKey(ps, key)
  {
    if ps != [] {
      InsertIsStable(ps[0], SortByKey(ps[1..]), key);
      SortIsStable(ps[1..], key);
      assert ([ps[0]] + SortByKey(ps[1..]))[1..] == SortByKey(ps[1..]);
    }
  }

  /** Exactly the sorted lists stay as they are. */
  lemma {:induction false} SortKeepsExactly(ps: seq<Param>)
    ensures SortByKey(ps) == ps <==> Sorted(ps)
  {
    if Sorted(ps) {
      SortKeeps(ps);
    } else {
      SortSorts(ps);
    }
  }

  lemma {:induction false} SortKeeps(ps: seq<Param>)
    requires Sorted(ps)
    ensures SortByKey(ps) == ps
  {
    if ps != [] {
      forall i | 0 <= i < |ps[1..]| - 1 ensures !Less(ps[1..][i + 1].key, ps[1..][i].key) {
        assert !Less(ps[(i + 1) + 1].key, ps[i + 1].key);
      }
      SortKeeps(ps[1..]);
      assert |ps| > 1 ==> !Less(ps[0 + 1].key, ps[0].key);
    }
  }

  // ----- the presigned query -----

  /** The six signing parameters as they are listed. */
  function SigningParams(accessKey: Octets, region: Octets, amzDate: Octets, dateStamp: Octets, expires: nat)
    : seq<Param>
  {
    var scope := dateStamp + "/" + region + "/s3/aws4_request";
    [ Param("X-Amz-Algorithm", "AWS4-HMAC-SHA256"),
      Param("X-Amz-Content-Sha256", "UNSIGNED-PAYLOAD"),
      Param("X-Amz-Credential", accessKey + "/" + scope),
      Param("X-Amz-Date", amzDate),
      Param("X-Amz-Expires", DecimalOctets(expires)),
      Param("X-Amz-SignedHeaders", "host") ]
  }

  function DecimalOctets(n: nat): (s: Octets)
    ensures s == PrintNat(n)
  {
    var s: string := PrintNat(n);
    assert forall i :: 0 <= i < |s| ==> IsDigit(s[i]);
    s
  }

  /** The signed query, sorted and encoded, carries exactly these six parameters, for every region, access key,
      date and lifetime. */
  lemma {:induction false} PresignedQuery(accessKey: Octets, region: Octets, amzDate: Octets, dateStamp: Octets,
                                          expires: nat)
    ensures
      var ps := SigningParams(accessKey, region, amzDate, dateStamp, expires);
      SortByKey(ps) == ps && ParseQuery(CanonicalQuery(SortByKey(ps))) == Some(ps)
    ensures SixParams(SigningParams(accessKey, region, amzDate, dateStamp, expires), accessKey, region, amzDate,
                      dateStamp, expires)
  {
    hide ParseQuery, CanonicalQuery, SortByKey;
    SigningParamsAreSix(accessKey, region, amzDate, dateStamp, expires);
    hide SigningParams, SixParams;
    var ps := SigningParams(accessKey, region, amzDate, dateStamp, expires);
    SigningParamsSorted(accessKey, region, amzDate, dateStamp, expires);
    SortKeeps(ps);
    QueryRoundTrip(ps);
  }

  ghost predicate SixParams(ps: seq<Param>, accessKey: Octets, region: Octets, amzDate: Octets, dateStamp: Octets,
                            expires: nat) {
    && |ps| == 6
    && ps[0].key == "X-Amz-Algorithm" && ps[0].value == "AWS4-HMAC-SHA256"
    && ps[1].key == "X-Amz-Content-Sha256" && ps[1].value == "UNSIGNED-PAYLOAD"
    && ps[2].key == "X-Amz-Credential"
    && ps[2].value == accessKey + "/" + dateStamp + "/" + region + "/s3/aws4_request"
    && ps[3].key == "X-Amz-Date" && ps[3].value == amzDate
    && ps[4].key == "X-Amz-Expires" && ps[4].value == PrintNat(expires)
    && ps[5].key == "X-Amz-SignedHeaders" && ps[5].value == "host"
  }

  lemma {:induction false} SigningParamsAreSix(accessKey: Octets, region: Octets, amzDate: Octets, dateStamp: Octets,
                                               expires: nat)
    ensures SixParams(SigningParams(accessKey, region, amzDate, dateStamp, expires), accessKey, region, amzDate,
                      dateStamp, expires)
  {
    assert accessKey + "/" + (dateStamp + "/" + region + "/s3/aws4_request")
        == accessKey + "/" + dateStamp + "/" + region + "/s3/aws4_request";
  }

  /** Their keys are in order already. */
  lemma {:induction false} SigningParamsSorted(accessKey: Octets, region: Octets, amzDate: Octets,
                                               dateStamp: Octets, expires: nat)
    ensures Sorted(SigningParams(accessKey, region, amzDate, dateStamp, expires))
  {
    hide Less, DecimalOctets;
    KeysSorted();
  }

  lemma {:induction false} KeysSorted()
    ensures !Less("X-Amz-Content-Sha256", "X-Amz-Algorithm")
    ensures !Less("X-Amz-Credential", "X-Amz-Content-Sha256")
    ensures !Less("X-Amz-Date", "X-Amz-Credential")
    ensures !Less("X-Amz-Expires", "X-Amz-Date")
    ensures !Less("X-Amz-SignedHeaders", "X-Amz-Expires")
  {
    hide Less;
    var a, b, c := "X-Amz-Algorithm", "X-Amz-Content-Sha256", "X-Amz-Credential";
    var d, e, f := "X-Amz-Date", "X-Amz-Expires", "X-Amz-SignedHeaders";
    assert a[..6] == b[..6] == c[..6] == d[..6] == e[..6] == f[..6] == "X-Amz-";
    assert b[..7] == c[..7];
    NotLessAt(a, b, 6);
    NotLessAt(b, c, 7);
    NotLessAt(c, d, 6);
    NotLessAt(d, e, 6);
    NotLessAt(e, f, 6);
  }

  lemma {:induction false} NotLessAt(a: string, b: string, k: nat)
    requires k < |a| && k < |b| && a[..k] == b[..k] && a[k] < b[k]
    ensures !Less(b, a)
  {
    LessAt(a, b, k);
    LessIsAsymmetric(a, b);
  }
}
