/** The unpadded base32 codec of the staff TOTP secrets (section 6 of RFC 4648), and the
    encrypted blob around them.

    Machine words are natural numbers and the bit operations are defined bit by bit. */
module Base32 {
  import opened Wrappers
  import opened Text

  type byte = n: nat | n < 256

  const ALPHABET: string := "ABCDEFGHIJKLMNOPQRSTUVWXYZ234567"

  function Pow2(k: nat): (p: nat)
    ensures p >= 1
  {
    if k == 0 then 1 else 2 * Pow2(k - 1)
  }

  // ----- machine words -----

  /** `x & (2^k - 1)`: the k low bits. */
  function Low(x: nat, k: nat): (y: nat)
    ensures y < Pow2(k)
  {
    if k == 0 then 0 else 2 * Low(x / 2, k - 1) + x % 2
  }

  /** `x << k` on a `u64`: each doubling sheds the bit that leaves the 64-bit word. */
  function Shl(x: nat, k: nat): nat
    decreases k
  {
    if k == 0 then x else Shl(Low(2 * x, 64), k - 1)
  }

  /** `x >> k`. */
  function Shr(x: nat, k: nat): nat {
    if k == 0 then x else Shr(x / 2, k - 1)
  }

  /** `x | y`. */
  function Or(x: nat, y: nat): nat {
    if x == 0 && y == 0 then 0
    else 2 * Or(x / 2, y / 2) + (if x % 2 == 1 || y % 2 == 1 then 1 else 0)
  }

  // ----- bit strings, most significant bit first: the reference the codec is measured by -----

  type Bits = seq<bool>

  function BitsOf(x: nat, k: nat): (b: Bits)
    ensures |b| == k
  {
    if k == 0 then [] else BitsOf(x / 2, k - 1) + [x % 2 == 1]
  }

  function NumOf(b: Bits): (n: nat)
    ensures n < Pow2(|b|)
  {
    if b == [] then 0
    else 2 * NumOf(b[..|b| - 1]) + (if b[|b| - 1] then 1 else 0)
  }

  function Zeros(n: nat): (b: Bits)
    ensures |b| == n
  {
    seq(n, _ => false)
  }

  ghost predicate Digits(vs: seq<nat>, k: nat) {
    forall i :: 0 <= i < |vs| ==> vs[i] < Pow2(k)
  }

  /** The bits of a sequence of k-bit digits. */
  function Spread(vs: seq<nat>, k: nat): Bits {
    if vs == [] then [] else BitsOf(vs[0], k) + Spread(vs[1..], k)
  }

  /** Cuts a bit string into k-bit digits; an incomplete last digit is dropped. */
  function Gather(b: Bits, k: nat): (vs: seq<nat>)
    requires k > 0
    decreases |b|
    ensures Digits(vs, k)
  {
    if |b| < k then [] else [NumOf(b[..k])] + Gather(b[k..], k)
  }

  lemma {:induction false} BitsSplit(x: nat, j: nat, k: nat)
    ensures BitsOf(x, j + k) == BitsOf(Shr(x, k), j) + BitsOf(x, k)
  {
    if k > 0 {
      BitsSplit(x / 2, j, k - 1);
    }
  }

  lemma {:induction false} BitsLow(x: nat, m: nat, k: nat)
    requires k <= m
    ensures BitsOf(Low(x, m), k) == BitsOf(x, k)
  {
    if k > 0 {
      BitsLow(x / 2, m - 1, k - 1);
    }
  }

  lemma {:induction false} BitsNum(b: Bits)
    ensures BitsOf(NumOf(b), |b|) == b
  {
    if b != [] {
      BitsNum(b[..|b| - 1]);
    }
  }

  lemma {:induction false} NumBits(x: nat, k: nat)
    requires x < Pow2(k)
    ensures NumOf(BitsOf(x, k)) == x
  {
    if k > 0 {
      NumBits(x / 2, k - 1);
      assert BitsOf(x, k)[..k - 1] == BitsOf(x / 2, k - 1);
    }
  }

  lemma {:induction false} OrZero(x: nat)
    ensures Or(x, 0) == x
  {
    if x > 0 {
      OrZero(x / 2);
    }
  }

  /** Bits that end in zeros take a smaller number into those zeros. */
  lemma {:induction false} OrBits(x: nat, y: nat, b: Bits, k: nat)
    requires y < Pow2(k) && BitsOf(x, |b| + k) == b + Zeros(k)
    ensures BitsOf(Or(x, y), |b| + k) == b + BitsOf(y, k)
  {
    if k == 0 {
      OrZero(x);
    } else {
      var n := |b| + k;
      assert BitsOf(x, n)[n - 1] == Zeros(k)[k - 1];
      assert BitsOf(x / 2, n - 1) == BitsOf(x, n)[..n - 1] == b + Zeros(k - 1);
      OrBits(x / 2, y / 2, b, k - 1);
      assert Or(x, y) == 2 * Or(x / 2, y / 2) + y % 2;
      assert b + BitsOf(y, k) == b + BitsOf(y / 2, k - 1) + [y % 2 == 1];
    }
  }

  lemma {:induction false} DoubleBits(x: nat, n: nat, w: nat)
    requires n < w
    ensures BitsOf(Low(2 * x, w), n + 1) == BitsOf(x, n) + [false]
  {
    assert Low(2 * x, w) == 2 * Low(x, w - 1);
    BitsLow(x, w - 1, n);
  }

  /** A left shift appends zeros to the bits that stay in the word. */
  lemma {:induction false} ShlBits(x: nat, n: nat, k: nat)
    requires n + k <= 64
    ensures BitsOf(Shl(x, k), n + k) == BitsOf(x, n) + Zeros(k)
    decreases k
  {
    if k > 0 {
      ShlBits(Low(2 * x, 64), n + 1, k - 1);
      DoubleBits(x, n, 64);
      assert [false] + Zeros(k - 1) == Zeros(k);
    }
  }

  lemma {:induction false} SpreadLength(vs: seq<nat>, k: nat)
    ensures |Spread(vs, k)| == k * |vs|
  {
    if vs != [] {
      SpreadLength(vs[1..], k);
    }
  }

  lemma {:induction false} SpreadAppend(vs: seq<nat>, v: nat, k: nat)
    ensures Spread(vs + [v], k) == Spread(vs, k) + BitsOf(v, k)
  {
    if vs != [] {
      SpreadAppend(vs[1..], v, k);
      assert (vs + [v])[1..] == vs[1..] + [v];
    }
  }

  lemma {:induction false} GatherSpread(vs: seq<nat>, tail: Bits, k: nat)
    requires k > 0 && Digits(vs, k) && |tail| < k
    ensures Gather(Spread(vs, k) + tail, k) == vs
  {
    var b := Spread(vs, k) + tail;
    if vs == [] {
      assert b == tail;
    } else {
      var first, rest := BitsOf(vs[0], k), Spread(vs[1..], k) + tail;
      assert b == first + rest;
      assert b[..k] == first && b[k..] == rest;
      NumBits(vs[0], k);
      GatherSpread(vs[1..], tail, k);
      assert vs == [vs[0]] + vs[1..];
    }
  }

  /** Gathering loses only the incomplete last digit. */
  lemma {:induction false} SpreadGather(b: Bits, k: nat)
    requires k > 0
    ensures Spread(Gather(b, k), k) <= b
    ensures |b| < |Spread(Gather(b, k), k)| + k
    decreases |b|
  {
    if |b| >= k {
      SpreadGather(b[k..], k);
      BitsNum(b[..k]);
      var rest := Gather(b[k..], k);
      assert Gather(b, k) == [NumOf(b[..k])] + rest;
      assert Spread(Gather(b, k), k) == b[..k] + Spread(rest, k);
      assert b == b[..k] + b[k..];
    }
  }

  // ----- the codec, specified on bit strings -----

  function ValueOf(c: char): Option<nat> {
    if 'A' <= c <= 'Z' then Some(c as nat - 'A' as nat)
    else if '2' <= c <= '7' then Some(c as nat - '2' as nat + 26)
    else None
  }

  predicate Valid(s: string) {
    forall i :: 0 <= i < |s| ==> ValueOf(s[i]).Some?
  }

  function Values(s: string): (vs: seq<nat>)
    requires Valid(s)
    ensures |vs| == |s|
  {
    seq(|s|, i requires 0 <= i < |s| => ValueOf(s[i]).value)
  }

  function Letters(vs: seq<nat>): (s: string)
    requires Digits(vs, 5)
    ensures |s| == |vs|
  {
    assert Pow2(5) == 32;
    seq(|vs|, i requires 0 <= i < |vs| => ALPHABET[vs[i]])
  }

  function Padding(n: nat): (p: nat)
    ensures p < 5 && (n + p) % 5 == 0
  {
    if n % 5 == 0 then 0 else 5 - n % 5
  }

  /** Section 6 of RFC 4648 without `=`: the bits of the input, zero-extended to whole quintets. */
  function Encode(raw: seq<byte>): string {
    var b := Spread(raw, 8);
    Letters(Gather(b + Zeros(Padding(|b|)), 5))
  }

  /** The whole octets among the bits of the letters. */
  function Decode(s: string): seq<byte>
    requires Valid(s)
  {
    var d := Gather(Spread(Values(s), 5), 8);
    assert Pow2(8) == 256;
    assert forall i :: 0 <= i < |d| ==> d[i] < 256;
    d
  }

  lemma {:induction false} LetterValue(v: nat)
    requires v < 32
    ensures ValueOf(ALPHABET[v]) == Some(v)
  {
  }

  lemma {:induction false} ValuesLetters(vs: seq<nat>)
    requires Digits(vs, 5)
    ensures Valid(Letters(vs)) && Values(Letters(vs)) == vs
  {
    assert Pow2(5) == 32;
    forall i | 0 <= i < |vs| ensures ValueOf(Letters(vs)[i]) == Some(vs[i]) {
      LetterValue(vs[i]);
    }
  }

  lemma {:induction false} LettersValues(s: string)
    requires Valid(s)
    ensures Digits(Values(s), 5) && Letters(Values(s)) == s
  {
    assert Pow2(5) == 32;
    forall i | 0 <= i < |s| ensures Values(s)[i] < 32 && ALPHABET[Values(s)[i]] == s[i] {
      LetterOf(s[i]);
    }
  }

  lemma {:induction false} LetterOf(c: char)
    requires ValueOf(c).Some?
    ensures ValueOf(c).value < 32 && ALPHABET[ValueOf(c).value] == c
  {
    var v := ValueOf(c).value;
    if v < 26 {
      assert ALPHABET[v] as nat == 'A' as nat + v;
    } else {
      assert ALPHABET[v] as nat == '2' as nat + v - 26;
    }
  }

  lemma {:induction false} BytesAreDigits(raw: seq<byte>)
    ensures Digits(raw, 8)
  {
    assert Pow2(8) == 256;
  }

  lemma {:induction false} PaddingUnique(n: nat, m: nat, pad: nat)
    requires 5 * m == n + pad && pad < 5
    ensures pad == Padding(n)
  {
  }

  lemma {:induction false} Quintets(n: nat)
    ensures n + Padding(n) == 5 * ((n + 4) / 5)
  {
  }

  lemma {:induction false} GatherWhole(b: Bits, m: nat)
    requires |b| == 5 * m
    ensures Spread(Gather(b, 5), 5) == b && |Gather(b, 5)| == m
  {
    var vs := Gather(b, 5);
    SpreadGather(b, 5);
    SpreadLength(vs, 5);
    assert |Spread(vs, 5)| == |b|;
    assert b[..|b|] == b;
  }

  /** What the letters of an encoding say: the bits of the input, then zeros to the next quintet. */
  lemma {:induction false} EncodedBits(raw: seq<byte>)
    ensures Valid(Encode(raw))
    ensures Spread(Values(Encode(raw)), 5) == Spread(raw, 8) + Zeros(Padding(8 * |raw|))
    ensures |Encode(raw)| == (8 * |raw| + 4) / 5
  {
    var b := Spread(raw, 8);
    SpreadLength(raw, 8);
    var padded := b + Zeros(Padding(|b|));
    Quintets(|b|);
    GatherWhole(padded, (|b| + 4) / 5);
    ValuesLetters(Gather(padded, 5));
  }

  /** The 2FA hand-off: decoding undoes encoding on every byte string. */
  lemma {:induction false} DecodeEncode(raw: seq<byte>)
    ensures Valid(Encode(raw)) && Decode(Encode(raw)) == raw
  {
    EncodedBits(raw);
    BytesAreDigits(raw);
    GatherSpread(raw, Zeros(Padding(8 * |raw|)), 8);
  }

  /** Decoding keeps exactly the first floor(5n/8) octets of the letters' bits. */
  lemma {:induction false} DecodedBits(s: string)
    requires Valid(s)
    ensures |Decode(s)| == 5 * |s| / 8
    ensures |Spread(Values(s), 5)| == 5 * |s|
    ensures Spread(Decode(s), 8) == Spread(Values(s), 5)[..8 * |Decode(s)|]
  {
    var b := Spread(Values(s), 5);
    SpreadLength(Values(s), 5);
    SpreadGather(b, 8);
    SpreadLength(Gather(b, 8), 8);
  }

  /** The bits of the last letter that decoding drops. */
  function Unused(s: string): Bits
    requires Valid(s)
  {
    var b := Spread(Values(s), 5);
    SpreadLength(Values(s), 5);
    b[8 * (5 * |s| / 8)..]
  }

  /** Canonical encodings (section 3.5 of RFC 4648): a length an encoder produces, unused bits zero. */
  ghost predicate Canonical(s: string)
    requires Valid(s)
  {
    |s| % 8 in {0, 2, 4, 5, 7} && Unused(s) == Zeros(|Unused(s)|)
  }

  lemma {:induction false} SameLetters(s: string, t: string)
    requires Valid(s) && Valid(t) && Spread(Values(s), 5) == Spread(Values(t), 5)
    ensures s == t
  {
    LettersValues(s);
    LettersValues(t);
    GatherSpread(Values(s), [], 5);
    GatherSpread(Values(t), [], 5);
    assert Spread(Values(s), 5) + [] == Spread(Values(s), 5);
  }

  lemma {:induction false} CanonicalLength(n: nat)
    ensures 5 * n - 8 * (5 * n / 8) == Padding(8 * (5 * n / 8)) <==> n % 8 in {0, 2, 4, 5, 7}
  {
    var q, r := n / 8, n % 8;
    var m := if r <= 1 then 0 else if r <= 3 then 1 else if r == 4 then 2 else if r <= 6 then 3 else 4;
    OctetsOf(q, r, m);
    PaddingOf(q, m);
  }

  lemma {:induction false} OctetsOf(q: nat, r: nat, m: nat)
    requires 0 <= 5 * r - 8 * m < 8
    ensures 5 * (8 * q + r) / 8 == 5 * q + m
  {
  }

  lemma {:induction false} PaddingOf(q: nat, m: nat)
    ensures Padding(8 * (5 * q + m)) == Padding(8 * m)
  {
    hide Padding;
    var x, y := 8 * (5 * q + m), 8 * m;
    var s, t := (x + Padding(x)) / 5, (y + Padding(y)) / 5;
    assert x + Padding(x) == 5 * s && y + Padding(y) == 5 * t;
    assert Padding(x) - Padding(y) == 5 * (s - t - 8 * q);
  }

  /** Encoding gives a string back exactly when that string is canonical. */
  lemma {:induction false} EncodeDecode(s: string)
    requires Valid(s)
    ensures Encode(Decode(s)) == s <==> Canonical(s)
  {
    var b := Spread(Values(s), 5);
    DecodedBits(s);
    CanonicalLength(|s|);
    var kept, pad := b[..8 * |Decode(s)|], Padding(8 * |Decode(s)|);
    assert b == kept + Unused(s);
    EncodedBits(Decode(s));
    SamePrefix(kept, Unused(s), Zeros(pad));
    if Unused(s) == Zeros(pad) {
      SameLetters(s, Encode(Decode(s)));
    }
  }

  lemma {:induction false} SamePrefix(a: Bits, b: Bits, c: Bits)
    ensures a + b == a + c <==> b == c
  {
    if a + b == a + c {
      assert b == (a + b)[|a|..];
    }
  }

  /** The alphabet of section 6 of RFC 4648. */
  lemma {:induction false} Section6Alphabet(v: nat, c: char)
    ensures v < 32 && "ABCDEFGHIJKLMNOPQRSTUVWXYZ234567"[v] == c <==> ValueOf(c) == Some(v)
    ensures v < 32 ==> ALPHABET[v] == "ABCDEFGHIJKLMNOPQRSTUVWXYZ234567"[v]
  {
    if v < 32 {
      LetterValue(v);
    }
    if ValueOf(c) == Some(v) {
      LetterOf(c);
    }
  }

  // ----- the loops -----

  /** Shifting a digit in appends its bits: the kept bits never reach the top of the word. */
  lemma {:induction false} ShiftIn(buffer: nat, bits: nat, v: nat, k: nat)
    requires bits + k <= 64 && v < Pow2(k)
    ensures BitsOf(Or(Shl(buffer, k), v), bits + k) == BitsOf(buffer, bits) + BitsOf(v, k)
  {
    ShlBits(buffer, bits, k);
    OrBits(Shl(buffer, k), v, BitsOf(buffer, bits), k);
  }

  lemma {:induction false} WordSize()
    ensures Pow2(5) == 32 && Pow2(8) == 256
  {
  }

  lemma {:induction false} PrefixAppend<T>(s: seq<T>, n: nat)
    requires n < |s|
    ensures s[..n + 1] == s[..n] + [s[n]]
  {
  }

  /** One digit is read: its bits join the kept ones. */
  lemma {:induction false} Absorb(emitted: Bits, buffer: nat, bits: nat, read: seq<nat>, v: nat, k: nat)
    requires bits + k <= 64 && v < Pow2(k)
    requires emitted + BitsOf(buffer, bits) == Spread(read, k)
    ensures emitted + BitsOf(Or(Shl(buffer, k), v), bits + k) == Spread(read + [v], k)
  {
    ShiftIn(buffer, bits, v, k);
    SpreadAppend(read, v, k);
  }

  lemma {:induction false} LettersAppend(vs: seq<nat>, v: nat)
    requires Digits(vs, 5) && v < 32
    ensures Digits(vs + [v], 5) && Letters(vs + [v]) == Letters(vs) + [ALPHABET[v]]
  {
    WordSize();
  }

  /** One digit leaves the buffer: its bits move from the kept ones to the emitted ones. */
  lemma {:induction false} Emit(vs: seq<nat>, v: nat, buffer: nat, rest: nat, k: nat)
    requires v == Low(Shr(buffer, rest), k)
    ensures Spread(vs + [v], k) + BitsOf(buffer, rest) == Spread(vs, k) + BitsOf(buffer, rest + k)
  {
    BitsSplit(buffer, k, rest);
    BitsLow(Shr(buffer, rest), k, k);
    SpreadAppend(vs, v, k);
  }

  /** The last, incomplete quintet is filled with zeros. */
  lemma {:induction false} EmitLast(vs: seq<nat>, buffer: nat, bits: nat)
    requires bits < 5
    ensures Spread(vs + [Low(Shl(buffer, 5 - bits), 5)], 5) == Spread(vs, 5) + BitsOf(buffer, bits) + Zeros(5 - bits)
  {
    var v := Low(Shl(buffer, 5 - bits), 5);
    ShlBits(buffer, bits, 5 - bits);
    BitsLow(Shl(buffer, 5 - bits), 5, 5);
    SpreadAppend(vs, v, 5);
  }

  /** The letters whose bits are the input's with minimal zero padding are the encoding. */
  lemma {:induction false} EncodeIs(raw: seq<byte>, vs: seq<nat>, pad: nat)
    requires Digits(vs, 5) && pad < 5
    requires Spread(vs, 5) == Spread(raw, 8) + Zeros(pad)
    ensures Letters(vs) == Encode(raw)
  {
    SpreadLength(vs, 5);
    SpreadLength(raw, 8);
    PaddingUnique(8 * |raw|, |vs|, pad);
    assert Spread(vs, 5) + [] == Spread(vs, 5);
    GatherSpread(vs, [], 5);
  }

  /** Encodes raw bytes as base32 without padding. */
  method RawToB32(raw: seq<byte>) returns (out: string)
    ensures out == Encode(raw)
  {
    ghost var vs: seq<nat> := [];
    out := "";
    if |raw| == 0 {
      EncodeIs(raw, vs, 0);
      return;
    }
    var buffer: nat, bits: nat := 0, 0;
    for n := 0 to |raw|
      invariant bits < 5
      invariant Digits(vs, 5) && out == Letters(vs)
      invariant Spread(vs, 5) + BitsOf(buffer, bits) == Spread(raw[..n], 8)
    {
      WordSize();
      Absorb(Spread(vs, 5), buffer, bits, raw[..n], raw[n], 8);
      PrefixAppend(raw, n);
      buffer := Or(Shl(buffer, 8), raw[n]);
      bits := bits + 8;
      while bits >= 5
        invariant bits <= 12
        invariant Digits(vs, 5) && out == Letters(vs)
        invariant Spread(vs, 5) + BitsOf(buffer, bits) == Spread(raw[..n + 1], 8)
      {
        bits := bits - 5;
        var idx := Low(Shr(buffer, bits), 5);
        WordSize();
        Emit(vs, idx, buffer, bits, 5);
        LettersAppend(vs, idx);
        out := out + [ALPHABET[idx]];
        vs := vs + [idx];
      }
    }
    assert raw[..|raw|] == raw;
    if bits > 0 {
      var idx := Low(Shl(buffer, 5 - bits), 5);
      WordSize();
      EmitLast(vs, buffer, bits);
      LettersAppend(vs, idx);
      out := out + [ALPHABET[idx]];
      vs := vs + [idx];
      EncodeIs(raw, vs, 5 - bits);
    } else {
      EncodeIs(raw, vs, 0);
    }
  }

  datatype TotpError = EmptySecret | InvalidChar(c: char) | TotpDecrypt

  function FirstInvalid(s: string): (i: nat)
    requires !Valid(s)
    ensures i < |s| && ValueOf(s[i]).None? && Valid(s[..i])
  {
    if ValueOf(s[0]).None? then 0
    else
      assert !Valid(s[1..]) by {
        var j :| 0 <= j < |s| && ValueOf(s[j]).None?;
        assert s[1..][j - 1] == s[j];
      }
      var i := 1 + FirstInvalid(s[1..]);
      assert forall j :: 1 <= j < i ==> s[..i][j] == s[1..][..i - 1][j - 1];
      i
  }

  function DecodeSecret(s: string): Result<seq<byte>, TotpError> {
    if s == [] then Err(EmptySecret)
    else if !Valid(s) then Err(InvalidChar(s[FirstInvalid(s)]))
    else Ok(Decode(s))
  }

  const INVALID: byte := 0xff

  /** The lookup table's entry for a byte once the first `known` letters are in it. */
  function Entry(c: int, known: nat): byte
    requires 0 <= c < 256
  {
    match ValueOf(c as char)
    case Some(v) => if v < known && v < 32 then v else INVALID
    case None => INVALID
  }

  method BuildLookup() returns (lookup: array<byte>)
    ensures fresh(lookup) && lookup.Length == 256
    ensures forall k :: 0 <= k < 256 ==> lookup[k] == Entry(k, 32)
  {
    lookup := new byte[256](_ => INVALID);
    for i := 0 to |ALPHABET|
      invariant forall k :: 0 <= k < 256 ==> lookup[k] == Entry(k, i)
    {
      LetterValue(i);
      lookup[ALPHABET[i] as int] := i;
      forall k | 0 <= k < 256 ensures lookup[k] == Entry(k, i + 1) {
        if ValueOf(k as char) == Some(i) {
          LetterOf(k as char);
        }
      }
    }
  }

  lemma {:induction false} LookedUp(s: seq<Octet>, n: nat)
    requires n < |s|
    ensures Entry(s[n] as int, 32) == INVALID <==> ValueOf(s[n]).None?
    ensures Valid(s) ==> Entry(s[n] as int, 32) == Values(s)[n] < 32
  {
    assert s[n] as int as char == s[n];
    if ValueOf(s[n]).Some? {
      LetterOf(s[n]);
    }
  }

  /** The octets whose bits are the letters' but for an incomplete last octet are the decoding. */
  lemma {:induction false} DecodeIs(s: string, out: seq<byte>, rest: Bits)
    requires Valid(s) && |rest| < 8
    requires Spread(out, 8) + rest == Spread(Values(s), 5)
    ensures out == Decode(s)
  {
    BytesAreDigits(out);
    GatherSpread(out, rest, 8);
  }

  predicate IsLetter(c: char) { 'A' <= c <= 'Z' || '2' <= c <= '7' }

  lemma {:induction false} LettersDecide(s: string)
    ensures
      var r := DecodeSecret(s);
      && (r == Err(EmptySecret) <==> s == "")
      && (r.Ok? <==> s != "" && forall i :: 0 <= i < |s| ==> IsLetter(s[i]))
      && (r.Ok? ==> |r.value| == 5 * |s| / 8)
      && (r.Err? && s != "" ==> exists i ::
            && 0 <= i < |s| && r == Err(InvalidChar(s[i]))
            && !IsLetter(s[i]) && forall j :: 0 <= j < i ==> IsLetter(s[j]))
  {
    hide Decode;
    if Valid(s) {
      DecodedBits(s);
    } else {
      var i := FirstInvalid(s);
      assert forall j :: 0 <= j < i ==> s[j] == s[..i][j];
    }
  }

  lemma {:induction false} NothingRead(s: string)
    requires Valid(s)
    ensures Spread([], 8) + BitsOf(0, 0) == Spread(Values(s)[..0], 5)
  {
  }

  lemma {:induction false} ReadLetter(emitted: Bits, buffer: nat, bits: nat, s: string, n: nat)
    requires Valid(s) && n < |s| && bits < 8 && Values(s)[n] < 32
    requires emitted + BitsOf(buffer, bits) == Spread(Values(s)[..n], 5)
    ensures emitted + BitsOf(Or(Shl(buffer, 5), Values(s)[n]), bits + 5) == Spread(Values(s)[..n + 1], 5)
  {
    WordSize();
    Absorb(emitted, buffer, bits, Values(s)[..n], Values(s)[n], 5);
    PrefixAppend(Values(s), n);
  }

  lemma {:induction false} TakeOctet(out: seq<nat>, buffer: nat, rest: nat)
    ensures Low(Shr(buffer, rest), 8) < 256
    ensures Spread(out + [Low(Shr(buffer, rest), 8)], 8) + BitsOf(Low(buffer, rest), rest)
         == Spread(out, 8) + BitsOf(buffer, rest + 8)
  {
    WordSize();
    Emit(out, Low(Shr(buffer, rest), 8), buffer, rest, 8);
    BitsLow(buffer, rest, rest);
  }

  /** Decodes base32 without padding. The length is not checked, unlike what the source's comment says. */
  method DecodeBase32(s: seq<Octet>) returns (r: Result<seq<byte>, TotpError>)
    ensures r == DecodeSecret(s)
    ensures r == Err(EmptySecret) <==> s == ""
    ensures r.Ok? <==> s != "" && forall i :: 0 <= i < |s| ==> IsLetter(s[i])
    ensures r.Ok? ==> |r.value| == 5 * |s| / 8
    ensures r.Err? && s != "" ==> exists i ::
              && 0 <= i < |s| && r == Err(InvalidChar(s[i]))
              && !IsLetter(s[i]) && forall j :: 0 <= j < i ==> IsLetter(s[j])
  {
    LettersDecide(s);
    hide Spread, BitsOf, Low, Or, Shl, Shr, Decode, FirstInvalid, ValueOf;
    var lookup := BuildLookup();
    if |s| == 0 {
      return Err(EmptySecret);
    }
    for i := 0 to |s|
      invariant forall k :: 0 <= k < 256 ==> lookup[k] == Entry(k, 32)
      invariant Valid(s[..i])
    {
      LookedUp(s, i);
      if lookup[s[i] as int] == INVALID {
        FirstInvalidIs(s, i);
        return Err(InvalidChar(s[i]));
      }
    }
    assert s[..|s|] == s;
    var out: seq<byte> := [];
    var buffer: nat, bits: nat := 0, 0;
    NothingRead(s);
    for n := 0 to |s|
      invariant forall k :: 0 <= k < 256 ==> lookup[k] == Entry(k, 32)
      invariant bits < 8
      invariant Spread(out, 8) + BitsOf(buffer, bits) == Spread(Values(s)[..n], 5)
    {
      LookedUp(s, n);
      var v := lookup[s[n] as int];
      ReadLetter(Spread(out, 8), buffer, bits, s, n);
      buffer := Or(Shl(buffer, 5), v);
      bits := bits + 5;
      if bits >= 8 {
        bits := bits - 8;
        TakeOctet(out, buffer, bits);
        var octet: byte := Low(Shr(buffer, bits), 8);
        out := out + [octet];
        buffer := Low(buffer, bits);
      }
    }
    assert Values(s)[..|s|] == Values(s);
    DecodeIs(s, out, BitsOf(buffer, bits));
    return Ok(out);
  }

  lemma {:induction false} FirstInvalidIs(s: string, i: nat)
    requires i < |s| && Valid(s[..i]) && ValueOf(s[i]).None?
    ensures !Valid(s) && FirstInvalid(s) == i
  {
    var j := FirstInvalid(s);
  }

  /** Only a length that some encoding has is accepted. */
  ghost predicate RefusesOtherLengths(s: string) {
    DecodeSecret(s).Ok? ==> exists raw: seq<byte> :: |Encode(raw)| == |s|
  }

  lemma {:induction false} EncodedLength(n: nat)
    ensures (8 * n + 4) / 5 % 8 in {0, 2, 4, 5, 7}
  {
    var q, r := n / 5, n % 5;
    assert (8 * n + 4) / 5 == 8 * q + (8 * r + 4) / 5;
  }

  lemma {:induction false} LengthOfDecoded(n: nat)
    requires n % 8 in {0, 2, 4, 5, 7}
    ensures (8 * (5 * n / 8) + 4) / 5 == n
  {
    var q, r := n / 8, n % 8;
    assert 5 * n / 8 == 5 * q + 5 * r / 8;
  }

  /** Every non-empty string of letters is accepted, so other lengths are refused on exactly the strings with
      a wrong letter or a right length. */
  lemma {:induction false} LengthIsNotChecked(s: string)
    ensures Valid(s) && s != "" ==> DecodeSecret(s) == Ok(Decode(s))
    ensures RefusesOtherLengths(s) <==> !Valid(s) || |s| % 8 in {0, 2, 4, 5, 7}
  {
    hide Encode, Decode;
    if Valid(s) && s != "" {
      if |s| % 8 in {0, 2, 4, 5, 7} {
        DecodedBits(s);
        LengthOfDecoded(|s|);
        EncodedBits(Decode(s));
        assert |Encode(Decode(s))| == |s|;
      } else if raw: seq<byte> :| |Encode(raw)| == |s| {
        EncodedBits(raw);
        EncodedLength(|raw|);
      }
    }
  }

  // ----- the encrypted blob: nonce, ciphertext, tag -----

  const NONCE_BYTES := 12
  const TAG_BYTES := 16

  datatype Aead = Aead(
    seal: (seq<byte>, seq<byte>, seq<byte>) -> seq<byte>,
    open: (seq<byte>, seq<byte>, seq<byte>) -> Option<seq<byte>>)
  {
    /** Opening accepts exactly what sealing under the same key and nonce produced. */
    ghost predicate Lawful() {
      && (forall key, nonce, msg :: |seal(key, nonce, msg)| == |msg| + TAG_BYTES)
      && (forall key, nonce, msg, box :: open(key, nonce, box) == Some(msg) <==> box == seal(key, nonce, msg))
    }
  }

  function ZeroTag(): (tag: seq<byte>)
    ensures |tag| == TAG_BYTES
  {
    seq(TAG_BYTES, _ => 0)
  }

  /** The laws can be met, by a cipher that hides nothing and tags with zeros. */
  lemma {:induction false} SomeAeadIsLawful()
    ensures exists aead: Aead :: aead.Lawful()
  {
    var open := (key: seq<byte>, nonce: seq<byte>, box: seq<byte>) =>
      if |box| >= TAG_BYTES && box[|box| - TAG_BYTES..] == ZeroTag() then Some(box[..|box| - TAG_BYTES]) else None;
    var aead := Aead((key, nonce, msg) => msg + ZeroTag(), open);
    forall key, nonce, msg, box
      ensures aead.open(key, nonce, box) == Some(msg) <==> box == aead.seal(key, nonce, msg)
    {
      if |box| >= TAG_BYTES {
        assert box == box[..|box| - TAG_BYTES] + box[|box| - TAG_BYTES..];
      }
      var sealed := msg + ZeroTag();
      assert sealed[..|sealed| - TAG_BYTES] == msg && sealed[|sealed| - TAG_BYTES..] == ZeroTag();
    }
    assert aead.Lawful();
  }

  function EncryptSecret(aead: Aead, kek: seq<byte>, nonce: seq<byte>, plaintext: seq<byte>): seq<byte> {
    nonce + aead.seal(kek, nonce, plaintext)
  }

  function DecryptSecret(aead: Aead, kek: seq<byte>, blob: seq<byte>): Result<seq<byte>, TotpError> {
    if |blob| < NONCE_BYTES + TAG_BYTES then Err(TotpDecrypt)
    else match aead.open(kek, blob[..NONCE_BYTES], blob[NONCE_BYTES..])
      case Some(msg) => Ok(msg)
      case None => Err(TotpDecrypt)
  }

  /** The blob: 12 bytes of nonce, and what sealing under the key and that nonce gives, 16 bytes longer than the
      secret. */
  lemma {:induction false} BlobLayout(aead: Aead, kek: seq<byte>, nonce: seq<byte>, plaintext: seq<byte>)
    requires aead.Lawful() && |nonce| == 12
    ensures
      var blob := EncryptSecret(aead, kek, nonce, plaintext);
      && |blob| == 12 + |plaintext| + 16 && blob[..12] == nonce && blob[12..] == aead.seal(kek, nonce, plaintext)
  {
  }

  /** A blob decrypts exactly when it is a nonce and the sealing of the result under the key and that nonce;
      everything else is refused. */
  lemma {:induction false} DecryptsExactlyEncryptions(aead: Aead, kek: seq<byte>, blob: seq<byte>, msg: seq<byte>)
    requires aead.Lawful()
    ensures DecryptSecret(aead, kek, blob) == Ok(msg) <==>
            exists nonce :: |nonce| == 12 && blob == nonce + aead.seal(kek, nonce, msg)
    ensures DecryptSecret(aead, kek, blob).Err? ==> DecryptSecret(aead, kek, blob) == Err(TotpDecrypt)
  {
    if DecryptSecret(aead, kek, blob) == Ok(msg) {
      var nonce := blob[..12];
      assert blob == nonce + aead.seal(kek, nonce, msg);
    }
    if nonce :| |nonce| == 12 && blob == nonce + aead.seal(kek, nonce, msg) {
      var box := aead.seal(kek, nonce, msg);
      assert blob[..12] == nonce && blob[12..] == box;
      assert |box| == |msg| + 16;
      assert aead.open(kek, nonce, box) == Some(msg);
    }
  }

  /** The second factor sees the enrolled secret again, unless the secret is empty. */
  lemma {:induction false} TwoFactorHandOff(aead: Aead, kek: seq<byte>, nonce: seq<byte>, secret: seq<byte>)
    requires aead.Lawful() && |nonce| == 12
    ensures
      var raw := DecryptSecret(aead, kek, EncryptSecret(aead, kek, nonce, secret));
      && raw == Ok(secret)
      && DecodeSecret(Encode(raw.value)) == (if secret == [] then Err(EmptySecret) else Ok(secret))
  {
    DecryptsExactlyEncryptions(aead, kek, EncryptSecret(aead, kek, nonce, secret), secret);
    DecodeEncode(secret);
    EncodedBits(secret);
  }
}
