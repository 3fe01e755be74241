/** The base64url codec of the token check (sections 4 and 5 of RFC 4648, without padding).

A text is the sequence of its bytes. Shifts and masks are on eight-bit values, so bits shifted
out of a byte are lost as they are in the code. */
module Base64Url {
  import opened Wrappers
  import opened ByteStrings

  datatype Error = InvalidLength | InvalidCharacter

  // The bytes of = + / - and _.
  const PAD: Byte := 61
  const PLUS: Byte := 43
  const SLASH: Byte := 47
  const DASH: Byte := 45
  const UNDERSCORE: Byte := 95

  // ----- The alphabet

  /** Entry `v` of the table A to Z, a to z, 0 to 9, + and /. */
  function Symbol(v: Byte): Byte {
    if v < 26 then v + 65
    else if v < 52 then v + 71
    else if v < 62 then v - 4
    else if v == 62 then PLUS
    else SLASH
  }

  /** The position of a byte in that table; padding counts as zero. */
  function CharToVal(c: Byte): Result<Byte, Error> {
    if c == PAD then Ok(0)
    else if 65 <= c <= 90 then Ok(c - 65)
    else if 97 <= c <= 122 then Ok(c - 71)
    else if 48 <= c <= 57 then Ok(c + 4)
    else if c == PLUS then Ok(62)
    else if c == SLASH then Ok(63)
    else Err(InvalidCharacter)
  }

  predicate InAlphabet(c: Byte) {
    c != PAD && CharToVal(c).Ok?
  }

  /** The table has 64 different entries and `CharToVal` finds the position of each. */
  lemma SymbolHasItsValue(v: Byte, c: Byte)
    requires v < 64
    ensures InAlphabet(Symbol(v)) && CharToVal(Symbol(v)) == Ok(v)
    ensures InAlphabet(c) ==> CharToVal(c).value < 64 && Symbol(CharToVal(c).value) == c
    ensures Symbol(v) != DASH && Symbol(v) != UNDERSCORE
  {
  }

  // The table as it is written in the code.
  const CAPITALS: string := "ABCDEFGHIJKLMNOPQRSTUVWXYZ"
  const SMALLS: string := "abcdefghijklmnopqrstuvwxyz"
  const OTHERS: string := "0123456789+/"
  const CHARSET: string := CAPITALS + SMALLS + OTHERS

  lemma CapitalAt(v: int)
    requires 0 <= v < 26
    ensures |CAPITALS| == 26 && CAPITALS[v] as int == v + 65
  {
  }

  lemma SmallAt(v: int)
    requires 0 <= v < 26
    ensures |SMALLS| == 26 && SMALLS[v] as int == v + 97
  {
  }

  lemma OtherAt(v: int)
    requires 0 <= v < 12
    ensures |OTHERS| == 12 && OTHERS[v] as int == if v < 10 then v + 48 else if v == 10 then 43 else 47
  {
  }

  lemma SymbolNumber(v: Byte, n: int)
    requires v < 64 && n == v as int
    ensures Symbol(v) as int ==
            if n < 26 then n + 65 else if n < 52 then n + 71 else if n < 62 then n - 4 else if n == 62 then 43 else 47
  {
  }

  /** `Symbol` is the table: it has 64 characters, and they are in this order. */
  lemma SymbolIsCharset(v: Byte)
    requires v < 64
    ensures |CHARSET| == 64 && CHARSET[v as int] as int == Symbol(v) as int
  {
    hide Symbol;
    var n := v as int;
    SymbolNumber(v, n);
    CapitalAt(if n < 26 then n else 0);
    SmallAt(if 26 <= n < 52 then n - 26 else 0);
    OtherAt(if 52 <= n then n - 52 else 0);
  }

  // ----- URL-safe characters

  function Replace(s: Bytes, from: Byte, to: Byte): (r: Bytes)
    ensures |r| == |s| && forall i :: 0 <= i < |s| ==> r[i] == if s[i] == from then to else s[i]
  {
    if s == [] then [] else [if s[0] == from then to else s[0]] + Replace(s[1..], from, to)
  }

  function ToUrl(s: Bytes): Bytes {
    Replace(Replace(s, PLUS, DASH), SLASH, UNDERSCORE)
  }

  function FromUrl(s: Bytes): Bytes {
    Replace(Replace(s, DASH, PLUS), UNDERSCORE, SLASH)
  }

  // ----- The codec as functions of whole texts

  function First(a: Byte): Byte {
    Symbol(a >> 2)
  }

  function Second(a: Byte, b: Byte): Byte {
    Symbol(((a & 0x03) << 4) | (b >> 4))
  }

  function Third(b: Byte, c: Byte): Byte {
    Symbol(((b & 0x0f) << 2) | (c >> 6))
  }

  function Fourth(c: Byte): Byte {
    Symbol(c & 0x3f)
  }

  /** The symbols of one group of one, two or three bytes; missing bytes count as zero. */
  function EncodeGroup(g: Bytes): (r: Bytes)
    requires 1 <= |g| <= 3
    ensures |r| == |g| + 1
  {
    if |g| == 1 then [First(g[0]), Second(g[0], 0)]
    else if |g| == 2 then [First(g[0]), Second(g[0], g[1]), Third(g[1], 0)]
    else [First(g[0]), Second(g[0], g[1]), Third(g[1], g[2]), Fourth(g[2])]
  }

  function Encoded(bytes: Bytes): Bytes {
    if |bytes| == 0 then []
    else if |bytes| <= 3 then EncodeGroup(bytes)
    else EncodeGroup(bytes[..3]) + Encoded(bytes[3..])
  }

  /** The bytes of one group of four characters. */
  function DecodeGroup(g: Bytes): Result<Bytes, Error>
    requires |g| == 4
  {
    var a, b, c, d := CharToVal(g[0]), CharToVal(g[1]), CharToVal(g[2]), CharToVal(g[3]);
    if a.Err? || b.Err? || c.Err? || d.Err? then Err(InvalidCharacter)
    else
      var x, y, z := (a.value << 2) | (b.value >> 4), (b.value << 4) | (c.value >> 2), (c.value << 6) | d.value;
      if g[2] == PAD then Ok(if g[3] == PAD then [x] else [x, z])
      else Ok(if g[3] == PAD then [x, y] else [x, y, z])
  }

  function Decoded(s: Bytes): Result<Bytes, Error>
    requires |s| % 4 == 0
  {
    if s == [] then Ok([])
    else Chain(DecodeGroup(s[..4]), Decoded(s[4..]))
  }

  function Pad(n: nat): (r: Bytes)
    ensures n % 4 != 1 ==> (n + |r|) % 4 == 0
  {
    if n % 4 == 2 then [PAD, PAD] else if n % 4 == 3 then [PAD] else []
  }

  function UrlEncoded(bytes: Bytes): Bytes {
    ToUrl(Encoded(bytes))
  }

  function UrlDecoded(s: Bytes): Result<Bytes, Error> {
    if |s| % 4 == 1 then Err(InvalidLength) else Decoded(FromUrl(s + Pad(|s|)))
  }

  // ----- The loops

  method Base64UrlEncode(input: Bytes) returns (text: Bytes)
    ensures text == UrlEncoded(input)
  {
    hide EncodeGroup, Encoded, ToUrl;
    EncodedNothing();
    var result: Bytes := [];
    var i := 0;
    assert input[0..] == input && result + Encoded(input) == Encoded(input);
    while i < |input|
      invariant 0 <= i <= |input| && result + Encoded(input[i..]) == Encoded(input)
    {
      var next := if i + 3 < |input| then i + 3 else |input|;
      EncodedSplits(input[i..], next - i);
      assert input[i..][..next - i] == input[i..next] && input[i..][next - i..] == input[next..];
      assert result + Encoded(input[i..]) == result + EncodeGroup(input[i..next]) + Encoded(input[next..]);
      result := result + EncodeGroup(input[i..next]);
      i := next;
    }
    assert input[i..] == [] && result + [] == result;
    text := ToUrl(result);
  }

  lemma EncodedNothing()
    ensures Encoded([]) == []
  {
  }

  lemma EncodedSplits(bytes: Bytes, n: nat)
    requires 1 <= n <= |bytes| && n == if 3 < |bytes| then 3 else |bytes|
    ensures Encoded(bytes) == EncodeGroup(bytes[..n]) + Encoded(bytes[n..])
  {
    if |bytes| <= 3 {
      assert bytes[..n] == bytes;
    }
  }

  method Base64Decode(input: Bytes) returns (r: Result<Bytes, Error>)
    ensures |input| % 4 != 0 ==> r == Err(InvalidLength)
    ensures |input| % 4 == 0 ==> r == Decoded(input)
  {
    hide Decoded, DecodeGroup;
    if |input| % 4 != 0 {
      return Err(InvalidLength);
    }
    DecodedNothing();
    var result: Bytes := [];
    var i := 0;
    assert input[0..] == input;
    while i < |input|
      invariant 0 <= i <= |input| && i % 4 == 0
      invariant Decoded(input) == Prepend(result, Decoded(input[i..]))
    {
      var chunk := input[i..i + 4];
      assert input[i..] == chunk + input[i + 4..];
      DecodedSplits(chunk, input[i + 4..]);
      match DecodeGroup(chunk) {
        case Err(e) => return Err(e);
        case Ok(bytes) =>
          PrependTwice(result, bytes, Decoded(input[i + 4..]));
          result := result + bytes;
      }
      i := i + 4;
    }
    r := Ok(result);
    assert input[i..] == [] && result + [] == result;
  }

  lemma DecodedNothing()
    ensures Decoded([]) == Ok([])
  {
  }

  /** Both results one after the other, or the first error. */
  function Chain(x: Result<Bytes, Error>, y: Result<Bytes, Error>): Result<Bytes, Error> {
    if x.Err? then x else Prepend(x.value, y)
  }

  function Prepend(first: Bytes, rest: Result<Bytes, Error>): (r: Result<Bytes, Error>)
    ensures first == [] ==> r == rest
  {
    match rest case Ok(bytes) => assert [] + bytes == bytes; Ok(first + bytes) case Err(e) => Err(e)
  }

  lemma PrependTwice(first: Bytes, second: Bytes, rest: Result<Bytes, Error>)
    ensures Prepend(first, Prepend(second, rest)) == Prepend(first + second, rest)
  {
    if rest.Ok? {
      assert first + (second + rest.value) == first + second + rest.value;
    }
  }

  method Base64UrlDecode(input: Bytes) returns (r: Result<Bytes, Error>)
    ensures r == UrlDecoded(input)
  {
    var padded;
    match |input| % 4 {
      case 2 => padded := input + [PAD, PAD];
      case 3 => padded := input + [PAD];
      case 0 => padded := input;
      case _ => return Err(InvalidLength);
    }
    var standard := FromUrl(padded);
    r := Base64Decode(standard);
    assert padded == input + Pad(|input|);
  }

  // ----- Decoding what was encoded

  lemma GroupBits(a: Byte, b: Byte, c: Byte)
    ensures InAlphabet(First(a)) && InAlphabet(Second(a, b)) && InAlphabet(Third(b, c)) && InAlphabet(Fourth(c))
    ensures (CharToVal(First(a)).value << 2) | (CharToVal(Second(a, b)).value >> 4) == a
    ensures (CharToVal(Second(a, b)).value << 4) | (CharToVal(Third(b, c)).value >> 2) == b
    ensures (CharToVal(Third(b, c)).value << 6) | CharToVal(Fourth(c)).value == c
  {
    assert (a >> 2) < 64 && (((a & 0x03) << 4) | (b >> 4)) < 64 && (((b & 0x0f) << 2) | (c >> 6)) < 64
      && (c & 0x3f) < 64;
    SymbolHasItsValue(a >> 2, 0);
    SymbolHasItsValue(((a & 0x03) << 4) | (b >> 4), 0);
    SymbolHasItsValue(((b & 0x0f) << 2) | (c >> 6), 0);
    SymbolHasItsValue(c & 0x3f, 0);
  }

  lemma DecodeThree(p: Byte, q: Byte, r: Byte, t: Byte)
    requires InAlphabet(p) && InAlphabet(q)
    requires (r == PAD || InAlphabet(r)) && (t == PAD || InAlphabet(t)) && (r == PAD ==> t == PAD)
    ensures
      var a := (CharToVal(p).value << 2) | (CharToVal(q).value >> 4);
      var b := (CharToVal(q).value << 4) | (CharToVal(r).value >> 2);
      var c := (CharToVal(r).value << 6) | CharToVal(t).value;
      DecodeGroup([p, q, r, t]) == Ok(if r == PAD then [a] else if t == PAD then [a, b] else [a, b, c])
  {
  }

  // ----- What a group of four means

  /** The number that three bytes and four sextets write. */
  function OfBytes(a: Byte, b: Byte, c: Byte): bv24 {
    (a as bv24 << 16) | (b as bv24 << 8) | (c as bv24)
  }

  function OfSextets(p: Byte, q: Byte, r: Byte, t: Byte): bv24 {
    (p as bv24 << 18) | (q as bv24 << 12) | (r as bv24 << 6) | (t as bv24)
  }

  /** Three bytes and their four symbols write the same 24 bits, first byte first. */
  lemma SymbolsWriteBytes(a: Byte, b: Byte, c: Byte)
    ensures
      var g := EncodeGroup([a, b, c]);
      OfBytes(a, b, c)
      == OfSextets(CharToVal(g[0]).value, CharToVal(g[1]).value, CharToVal(g[2]).value, CharToVal(g[3]).value)
  {
    assert (a >> 2) < 64 && (((a & 0x03) << 4) | (b >> 4)) < 64 && (((b & 0x0f) << 2) | (c >> 6)) < 64
      && (c & 0x3f) < 64;
    SymbolHasItsValue(a >> 2, 0);
    SymbolHasItsValue(((a & 0x03) << 4) | (b >> 4), 0);
    SymbolHasItsValue(((b & 0x0f) << 2) | (c >> 6), 0);
    SymbolHasItsValue(c & 0x3f, 0);
    SextetsOf(a, b, c);
  }

  lemma SextetsOf(a: Byte, b: Byte, c: Byte)
    ensures OfBytes(a, b, c)
      == OfSextets(a >> 2, ((a & 0x03) << 4) | (b >> 4), ((b & 0x0f) << 2) | (c >> 6), c & 0x3f)
  {
  }

  /** `=` stands for the letter A. */
  function PadAsA(c: Byte): Byte {
    if c == PAD then 65 else c
  }

  // The three bytes that four sextets write.
  function Upper(v: Byte, w: Byte): Byte { (v << 2) | (w >> 4) }
  function Middle(w: Byte, x: Byte): Byte { (w << 4) | (x >> 2) }
  function Lower(x: Byte, y: Byte): Byte { (x << 6) | y }

  lemma DecodesTo(p: Byte, q: Byte, r: Byte, t: Byte)
    requires CharToVal(p).Ok? && CharToVal(q).Ok? && CharToVal(r).Ok? && CharToVal(t).Ok?
    ensures
      var v, w, x, y := CharToVal(p).value, CharToVal(q).value, CharToVal(r).value, CharToVal(t).value;
      var a, b, c := Upper(v, w), Middle(w, x), Lower(x, y);
      DecodeGroup([p, q, r, t]) ==
        Ok(if r == PAD then if t == PAD then [a] else [a, c] else if t == PAD then [a, b] else [a, b, c])
  {
    hide CharToVal;
  }

  /** Padding anywhere in a group is read as the letter A; in the third place it drops the second
      byte, in the fourth the third byte, and elsewhere nothing. */
  lemma PaddingDropsBytes(p: Byte, q: Byte, r: Byte, t: Byte)
    requires CharToVal(p).Ok? && CharToVal(q).Ok? && CharToVal(r).Ok? && CharToVal(t).Ok?
    ensures exists a, b, c ::
      && DecodeGroup([PadAsA(p), PadAsA(q), PadAsA(r), PadAsA(t)]) == Ok([a, b, c])
      && DecodeGroup([p, q, r, t]) == Ok([a] + (if r == PAD then [] else [b]) + (if t == PAD then [] else [c]))
  {
    hide CharToVal, DecodeGroup, PadAsA, Upper, Middle, Lower;
    PadReadsAsA(p);
    PadReadsAsA(q);
    PadReadsAsA(r);
    PadReadsAsA(t);
    DecodesTo(p, q, r, t);
    DecodesTo(PadAsA(p), PadAsA(q), PadAsA(r), PadAsA(t));
    var v, w, x, y := CharToVal(p).value, CharToVal(q).value, CharToVal(r).value, CharToVal(t).value;
    DroppedBytes(Upper(v, w), Middle(w, x), Lower(x, y));
  }

  lemma DroppedBytes(a: Byte, b: Byte, c: Byte)
    ensures [a] + [] + [] == [a] && [a] + [b] + [] == [a, b] && [a] + [] + [c] == [a, c] && [a] + [b] + [c] == [a, b, c]
  {
  }

  lemma PadReadsAsA(c: Byte)
    ensures CharToVal(PadAsA(c)) == CharToVal(c) && PadAsA(c) != PAD
  {
  }

  lemma PadIsNoSymbol()
    ensures !InAlphabet(PAD) && CharToVal(PAD) == Ok(0)
  {
  }

  lemma OneByteRoundTrip(a: Byte)
    ensures DecodeGroup(EncodeGroup([a]) + Pad(2)) == Ok([a])
  {
    hide First, Second, CharToVal, DecodeGroup, InAlphabet;
    GroupBits(a, 0, 0);
    PadIsNoSymbol();
    DecodeThree(First(a), Second(a, 0), PAD, PAD);
    assert EncodeGroup([a]) + Pad(2) == [First(a), Second(a, 0), PAD, PAD];
  }

  lemma TwoBytesRoundTrip(a: Byte, b: Byte)
    ensures DecodeGroup(EncodeGroup([a, b]) + Pad(3)) == Ok([a, b])
  {
    hide First, Second, Third, CharToVal, DecodeGroup, InAlphabet;
    GroupBits(a, b, 0);
    PadIsNoSymbol();
    DecodeThree(First(a), Second(a, b), Third(b, 0), PAD);
    assert EncodeGroup([a, b]) + Pad(3) == [First(a), Second(a, b), Third(b, 0), PAD];
  }

  lemma ThreeBytesRoundTrip(a: Byte, b: Byte, c: Byte)
    ensures DecodeGroup(EncodeGroup([a, b, c]) + Pad(4)) == Ok([a, b, c])
  {
    hide First, Second, Third, Fourth, CharToVal, DecodeGroup, InAlphabet;
    GroupBits(a, b, c);
    PadIsNoSymbol();
    DecodeThree(First(a), Second(a, b), Third(b, c), Fourth(c));
    assert EncodeGroup([a, b, c]) + Pad(4) == [First(a), Second(a, b), Third(b, c), Fourth(c)];
  }

  lemma GroupIsInAlphabet(g: Bytes)
    requires 1 <= |g| <= 3
    ensures forall c :: c in EncodeGroup(g) ==> InAlphabet(c)
  {
    hide First, Second, Third, Fourth, DecodeGroup, InAlphabet, CharToVal;
    GroupBits(g[0], if |g| > 1 then g[1] else 0, if |g| > 2 then g[2] else 0);
  }

  lemma GroupRoundTrip(g: Bytes)
    requires 1 <= |g| <= 3
    ensures DecodeGroup(EncodeGroup(g) + Pad(|g| + 1)) == Ok(g)
    ensures forall c :: c in EncodeGroup(g) ==> InAlphabet(c)
  {
    hide First, Second, Third, Fourth, DecodeGroup, InAlphabet, CharToVal, EncodeGroup;
    GroupIsInAlphabet(g);
    if |g| == 1 {
      assert g == [g[0]];
      OneByteRoundTrip(g[0]);
    } else if |g| == 2 {
      assert g == [g[0], g[1]];
      TwoBytesRoundTrip(g[0], g[1]);
    } else {
      assert g == [g[0], g[1], g[2]];
      ThreeBytesRoundTrip(g[0], g[1], g[2]);
    }
  }

  lemma {:induction false} EncodedRoundTrip(bytes: Bytes)
    ensures |Encoded(bytes)| % 4 != 1
    ensures Decoded(Encoded(bytes) + Pad(|Encoded(bytes)|)) == Ok(bytes)
    ensures forall c :: c in Encoded(bytes) ==> InAlphabet(c)
  {
    hide EncodeGroup, DecodeGroup, InAlphabet;
    if 0 < |bytes| <= 3 {
      GroupRoundTrip(bytes);
      DecodedOneGroup(Encoded(bytes) + Pad(|bytes| + 1));
    } else if |bytes| > 3 {
      var head, tail := EncodeGroup(bytes[..3]), Encoded(bytes[3..]);
      GroupRoundTrip(bytes[..3]);
      EncodedRoundTrip(bytes[3..]);
      DecodedSplits(head, tail + Pad(|tail|));
      assert head + tail + Pad(|tail|) == head + (tail + Pad(|tail|));
      assert head + Pad(4) == head;
      assert bytes[..3] + bytes[3..] == bytes;
    }
  }

  lemma DecodedSplits(head: Bytes, tail: Bytes)
    requires |head| == 4 && |tail| % 4 == 0
    ensures Decoded(head + tail) == Chain(DecodeGroup(head), Decoded(tail))
  {
    assert (head + tail)[..4] == head && (head + tail)[4..] == tail;
  }

  lemma DecodedOneGroup(g: Bytes)
    requires |g| == 4
    ensures Decoded(g) == DecodeGroup(g)
  {
    assert g + [] == g;
    DecodedSplits(g, []);
    if DecodeGroup(g).Ok? {
      assert DecodeGroup(g).value + [] == DecodeGroup(g).value;
    }
  }

  lemma UrlMapsBack(text: Bytes, padding: Bytes)
    requires forall c :: c in text ==> InAlphabet(c)
    requires forall c :: c in padding ==> c == PAD
    ensures FromUrl(ToUrl(text) + padding) == text + padding
  {
    forall i | 0 <= i < |text| ensures text[i] != DASH && text[i] != UNDERSCORE {
      assert InAlphabet(text[i]);
    }
    forall i | 0 <= i < |padding| ensures padding[i] == PAD {
      assert padding[i] in padding;
    }
  }

  /** Decoding undoes encoding, for every byte string and all three tail lengths. */
  lemma UrlRoundTrip(bytes: Bytes)
    ensures UrlDecoded(UrlEncoded(bytes)) == Ok(bytes)
  {
    hide Encoded, Decoded, InAlphabet;
    EncodedRoundTrip(bytes);
    UrlMapsBack(Encoded(bytes), Pad(|Encoded(bytes)|));
  }

  predicate Readable(c: Byte) {
    CharToVal(c).Ok? || c == DASH || c == UNDERSCORE
  }

  lemma {:induction false} DecodedAcceptsIff(text: Bytes)
    requires |text| % 4 == 0
    ensures Decoded(text).Ok? <==> forall i :: 0 <= i < |text| ==> CharToVal(text[i]).Ok?
  {
    hide CharToVal;
    if text != [] {
      DecodedAcceptsIff(text[4..]);
      assert forall i :: 4 <= i < |text| ==> text[i] == text[4..][i - 4];
      assert text[0] == text[..4][0] && text[1] == text[..4][1] && text[2] == text[..4][2] && text[3] == text[..4][3];
    }
  }

  /** The error cases: a length of 1 modulo 4, or a byte outside both alphabets and padding. */
  lemma AcceptsIff(url: Bytes)
    ensures UrlDecoded(url).Ok? <==> |url| % 4 != 1 && forall i :: 0 <= i < |url| ==> Readable(url[i])
    ensures UrlDecoded(url) == Err(InvalidLength) <==> |url| % 4 == 1
    ensures UrlDecoded(url) == Err(InvalidCharacter) <==>
      |url| % 4 != 1 && exists i :: 0 <= i < |url| && !Readable(url[i])
  {
    if |url| % 4 != 1 {
      var text := FromUrl(url + Pad(|url|));
      DecodedAcceptsIff(text);
      DecodedErrsOnCharacters(text);
      hide Decoded, CharToVal, Readable;
      ReadableIsRead(url);
    }
  }

  lemma ReadableIsRead(url: Bytes)
    ensures
      var text := FromUrl(url + Pad(|url|));
      && (forall i :: 0 <= i < |url| ==> (Readable(url[i]) <==> CharToVal(text[i]).Ok?))
      && (forall i :: |url| <= i < |text| ==> CharToVal(text[i]).Ok?)
  {
    var text := FromUrl(url + Pad(|url|));
    assert forall i :: |url| <= i < |text| ==> text[i] == PAD;
  }

  lemma {:induction false} DecodedErrsOnCharacters(text: Bytes)
    requires |text| % 4 == 0
    ensures Decoded(text).Err? ==> Decoded(text) == Err(InvalidCharacter)
  {
    if text != [] {
      DecodedErrsOnCharacters(text[4..]);
    }
  }

  // ----- Encoding what was decoded

  /** The bits of the last character that belong to no byte are zero. */
  predicate SpareBitsAreZero(text: Bytes) {
    && (|text| % 4 == 2 ==> CharToVal(text[|text| - 1]) .Ok? && CharToVal(text[|text| - 1]).value & 0x0f == 0)
    && (|text| % 4 == 3 ==> CharToVal(text[|text| - 1]).Ok? && CharToVal(text[|text| - 1]).value & 0x03 == 0)
  }

  predicate CanonicalText(text: Bytes) {
    |text| % 4 != 1 && (forall c :: c in text ==> InAlphabet(c)) && SpareBitsAreZero(text)
  }

  lemma ShiftsInvert(p: Byte, q: Byte, r: Byte, t: Byte)
    requires p < 64 && q < 64 && r < 64 && t < 64
    ensures ((p << 2) | (q >> 4)) >> 2 == p
    ensures ((((p << 2) | (q >> 4)) & 0x03) << 4) | (((q << 4) | (r >> 2)) >> 4) == q
    ensures ((((q << 4) | (r >> 2)) & 0x0f) << 2) | (((r << 6) | t) >> 6) == r
    ensures ((r << 6) | t) & 0x3f == t
    ensures q & 0x0f == 0 ==> ((((p << 2) | (q >> 4)) & 0x03) << 4) | (0 >> 4) == q
    ensures r & 0x03 == 0 ==> ((((q << 4) | (r >> 2)) & 0x0f) << 2) | (0 >> 6) == r
  {
  }

  lemma ValueBits(p: Byte, q: Byte, r: Byte, t: Byte)
    requires p < 64 && q < 64 && r < 64 && t < 64
    ensures
      var a, b, c := (p << 2) | (q >> 4), (q << 4) | (r >> 2), (r << 6) | t;
      && First(a) == Symbol(p) && Second(a, b) == Symbol(q) && Third(b, c) == Symbol(r) && Fourth(c) == Symbol(t)
      && (q & 0x0f == 0 ==> Second(a, 0) == Symbol(q))
      && (r & 0x03 == 0 ==> Third(b, 0) == Symbol(r))
  {
    hide Symbol;
    ShiftsInvert(p, q, r, t);
  }

  lemma TwoSymbolsReencode(p: Byte, q: Byte)
    requires CanonicalText([p, q])
    ensures
      var r := DecodeGroup([p, q, PAD, PAD]);
      r.Ok? && |r.value| == 1 && EncodeGroup(r.value) == [p, q]
  {
    assert [p, q][0] == p && [p, q][1] == q && CharToVal(PAD) == Ok(0);
    SymbolHasItsValue(0, p);
    SymbolHasItsValue(0, q);
    DecodeThree(p, q, PAD, PAD);
    ValueBits(CharToVal(p).value, CharToVal(q).value, 0, 0);
    hide First, Second, CharToVal, DecodeGroup, InAlphabet, Symbol;
  }

  lemma ThreeSymbolsReencode(p: Byte, q: Byte, r: Byte)
    requires CanonicalText([p, q, r])
    ensures
      var d := DecodeGroup([p, q, r, PAD]);
      d.Ok? && |d.value| == 2 && EncodeGroup(d.value) == [p, q, r]
  {
    assert [p, q, r][0] == p && [p, q, r][1] == q && [p, q, r][2] == r && CharToVal(PAD) == Ok(0);
    SymbolHasItsValue(0, p);
    SymbolHasItsValue(0, q);
    SymbolHasItsValue(0, r);
    DecodeThree(p, q, r, PAD);
    ValueBits(CharToVal(p).value, CharToVal(q).value, CharToVal(r).value, 0);
    hide First, Second, Third, CharToVal, DecodeGroup, InAlphabet, Symbol;
  }

  lemma FourSymbolsReencode(p: Byte, q: Byte, r: Byte, t: Byte)
    requires InAlphabet(p) && InAlphabet(q) && InAlphabet(r) && InAlphabet(t)
    ensures
      var d := DecodeGroup([p, q, r, t]);
      d.Ok? && |d.value| == 3 && EncodeGroup(d.value) == [p, q, r, t]
  {
    SymbolHasItsValue(0, p);
    SymbolHasItsValue(0, q);
    SymbolHasItsValue(0, r);
    SymbolHasItsValue(0, t);
    DecodeThree(p, q, r, t);
    ValueBits(CharToVal(p).value, CharToVal(q).value, CharToVal(r).value, CharToVal(t).value);
    assert !InAlphabet(PAD);
    hide First, Second, Third, Fourth, CharToVal, DecodeGroup, InAlphabet, Symbol;
  }

  lemma DecodedGroupEncodes(text: Bytes)
    requires 2 <= |text| <= 4 && CanonicalText(text)
    ensures GroupReencodes(text)
  {
    hide EncodeGroup, DecodeGroup, InAlphabet, CharToVal;
    if |text| == 2 {
      assert text == [text[0], text[1]] && text + Pad(2) == [text[0], text[1], PAD, PAD];
      TwoSymbolsReencode(text[0], text[1]);
    } else if |text| == 3 {
      assert text == [text[0], text[1], text[2]] && text + Pad(3) == [text[0], text[1], text[2], PAD];
      ThreeSymbolsReencode(text[0], text[1], text[2]);
    } else {
      assert text == [text[0], text[1], text[2], text[3]] && text + Pad(4) == text;
      FourSymbolsReencode(text[0], text[1], text[2], text[3]);
    }
  }

  lemma CanonicalSplits(text: Bytes)
    requires CanonicalText(text) && |text| > 4
    ensures CanonicalText(text[..4]) && CanonicalText(text[4..])
  {
    assert text[4..][|text[4..]| - 1] == text[|text| - 1];
    assert forall c :: c in text[..4] || c in text[4..] ==> c in text;
  }

  ghost predicate Reencodes(text: Bytes) {
    |text| % 4 != 1 && var r := Decoded(text + Pad(|text|)); r.Ok? && Encoded(r.value) == text
  }

  ghost predicate GroupReencodes(text: Bytes) {
    && 2 <= |text| <= 4
    && var r := DecodeGroup(text + Pad(|text|));
       r.Ok? && |r.value| == |text| - 1 && EncodeGroup(r.value) == text
  }

  lemma LastGroupReencodes(text: Bytes)
    requires GroupReencodes(text)
    ensures Reencodes(text)
  {
    hide EncodeGroup, DecodeGroup;
    DecodedOneGroup(text + Pad(|text|));
    EncodedPrepends(DecodeGroup(text + Pad(|text|)).value, []);
  }

  lemma MoreGroupsReencode(head: Bytes, tail: Bytes)
    requires |head| == 4 && GroupReencodes(head) && Reencodes(tail)
    ensures Reencodes(head + tail)
  {
    hide EncodeGroup, DecodeGroup;
    assert head + Pad(4) == head;
    DecodedSplits(head, tail + Pad(|tail|));
    assert head + tail + Pad(|head + tail|) == head + (tail + Pad(|tail|));
    EncodedPrepends(DecodeGroup(head).value, Decoded(tail + Pad(|tail|)).value);
  }

  lemma {:induction false} CanonicalTextsAreEncodings(text: Bytes)
    requires CanonicalText(text)
    ensures Reencodes(text)
  {
    if text == [] {
      assert text + Pad(0) == [];
    } else if |text| <= 4 {
      DecodedGroupEncodes(text);
      LastGroupReencodes(text);
    } else {
      CanonicalSplits(text);
      DecodedGroupEncodes(text[..4]);
      CanonicalTextsAreEncodings(text[4..]);
      hide CanonicalText, Reencodes, GroupReencodes;
      MoreGroupsReencode(text[..4], text[4..]);
      assert text[..4] + text[4..] == text;
    }
  }

  lemma EncodedPrepends(g: Bytes, rest: Bytes)
    requires |g| == 3 || (1 <= |g| <= 3 && rest == [])
    ensures Encoded(g + rest) == EncodeGroup(g) + Encoded(rest)
  {
    hide EncodeGroup;
    if rest == [] {
      assert g + rest == g;
    } else {
      assert (g + rest)[..3] == g && (g + rest)[3..] == rest;
    }
  }

  lemma EncodedGroupIsCanonical(g: Bytes)
    requires 1 <= |g| <= 3
    ensures CanonicalText(EncodeGroup(g))
  {
    GroupRoundTrip(g);
    if |g| == 1 {
      var v := (g[0] & 0x03) << 4;
      SymbolHasItsValue(v | (0 >> 4), 0);
      assert v & 0x0f == 0;
    } else if |g| == 2 {
      var v := (g[1] & 0x0f) << 2;
      SymbolHasItsValue(v | (0 >> 6), 0);
      assert v & 0x03 == 0;
    }
  }

  lemma {:induction false} EncodingsAreCanonical(bytes: Bytes)
    ensures CanonicalText(Encoded(bytes))
  {
    hide EncodeGroup, DecodeGroup, InAlphabet, CharToVal;
    if 0 < |bytes| <= 3 {
      EncodedGroupIsCanonical(bytes);
    } else if |bytes| > 3 {
      EncodedGroupIsCanonical(bytes[..3]);
      EncodingsAreCanonical(bytes[3..]);
      hide CanonicalText;
      CanonicalAppends(EncodeGroup(bytes[..3]), Encoded(bytes[3..]));
    }
  }

  lemma CanonicalAppends(head: Bytes, tail: Bytes)
    requires |head| == 4 && CanonicalText(head) && CanonicalText(tail)
    ensures CanonicalText(head + tail)
  {
    hide InAlphabet, CharToVal;
    assert |tail| > 0 ==> (head + tail)[|head + tail| - 1] == tail[|tail| - 1];
    assert tail == [] ==> head + tail == head;
  }

  predicate Canonical(url: Bytes) {
    PLUS !in url && SLASH !in url && CanonicalText(FromUrl(url))
  }

  lemma StandardMapsBack(url: Bytes, padding: Bytes)
    requires PLUS !in url && SLASH !in url && forall c :: c in padding ==> c == PAD
    ensures FromUrl(url + padding) == FromUrl(url) + padding && ToUrl(FromUrl(url)) == url
  {
    forall i | 0 <= i < |padding| ensures padding[i] == PAD {
      assert padding[i] in padding;
    }
    forall i | 0 <= i < |url| ensures url[i] != PLUS && url[i] != SLASH {
      assert url[i] in url;
    }
  }

  lemma CanonicalReencodes(url: Bytes)
    requires Canonical(url)
    ensures UrlDecoded(url).Ok? && UrlEncoded(UrlDecoded(url).value) == url
  {
    hide Encoded, Decoded, CanonicalText, FromUrl, ToUrl;
    CanonicalTextsAreEncodings(FromUrl(url));
    StandardMapsBack(url, Pad(|url|));
    FromUrlKeepsLength(url);
  }

  lemma FromUrlKeepsLength(url: Bytes)
    ensures |FromUrl(url)| == |url|
  {
  }

  lemma UrlEncodedIsCanonical(bytes: Bytes)
    ensures Canonical(UrlEncoded(bytes))
  {
    hide Encoded, Decoded, CanonicalText, InAlphabet, FromUrl, Replace;
    EncodedRoundTrip(bytes);
    UrlMapsBack(Encoded(bytes), []);
    EncodingsAreCanonical(bytes);
    assert Encoded(bytes) + [] == Encoded(bytes) && ToUrl(Encoded(bytes)) + [] == UrlEncoded(bytes);
  }

  /** A text encodes again to itself exactly if it is one an encoder writes: characters of the
      URL alphabet only, no padding, spare bits zero. The decoder itself also takes padding,
      + and /, and nonzero spare bits, so it gives several texts the same bytes. */
  lemma ReencodesIffCanonical(url: Bytes)
    ensures (UrlDecoded(url).Ok? && UrlEncoded(UrlDecoded(url).value) == url) <==> Canonical(url)
  {
    hide UrlEncoded, Canonical;
    if Canonical(url) {
      CanonicalReencodes(url);
    }
    if UrlDecoded(url).Ok? {
      UrlEncodedIsCanonical(UrlDecoded(url).value);
    }
  }

  /** AB has a spare bit set: it decodes, and is not what its bytes encode to. */
  lemma SpareBitIsLost()
    ensures UrlDecoded([65, 66]).Ok? && UrlEncoded(UrlDecoded([65, 66]).value) != [65, 66]
  {
    var url: Bytes := [65, 66];
    assert FromUrl(url) == url;
    assert CharToVal(url[1]) == Ok(1);
    assert !SpareBitsAreZero(url) && !Canonical(url);
    AcceptsIff(url);
    ReencodesIffCanonical(url);
  }

  /** No encoding holds + or /, and - and _ are read as 62 and 63. */
  lemma UrlCharacters(bytes: Bytes)
    ensures 43 !in UrlEncoded(bytes) && 47 !in UrlEncoded(bytes) && 61 !in UrlEncoded(bytes)
    ensures CharToVal(FromUrl([45])[0]) == CharToVal(43) == Ok(62)
    ensures CharToVal(FromUrl([95])[0]) == CharToVal(47) == Ok(63)
  {
    UrlEncodedIsCanonical(bytes);
    EncodedRoundTrip(bytes);
    NoPaddingIsAdded(Encoded(bytes));
  }

  lemma NoPaddingIsAdded(text: Bytes)
    requires forall c :: c in text ==> InAlphabet(c)
    ensures PAD !in ToUrl(text)
  {
    var url := ToUrl(text);
    forall c | c in url ensures c != PAD {
      var i :| 0 <= i < |url| && url[i] == c;
      assert InAlphabet(text[i]);
    }
  }

  /** The decoder also reads standard base64 with its padding. */
  lemma PaddedStandardIsRead(bytes: Bytes)
    ensures UrlDecoded(Encoded(bytes) + Pad(|Encoded(bytes)|)) == Ok(bytes)
  {
    hide Encoded, Decoded, InAlphabet;
    EncodedRoundTrip(bytes);
    var text := Encoded(bytes) + Pad(|Encoded(bytes)|);
    StandardIsKept(Encoded(bytes), Pad(|Encoded(bytes)|));
    assert |text| % 4 == 0 && text + Pad(|text|) == text;
  }

  lemma StandardIsKept(text: Bytes, padding: Bytes)
    requires forall c :: c in text ==> InAlphabet(c)
    requires forall c :: c in padding ==> c == PAD
    ensures FromUrl(text + padding) == text + padding
  {
    forall i | 0 <= i < |text| ensures text[i] != DASH && text[i] != UNDERSCORE {
      assert InAlphabet(text[i]);
    }
    forall i | 0 <= i < |padding| ensures padding[i] == PAD {
      assert padding[i] in padding;
    }
  }
}
