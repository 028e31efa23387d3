/** The codec loses nothing, and neither does the framing of the state. */
module OAuthStateTheorems {
  import opened Results
  import opened Sequences
  import opened Templates
  import opened TemplateRewrite
  import opened OAuthState

  lemma DigitInverts(k: int)
    requires 0 <= k < 64
    ensures DigitValue(Digit(k)) == Some(k)
  {
  }

  /** The encoding without its padding. */
  function Sextets(bytes: seq<Byte>): string {
    if bytes == [] then ""
    else if |bytes| == 1 then [Digit(bytes[0] / 4), Digit(bytes[0] % 4 * 16)]
    else if |bytes| == 2 then [Digit(bytes[0] / 4), Digit(bytes[0] % 4 * 16 + bytes[1] / 16), Digit(bytes[1] % 16 * 4)]
    else Quad(bytes[0], bytes[1], bytes[2]) + Sextets(bytes[3..])
  }

  function Padding(n: nat): nat {
    (3 - n % 3) % 3
  }

  lemma {:induction false} BtoaPads(bytes: seq<Byte>)
    ensures Btoa(bytes) == Sextets(bytes) + Repeat('=', Padding(|bytes|))
    ensures (|Sextets(bytes)| + Padding(|bytes|)) % 4 == 0
  {
    if |bytes| >= 3 {
      var rest := bytes[3..];
      BtoaPads(rest);
      PaddingOfRest(|rest|);
      Regroup(Quad(bytes[0], bytes[1], bytes[2]), Sextets(rest), Repeat('=', Padding(|rest|)));
    } else {
      ShortPads(bytes);
    }
  }

  lemma ShortPads(bytes: seq<Byte>)
    requires |bytes| < 3
    ensures Btoa(bytes) == Sextets(bytes) + Repeat('=', Padding(|bytes|))
    ensures (|Sextets(bytes)| + Padding(|bytes|)) % 4 == 0
  {
    if |bytes| == 1 {
      TwoPads(Digit(bytes[0] / 4), Digit(bytes[0] % 4 * 16));
    } else if |bytes| == 2 {
      OnePad(Digit(bytes[0] / 4), Digit(bytes[0] % 4 * 16 + bytes[1] / 16), Digit(bytes[1] % 16 * 4));
    } else {
      assert "" == "" + Repeat('=', 0);
    }
  }

  lemma TwoPads(a: char, b: char)
    ensures [a, b, '=', '='] == [a, b] + Repeat('=', 2) && Padding(1) == 2
  {
  }

  lemma OnePad(a: char, b: char, c: char)
    ensures [a, b, c, '='] == [a, b, c] + Repeat('=', 1) && Padding(2) == 1
  {
  }

  lemma PaddingOfRest(n: nat)
    ensures Padding(n + 3) == Padding(n)
  {
  }

  predicate IsAlphabet(c: char) {
    DigitValue(c).Some?
  }

  lemma {:induction false} SextetsAreAlphabet(bytes: seq<Byte>)
    ensures forall c <- Sextets(bytes) :: IsAlphabet(c)
    ensures bytes != [] ==> Sextets(bytes) != ""
  {
    if |bytes| >= 3 {
      SextetsAreAlphabet(bytes[3..]);
    }
  }

  /** Three bytes survive as four sextets. */
  lemma ThreeBytes(x: Byte, y: Byte, z: Byte)
    ensures x / 4 * 4 + (x % 4 * 16 + y / 16) / 16 == x
    ensures (x % 4 * 16 + y / 16) % 16 * 16 + (y % 16 * 4 + z / 64) / 4 == y
    ensures (y % 16 * 4 + z / 64) % 4 * 64 + z % 64 == z
    ensures x / 4 * 4 + (x % 4 * 16) / 16 == x
    ensures (x % 4 * 16 + y / 16) % 16 * 16 + (y % 16 * 4) / 4 == y
  {
  }

  lemma {:induction false} GroupsInvert(bytes: seq<Byte>)
    ensures Groups(Sextets(bytes)) == Some(bytes)
  {
    if |bytes| == 1 {
      ThreeBytes(bytes[0], 0, 0);
      DigitInverts(bytes[0] / 4);
      DigitInverts(bytes[0] % 4 * 16);
      assert bytes == [bytes[0]];
    } else if |bytes| == 2 {
      GroupOfTwo(bytes[0], bytes[1]);
      assert bytes == [bytes[0], bytes[1]];
    } else if |bytes| >= 3 {
      GroupsInvert(bytes[3..]);
      GroupOfThree(bytes[0], bytes[1], bytes[2], Sextets(bytes[3..]));
      assert bytes == [bytes[0], bytes[1], bytes[2]] + bytes[3..];
    }
  }

  lemma GroupOfTwo(x: Byte, y: Byte)
    ensures Groups([Digit(x / 4), Digit(x % 4 * 16 + y / 16), Digit(y % 16 * 4)]) == Some([x, y])
  {
    ThreeBytes(x, y, 0);
    DigitInverts(x / 4);
    DigitInverts(x % 4 * 16 + y / 16);
    DigitInverts(y % 16 * 4);
  }

  lemma GroupOfThree(x: Byte, y: Byte, z: Byte, rest: string)
    ensures Groups(Quad(x, y, z) + rest) == Put([x, y, z], Groups(rest))
  {
    var text := Quad(x, y, z) + rest;
    ThreeBytes(x, y, z);
    DigitInverts(x / 4);
    DigitInverts(x % 4 * 16 + y / 16);
    DigitInverts(y % 16 * 4 + z / 64);
    DigitInverts(z % 64);
    assert text[4..] == rest;
  }

  // The characters of an encoding

  /** The alphabet of section 5 of RFC 4648. */
  const URL_ALPHABET := UPPER_CASE + LOWER_CASE + "0123456789-_"
  const UPPER_CASE := "ABCDEFGHIJKLMNOPQRSTUVWXYZ"
  const LOWER_CASE := "abcdefghijklmnopqrstuvwxyz"

  function ByteAt(bytes: seq<Byte>, k: nat): int {
    if k < |bytes| then bytes[k] else 0
  }

  /** Digit `j` of the bytes as numbers of three bytes, written with four digits to the base 64. */
  function SextetAt(bytes: seq<Byte>, j: nat): (k: int)
    ensures 0 <= k < 64
  {
    var g := j / 4 * 3;
    var n := ByteAt(bytes, g) * 65536 + ByteAt(bytes, g + 1) * 256 + ByteAt(bytes, g + 2);
    if j % 4 == 0 then n / 262144 else if j % 4 == 1 then n / 4096 % 64 else if j % 4 == 2 then n / 64 % 64 else n % 64
  }

  lemma By64(n: int, q: int, r: int)
    requires n == 64 * q + r && 0 <= r < 64
    ensures n / 64 == q && n % 64 == r
  {
  }

  lemma By4096(n: int, q: int, r: int)
    requires n == 4096 * q + r && 0 <= r < 4096
    ensures n / 4096 == q
  {
  }

  lemma By262144(n: int, q: int, r: int)
    requires n == 262144 * q + r && 0 <= r < 262144
    ensures n / 262144 == q
  {
  }

  lemma GroupDigits(x: Byte, y: Byte, z: Byte)
    ensures var n := x * 65536 + y * 256 + z;
            && n / 262144 == x / 4 && n / 4096 % 64 == x % 4 * 16 + y / 16
            && n / 64 % 64 == y % 16 * 4 + z / 64 && n % 64 == z % 64
  {
    var n := x * 65536 + y * 256 + z;
    var a, b, c, d, e, f := x / 4, x % 4, y / 16, y % 16, z / 64, z % 64;
    By262144(n, a, b * 65536 + y * 256 + z);
    By4096(n, 64 * a + (16 * b + c), d * 256 + z);
    By64(64 * a + (16 * b + c), a, 16 * b + c);
    By64(n, 64 * (64 * a + 16 * b + c) + (4 * d + e), f);
    By64(64 * (64 * a + 16 * b + c) + (4 * d + e), 64 * a + 16 * b + c, 4 * d + e);
  }

  lemma {:induction false} SextetsLaw(bytes: seq<Byte>, j: nat)
    ensures |Sextets(bytes)| == (8 * |bytes| + 5) / 6
    ensures j < |Sextets(bytes)| ==> Sextets(bytes)[j] == Digit(SextetAt(bytes, j))
    decreases |bytes|
  {
    if |bytes| < 3 {
      LastGroup(bytes, j);
    } else {
      SextetsLaw(bytes[3..], if j >= 4 then j - 4 else 0);
      if j >= 4 {
        LaterGroup(bytes, j);
      } else {
        FirstGroup(bytes, j);
      }
    }
  }

  lemma LastGroup(bytes: seq<Byte>, j: nat)
    requires |bytes| < 3
    ensures |Sextets(bytes)| == (8 * |bytes| + 5) / 6
    ensures j < |Sextets(bytes)| ==> Sextets(bytes)[j] == Digit(SextetAt(bytes, j))
  {
    if j < |Sextets(bytes)| {
      FirstGroup(bytes, j);
    }
  }

  lemma FirstGroup(bytes: seq<Byte>, j: nat)
    requires j < 4
    ensures var x, y, z := ByteAt(bytes, 0), ByteAt(bytes, 1), ByteAt(bytes, 2);
            SextetAt(bytes, j) == [x / 4, x % 4 * 16 + y / 16, y % 16 * 4 + z / 64, z % 64][j]
  {
    GroupDigits(ByteAt(bytes, 0), ByteAt(bytes, 1), ByteAt(bytes, 2));
    assert j / 4 * 3 == 0 && j % 4 == j;
  }

  lemma LaterGroup(bytes: seq<Byte>, j: nat)
    requires |bytes| >= 3 && j >= 4
    ensures SextetAt(bytes, j) == SextetAt(bytes[3..], j - 4)
  {
    assert j / 4 == (j - 4) / 4 + 1 && j % 4 == (j - 4) % 4;
  }

  lemma UrlDigit(k: int)
    requires 0 <= k < 64
    ensures Url([Digit(k)]) == [URL_ALPHABET[k]]
  {
    if k < 26 {
      assert URL_ALPHABET[k] == UPPER_CASE[k] == ('A' as int + k) as char;
    } else if k < 52 {
      assert URL_ALPHABET[k] == LOWER_CASE[k - 26] == ('a' as int + k - 26) as char;
    } else {
      assert URL_ALPHABET[k] == "0123456789-_"[k - 52];
    }
  }

  /** An encoding has one character for each six bits, and they spell the bits in the url alphabet. */
  lemma {:induction false} EncodingLaw(bytes: seq<Byte>, j: nat)
    ensures |Base64UrlEncode(bytes)| == (8 * |bytes| + 5) / 6
    ensures j < |Base64UrlEncode(bytes)| ==> Base64UrlEncode(bytes)[j] == URL_ALPHABET[SextetAt(bytes, j)]
  {
    EncodeIsUrl(bytes);
    SextetsLaw(bytes, j);
    if j < |Sextets(bytes)| {
      UrlDigit(SextetAt(bytes, j));
      assert Url(Sextets(bytes))[j] == Url([Sextets(bytes)[j]])[0];
    }
  }

  // Padding and the url alphabet

  function Url(text: string): string {
    Replace(Replace(text, '+', '-'), '/', '_')
  }

  lemma {:induction false} UnpaddedDrops(text: string, n: nat)
    requires forall c <- text :: c != '='
    ensures Unpadded(text + Repeat('=', n)) == text
    decreases n
  {
    var padded := text + Repeat('=', n);
    if n == 0 {
      assert padded == text;
      assert text != "" ==> text[|text| - 1] in text;
    } else {
      assert padded[..|padded| - 1] == text + Repeat('=', n - 1);
      UnpaddedDrops(text, n - 1);
    }
  }

  lemma UrlKeepsLength(text: string, n: nat)
    ensures Url(text + Repeat('=', n)) == Url(text) + Repeat('=', n) && |Url(text)| == |text|
  {
  }

  lemma {:induction false} EncodeIsUrl(bytes: seq<Byte>)
    ensures Base64UrlEncode(bytes) == Url(Sextets(bytes))
  {
    var text := Sextets(bytes);
    BtoaPads(bytes);
    UrlKeepsLength(text, Padding(|bytes|));
    SextetsAreAlphabet(bytes);
    forall c | c in Url(text) ensures c != '=' {
      var j :| 0 <= j < |Url(text)| && Url(text)[j] == c;
      assert text[j] in text;
    }
    UnpaddedDrops(Url(text), Padding(|bytes|));
  }

  lemma UrlInverts(text: string)
    requires forall c <- text :: IsAlphabet(c)
    ensures Replace(Replace(Url(text), '-', '+'), '_', '/') == text
  {
    forall j | 0 <= j < |text| ensures text[j] != '-' && text[j] != '_' {
      assert text[j] in text;
    }
  }

  lemma {:induction false} StrippedKeeps(text: string)
    requires forall c <- text :: !IsAsciiSpace(c)
    ensures Stripped(text) == text
  {
    if text != "" {
      assert text[0] in text && text == [text[0]] + text[1..];
      StrippedKeeps(text[1..]);
    }
  }

  lemma UnpadsAgain(text: string, n: nat)
    requires n <= 2 && (|text| + n) % 4 == 0 && (text == "" ==> n == 0) && (text != "" ==> text[|text| - 1] != '=')
    ensures WithoutPadding(text + Repeat('=', n)) == text
  {
    var padded := text + Repeat('=', n);
    PaddedShape(text, n);
    if text != "" {
      assert padded[|text| - 1] == text[|text| - 1];
    }
  }

  lemma PaddedShape(text: string, n: nat)
    ensures var padded := text + Repeat('=', n);
            && |padded| == |text| + n && padded[..|padded| - n] == text
            && (forall j | |text| <= j < |padded| :: padded[j] == '=')
            && (forall j | 0 <= j < |text| :: padded[j] == text[j])
  {
  }

  lemma {:induction false} AtobPadded(text: string, n: nat)
    requires (forall c <- text :: IsAlphabet(c)) && n <= 2 && (|text| + n) % 4 == 0 && (text == "" ==> n == 0)
    ensures Atob(text + Repeat('=', n)) == Groups(text)
  {
    var padded := text + Repeat('=', n);
    PaddedShape(text, n);
    forall c | c in padded ensures !IsAsciiSpace(c) {
      assert c in text || c == '=';
    }
    StrippedKeeps(padded);
    if text != "" {
      assert text[|text| - 1] in text;
    }
    UnpadsAgain(text, n);
  }

  lemma PaddingAgain(text: string, pad: nat)
    requires pad <= 2 && (|text| + pad) % 4 == 0
    ensures Padded(text) == text + Repeat('=', pad)
  {
    assert (4 - |text| % 4) % 4 == pad;
  }

  /** Decoding restores the alphabet and the padding. */
  lemma DecodeUrl(text: string, pad: nat)
    requires (forall c <- text :: IsAlphabet(c)) && pad <= 2 && (|text| + pad) % 4 == 0 && (text == "" ==> pad == 0)
    ensures Base64UrlDecode(Url(text)) == Groups(text)
  {
    UrlInverts(text);
    PaddingAgain(text, pad);
    AtobPadded(text, pad);
  }

  /** Every byte sequence survives encoding and decoding. */
  lemma {:induction false} Base64UrlRoundTrip(bytes: seq<Byte>)
    ensures Base64UrlDecode(Base64UrlEncode(bytes)) == Some(bytes)
  {
    EncodeIsUrl(bytes);
    SextetsAreAlphabet(bytes);
    BtoaPads(bytes);
    DecodeUrl(Sextets(bytes), Padding(|bytes|));
    GroupsInvert(bytes);
  }

  // What decodes

  lemma {:induction false} GroupsDefined(text: string)
    ensures Groups(text).Some? <==> |text| % 4 != 1 && forall c <- text :: IsAlphabet(c)
    decreases |text|
  {
    if |text| >= 4 {
      GroupsDefined(text[4..]);
      CharsByIndex(text[..4]);
      assert text == text[..4] + text[4..] && forall j | 0 <= j < 4 :: text[..4][j] == text[j];
      assert (forall c <- text :: IsAlphabet(c))
        <==> (forall c <- text[..4] :: IsAlphabet(c)) && (forall c <- text[4..] :: IsAlphabet(c));
    } else {
      FewChars(text);
    }
  }

  lemma FewChars(text: string)
    requires |text| < 4
    ensures Groups(text).Some? <==> |text| != 1 && forall c <- text :: IsAlphabet(c)
  {
    CharsByIndex(text);
  }

  lemma CharsByIndex(text: string)
    ensures (forall c <- text :: IsAlphabet(c)) <==> forall j | 0 <= j < |text| :: IsAlphabet(text[j])
  {
    forall j | 0 <= j < |text| ensures text[j] in text {
    }
  }

  function Standard(input: string): string {
    Replace(Replace(input, '-', '+'), '_', '/')
  }

  lemma UpperCase(c: char)
    ensures c in UPPER_CASE <==> 'A' <= c <= 'Z'
  {
    if 'A' <= c <= 'Z' {
      assert UPPER_CASE[c as int - 'A' as int] == c;
    }
  }

  lemma LowerCase(c: char)
    ensures c in LOWER_CASE <==> 'a' <= c <= 'z'
  {
    if 'a' <= c <= 'z' {
      assert LOWER_CASE[c as int - 'a' as int] == c;
    }
  }

  lemma DigitsAndSigns(c: char)
    ensures c in "0123456789-_" <==> '0' <= c <= '9' || c == '-' || c == '_'
  {
    if '0' <= c <= '9' {
      assert "0123456789-_"[c as int - '0' as int] == c;
    }
  }

  lemma StandardChar(c: char)
    ensures IsAlphabet(Standard([c])[0]) <==> c in URL_ALPHABET + "+/"
  {
    UpperCase(c);
    LowerCase(c);
    DigitsAndSigns(c);
    assert c in URL_ALPHABET + "+/" <==> c in UPPER_CASE || c in LOWER_CASE || c in "0123456789-_" || c in "+/";
  }

  lemma StandardChars(input: string)
    ensures |Standard(input)| == |input| && forall j | 0 <= j < |input| :: Standard(input)[j] == Standard([input[j]])[0]
    ensures (forall c <- Standard(input) :: IsAlphabet(c)) <==> (forall c <- input :: c in URL_ALPHABET + "+/")
  {
    var text := Standard(input);
    forall j | 0 <= j < |input|
      ensures text[j] == Standard([input[j]])[0] && (IsAlphabet(text[j]) <==> input[j] in URL_ALPHABET + "+/")
    {
      StandardChar(input[j]);
    }
    if forall c <- text :: IsAlphabet(c) {
      forall c | c in input ensures c in URL_ALPHABET + "+/" {
        var j :| 0 <= j < |input| && input[j] == c;
        assert text[j] in text;
      }
    }
    if forall c <- input :: c in URL_ALPHABET + "+/" {
      forall c | c in text ensures IsAlphabet(c) {
        var j :| 0 <= j < |text| && text[j] == c;
        assert input[j] in input;
      }
    }
  }

  /** A text of the wrong length gets three padding characters, of which one stays. */
  lemma OneStays(text: string)
    requires |text| % 4 == 1 && forall c <- text :: c != '=' && !IsAsciiSpace(c)
    ensures Atob(text + Repeat('=', 3)) == None
  {
    var padded := text + Repeat('=', 3);
    PaddedShape(text, 3);
    PlainIsKept(text, 3);
    assert WithoutPadding(padded) == padded[..|padded| - 2];
    assert padded[..|padded| - 2][|text|] == '=' && '=' in padded[..|padded| - 2];
    GroupsDefined(padded[..|padded| - 2]);
  }

  lemma PlainIsKept(text: string, n: nat)
    requires forall c <- text :: !IsAsciiSpace(c)
    ensures Stripped(text + Repeat('=', n)) == text + Repeat('=', n)
  {
    forall c | c in text + Repeat('=', n) ensures !IsAsciiSpace(c) {
      assert c in text || c == '=';
    }
    StrippedKeeps(text + Repeat('=', n));
  }

  lemma PlainAtob(text: string, n: nat)
    requires (forall c <- text :: c != '=' && !IsAsciiSpace(c)) && n <= 2 && (|text| + n) % 4 == 0
    ensures Atob(text + Repeat('=', n)) == Groups(text)
  {
    PlainIsKept(text, n);
    if text == "" {
      assert n == 0 && text + Repeat('=', n) == "";
    } else {
      assert text[|text| - 1] in text;
    }
    UnpadsAgain(text, n);
  }

  lemma PlainStandard(input: string)
    requires forall c <- input :: c != '=' && !IsAsciiSpace(c)
    ensures forall c <- Standard(input) :: c != '=' && !IsAsciiSpace(c)
  {
    forall c | c in Standard(input) ensures c != '=' && !IsAsciiSpace(c) {
      var j :| 0 <= j < |Standard(input)| && Standard(input)[j] == c;
      assert input[j] in input;
    }
  }

  /** A text without padding and white space decodes exactly if no group holds one character and none is foreign. */
  lemma DecodingLaw(input: string)
    requires forall c <- input :: c != '=' && !IsAsciiSpace(c)
    ensures Base64UrlDecode(input).Some? <==> |input| % 4 != 1 && forall c <- input :: c in URL_ALPHABET + "+/"
  {
    var text := Standard(input);
    StandardChars(input);
    PlainStandard(input);
    GroupsDefined(text);
    if |input| % 4 == 1 {
      OneStays(text);
      assert Padded(text) == text + Repeat('=', 3);
    } else {
      var n := (4 - |text| % 4) % 4;
      PlainAtob(text, n);
      PaddingAgain(text, n);
    }
  }

  // The framing

  predicate IsUrlChar(c: char) {
    IsAlphabet(c) || c == '-' || c == '_'
  }

  lemma {:induction false} EncodedChars(bytes: seq<Byte>)
    ensures forall c <- Base64UrlEncode(bytes) :: IsUrlChar(c)
    ensures bytes != [] ==> Base64UrlEncode(bytes) != ""
  {
    var text := Sextets(bytes);
    EncodeIsUrl(bytes);
    SextetsAreAlphabet(bytes);
    forall c | c in Url(text) ensures IsUrlChar(c) {
      var j :| 0 <= j < |Url(text)| && Url(text)[j] == c;
      assert text[j] in text;
    }
  }

  lemma {:induction false} LastDotBefore(a: string, b: string)
    requires forall j | 0 <= j < |b| :: b[j] != '.'
    ensures LastDot(a + "." + b) == |a|
    decreases |b|
  {
    var s := a + "." + b;
    if b == "" {
      assert s[|s| - 1] == '.';
    } else {
      assert s[|s| - 1] == b[|b| - 1];
      assert s[..|s| - 1] == a + "." + b[..|b| - 1];
      LastDotBefore(a, b[..|b| - 1]);
    }
  }

  lemma NotTrimmed(s: string)
    requires s != "" && (IsUrlChar(s[0]) || s[0] == '.') && IsUrlChar(s[|s| - 1])
    ensures Trim(s) == s
  {
    TrimJoined("", s, "");
    assert "" + (s + "") == s;
  }

  /** Decoding an encoded state returns it exactly if neither part is empty. */
  lemma {:induction false} StateRoundTrip(codec: Codec, sessionId: string, nonce: string, secret: string)
    requires Sound(codec)
    ensures Decode(codec, Encode(codec, sessionId, nonce, secret), secret)
            == if sessionId != "" && nonce != "" then Some(State(sessionId, nonce)) else None
  {
    var bytes := codec.write(State(sessionId, nonce));
    var payload := Base64UrlEncode(bytes);
    var sig := codec.mac(secret, payload);
    var state := payload + "." + sig;
    EncodedChars(bytes);
    assert IsHex(sig);
    assert sig[|sig| - 1] in sig && payload[0] in payload;
    NotTrimmed(state);
    forall j | 0 <= j < |sig| ensures sig[j] != '.' {
      assert sig[j] in sig;
    }
    LastDotBefore(payload, sig);
    assert state[..|payload|] == payload && state[|payload| + 1..] == sig;
    Base64UrlRoundTrip(bytes);
  }

  /** A state whose signature part is not the code of its payload part is refused, whatever it holds. */
  lemma {:induction false} WrongSignatureIsRefused(codec: Codec, payload: string, sig: string, secret: string)
    requires (forall j | 0 <= j < |sig| :: sig[j] != '.') && Trim(payload + "." + sig) == payload + "." + sig
    requires Lower(sig) != Lower(codec.mac(secret, payload))
    ensures Decode(codec, payload + "." + sig, secret).None?
  {
    LastDotBefore(payload, sig);
    var state := payload + "." + sig;
    assert state[..|payload|] == payload && state[|payload| + 1..] == sig;
  }

  /** `b` is `a`, perhaps with other cases of letters. */
  predicate SameLetters(a: string, b: string) {
    |a| == |b|
    && forall j | 0 <= j < |a| ::
         || a[j] == b[j]
         || ('A' <= a[j] <= 'Z' && b[j] as int == a[j] as int + 32)
         || ('A' <= b[j] <= 'Z' && a[j] as int == b[j] as int + 32)
  }

  /** A signature in other letter cases is as good as the code itself. */
  lemma {:induction false} CaseIsIgnored(codec: Codec, payload: string, sig: string, secret: string)
    requires payload != "" && sig != "" && (forall j | 0 <= j < |sig| :: sig[j] != '.')
    requires Trim(payload + "." + sig) == payload + "." + sig && SameLetters(sig, codec.mac(secret, payload))
    ensures Decode(codec, payload + "." + sig, secret)
            == var bytes := Base64UrlDecode(payload);
               var parsed := if bytes.Some? then codec.read(bytes.value) else None;
               if parsed.Some? && parsed.value.sessionId != "" && parsed.value.nonce != "" then parsed else None
  {
    LastDotBefore(payload, sig);
    var state := payload + "." + sig;
    assert state[..|payload|] == payload && state[|payload| + 1..] == sig;
    assert Lower(sig) == Lower(codec.mac(secret, payload));
  }
}
