/** The base64url codec and the framing of the signed OAuth state. */
module OAuthState {
  import opened Results
  import opened Templates

  type Byte = b: int | 0 <= b < 256

  /** Table 1 of RFC 4648. */
  function Digit(k: int): char
    requires 0 <= k < 64
  {
    if k < 26 then ('A' as int + k) as char
    else if k < 52 then ('a' as int + k - 26) as char
    else if k < 62 then ('0' as int + k - 52) as char
    else if k == 62 then '+'
    else '/'
  }

  /** The value of a character of the standard alphabet. */
  function DigitValue(c: char): (r: Option<int>)
    ensures r.Some? ==> 0 <= r.value < 64
  {
    if 'A' <= c <= 'Z' then Some(c as int - 'A' as int)
    else if 'a' <= c <= 'z' then Some(c as int - 'a' as int + 26)
    else if '0' <= c <= '9' then Some(c as int - '0' as int + 52)
    else if c == '+' then Some(62)
    else if c == '/' then Some(63)
    else None
  }

  /** Three bytes as four characters. */
  function Quad(x: Byte, y: Byte, z: Byte): (text: string)
    ensures |text| == 4
  {
    [Digit(x / 4), Digit(x % 4 * 16 + y / 16), Digit(y % 16 * 4 + z / 64), Digit(z % 64)]
  }

  /** `btoa`: three bytes in four characters, the last group padded. */
  function Btoa(bytes: seq<Byte>): string {
    if bytes == [] then ""
    else if |bytes| == 1 then [Digit(bytes[0] / 4), Digit(bytes[0] % 4 * 16), '=', '=']
    else if |bytes| == 2 then
      [Digit(bytes[0] / 4), Digit(bytes[0] % 4 * 16 + bytes[1] / 16), Digit(bytes[1] % 16 * 4), '=']
    else Quad(bytes[0], bytes[1], bytes[2]) + Btoa(bytes[3..])
  }

  function Put(bytes: seq<Byte>, r: Option<seq<Byte>>): Option<seq<Byte>> {
    if r.Some? then Some(bytes + r.value) else None
  }

  predicate IsAsciiSpace(c: char) {
    c == '\t' || c == '\n' || c == '\U{0C}' || c == '\r' || c == ' '
  }

  function Stripped(text: string): string {
    if text == "" then "" else (if IsAsciiSpace(text[0]) then "" else [text[0]]) + Stripped(text[1..])
  }

  predicate EndsInPadding(text: string, k: nat) {
    k <= |text| && forall j | |text| - k <= j < |text| :: text[j] == '='
  }

  /** One or two padding characters are taken off a text of full groups. */
  function WithoutPadding(text: string): string {
    if |text| % 4 != 0 || text == "" then text
    else if EndsInPadding(text, 2) then text[..|text| - 2]
    else if EndsInPadding(text, 1) then text[..|text| - 1]
    else text
  }

  /** `atob`: white space is ignored, padding is taken off, and no group may hold one character. */
  function Atob(data: string): Option<seq<Byte>> {
    Groups(WithoutPadding(Stripped(data)))
  }

  /** Characters of the alphabet, four at a time; bits behind the last byte are dropped. */
  function Groups(text: string): Option<seq<Byte>> {
    if text == "" then Some([])
    else if |text| == 1 then None
    else
      var a, b := DigitValue(text[0]), DigitValue(text[1]);
      if a.None? || b.None? then None
      else if |text| == 2 then Some([a.value * 4 + b.value / 16])
      else
        var c := DigitValue(text[2]);
        if c.None? then None
        else if |text| == 3 then Some([a.value * 4 + b.value / 16, b.value % 16 * 16 + c.value / 4])
        else
          var d := DigitValue(text[3]);
          if d.None? then None
          else Put([a.value * 4 + b.value / 16, b.value % 16 * 16 + c.value / 4, c.value % 4 * 64 + d.value],
                   Groups(text[4..]))
  }

  function Replace(text: string, from: char, to: char): string {
    seq(|text|, j requires 0 <= j < |text| => if text[j] == from then to else text[j])
  }

  /** `replace(/=+$/, '')`. */
  function Unpadded(text: string): string {
    if text != "" && text[|text| - 1] == '=' then Unpadded(text[..|text| - 1]) else text
  }

  function Repeat(c: char, n: nat): string {
    seq(n, _ => c)
  }

  function Base64UrlEncode(bytes: seq<Byte>): string {
    Unpadded(Replace(Replace(Btoa(bytes), '+', '-'), '/', '_'))
  }

  function Base64UrlDecode(input: string): Option<seq<Byte>> {
    Atob(Padded(Replace(Replace(input, '-', '+'), '_', '/')))
  }

  function Padded(base64: string): string {
    base64 + Repeat('=', (4 - |base64| % 4) % 4)
  }

  /** A string of characters below 256, as `String.fromCharCode` gives them and `charCodeAt` reads them. */
  function Binary(bytes: seq<Byte>): (binary: string)
    ensures |binary| == |bytes| && forall j | 0 <= j < |binary| :: binary[j] < '\U{0100}'
  {
    seq(|bytes|, j requires 0 <= j < |bytes| => bytes[j] as char)
  }

  function Codes(binary: string): seq<Byte>
    requires forall j | 0 <= j < |binary| :: binary[j] < '\U{0100}'
  {
    seq(|binary|, j requires 0 <= j < |binary| => binary[j] as int)
  }

  lemma CodesInvert(bytes: seq<Byte>)
    ensures Codes(Binary(bytes)) == bytes
  {
  }

  method EncodeBytes(bytes: seq<Byte>) returns (text: string)
    ensures text == Base64UrlEncode(bytes)
  {
    var binary := "";
    for i := 0 to |bytes|
      invariant binary == Binary(bytes[..i])
    {
      assert bytes[..i + 1] == bytes[..i] + [bytes[i]];
      binary := binary + [bytes[i] as char];
    }
    assert bytes[..|bytes|] == bytes;
    CodesInvert(bytes);
    text := Unpadded(Replace(Replace(Btoa(Codes(binary)), '+', '-'), '/', '_'));
  }

  method DecodeText(input: string) returns (ok: bool, bytes: array<Byte>)
    ensures ok <==> Base64UrlDecode(input).Some?
    ensures ok ==> fresh(bytes) && bytes[..] == Base64UrlDecode(input).value
  {
    var base64 := Replace(Replace(input, '-', '+'), '_', '/');
    var decoded := Atob(Padded(base64));
    ok := decoded.Some?;
    bytes := FillBytes(if ok then Binary(decoded.value) else "");
    if ok {
      CodesInvert(decoded.value);
    }
  }

  method FillBytes(binary: string) returns (bytes: array<Byte>)
    requires forall j | 0 <= j < |binary| :: binary[j] < '\U{0100}'
    ensures fresh(bytes) && bytes[..] == Codes(binary)
  {
    bytes := new Byte[|binary|];
    for i := 0 to |binary|
      invariant forall j | 0 <= j < i :: bytes[j] == binary[j] as int
    {
      bytes[i] := binary[i] as int;
    }
  }

  // The framing

  datatype State = State(sessionId: string, nonce: string)

  /** The message authentication code in hexadecimal, and JSON in UTF-8; reading may fail. */
  datatype Codec = Codec(mac: (string, string) -> string, write: State -> seq<Byte>, read: seq<Byte> -> Option<State>)

  predicate IsHex(s: string) {
    s != "" && forall c <- s :: '0' <= c <= '9' || 'a' <= c <= 'f'
  }

  /** The code is a non-empty hexadecimal text, JSON texts are not empty, and reading inverts writing. */
  ghost predicate Sound(codec: Codec) {
    && (forall secret, message :: IsHex(codec.mac(secret, message)))
    && (forall s :: codec.write(s) != [] && codec.read(codec.write(s)) == Some(s))
  }

  function Encode(codec: Codec, sessionId: string, nonce: string, secret: string): string {
    var payload := Base64UrlEncode(codec.write(State(sessionId, nonce)));
    payload + "." + codec.mac(secret, payload)
  }

  /** `toLowerCase`, which matters for hexadecimal digits only. */
  function Lower(s: string): string {
    seq(|s|, j requires 0 <= j < |s| => if 'A' <= s[j] <= 'Z' then (s[j] as int + 32) as char else s[j])
  }

  function LastDot(s: string): (r: int)
    ensures -1 <= r < |s| && (r >= 0 ==> s[r] == '.')
  {
    if s == "" then -1 else if s[|s| - 1] == '.' then |s| - 1 else LastDot(s[..|s| - 1])
  }

  function Decode(codec: Codec, state: string, secret: string): Option<State> {
    var trimmed := Trim(state);
    var dot := LastDot(trimmed);
    if dot <= 0 then None
    else
      var payload, sig := trimmed[..dot], trimmed[dot + 1..];
      if sig == "" || Lower(sig) != Lower(codec.mac(secret, payload)) then None
      else
        var bytes := Base64UrlDecode(payload);
        var parsed := if bytes.Some? then codec.read(bytes.value) else None;
        if parsed.Some? && parsed.value.sessionId != "" && parsed.value.nonce != "" then parsed else None
  }
}
