/** Turning the configured push public key into the bytes the browser's push
    subscription takes. The key is written in the URL-safe base64 alphabet
    of section 5 of RFC 4648, without padding; the client pads it, maps it to
    the standard alphabet of section 4, decodes it with `atob` into a string
    of character codes below 256, and copies those codes into a byte array. */
module PushKey {
  import opened Wrappers
  import opened Seqs

  predicate IsByte(x: int) {
    0 <= x < 256
  }

  predicate AllBytes(b: seq<int>) {
    forall i :: 0 <= i < |b| ==> IsByte(b[i])
  }

  predicate IsSextet(x: int) {
    0 <= x < 64
  }

  predicate AllSextets(v: seq<int>) {
    forall i :: 0 <= i < |v| ==> IsSextet(v[i])
  }

  /** `(4 - len % 4) % 4`: how many '=' make the length a multiple of four. */
  function Padding(len: nat): (n: nat)
    ensures n < 4
    ensures (len + n) % 4 == 0
    ensures n == 0 <==> len % 4 == 0
  {
    (4 - len % 4) % 4
  }

  function Repeat(c: char, n: nat): (r: string)
    ensures |r| == n
    ensures forall i :: 0 <= i < n ==> r[i] == c
  {
    seq(n, i requires 0 <= i < n => c)
  }

  /** The key with its '=' padding appended. */
  function Padded(s: string): (r: string)
    ensures |r| >= |s| && |r| % 4 == 0
    ensures r[..|s|] == s
    ensures forall i :: |s| <= i < |r| ==> r[i] == '='
    ensures |r| - |s| < 4
  {
    s + Repeat('=', Padding(|s|))
  }

  function ToStandardChar(c: char): char {
    if c == '-' then '+' else if c == '_' then '/' else c
  }

  /** `.replace(/-/g, '+').replace(/_/g, '/')`. */
  function ToStandard(s: string): (r: string)
    ensures |r| == |s|
    ensures forall i :: 0 <= i < |s| ==>
              (s[i] == '-' ==> r[i] == '+') && (s[i] == '_' ==> r[i] == '/')
              && (s[i] != '-' && s[i] != '_' ==> r[i] == s[i])
  {
    seq(|s|, i requires 0 <= i < |s| => ToStandardChar(s[i]))
  }

  /** The character for a 6-bit value in the standard alphabet (Table 1 of
      RFC 4648). */
  function StdChar(v: int): (c: char)
    requires IsSextet(v)
    ensures c != '=' && c != '-' && c != '_'
  {
    if v < 26 then ('A' as int + v) as char
    else if v < 52 then ('a' as int + (v - 26)) as char
    else if v < 62 then ('0' as int + (v - 52)) as char
    else if v == 62 then '+'
    else '/'
  }

  /** The character for a 6-bit value in the URL-safe alphabet (Table 2 of
      RFC 4648): the standard one with '-' and '_' for 62 and 63. */
  function UrlChar(v: int): (c: char)
    requires IsSextet(v)
  {
    if v == 62 then '-' else if v == 63 then '_' else StdChar(v)
  }

  /** The value of a standard-alphabet character; anything else (including
      '=' and the URL-safe characters) has none. */
  function StdValue(c: char): (r: Option<int>)
    ensures r.Some? ==> IsSextet(r.value) && StdChar(r.value) == c
  {
    if 'A' <= c <= 'Z' then Some(c as int - 'A' as int)
    else if 'a' <= c <= 'z' then Some(c as int - 'a' as int + 26)
    else if '0' <= c <= '9' then Some(c as int - '0' as int + 52)
    else if c == '+' then Some(62)
    else if c == '/' then Some(63)
    else None
  }

  lemma StdValueOfStdChar(v: int)
    requires IsSextet(v)
    ensures StdValue(StdChar(v)) == Some(v)
  {
  }

  predicate InAlphabet(s: string) {
    forall i :: 0 <= i < |s| ==> StdValue(s[i]).Some?
  }

  function ValuesOf(s: string): (v: seq<int>)
    requires InAlphabet(s)
    ensures |v| == |s| && AllSextets(v)
  {
    seq(|s|, i requires 0 <= i < |s| => StdValue(s[i]).value)
  }

  /** `atob` drops one or two trailing '=' from text whose length is a
      multiple of four. */
  function StripPadding(s: string): (r: string)
    ensures |r| <= |s| && |s| - |r| <= 2 && r == s[..|r|]
    ensures forall i :: |r| <= i < |s| ==> s[i] == '='
    ensures |r| < |s| ==> |s| % 4 == 0
  {
    if |s| % 4 == 0 && |s| >= 2 && s[|s| - 1] == '=' && s[|s| - 2] == '=' then s[..|s| - 2]
    else if |s| % 4 == 0 && |s| >= 1 && s[|s| - 1] == '=' then s[..|s| - 1]
    else s
  }

  /** Four characters carry three bytes; a final two or three carry one or
      two, their leftover low bits dropped. */
  function DecodeValues(v: seq<int>): (b: seq<int>)
    requires AllSextets(v)
    ensures AllBytes(b)
    decreases |v|
  {
    if |v| < 2 then []
    else if |v| == 2 then [v[0] * 4 + v[1] / 16]
    else if |v| == 3 then [v[0] * 4 + v[1] / 16, (v[1] % 16) * 16 + v[2] / 4]
    else [v[0] * 4 + v[1] / 16, (v[1] % 16) * 16 + v[2] / 4, (v[2] % 4) * 64 + v[3]] + DecodeValues(v[4..])
  }

  /** A string of character codes below 256, as `atob` returns. */
  function BinaryString(b: seq<int>): (s: string)
    requires AllBytes(b)
    ensures |s| == |b|
    ensures forall i :: 0 <= i < |b| ==> s[i] as int == b[i]
  {
    seq(|b|, i requires 0 <= i < |b| => b[i] as char)
  }

  /** `window.atob` on text in the standard alphabet: after the padding is
      dropped, a length of the form 4k+1 or a character outside the alphabet
      is an error (`None`). */
  function Atob(s: string): (r: Option<string>)
    ensures r.Some? ==> var t := StripPadding(s);
                        |t| % 4 != 1 && InAlphabet(t) && r.value == BinaryString(DecodeValues(ValuesOf(t)))
    ensures r.None? ==> var t := StripPadding(s);
                        |t| % 4 == 1 || exists i :: 0 <= i < |t| && StdValue(t[i]).None?
  {
    var t := StripPadding(s);
    if |t| % 4 == 1 || !InAlphabet(t) then None
    else Some(BinaryString(DecodeValues(ValuesOf(t))))
  }

  /** The copy loop of `urlBase64ToUint8Array`: element `i` of the byte
      array gets the character code of `raw[i]`, truncated to 8 bits as a
      `Uint8Array` stores it. */
  method CopyCharCodes(raw: string) returns (out: seq<int>)
    ensures |out| == |raw|
    ensures forall i :: 0 <= i < |raw| ==> out[i] == (raw[i] as int) % 256
  {
    var a := new int[|raw|];
    var i := 0;
    while i < |raw|
      invariant 0 <= i <= |raw|
      invariant forall j :: 0 <= j < i ==> a[j] == (raw[j] as int) % 256
    {
      a[i] := (raw[i] as int) % 256;
      i := i + 1;
    }
    out := a[..];
  }

  /** `urlBase64ToUint8Array`: `None` stands for the exception `atob` throws. */
  method UrlBase64ToUint8Array(key: string) returns (r: Option<seq<int>>)
    ensures r.None? <==> Atob(ToStandard(Padded(key))).None?
    ensures r.Some? ==> r.value == CharCodes(Atob(ToStandard(Padded(key))).value)
  {
    var decoded := Atob(ToStandard(Padded(key)));
    if decoded.None? {
      return None;
    }
    var out := CopyCharCodes(decoded.value);
    return Some(out);
  }

  /** The same computation as a function, for stating properties. */
  function CharCodes(raw: string): (b: seq<int>)
    ensures |b| == |raw| && AllBytes(b)
  {
    seq(|raw|, i requires 0 <= i < |raw| => (raw[i] as int) % 256)
  }

  function KeyBytes(key: string): Option<seq<int>> {
    match Atob(ToStandard(Padded(key)))
    case None => None
    case Some(raw) => Some(CharCodes(raw))
  }

  datatype SubscribeError = KeyNotConfigured | InvalidCharacter

  /** The key check of `subscribeToPushNotifications`: an absent or empty key
      is refused before anything is decoded. */
  function SubscribeKey(publicKey: Option<string>): (r: Result<seq<int>, SubscribeError>)
    ensures (publicKey.None? || publicKey.value == "") <==> r == Failure(KeyNotConfigured)
    ensures publicKey.Some? && publicKey.value != "" ==>
              (r.Success? <==> KeyBytes(publicKey.value).Some?)
              && (r.Success? ==> r.value == KeyBytes(publicKey.value).value)
  {
    match publicKey
    case None => Failure(KeyNotConfigured)
    case Some(key) =>
      if key == "" then Failure(KeyNotConfigured)
      else match KeyBytes(key)
        case None => Failure(InvalidCharacter)
        case Some(b) => Success(b)
  }

  // ---- The encoding side, to state what decoding undoes ----

  /** Three bytes to four 6-bit values; a final one or two bytes to two or
      three values, the free low bits zero (section 4 of RFC 4648). */
  function EncodeValues(b: seq<int>): (v: seq<int>)
    requires AllBytes(b)
    ensures AllSextets(v)
    ensures |v| == 4 * (|b| / 3) + (if |b| % 3 == 0 then 0 else |b| % 3 + 1)
    decreases |b|
  {
    if |b| == 0 then []
    else if |b| == 1 then [b[0] / 4, (b[0] % 4) * 16]
    else if |b| == 2 then [b[0] / 4, (b[0] % 4) * 16 + b[1] / 16, (b[1] % 16) * 4]
    else [b[0] / 4, (b[0] % 4) * 16 + b[1] / 16, (b[1] % 16) * 4 + b[2] / 64, b[2] % 64] + EncodeValues(b[3..])
  }

  /** Base64url text without padding, as the public key is configured. */
  function EncodeUrl(b: seq<int>): (s: string)
    requires AllBytes(b)
    ensures |s| == |EncodeValues(b)|
  {
    var v := EncodeValues(b);
    seq(|v|, i requires 0 <= i < |v| => UrlChar(v[i]))
  }

  /** Standard-alphabet text of the same values, without padding. */
  function StdText(v: seq<int>): (s: string)
    requires AllSextets(v)
    ensures |s| == |v|
  {
    seq(|v|, i requires 0 <= i < |v| => StdChar(v[i]))
  }

  /** Decoding undoes encoding, group by group. */
  lemma {:induction false} DecodeEncodeValues(b: seq<int>)
    requires AllBytes(b)
    ensures DecodeValues(EncodeValues(b)) == b
    decreases |b|
  {
    if |b| >= 3 {
      DecodeEncodeValues(b[3..]);
      GroupRoundTrip(b[0], b[1], b[2]);
      var v := EncodeValues(b);
      assert v[4..] == EncodeValues(b[3..]);
      assert b == [b[0], b[1], b[2]] + b[3..];
    } else if |b| == 2 {
      GroupRoundTrip(b[0], b[1], 0);
    } else if |b| == 1 {
      GroupRoundTrip(b[0], 0, 0);
    }
  }

  lemma GroupRoundTrip(b0: int, b1: int, b2: int)
    requires IsByte(b0) && IsByte(b1) && IsByte(b2)
    ensures var v1 := (b0 % 4) * 16 + b1 / 16;
            var v2 := (b1 % 16) * 4 + b2 / 64;
            (b0 / 4) * 4 + v1 / 16 == b0
            && (v1 % 16) * 16 + v2 / 4 == b1
            && (v2 % 4) * 64 + b2 % 64 == b2
            && ((b0 % 4) * 16) / 16 == b0 % 4
            && ((b1 % 16) * 4) / 4 == b1 % 16
  {
    var v1 := (b0 % 4) * 16 + b1 / 16;
    var v2 := (b1 % 16) * 4 + b2 / 64;
    assert v1 / 16 == b0 % 4 && v1 % 16 == b1 / 16;
    assert v2 / 4 == b1 % 16 && v2 % 4 == b2 / 64;
  }

  /** The client's preparation of an unpadded base64url key yields the
      padded standard-alphabet text of the same values. */
  lemma {:induction false} PreparedKeyIsStandard(b: seq<int>)
    requires AllBytes(b)
    ensures var v := EncodeValues(b);
            ToStandard(Padded(EncodeUrl(b))) == StdText(v) + Repeat('=', Padding(|v|))
  {
    var v := EncodeValues(b);
    var url := EncodeUrl(b);
    var lhs := ToStandard(Padded(url));
    var rhs := StdText(v) + Repeat('=', Padding(|v|));
    assert |lhs| == |rhs|;
    forall i | 0 <= i < |lhs| ensures lhs[i] == rhs[i] {
      if i < |v| {
        assert Padded(url)[i] == url[i] == UrlChar(v[i]);
      }
    }
  }

  /** The padding the client adds is exactly what `atob` drops. */
  lemma StripStdPadding(v: seq<int>)
    requires AllSextets(v) && |v| % 4 != 1
    ensures StripPadding(StdText(v) + Repeat('=', Padding(|v|))) == StdText(v)
  {
    var text := StdText(v);
    var s := text + Repeat('=', Padding(|v|));
    if |v| % 4 == 2 {
      assert s[..|s| - 2] == text;
    } else if |v| % 4 == 3 {
      assert s[..|s| - 1] == text;
    } else {
      assert s == text;
      if |text| > 0 {
        assert text[|text| - 1] == StdChar(v[|v| - 1]);
      }
    }
  }

  /** Standard text reads back as the values it was written from. */
  lemma ValuesOfStdText(v: seq<int>)
    requires AllSextets(v)
    ensures InAlphabet(StdText(v)) && ValuesOf(StdText(v)) == v
  {
    var text := StdText(v);
    forall i | 0 <= i < |v| ensures StdValue(text[i]) == Some(v[i]) {
      StdValueOfStdChar(v[i]);
    }
  }

  /** `atob` reads the padded standard text back as the values' bytes. */
  lemma AtobOfStandard(v: seq<int>)
    requires AllSextets(v) && |v| % 4 != 1
    ensures Atob(StdText(v) + Repeat('=', Padding(|v|))) == Some(BinaryString(DecodeValues(v)))
  {
    StripStdPadding(v);
    ValuesOfStdText(v);
  }

  /** Decoding a key undoes encoding it: any bytes written as unpadded
      base64url come back unchanged from the client's conversion. */
  lemma KeyRoundTrip(b: seq<int>)
    requires AllBytes(b)
    ensures KeyBytes(EncodeUrl(b)) == Some(b)
  {
    var v := EncodeValues(b);
    var prepared := StdText(v) + Repeat('=', Padding(|v|));
    assert ToStandard(Padded(EncodeUrl(b))) == prepared by {
      PreparedKeyIsStandard(b);
    }
    assert |v| % 4 != 1;
    assert Atob(prepared) == Some(BinaryString(b)) by {
      AtobOfStandard(v);
      DecodeEncodeValues(b);
    }
    CharCodesOfBinaryString(b);
  }

  lemma CharCodesOfBinaryString(b: seq<int>)
    requires AllBytes(b)
    ensures CharCodes(BinaryString(b)) == b
  {
  }
}
