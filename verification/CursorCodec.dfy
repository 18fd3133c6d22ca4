/** Opaque cursors: a JSON pair in base64url (RFC 4648, sections 3.2 and 5) with the padding
    stripped on the way out and put back on the way in. */
module CursorCodec {
  import opened Common

  type Byte = b: int | 0 <= b < 256
  type Sextet = v: int | 0 <= v < 64

  // The alphabet of section 5 by arithmetic on character codes.
  function Digit(v: Sextet): char {
    if v < 26 then 'A' + v as char
    else if v < 52 then 'a' + (v - 26) as char
    else if v < 62 then '0' + (v - 52) as char
    else if v == 62 then '-'
    else '_'
  }

  function Value(c: char): Option<Sextet> {
    if 'A' <= c <= 'Z' then Some((c - 'A') as int)
    else if 'a' <= c <= 'z' then Some((c - 'a') as int + 26)
    else if '0' <= c <= '9' then Some((c - '0') as int + 52)
    else if c == '-' then Some(62)
    else if c == '_' then Some(63)
    else None
  }

  // The two directions of an alphabet. Everything about grouping and padding holds for any alphabet.
  datatype Alphabet = Alphabet(digit: Sextet -> char, value: char -> Option<Sextet>)

  const URL_SAFE := Alphabet(Digit, Value)

  ghost predicate Reversible(alphabet: Alphabet) {
    forall v: Sextet :: alphabet.value(alphabet.digit(v)) == Some(v) && alphabet.digit(v) != '='
  }

  function Tail1(t: Alphabet, a: Byte): string {
    [t.digit(a / 4), t.digit(a % 4 * 16), '=', '=']
  }

  function Tail2(t: Alphabet, a: Byte, b: Byte): string {
    [t.digit(a / 4), t.digit(a % 4 * 16 + b / 16), t.digit(b % 16 * 4), '=']
  }

  function Quad(t: Alphabet, a: Byte, b: Byte, c: Byte): string {
    [t.digit(a / 4), t.digit(a % 4 * 16 + b / 16), t.digit(b % 16 * 4 + c / 64), t.digit(c % 64)]
  }

  function Encode(t: Alphabet, b: seq<Byte>): string {
    if |b| == 0 then ""
    else if |b| == 1 then Tail1(t, b[0])
    else if |b| == 2 then Tail2(t, b[0], b[1])
    else Quad(t, b[0], b[1], b[2]) + Encode(t, b[3..])
  }

  function Bytes1(v: Sextet, w: Sextet): Byte {
    v * 4 + w / 16
  }

  function Bytes2(w: Sextet, x: Sextet): Byte {
    w % 16 * 16 + x / 4
  }

  function Bytes3(x: Sextet, y: Sextet): Byte {
    x % 4 * 64 + y
  }

  function Decode(t: Alphabet, s: string): Option<seq<Byte>> {
    if s == "" then Some([])
    else if |s| < 4 || t.value(s[0]).None? || t.value(s[1]).None? then None
    else
      var v, w := t.value(s[0]).value, t.value(s[1]).value;
      if s[2..] == "==" then Some([Bytes1(v, w)])
      else if t.value(s[2]).None? then None
      else
        var x := t.value(s[2]).value;
        if s[3..] == "=" then Some([Bytes1(v, w), Bytes2(w, x)])
        else if t.value(s[3]).None? || Decode(t, s[4..]).None? then None
        else Some([Bytes1(v, w), Bytes2(w, x), Bytes3(x, t.value(s[3]).value)] + Decode(t, s[4..]).value)
  }

  // str.rstrip("=")
  function RStrip(s: string): string {
    if s != "" && s[|s| - 1] == '=' then RStrip(s[..|s| - 1]) else s
  }

  // value + "=" * (-len(value) % 4)
  function Repad(s: string): string {
    s + seq((-|s|) % 4, _ => '=')
  }

  lemma DigitValue(v: Sextet)
    ensures Value(Digit(v)) == Some(v) && Digit(v) != '='
  {
  }

  lemma UrlSafeIsReversible()
    ensures Reversible(URL_SAFE)
  {
    forall v: Sextet ensures URL_SAFE.value(URL_SAFE.digit(v)) == Some(v) && URL_SAFE.digit(v) != '=' {
      DigitValue(v);
    }
  }

  // Cutting bytes into sextets loses nothing.
  lemma Rejoin(a: Byte, b: Byte, c: Byte)
    ensures Bytes1(a / 4, a % 4 * 16) == a && Bytes1(a / 4, a % 4 * 16 + b / 16) == a
    ensures Bytes2(a % 4 * 16 + b / 16, b % 16 * 4) == b && Bytes2(a % 4 * 16 + b / 16, b % 16 * 4 + c / 64) == b
    ensures Bytes3(b % 16 * 4 + c / 64, c % 64) == c
  {
  }

  lemma DecodeTwoDigits(t: Alphabet, v: Sextet, w: Sextet)
    requires Reversible(t)
    ensures Decode(t, [t.digit(v), t.digit(w), '=', '=']) == Some([Bytes1(v, w)])
  {
    assert [t.digit(v), t.digit(w), '=', '='][2..] == "==";
  }

  lemma DecodeThreeDigits(t: Alphabet, v: Sextet, w: Sextet, x: Sextet)
    requires Reversible(t)
    ensures Decode(t, [t.digit(v), t.digit(w), t.digit(x), '=']) == Some([Bytes1(v, w), Bytes2(w, x)])
  {
    var s := [t.digit(v), t.digit(w), t.digit(x), '='];
    assert s[2..][0] != '=' && s[3..] == "=";
  }

  lemma DecodeFourDigits(t: Alphabet, v: Sextet, w: Sextet, x: Sextet, y: Sextet, rest: string)
    requires Reversible(t) && Decode(t, rest).Some?
    ensures Decode(t, [t.digit(v), t.digit(w), t.digit(x), t.digit(y)] + rest)
            == Some([Bytes1(v, w), Bytes2(w, x), Bytes3(x, y)] + Decode(t, rest).value)
  {
    var s := [t.digit(v), t.digit(w), t.digit(x), t.digit(y)] + rest;
    assert s[2..][0] != '=' && s[3..][0] != '=' && s[4..] == rest;
  }

  lemma DecodeQuad(t: Alphabet, a: Byte, b: Byte, c: Byte, rest: string)
    requires Reversible(t) && Decode(t, rest).Some?
    ensures Decode(t, Quad(t, a, b, c) + rest) == Some([a, b, c] + Decode(t, rest).value)
  {
    Rejoin(a, b, c);
    DecodeFourDigits(t, a / 4, a % 4 * 16 + b / 16, b % 16 * 4 + c / 64, c % 64, rest);
  }

  lemma FirstThree(b: seq<Byte>)
    requires |b| > 2
    ensures b == [b[0], b[1], b[2]] + b[3..]
  {
  }

  lemma {:induction false} DecodeEncode(t: Alphabet, b: seq<Byte>)
    requires Reversible(t)
    ensures Decode(t, Encode(t, b)) == Some(b)
  {
    if |b| == 1 {
      Rejoin(b[0], 0, 0);
      DecodeTwoDigits(t, b[0] / 4, b[0] % 4 * 16);
      assert b == [b[0]];
    } else if |b| == 2 {
      Rejoin(b[0], b[1], 0);
      DecodeThreeDigits(t, b[0] / 4, b[0] % 4 * 16 + b[1] / 16, b[1] % 16 * 4);
      assert b == [b[0], b[1]];
    } else if |b| > 2 {
      var rest := b[3..];
      DecodeEncode(t, rest);
      FirstThree(b);
      DecodeQuad(t, b[0], b[1], b[2], Encode(t, rest));
    }
  }

  // How many padding characters the text of n bytes ends with.
  function PadCount(n: nat): nat {
    if n == 0 then 0 else if n == 1 then 2 else if n == 2 then 1 else PadCount(n - 3)
  }

  predicate PadsAtEnd(s: string, n: nat) {
    n <= |s| && forall i :: 0 <= i < |s| ==> (s[i] == '=' <==> i >= |s| - n)
  }

  lemma PadsAfterQuad(quad: string, s: string, n: nat)
    requires |quad| == 4 && PadsAtEnd(quad, 0) && PadsAtEnd(s, n)
    ensures PadsAtEnd(quad + s, n)
  {
  }

  lemma GroupShape(t: Alphabet, a: Byte, b: Byte, c: Byte)
    requires Reversible(t)
    ensures PadsAtEnd(Tail1(t, a), 2) && PadsAtEnd(Tail2(t, a, b), 1) && PadsAtEnd(Quad(t, a, b, c), 0)
  {
  }

  // The text of n bytes is whole groups of four, padded at the end only.
  predicate HasShape(s: string, n: nat) {
    |s| % 4 == 0 && PadCount(n) <= 2 && PadsAtEnd(s, PadCount(n)) && (n > 0 ==> PadCount(n) < |s|)
  }

  lemma ShapeAfterQuad(quad: string, s: string, n: nat)
    requires |quad| == 4 && PadsAtEnd(quad, 0) && HasShape(s, n)
    ensures HasShape(quad + s, n + 3)
  {
    PadsAfterQuad(quad, s, PadCount(n));
    assert PadCount(n + 3) == PadCount(n);
  }

  lemma {:induction false} EncodeShape(t: Alphabet, b: seq<Byte>)
    requires Reversible(t)
    ensures HasShape(Encode(t, b), |b|)
  {
    if 0 < |b| <= 2 {
      GroupShape(t, b[0], b[|b| - 1], 0);
    } else if |b| > 2 {
      var rest := b[3..];
      EncodeShape(t, rest);
      GroupShape(t, b[0], b[1], b[2]);
      ShapeAfterQuad(Quad(t, b[0], b[1], b[2]), Encode(t, rest), |rest|);
    }
  }

  lemma {:induction false} RStripCuts(s: string, n: nat)
    requires PadsAtEnd(s, n)
    ensures RStrip(s) == s[..|s| - n]
    decreases n
  {
    if n > 0 {
      RStripCuts(s[..|s| - 1], n - 1);
      assert s[..|s| - 1][..|s| - n] == s[..|s| - n];
    }
  }

  lemma PadBack(length: nat, n: nat)
    requires length % 4 == 0 && n <= 2 && n <= length
    ensures (-(length - n)) % 4 == n && (length - n) % 4 != 1
  {
  }

  // Putting the padding back restores the text of every byte string, and nothing else could have been stripped.
  lemma StripThenRepad(t: Alphabet, b: seq<Byte>)
    requires Reversible(t)
    ensures Repad(RStrip(Encode(t, b))) == Encode(t, b)
    ensures |RStrip(Encode(t, b))| % 4 != 1
    ensures '=' !in RStrip(Encode(t, b))
    ensures b != [] ==> RStrip(Encode(t, b)) != ""
  {
    EncodeShape(t, b);
    ShapeRestored(Encode(t, b), |b|);
  }

  lemma ShapeRestored(s: string, n: nat)
    requires HasShape(s, n)
    ensures Repad(RStrip(s)) == s && |RStrip(s)| % 4 != 1 && '=' !in RStrip(s)
    ensures n > 0 ==> RStrip(s) != ""
  {
    RStripCuts(s, PadCount(n));
    PadBack(|s|, PadCount(n));
    assert Repad(RStrip(s)) == s;
  }

  // --- the JSON pair of collaboration/service.py ---

  // Text that json.dumps copies unchanged between the quotes, such as ISO timestamps and UUIDs.
  predicate IsPlain(s: string) {
    forall i :: 0 <= i < |s| ==> ' ' <= s[i] <= '~' && s[i] != '"' && s[i] != '\\'
  }

  function Dumps(created: string, id: string): string {
    "[\"" + created + "\", \"" + id + "\"]"
  }

  function QuoteAt(s: string): nat
    ensures QuoteAt(s) <= |s|
  {
    if s == "" || s[0] == '"' then 0 else 1 + QuoteAt(s[1..])
  }

  // Reads back a pair of plain strings; anything else is refused.
  function Loads(s: string): Option<(string, string)> {
    if |s| < 2 || s[..2] != "[\"" then None
    else
      var n := QuoteAt(s[2..]);
      var created, rest := s[2..][..n], s[2..][n..];
      if |rest| < 4 || rest[..4] != "\", \"" then None
      else
        var m := QuoteAt(rest[4..]);
        if rest[4..][m..] != "\"]" || !IsPlain(created) || !IsPlain(rest[4..][..m]) then None
        else Some((created, rest[4..][..m]))
  }

  lemma {:induction false} QuoteAfter(s: string, rest: string)
    requires IsPlain(s) && rest != "" && rest[0] == '"'
    ensures QuoteAt(s + rest) == |s|
  {
    if s == "" {
      assert s + rest == rest;
    } else {
      QuoteAfter(s[1..], rest);
      assert (s + rest)[1..] == s[1..] + rest;
    }
  }

  lemma LoadsDumps(created: string, id: string)
    requires IsPlain(created) && IsPlain(id)
    ensures Loads(Dumps(created, id)) == Some((created, id))
  {
    var s := Dumps(created, id);
    var tail := "\", \"" + id + "\"]";
    assert s == "[\"" + (created + tail);
    assert s[2..] == created + tail;
    QuoteAfter(created, tail);
    assert s[2..][..|created|] == created && s[2..][|created|..] == tail;
    assert tail[4..] == id + "\"]" && tail[..4] == "\", \"";
    QuoteAfter(id, "\"]");
    assert (id + "\"]")[..|id|] == id && (id + "\"]")[|id|..] == "\"]";
  }

  function ToBytes(s: string): seq<Byte>
    requires forall i :: 0 <= i < |s| ==> s[i] < 128 as char
  {
    seq(|s|, i requires 0 <= i < |s| => s[i] as int)
  }

  // None for bytes outside ASCII, which no cursor of ours contains.
  function FromBytes(b: seq<Byte>): Option<string> {
    if exists i :: 0 <= i < |b| && b[i] >= 128 then None
    else Some(seq(|b|, i requires 0 <= i < |b| => (if b[i] < 128 then b[i] else 0) as char))
  }

  function EncodeCursor(created: string, id: string): string
    requires IsPlain(created) && IsPlain(id)
  {
    RStrip(Encode(URL_SAFE, ToBytes(Dumps(created, id))))
  }

  datatype Decoded = NoCursor | Position(created: string, id: string) | InvalidCursor

  function DecodeCursor(value: string): Decoded {
    if value == "" then NoCursor
    else
      match Decode(URL_SAFE, Repad(value))
      case None => InvalidCursor
      case Some(raw) =>
        match FromBytes(raw)
        case None => InvalidCursor
        case Some(text) => match Loads(text) case None => InvalidCursor case Some(pair) => Position(pair.0, pair.1)
  }

  lemma TextOfBytes(text: string)
    requires forall i :: 0 <= i < |text| ==> text[i] < 128 as char
    ensures FromBytes(ToBytes(text)) == Some(text)
  {
    var b := ToBytes(text);
    assert FromBytes(b).Some?;
    assert FromBytes(b).value == text;
  }

  lemma CursorRoundTrip(created: string, id: string)
    requires IsPlain(created) && IsPlain(id)
    ensures DecodeCursor(EncodeCursor(created, id)) == Position(created, id)
  {
    var text := Dumps(created, id);
    assert |text| > 0;
    var b := ToBytes(text);
    UrlSafeIsReversible();
    StripThenRepad(URL_SAFE, b);
    DecodeEncode(URL_SAFE, b);
    TextOfBytes(text);
    LoadsDumps(created, id);
    assert Decode(URL_SAFE, Repad(EncodeCursor(created, id))) == Some(b);
  }

  // Two positions never share a cursor.
  lemma CursorIsInjective(created: string, id: string, created': string, id': string)
    requires IsPlain(created) && IsPlain(id) && IsPlain(created') && IsPlain(id')
    requires EncodeCursor(created, id) == EncodeCursor(created', id')
    ensures created == created' && id == id'
  {
    CursorRoundTrip(created, id);
    CursorRoundTrip(created', id');
  }
}
