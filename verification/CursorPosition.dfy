/** The position that a cursor of the collaboration lists stands for: a moment in UTC and a UUID, written as
    text and read back. */
module CursorPosition {
  import opened Common
  import opened CursorCodec

  // --- numbers of a fixed width ---

  function Pow10(w: nat): nat {
    if w == 0 then 1 else 10 * Pow10(w - 1)
  }

  function Digits(n: nat, w: nat): (s: string)
    ensures |s| == w
  {
    if w == 0 then "" else Digits(n / 10, w - 1) + ['0' + (n % 10) as char]
  }

  predicate AllDigits(s: string) {
    forall i :: 0 <= i < |s| ==> '0' <= s[i] <= '9'
  }

  function Number(s: string): nat
    requires AllDigits(s)
  {
    if s == "" then 0 else 10 * Number(s[..|s| - 1]) + (s[|s| - 1] - '0') as nat
  }

  lemma {:induction false} NumberOfDigits(n: nat, w: nat)
    requires n < Pow10(w)
    ensures AllDigits(Digits(n, w)) && Number(Digits(n, w)) == n
  {
    if w > 0 {
      NumberOfDigits(n / 10, w - 1);
      assert Digits(n, w)[..w - 1] == Digits(n / 10, w - 1);
    }
  }

  // --- moments ---

  datatype Moment = Moment(year: nat, month: nat, day: nat, hour: nat, minute: nat, second: nat, micro: nat)

  predicate IsLeap(year: nat) {
    year % 4 == 0 && (year % 100 != 0 || year % 400 == 0)
  }

  function DaysIn(year: nat, month: nat): nat {
    if month == 2 then (if IsLeap(year) then 29 else 28)
    else if month in {4, 6, 9, 11} then 30 else 31
  }

  predicate IsMoment(m: Moment) {
    && 1 <= m.year <= 9999 && 1 <= m.month <= 12 && 1 <= m.day <= DaysIn(m.year, m.month)
    && m.hour < 24 && m.minute < 60 && m.second < 60 && m.micro < 1_000_000
  }

  function DateText(m: Moment): string {
    Digits(m.year, 4) + "-" + Digits(m.month, 2) + "-" + Digits(m.day, 2)
  }

  function TimeText(m: Moment): string {
    Digits(m.hour, 2) + ":" + Digits(m.minute, 2) + ":" + Digits(m.second, 2)
  }

  // The microseconds are left out when there are none.
  function FractionText(m: Moment): string {
    if m.micro == 0 then "" else "." + Digits(m.micro, 6)
  }

  // isoformat() of an aware datetime in UTC.
  function Iso(m: Moment): string {
    DateText(m) + "T" + TimeText(m) + FractionText(m) + "+00:00"
  }

  function Field(s: string, at: nat, w: nat): Option<nat>
    requires at + w <= |s|
  {
    if AllDigits(s[at..at + w]) then Some(Number(s[at..at + w])) else None
  }

  predicate HasForm(s: string) {
    && |s| >= 25 && s[4] == '-' && s[7] == '-' && s[10] == 'T' && s[13] == ':' && s[16] == ':'
    && s[|s| - 6..] == "+00:00" && (|s| == 25 || (|s| == 32 && s[19] == '.'))
  }

  // fromisoformat() on texts of that form.
  function FromIso(s: string): Option<Moment> {
    if !HasForm(s) then None
    else
      var micro := if |s| == 25 then Some(0) else Field(s, 20, 6);
      match (Field(s, 0, 4), Field(s, 5, 2), Field(s, 8, 2), Field(s, 11, 2), Field(s, 14, 2), Field(s, 17, 2), micro)
      case (Some(y), Some(mo), Some(d), Some(h), Some(mi), Some(sec), Some(us)) =>
        var m := Moment(y, mo, d, h, mi, sec, us);
        if IsMoment(m) then Some(m) else None
      case _ => None
  }

  lemma FieldIs(s: string, at: nat, n: nat, w: nat)
    requires at + w <= |s| && s[at..at + w] == Digits(n, w) && n < Pow10(w)
    ensures Field(s, at, w) == Some(n)
  {
    NumberOfDigits(n, w);
  }

  lemma SubSlice(s: string, i: nat, j: nat, k: nat, l: nat)
    requires i <= j <= |s| && k <= l <= j - i
    ensures s[i..j][k..l] == s[i + k..i + l]
  {
    var part := s[i..j];
    assert forall x :: 0 <= x < l - k ==> part[k..l][x] == part[k + x] == s[i + k..i + l][x];
  }

  lemma DateLayout(m: Moment)
    ensures var d := DateText(m);
            && |d| == 10 && d[4] == '-' && d[7] == '-'
            && d[0..4] == Digits(m.year, 4) && d[5..7] == Digits(m.month, 2) && d[8..10] == Digits(m.day, 2)
  {
  }

  lemma TimeLayout(m: Moment)
    ensures var t := TimeText(m);
            && |t| == 8 && t[2] == ':' && t[5] == ':'
            && t[0..2] == Digits(m.hour, 2) && t[3..5] == Digits(m.minute, 2) && t[6..8] == Digits(m.second, 2)
  {
  }

  lemma Middle(a: string, b: string, c: string)
    ensures var s := a + b + c;
            |s| == |a| + |b| + |c| && s[|a|..|a| + |b|] == b && s[|a| + |b|..] == c
  {
  }

  lemma IsoParts(date: string, time: string, fraction: string)
    requires |date| == 10 && |time| == 8
    ensures var s := date + "T" + time + fraction + "+00:00";
            && |s| == 25 + |fraction| && s[0..10] == date && s[10] == 'T' && s[11..19] == time
            && s[19..19 + |fraction|] == fraction && s[|s| - 6..] == "+00:00"
  {
    var s := date + "T" + time + fraction + "+00:00";
    assert s == [] + date + ("T" + time + fraction + "+00:00");
    Middle([], date, "T" + time + fraction + "+00:00");
    assert s == date + "T" + (time + fraction + "+00:00");
    Middle(date, "T", time + fraction + "+00:00");
    assert s[10..11] == "T";
    assert s == (date + "T") + time + (fraction + "+00:00");
    Middle(date + "T", time, fraction + "+00:00");
    Middle(date + "T" + time, fraction, "+00:00");
  }

  // The text has the form, and its fields are where they are read.
  ghost predicate LaidOut(s: string, m: Moment) {
    && HasForm(s) && (|s| == 25 <==> m.micro == 0)
    && s[0..4] == Digits(m.year, 4) && s[5..7] == Digits(m.month, 2) && s[8..10] == Digits(m.day, 2)
    && s[11..13] == Digits(m.hour, 2) && s[14..16] == Digits(m.minute, 2) && s[17..19] == Digits(m.second, 2)
    && (m.micro != 0 ==> s[20..26] == Digits(m.micro, 6))
  }

  lemma DateFields(s: string, date: string)
    requires |s| >= 10 && s[0..10] == date
    ensures s[0..4] == date[0..4] && s[5..7] == date[5..7] && s[8..10] == date[8..10]
    ensures s[4] == date[4] && s[7] == date[7]
  {
    SubSlice(s, 0, 10, 0, 4);
    SubSlice(s, 0, 10, 5, 7);
    SubSlice(s, 0, 10, 8, 10);
  }

  lemma TimeFields(s: string, time: string)
    requires |s| >= 19 && s[11..19] == time
    ensures s[11..13] == time[0..2] && s[14..16] == time[3..5] && s[17..19] == time[6..8]
    ensures s[13] == time[2] && s[16] == time[5]
  {
    SubSlice(s, 11, 19, 0, 2);
    SubSlice(s, 11, 19, 3, 5);
    SubSlice(s, 11, 19, 6, 8);
  }

  lemma FractionLayout(s: string, m: Moment)
    requires |s| >= 26 && m.micro != 0 && s[19..26] == FractionText(m)
    ensures s[19] == '.' && s[20..26] == Digits(m.micro, 6)
  {
    SubSlice(s, 19, 26, 1, 7);
    assert FractionText(m)[1..7] == Digits(m.micro, 6);
    assert s[19..26][0] == '.';
  }

  lemma IsoLayout(m: Moment)
    ensures LaidOut(Iso(m), m)
  {
    DateLayout(m);
    TimeLayout(m);
    IsoParts(DateText(m), TimeText(m), FractionText(m));
    LayoutOf(Iso(m), DateText(m), TimeText(m), m);
  }

  lemma LayoutOf(s: string, date: string, time: string, m: Moment)
    requires date == DateText(m) && time == TimeText(m) && |date| == 10 && |time| == 8
    requires |s| == 25 + |FractionText(m)| && s[0..10] == date && s[10] == 'T' && s[11..19] == time
    requires s[19..19 + |FractionText(m)|] == FractionText(m) && s[|s| - 6..] == "+00:00"
    ensures LaidOut(s, m)
  {
    DateLayout(m);
    TimeLayout(m);
    DateFields(s, date);
    TimeFields(s, time);
    if m.micro != 0 { FractionLayout(s, m); }
  }

  lemma FieldsRead(s: string, m: Moment)
    requires LaidOut(s, m) && IsMoment(m)
    ensures Field(s, 0, 4) == Some(m.year) && Field(s, 5, 2) == Some(m.month) && Field(s, 8, 2) == Some(m.day)
    ensures Field(s, 11, 2) == Some(m.hour) && Field(s, 14, 2) == Some(m.minute) && Field(s, 17, 2) == Some(m.second)
    ensures m.micro != 0 ==> Field(s, 20, 6) == Some(m.micro)
  {
    assert Pow10(2) == 100 && Pow10(4) == 10_000 && Pow10(6) == 1_000_000;
    FieldIs(s, 0, m.year, 4);
    FieldIs(s, 5, m.month, 2);
    FieldIs(s, 8, m.day, 2);
    FieldIs(s, 11, m.hour, 2);
    FieldIs(s, 14, m.minute, 2);
    FieldIs(s, 17, m.second, 2);
    if m.micro != 0 { FieldIs(s, 20, m.micro, 6); }
  }

  lemma MomentRoundTrip(m: Moment)
    requires IsMoment(m)
    ensures FromIso(Iso(m)) == Some(m)
  {
    IsoLayout(m);
    FieldsRead(Iso(m), m);
    ReadsAs(Iso(m), m);
  }

  lemma ReadsAs(s: string, m: Moment)
    requires HasForm(s) && (|s| == 25 <==> m.micro == 0) && IsMoment(m)
    requires Field(s, 0, 4) == Some(m.year) && Field(s, 5, 2) == Some(m.month) && Field(s, 8, 2) == Some(m.day)
    requires Field(s, 11, 2) == Some(m.hour) && Field(s, 14, 2) == Some(m.minute) && Field(s, 17, 2) == Some(m.second)
    requires m.micro != 0 ==> Field(s, 20, 6) == Some(m.micro)
    ensures FromIso(s) == Some(m)
  {
  }

  // --- UUIDs ---

  // The 32 hexadecimal digits of a 128-bit identifier.
  predicate IsUuid(u: seq<nat>) {
    |u| == 32 && forall i :: 0 <= i < |u| ==> u[i] < 16
  }

  const HEX := "0123456789abcdef"

  function Hexes(u: seq<nat>): (s: string)
    requires forall i :: 0 <= i < |u| ==> u[i] < 16
    ensures |s| == |u|
  {
    seq(|u|, i requires 0 <= i < |u| => HEX[u[i]])
  }

  // str() of a UUID.
  function UuidText(u: seq<nat>): string
    requires IsUuid(u)
  {
    Hexes(u[..8]) + "-" + Hexes(u[8..12]) + "-" + Hexes(u[12..16]) + "-" + Hexes(u[16..20]) + "-" + Hexes(u[20..])
  }

  // UUID() drops the dashes, wherever they are, and reads digits of either case.
  function Undash(s: string): string {
    if s == "" then "" else Undash(s[..|s| - 1]) + if s[|s| - 1] == '-' then "" else [s[|s| - 1]]
  }

  function HexValue(c: char): Option<nat> {
    if '0' <= c <= '9' then Some((c - '0') as nat)
    else if 'a' <= c <= 'f' then Some((c - 'a') as nat + 10)
    else if 'A' <= c <= 'F' then Some((c - 'A') as nat + 10)
    else None
  }

  function FromUuidText(s: string): Option<seq<nat>> {
    var h := Undash(s);
    if |h| == 32 && forall i :: 0 <= i < |h| ==> HexValue(h[i]).Some?
    then Some(seq(|h|, i requires 0 <= i < |h| => match HexValue(h[i]) case Some(v) => v case None => 0))
    else None
  }

  lemma {:induction false} UndashConcat(a: string, b: string)
    ensures Undash(a + b) == Undash(a) + Undash(b)
  {
    if b == "" {
      assert a + b == a;
    } else {
      var init, c := b[..|b| - 1], b[|b| - 1];
      UndashConcat(a, init);
      UndashSnoc(a + init, c);
      UndashSnoc(init, c);
      assert a + init + [c] == a + b && init + [c] == b;
    }
  }

  lemma UndashSnoc(s: string, c: char)
    ensures Undash(s + [c]) == Undash(s) + if c == '-' then "" else [c]
  {
    assert (s + [c])[..|s|] == s;
  }

  lemma HexReads(d: nat)
    requires d < 16
    ensures HexValue(HEX[d]) == Some(d) && HEX[d] != '-' && IsPlain([HEX[d]])
  {
  }

  lemma {:induction false} NothingToDrop(s: string)
    requires forall i :: 0 <= i < |s| ==> s[i] != '-'
    ensures Undash(s) == s
  {
    if s != "" {
      NothingToDrop(s[..|s| - 1]);
      UndashSnoc(s[..|s| - 1], s[|s| - 1]);
      assert s[..|s| - 1] + [s[|s| - 1]] == s;
    }
  }

  lemma NoDashes(u: seq<nat>)
    requires forall i :: 0 <= i < |u| ==> u[i] < 16
    ensures Undash(Hexes(u)) == Hexes(u)
  {
    forall i | 0 <= i < |u| ensures Hexes(u)[i] != '-' {
      HexReads(u[i]);
    }
    NothingToDrop(Hexes(u));
  }

  lemma OnePart(text: string, u: seq<nat>)
    requires forall i :: 0 <= i < |u| ==> u[i] < 16
    ensures Undash(text + "-" + Hexes(u)) == Undash(text) + Hexes(u)
  {
    UndashConcat(text + "-", Hexes(u));
    UndashConcat(text, "-");
    NoDashes(u);
    assert "-"[..0] == "";
  }

  lemma HexesConcat(a: seq<nat>, b: seq<nat>)
    requires (forall i :: 0 <= i < |a| ==> a[i] < 16) && forall i :: 0 <= i < |b| ==> b[i] < 16
    ensures forall i :: 0 <= i < |a + b| ==> (a + b)[i] < 16
    ensures Hexes(a + b) == Hexes(a) + Hexes(b)
  {
  }

  lemma InFiveParts(u: seq<nat>)
    requires |u| == 32
    ensures u == u[..8] + u[8..12] + u[12..16] + u[16..20] + u[20..]
  {
  }

  lemma UndashUuid(u: seq<nat>)
    requires IsUuid(u)
    ensures Undash(UuidText(u)) == Hexes(u)
  {
    var a, b, c, d, e := u[..8], u[8..12], u[12..16], u[16..20], u[20..];
    NoDashes(a);
    OnePart(Hexes(a), b);
    OnePart(Hexes(a) + "-" + Hexes(b), c);
    OnePart(Hexes(a) + "-" + Hexes(b) + "-" + Hexes(c), d);
    OnePart(Hexes(a) + "-" + Hexes(b) + "-" + Hexes(c) + "-" + Hexes(d), e);
    HexesConcat(a, b);
    HexesConcat(a + b, c);
    HexesConcat(a + b + c, d);
    HexesConcat(a + b + c + d, e);
    InFiveParts(u);
  }

  lemma UuidRoundTrip(u: seq<nat>)
    requires IsUuid(u)
    ensures FromUuidText(UuidText(u)) == Some(u)
  {
    UndashUuid(u);
    forall i | 0 <= i < |u| ensures HexValue(Hexes(u)[i]) == Some(u[i]) {
      HexReads(u[i]);
    }
    assert FromUuidText(UuidText(u)).value == u;
  }

  // --- the cursor of a position ---

  datatype Place = Start | At(moment: Moment, id: seq<nat>) | Refused

  lemma {:induction false} DigitsArePlain(n: nat, w: nat)
    ensures IsPlain(Digits(n, w))
  {
    if w > 0 { DigitsArePlain(n / 10, w - 1); }
  }

  lemma PlainConcat(a: string, b: string)
    requires IsPlain(a) && IsPlain(b)
    ensures IsPlain(a + b)
  {
  }

  lemma ThreePartsArePlain(a: string, b: string, c: string, mark: char)
    requires IsPlain(a) && IsPlain(b) && IsPlain(c) && IsPlain([mark])
    ensures IsPlain(a + [mark] + b + [mark] + c)
  {
    PlainConcat(a, [mark]);
    PlainConcat(a + [mark], b);
    PlainConcat(a + [mark] + b, [mark]);
    PlainConcat(a + [mark] + b + [mark], c);
  }

  lemma DateIsPlain(m: Moment)
    ensures IsPlain(DateText(m))
  {
    DigitsArePlain(m.year, 4);
    DigitsArePlain(m.month, 2);
    DigitsArePlain(m.day, 2);
    ThreePartsArePlain(Digits(m.year, 4), Digits(m.month, 2), Digits(m.day, 2), '-');
  }

  lemma TimeIsPlain(m: Moment)
    ensures IsPlain(TimeText(m))
  {
    DigitsArePlain(m.hour, 2);
    DigitsArePlain(m.minute, 2);
    DigitsArePlain(m.second, 2);
    ThreePartsArePlain(Digits(m.hour, 2), Digits(m.minute, 2), Digits(m.second, 2), ':');
  }

  lemma FractionIsPlain(m: Moment)
    ensures IsPlain(FractionText(m))
  {
    DigitsArePlain(m.micro, 6);
    PlainConcat(".", Digits(m.micro, 6));
  }

  lemma IsoIsPlain(m: Moment)
    ensures IsPlain(Iso(m))
  {
    DateIsPlain(m);
    TimeIsPlain(m);
    FractionIsPlain(m);
    PlainConcat(DateText(m), "T");
    PlainConcat(DateText(m) + "T", TimeText(m));
    PlainConcat(DateText(m) + "T" + TimeText(m), FractionText(m));
    PlainConcat(DateText(m) + "T" + TimeText(m) + FractionText(m), "+00:00");
  }

  lemma HexesArePlain(u: seq<nat>)
    requires forall i :: 0 <= i < |u| ==> u[i] < 16
    ensures IsPlain(Hexes(u))
  {
    forall i | 0 <= i < |u| ensures IsPlain([Hexes(u)[i]]) {
      HexReads(u[i]);
    }
    assert forall i :: 0 <= i < |u| ==> [Hexes(u)[i]][0] == Hexes(u)[i];
  }

  lemma UuidIsPlain(u: seq<nat>)
    requires IsUuid(u)
    ensures IsPlain(UuidText(u))
  {
    HexesArePlain(u[..8]);
    HexesArePlain(u[8..12]);
    HexesArePlain(u[12..16]);
    HexesArePlain(u[16..20]);
    HexesArePlain(u[20..]);
  }

  // _cursor of a row.
  function CursorOf(m: Moment, id: seq<nat>): string
    requires IsUuid(id)
  {
    IsoIsPlain(m);
    UuidIsPlain(id);
    EncodeCursor(Iso(m), UuidText(id))
  }

  // _decode_cursor; anything that does not read as a moment and a UUID is refused.
  function PlaceOf(value: string): Place {
    match DecodeCursor(value)
    case NoCursor => Start
    case InvalidCursor => Refused
    case Position(created, id) =>
      match (FromIso(created), FromUuidText(id))
      case (Some(m), Some(u)) => At(m, u)
      case _ => Refused
  }

  // The next page starts at the very row the cursor was made from.
  lemma PlaceRoundTrip(m: Moment, id: seq<nat>)
    requires IsMoment(m) && IsUuid(id)
    ensures PlaceOf(CursorOf(m, id)) == At(m, id)
  {
    IsoIsPlain(m);
    UuidIsPlain(id);
    CursorRoundTrip(Iso(m), UuidText(id));
    MomentRoundTrip(m);
    UuidRoundTrip(id);
  }

  lemma CursorsDiffer(m: Moment, id: seq<nat>, n: Moment, other: seq<nat>)
    requires IsMoment(m) && IsUuid(id) && IsMoment(n) && IsUuid(other)
    ensures CursorOf(m, id) == CursorOf(n, other) <==> m == n && id == other
  {
    PlaceRoundTrip(m, id);
    PlaceRoundTrip(n, other);
  }
}
