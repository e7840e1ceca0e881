/** Timestamps as source systems write them, read back as a wall clock and an offset. */
module Timestamps {
  import opened Texts
  import opened Dates

  /** A moment in microseconds: the wall clock it shows and the offset it carries, if any. */
  datatype Timestamp = Timestamp(local: int, offset: Option<int>)

  datatype Zone = Naive | Zulu | Shift(west: bool, hours: nat, minutes: nat)

  /** A timestamp to the second. */
  datatype Stamp = Stamp(date: Date, hour: nat, minute: nat, second: nat, zone: Zone)

  const SECOND := 1_000_000
  const DAY := 86_400 * SECOND

  const PLUS: Code := 43
  const HYPHEN: Code := 45
  const COLON: Code := 58
  const LETTER_T: Code := 84
  const LETTER_Z: Code := 90

  predicate ValidZone(z: Zone) {
    z.Shift? ==> z.hours < 24 && z.minutes < 60
  }

  predicate ValidStamp(s: Stamp) {
    Valid(s.date) && s.hour < 24 && s.minute < 60 && s.second < 60 && ValidZone(s.zone)
  }

  function Offset(z: Zone): Option<int> {
    match z
    case Naive => None
    case Zulu => Some(0)
    case Shift(west, h, m) => Some((if west then -1 else 1) * (h * 3600 + m * 60) * SECOND)
  }

  /** What a timestamp means. */
  function Meaning(s: Stamp): Timestamp {
    Timestamp(Ordinal(s.date) * DAY + (s.hour * 3600 + s.minute * 60 + s.second) * SECOND, Offset(s.zone))
  }

  // ----------------------------------------------------------------- written

  function Three(a: nat, b: nat, c: nat, width: nat, separator: Code): Text
    requires width > 0
  {
    Pad(a, width) + ([separator] + (Pad(b, 2) + ([separator] + Pad(c, 2))))
  }

  function WriteZone(z: Zone): Text {
    match z
    case Naive => []
    case Zulu => [LETTER_Z]
    case Shift(west, h, m) => [if west then HYPHEN else PLUS] + (Pad(h, 2) + ([COLON] + Pad(m, 2)))
  }

  /** `2026-07-01T00:30:00+02:00`. */
  function Write(s: Stamp): Text
    requires ValidStamp(s)
  {
    Three(s.date.year, s.date.month, s.date.day, 4, HYPHEN)
    + ([LETTER_T] + (Three(s.hour, s.minute, s.second, 2, COLON) + WriteZone(s.zone)))
  }

  // -------------------------------------------------------------------- read

  /** `timestamp.replace("Z", "+00:00")`. */
  function ReplaceZ(t: Text): Text {
    if t == [] then []
    else (if t[0] == LETTER_Z then WriteZone(Shift(false, 0, 0)) else [t[0]]) + ReplaceZ(t[1..])
  }

  function Number(t: Text): nat
    requires forall i | 0 <= i < |t| :: IsDigit(t[i])
  {
    if t == [] then 0
    else
      var c: int := t[|t| - 1];
      assert IsDigit(c);
      Number(t[..|t| - 1]) * 10 + (c - 48)
  }

  predicate Numeral(t: Text, width: nat) {
    |t| >= width && forall i | 0 <= i < width :: IsDigit(t[i])
  }

  /** Three numbers and the separators between them. */
  function TakeThree(t: Text, width: nat, separator: Code): Option<((nat, nat, nat), Text)> {
    if !Numeral(t, width) then None
    else
      var u := t[width..];
      if u == [] || u[0] != separator || !Numeral(u[1..], 2) then None
      else
        var v := u[1..][2..];
        if v == [] || v[0] != separator || !Numeral(v[1..], 2) then None
        else Some(((Number(t[..width]), Number(u[1..][..2]), Number(v[1..][..2])), v[1..][2..]))
  }

  function ReadZone(t: Text): Option<Zone> {
    if t == [] then Some(Naive)
    else if (t[0] != PLUS && t[0] != HYPHEN) || !Numeral(t[1..], 2) then None
    else
      var u := t[1..][2..];
      if |u| != 3 || u[0] != COLON || !Numeral(u[1..], 2) then None
      else
        var z := Shift(t[0] == HYPHEN, Number(t[1..][..2]), Number(u[1..]));
        if ValidZone(z) then Some(z) else None
  }

  /** `datetime.fromisoformat`, on the extended form to the second. */
  function FromIsoFormat(t: Text): Option<Timestamp> {
    match TakeThree(t, 4, HYPHEN)
    case None => None
    case Some(((y, m, d), u)) =>
      if u == [] then None
      else
        match TakeThree(u[1..], 2, COLON)
        case None => None
        case Some(((hour, minute, second), v)) =>
          match ReadZone(v)
          case None => None
          case Some(z) =>
            var s := Stamp(Date(y, m, d), hour, minute, second, z);
            if ValidStamp(s) then Some(Meaning(s)) else None
  }

  /** The moment `is_in_period` compares, before the offset is applied. */
  function Read(t: Text): Option<Timestamp> {
    FromIsoFormat(ReplaceZ(t))
  }

  // -------------------------------------------------------------- round trip

  lemma {:induction false} PadDigits(n: nat, width: nat)
    requires width > 0
    ensures forall i | 0 <= i < width :: IsDigit(Pad(n, width)[i])
  {
    if width > 1 {
      PadDigits(n / 10, width - 1);
    }
  }

  lemma {:induction false} NumberOfPad(n: nat, width: nat)
    requires width > 0 && Fits(n, width)
    ensures Numeral(Pad(n, width), width) && Number(Pad(n, width)) == n
  {
    PadDigits(n, width);
    if width == 1 {
      assert Pad(n, 1)[..0] == [];
    } else {
      NumberOfPad(n / 10, width - 1);
      assert Pad(n, width)[..width - 1] == Pad(n / 10, width - 1);
    }
  }

  lemma PadFirst(n: nat, width: nat, rest: Text)
    requires width > 0 && Fits(n, width)
    ensures var t := Pad(n, width) + rest;
      Numeral(t, width) && t[..width] == Pad(n, width) && t[width..] == rest && Number(t[..width]) == n
  {
    NumberOfPad(n, width);
    assert forall i | 0 <= i < width :: (Pad(n, width) + rest)[i] == Pad(n, width)[i];
  }

  lemma TakeWritten(a: nat, b: nat, c: nat, width: nat, separator: Code, rest: Text)
    requires width > 0 && Fits(a, width) && Fits(b, 2) && Fits(c, 2)
    ensures TakeThree(Three(a, b, c, width, separator) + rest, width, separator) == Some(((a, b, c), rest))
  {
    hide Pad, Numeral, Number, Fits;
    var v := [separator] + (Pad(c, 2) + rest);
    var u := [separator] + (Pad(b, 2) + v);
    assert Three(a, b, c, width, separator) + rest == Pad(a, width) + u;
    PadFirst(a, width, u);
    PadFirst(b, 2, v);
    PadFirst(c, 2, rest);
    assert u[1..] == Pad(b, 2) + v && v[1..] == Pad(c, 2) + rest;
  }

  lemma ZoneWritten(z: Zone)
    requires ValidZone(z) && !z.Zulu?
    ensures ReadZone(WriteZone(z)) == Some(z)
  {
    hide Pad, Numeral, Number;
    if z.Shift? {
      var u := [COLON] + Pad(z.minutes, 2);
      WidthFits(z.hours, z.minutes, 2);
      PadFirst(z.hours, 2, u);
      PadFirst(z.minutes, 2, []);
      assert WriteZone(z)[1..] == Pad(z.hours, 2) + u && u[1..] == Pad(z.minutes, 2);
      assert Pad(z.minutes, 2) + [] == Pad(z.minutes, 2) && Pad(z.minutes, 2)[..2] == Pad(z.minutes, 2);
    }
  }

  lemma {:induction false} ReplaceConcat(a: Text, b: Text)
    ensures ReplaceZ(a + b) == ReplaceZ(a) + ReplaceZ(b)
  {
    if a == [] {
      assert a + b == b;
    } else {
      assert (a + b)[1..] == a[1..] + b;
      hide WriteZone;
      ReplaceConcat(a[1..], b);
    }
  }

  lemma {:induction false} ReplaceNothing(t: Text)
    requires LETTER_Z !in t
    ensures ReplaceZ(t) == t
  {
    if t != [] {
      assert t[0] in t;
      ReplaceNothing(t[1..]);
    }
  }

  lemma {:induction false} PadHasNoZ(n: nat, width: nat)
    requires width > 0
    ensures LETTER_Z !in Pad(n, width)
  {
    PadDigits(n, width);
  }

  lemma ThreeHasNoZ(a: nat, b: nat, c: nat, width: nat, separator: Code)
    requires width > 0 && separator != LETTER_Z
    ensures LETTER_Z !in Three(a, b, c, width, separator)
  {
    hide Pad;
    PadHasNoZ(a, width);
    PadHasNoZ(b, 2);
    PadHasNoZ(c, 2);
  }

  function WithoutZulu(z: Zone): Zone {
    if z.Zulu? then Shift(false, 0, 0) else z
  }

  lemma ReplaceInZone(z: Zone)
    ensures ReplaceZ(WriteZone(z)) == WriteZone(WithoutZulu(z))
  {
    hide Pad;
    match z
    case Naive =>
    case Zulu =>
      assert [LETTER_Z][1..] == [];
      assert WriteZone(WithoutZulu(z)) + [] == WriteZone(WithoutZulu(z));
    case Shift(_, h, m) =>
      PadHasNoZ(h, 2);
      PadHasNoZ(m, 2);
      ReplaceNothing(WriteZone(z));
  }

  lemma ReplaceInStamp(s: Stamp)
    requires ValidStamp(s)
    ensures ReplaceZ(Write(s)) == Write(s.(zone := WithoutZulu(s.zone)))
  {
    hide ReplaceZ, Three, WriteZone;
    var date := Three(s.date.year, s.date.month, s.date.day, 4, HYPHEN);
    var time := Three(s.hour, s.minute, s.second, 2, COLON);
    ThreeHasNoZ(s.date.year, s.date.month, s.date.day, 4, HYPHEN);
    ThreeHasNoZ(s.hour, s.minute, s.second, 2, COLON);
    ReplaceNothing(date);
    ReplaceNothing(time);
    ReplaceNothing([LETTER_T]);
    ReplaceInZone(s.zone);
    ReplaceConcat(time, WriteZone(s.zone));
    ReplaceConcat([LETTER_T], time + WriteZone(s.zone));
    ReplaceConcat(date, [LETTER_T] + (time + WriteZone(s.zone)));
  }

  /** A written timestamp is read for what it means, `Z` as an offset of nothing. */
  lemma ReadWritten(s: Stamp)
    requires ValidStamp(s)
    ensures Read(Write(s)) == Some(Meaning(s))
  {
    hide Three, WriteZone, ReplaceZ, FromIsoFormat, Ordinal, DaysInMonth;
    ReplaceInStamp(s);
    var u := s.(zone := WithoutZulu(s.zone));
    SpeltRead(Write(u), u, LETTER_T);
  }

  // --------------------------------------------- nothing but the written form is read

  lemma {:induction false} PadOfNumber(t: Text)
    requires t != [] && forall i | 0 <= i < |t| :: IsDigit(t[i])
    ensures Pad(Number(t), |t|) == t
  {
    var front, last := t[..|t| - 1], t[|t| - 1];
    assert IsDigit(last);
    assert t == front + [last];
    if front == [] {
      assert Number(front) == 0;
    } else {
      PadOfNumber(front);
      assert Number(t) / 10 == Number(front);
    }
  }

  lemma NumeralPads(t: Text, width: nat)
    requires width > 0 && Numeral(t, width)
    ensures t == Pad(Number(t[..width]), width) + t[width..]
  {
    PadOfNumber(t[..width]);
  }

  lemma TakenThree(t: Text, width: nat, separator: Code)
    requires width > 0
    ensures match TakeThree(t, width, separator)
      case None => true
      case Some(((a, b, c), rest)) => t == Three(a, b, c, width, separator) + rest
  {
    hide Pad, Number;
    if TakeThree(t, width, separator).Some? {
      var u := t[width..];
      var v := u[1..][2..];
      NumeralPads(t, width);
      NumeralPads(u[1..], 2);
      NumeralPads(v[1..], 2);
      assert u == [separator] + u[1..] && v == [separator] + v[1..];
    }
  }

  lemma ZoneRead(t: Text)
    ensures ReadZone(t).Some? ==> WriteZone(ReadZone(t).value) == t && !ReadZone(t).value.Zulu?
    ensures ReadZone(t).Some? ==> ValidZone(ReadZone(t).value)
  {
    hide Pad, Number;
    if t != [] && ReadZone(t).Some? {
      var u := t[1..][2..];
      NumeralPads(t[1..], 2);
      NumeralPads(u[1..], 2);
      assert u[1..][..2] == u[1..] && u[1..][2..] == [];
      assert t == [t[0]] + t[1..] && u == [COLON] + u[1..];
    }
  }

  /** The written form, with any one code point between the date and the time. */
  predicate Spells(t: Text, s: Stamp, x: Code)
    requires ValidStamp(s)
  {
    t == Three(s.date.year, s.date.month, s.date.day, 4, HYPHEN)
         + ([x] + (Three(s.hour, s.minute, s.second, 2, COLON) + WriteZone(s.zone)))
  }

  ghost predicate Spelt(t: Text, m: Timestamp) {
    exists s: Stamp, x: Code :: ValidStamp(s) && !s.zone.Zulu? && Spells(t, s, x) && Meaning(s) == m
  }

  /** A text is read exactly when it spells a valid date, time and zone out to the second. */
  lemma ReadMeans(t: Text, m: Timestamp)
    ensures FromIsoFormat(t) == Some(m) <==> Spelt(t, m)
  {
    hide Three, TakeThree, WriteZone, ReadZone, Ordinal, DaysInMonth, Valid;
    if FromIsoFormat(t) == Some(m) {
      TakenThree(t, 4, HYPHEN);
      var ((y, mo, d), u) := TakeThree(t, 4, HYPHEN).value;
      TakenThree(u[1..], 2, COLON);
      var ((hour, minute, second), v) := TakeThree(u[1..], 2, COLON).value;
      ZoneRead(v);
      var s := Stamp(Date(y, mo, d), hour, minute, second, ReadZone(v).value);
      assert u == [u[0]] + u[1..];
      assert Spells(t, s, u[0]);
    }
    if s: Stamp, x: Code :| ValidStamp(s) && !s.zone.Zulu? && Spells(t, s, x) && Meaning(s) == m {
      SpeltRead(t, s, x);
    }
  }

  lemma SpeltRead(t: Text, s: Stamp, x: Code)
    requires ValidStamp(s) && !s.zone.Zulu? && Spells(t, s, x)
    ensures FromIsoFormat(t) == Some(Meaning(s))
  {
    hide Three, TakeThree, WriteZone, ReadZone, Ordinal, DaysInMonth;
    DateFits(s.date);
    WidthFits(s.hour, s.minute, 2);
    WidthFits(s.second, s.second, 2);
    var time := Three(s.hour, s.minute, s.second, 2, COLON) + WriteZone(s.zone);
    TakeWritten(s.date.year, s.date.month, s.date.day, 4, HYPHEN, [x] + time);
    assert ([x] + time)[1..] == time;
    TakeWritten(s.hour, s.minute, s.second, 2, COLON, WriteZone(s.zone));
    ZoneWritten(s.zone);
  }

  lemma DateFits(d: Date)
    requires Valid(d)
    ensures Fits(d.year, 4) && Fits(d.month, 2) && Fits(d.day, 2)
  {
    WidthFits(d.year, d.year, 4);
    WidthFits(d.month, d.day, 2);
  }

  /** One timestamp, letter by letter: half past ten and fifteen seconds, five and a half hours west. */
  lemma Sample()
    ensures var s := Stamp(Date(2026, 7, 1), 10, 30, 15, Shift(true, 5, 30));
      && ValidStamp(s) && Write(s) == Lit("2026-07-01T10:30:15-05:30")
      && Meaning(s) == Timestamp(739798 * 86_400_000_000 + 37815_000_000, Some(-19800_000_000))
  {
    hide Ordinal, Three, WriteZone;
    Anchors();
    SampleDate();
    SampleTime();
    SampleZone();
    assert Lit("2026-07-01T10:30:15-05:30") == Lit("2026-07-01") + ([LETTER_T] + (Lit("10:30:15") + Lit("-05:30")));
  }

  lemma SampleDate()
    ensures Three(2026, 7, 1, 4, HYPHEN) == Lit("2026-07-01")
  {
    hide Pad;
    FourDigits();
    TwoDigits(7, "07");
    TwoDigits(1, "01");
  }

  lemma SampleTime()
    ensures Three(10, 30, 15, 2, COLON) == Lit("10:30:15")
  {
    hide Pad;
    TwoDigits(10, "10");
    TwoDigits(30, "30");
    TwoDigits(15, "15");
  }

  lemma SampleZone()
    ensures WriteZone(Shift(true, 5, 30)) == Lit("-05:30")
  {
    hide Pad;
    TwoDigits(5, "05");
    TwoDigits(30, "30");
  }

  lemma FourDigits()
    ensures Pad(2026, 4) == Lit("2026")
  {
    assert Pad(2, 1) == [50] && Pad(20, 2) == [50, 48] && Pad(202, 3) == [50, 48, 50];
  }

  lemma TwoDigits(n: nat, t: string)
    requires n < 100 && t == [(48 + n / 10) as char, (48 + n % 10) as char]
    ensures Pad(n, 2) == Lit(t)
  {
    assert Pad(n / 10, 1) == [48 + n / 10];
  }
}
