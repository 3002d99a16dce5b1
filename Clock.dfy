/** The clock reading a request carries, and its RFC 3339 text in UTC. */
module Clock {
  import opened Text
  import opened Strconv

  type Month = x: int | 1 <= x <= 12 witness 1
  type Day = x: int | 1 <= x <= 31 witness 1
  type Hour = x: int | 0 <= x < 24
  type Minute = x: int | 0 <= x < 60
  type Second = x: int | 0 <= x < 60

  /** A UTC instant at second precision (what time.Now().UTC() yields, less the nanoseconds). */
  datatype Instant = Instant(year: int, month: Month, day: Day, hour: Hour, minute: Minute, second: Second)

  /** n in decimal, left-padded with zeros to at least width digits. */
  function Pad(n: nat, width: nat): (r: Str)
    ensures |r| == if |FormatNat(n)| < width then width else |FormatNat(n)|
    ensures forall i | 0 <= i < |r| :: IsDigit(r[i])
    decreases width
  {
    if |FormatNat(n)| < width then "0" + Pad(n, width - 1) else FormatNat(n)
  }

  /** time.RFC3339 for a UTC time: "2006-01-02T15:04:05Z"; a negative year gets a '-'. */
  function FormatRFC3339(t: Instant): Str
  {
    YearText(t.year) + "-" + Pad(t.month, 2) + "-" + Pad(t.day, 2) +
    "T" + Pad(t.hour, 2) + ":" + Pad(t.minute, 2) + ":" + Pad(t.second, 2) + "Z"
  }

  /** For a four-digit year the stamp reads "YYYY-MM-DDThh:mm:ssZ". */
  lemma RFC3339Layout(t: Instant)
    requires 0 <= t.year <= 9999
    ensures Layout(FormatRFC3339(t))
  {
    PadWidth(t.year, 4);
    PadWidth(t.month, 2);
    PadWidth(t.day, 2);
    PadWidth(t.hour, 2);
    PadWidth(t.minute, 2);
    PadWidth(t.second, 2);
    LayoutOf(Pad(t.year, 4), Pad(t.month, 2), Pad(t.day, 2), Pad(t.hour, 2), Pad(t.minute, 2), Pad(t.second, 2));
  }

  /** A number that fits the width is padded to exactly that many digits. */
  lemma PadWidth(n: nat, width: nat)
    requires width == 2 || width == 4
    requires if width == 2 then n < 100 else n < 10000
    ensures |Pad(n, width)| == width && AllDigits(Pad(n, width))
  {
  }

  /** The layout "YYYY-MM-DDThh:mm:ssZ": twenty bytes, digits between the separators. */
  predicate Layout(r: Str)
  {
    && |r| == 20 && r[4] == '-' && r[7] == '-' && r[10] == 'T' && r[13] == ':' && r[16] == ':' && r[19] == 'Z'
    && forall i | 0 <= i < 20 && i !in {4, 7, 10, 13, 16, 19} :: IsDigit(r[i])
  }

  predicate AllDigits(s: Str)
  {
    forall i | 0 <= i < |s| :: IsDigit(s[i])
  }

  lemma LayoutOf(y: Str, mo: Str, d: Str, h: Str, mi: Str, s: Str)
    requires |y| == 4 && |mo| == 2 && |d| == 2 && |h| == 2 && |mi| == 2 && |s| == 2
    requires AllDigits(y) && AllDigits(mo) && AllDigits(d) && AllDigits(h) && AllDigits(mi) && AllDigits(s)
    ensures Layout(y + "-" + mo + "-" + d + "T" + h + ":" + mi + ":" + s + "Z")
  {
    var t6 := s + "Z";
    var t5 := mi + ":" + t6;
    var t4 := h + ":" + t5;
    var t3 := d + "T" + t4;
    var t2 := mo + "-" + t3;
    var r := y + "-" + t2;
    assert r == y + "-" + mo + "-" + d + "T" + h + ":" + mi + ":" + s + "Z";
    DigitsThenMark(s, 'Z', []);
    DigitsThenMark(mi, ':', t6);
    DigitsThenMark(h, ':', t5);
    DigitsThenMark(d, 'T', t4);
    DigitsThenMark(mo, '-', t3);
    DigitsThenMark(y, '-', t2);
    assert t6 == s + "Z" + [];
  }

  /** Digits, a separator, then the rest: which positions hold digits and where the separator is. */
  lemma DigitsThenMark(ds: Str, mark: byte, rest: Str)
    requires AllDigits(ds)
    ensures var r := ds + [mark] + rest;
      && |r| == |ds| + 1 + |rest| && r[|ds|] == mark
      && (forall i | 0 <= i < |ds| :: IsDigit(r[i]))
      && (forall i | 0 <= i < |rest| :: r[|ds| + 1 + i] == rest[i])
  {
  }

  // ----- Distinct instants give distinct stamps -----

  /** The year field: four digits at least, with a '-' before a negative year. */
  function YearText(year: int): Str
  {
    if year < 0 then "-" + Pad(-year, 4) else Pad(year, 4)
  }

  /** The fields of a stamp and the marks between them; the marks are parameters so that the
      proof that a stamp determines its fields never has to look inside them. */
  function Stamp(y: Str, mo: Str, d: Str, h: Str, mi: Str, s: Str, dash: Str, tee: Str, colon: Str, zed: Str): Str
  {
    y + dash + mo + dash + d + tee + h + colon + mi + colon + s + zed
  }

  lemma FormatIsStamp(t: Instant)
    ensures FormatRFC3339(t) ==
      Stamp(YearText(t.year), Pad(t.month, 2), Pad(t.day, 2), Pad(t.hour, 2), Pad(t.minute, 2), Pad(t.second, 2), "-", "T", ":", "Z")
  {
  }

  /** Two concatenations with equally long right parts are equal exactly when both parts are. */
  lemma PeelRight(a1: Str, b1: Str, a2: Str, b2: Str)
    requires a1 + b1 == a2 + b2 && |b1| == |b2|
    ensures a1 == a2 && b1 == b2
  {
    assert a1 == (a1 + b1)[..|a1|];
    assert a2 == (a2 + b2)[..|a2|];
    assert b1 == (a1 + b1)[|a1|..];
    assert b2 == (a2 + b2)[|a2|..];
  }

  /** With the same marks and two-byte fields, a stamp determines its fields. */
  lemma StampInjective(y1: Str, mo1: Str, d1: Str, h1: Str, mi1: Str, s1: Str,
                       y2: Str, mo2: Str, d2: Str, h2: Str, mi2: Str, s2: Str,
                       dash: Str, tee: Str, colon: Str, zed: Str)
    requires |mo1| == |d1| == |h1| == |mi1| == |s1| == 2
    requires |mo2| == |d2| == |h2| == |mi2| == |s2| == 2
    requires Stamp(y1, mo1, d1, h1, mi1, s1, dash, tee, colon, zed) == Stamp(y2, mo2, d2, h2, mi2, s2, dash, tee, colon, zed)
    ensures y1 == y2 && mo1 == mo2 && d1 == d2 && h1 == h2 && mi1 == mi2 && s1 == s2
  {
    PeelRight(y1 + dash + mo1 + dash + d1 + tee + h1 + colon + mi1 + colon + s1, zed,
              y2 + dash + mo2 + dash + d2 + tee + h2 + colon + mi2 + colon + s2, zed);
    PeelRight(y1 + dash + mo1 + dash + d1 + tee + h1 + colon + mi1 + colon, s1,
              y2 + dash + mo2 + dash + d2 + tee + h2 + colon + mi2 + colon, s2);
    PeelRight(y1 + dash + mo1 + dash + d1 + tee + h1 + colon + mi1, colon,
              y2 + dash + mo2 + dash + d2 + tee + h2 + colon + mi2, colon);
    PeelRight(y1 + dash + mo1 + dash + d1 + tee + h1 + colon, mi1,
              y2 + dash + mo2 + dash + d2 + tee + h2 + colon, mi2);
    PeelRight(y1 + dash + mo1 + dash + d1 + tee + h1, colon,
              y2 + dash + mo2 + dash + d2 + tee + h2, colon);
    PeelRight(y1 + dash + mo1 + dash + d1 + tee, h1,
              y2 + dash + mo2 + dash + d2 + tee, h2);
    PeelRight(y1 + dash + mo1 + dash + d1, tee,
              y2 + dash + mo2 + dash + d2, tee);
    PeelRight(y1 + dash + mo1 + dash, d1,
              y2 + dash + mo2 + dash, d2);
    PeelRight(y1 + dash + mo1, dash,
              y2 + dash + mo2, dash);
    PeelRight(y1 + dash, mo1,
              y2 + dash, mo2);
    PeelRight(y1, dash,
              y2, dash);
  }

  /** A zero in front of digits does not change their value. */
  lemma {:induction false} LeadingZero(s: Str)
    requires AllDigits(s)
    ensures AllDigits("0" + s) && DigitsValue("0" + s) == DigitsValue(s)
    decreases |s|
  {
    var z: Str := "0";
    assert AllDigits(z + s);
    if |s| > 0 {
      LeadingZero(s[..|s| - 1]);
      assert (z + s)[..|z + s| - 1] == z + s[..|s| - 1];
    }
  }

  /** Padding keeps the value: the padded digits read back as the number. */
  lemma {:induction false} PadValue(n: nat, width: nat)
    ensures DigitsValue(Pad(n, width)) == n
    decreases width
  {
    if |FormatNat(n)| < width {
      PadValue(n, width - 1);
      LeadingZero(Pad(n, width - 1));
    } else {
      FormatNatValue(n);
    }
  }

  /** The year field determines the year. */
  lemma YearTextInjective(y1: int, y2: int)
    requires YearText(y1) == YearText(y2)
    ensures y1 == y2
  {
    var p1, p2 := Pad(if y1 < 0 then -y1 else y1, 4), Pad(if y2 < 0 then -y2 else y2, 4);
    assert !IsDigit('-');
    if y1 < 0 && y2 < 0 {
      assert p1 == YearText(y1)[1..] && p2 == YearText(y2)[1..];
    }
    PadValue(if y1 < 0 then -y1 else y1, 4);
    PadValue(if y2 < 0 then -y2 else y2, 4);
  }

  /** Distinct instants have distinct RFC 3339 texts, so the stamp determines the instant. */
  lemma FormatRFC3339Injective(t1: Instant, t2: Instant)
    ensures FormatRFC3339(t1) == FormatRFC3339(t2) <==> t1 == t2
  {
    if FormatRFC3339(t1) == FormatRFC3339(t2) {
      FormatIsStamp(t1);
      FormatIsStamp(t2);
      PadWidth(t1.month, 2); PadWidth(t1.day, 2); PadWidth(t1.hour, 2); PadWidth(t1.minute, 2); PadWidth(t1.second, 2);
      PadWidth(t2.month, 2); PadWidth(t2.day, 2); PadWidth(t2.hour, 2); PadWidth(t2.minute, 2); PadWidth(t2.second, 2);
      StampInjective(YearText(t1.year), Pad(t1.month, 2), Pad(t1.day, 2), Pad(t1.hour, 2), Pad(t1.minute, 2), Pad(t1.second, 2),
                     YearText(t2.year), Pad(t2.month, 2), Pad(t2.day, 2), Pad(t2.hour, 2), Pad(t2.minute, 2), Pad(t2.second, 2),
                     "-", "T", ":", "Z");
      YearTextInjective(t1.year, t2.year);
      PadValue(t1.month, 2); PadValue(t2.month, 2);
      PadValue(t1.day, 2); PadValue(t2.day, 2);
      PadValue(t1.hour, 2); PadValue(t2.hour, 2);
      PadValue(t1.minute, 2); PadValue(t2.minute, 2);
      PadValue(t1.second, 2); PadValue(t2.second, 2);
    }
  }
}
