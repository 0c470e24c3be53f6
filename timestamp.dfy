/**
 * `formatDateToSQLTimestamp` of the gateway: a date's local-time components
 * written as `YYYY-MM-DD HH:MM:SS`, every component after the year padded to
 * two digits with `0`. The `Date` object is represented by the integer
 * components its getters return.
 */
module SqlTimestamp {
  import opened Wrappers
  import opened Strings

  /**
   * What `getFullYear`, `getMonth` (0 for January), `getDate`, `getHours`,
   * `getMinutes` and `getSeconds` return.
   */
  datatype DateParts = DateParts(year: int, monthIndex: int, day: int, hours: int, minutes: int, seconds: int)

  /** The ranges a `Date`'s getters stay within. */
  predicate ValidDate(d: DateParts)
  {
    && 0 <= d.monthIndex <= 11
    && 1 <= d.day <= 31
    && 0 <= d.hours <= 23
    && 0 <= d.minutes <= 59
    && 0 <= d.seconds <= 59
  }

  /**
   * `n.toString().padStart(2, '0')`, written out digit by digit for the
   * components below 100 (see `TwoDigitsIsPadStart`).
   */
  function TwoDigits(n: int): string
  {
    if 0 <= n < 100 then [Digit(n / 10), Digit(n % 10)] else PadStart(IntToDecimal(n), 2, '0')
  }

  /** A single digit is padded with one `0`. */
  lemma PadOneDigit(d: nat)
    requires d < 10
    ensures PadStart(NatToDecimal(d), 2, '0') == [Digit(0), Digit(d)]
  {
    var r := PadStart([Digit(d)], 2, '0');
    assert |r| == 2 && r[1..] == [Digit(d)] && r[0] == '0';
  }

  /** Two digits need no padding. */
  lemma PadTwoDigits(n: nat)
    requires 10 <= n < 100
    ensures PadStart(NatToDecimal(n), 2, '0') == [Digit(n / 10), Digit(n % 10)]
  {
    var q, r := n / 10, n % 10;
    var s := NatToDecimal(n);
    assert s == [Digit(q), Digit(r)] by {
      assert 1 <= q < 10 && r < 10;
      assert NatToDecimal(q) == [Digit(q)];
      assert s == NatToDecimal(q) + [Digit(r)];
    }
    assert PadStart(s, 2, '0') == s;
  }

  /** `TwoDigits` is `padStart(2, '0')` applied to the decimal text, for every integer. */
  lemma TwoDigitsIsPadStart(n: int)
    ensures TwoDigits(n) == PadStart(IntToDecimal(n), 2, '0')
  {
    if 0 <= n < 10 {
      assert n / 10 == 0 && n % 10 == n;
      assert IntToDecimal(n) == NatToDecimal(n);
      PadOneDigit(n);
    } else if 10 <= n < 100 {
      assert IntToDecimal(n) == NatToDecimal(n);
      PadTwoDigits(n);
    }
  }

  /** Two digits read back as the number they were written from. */
  lemma TwoDigitsValue(n: int)
    requires 0 <= n < 100
    ensures AllDigits(TwoDigits(n)) && DecimalValue(TwoDigits(n)) == n
  {
    DecimalValueTwoDigits(n / 10, n % 10);
  }

  /**
   * The components after the year, each preceded by its separator:
   * `-MM`, `-DD`, ` HH`, `:MM`, `:SS`.
   */
  function Pieces(parts: seq<(char, int)>): string
  {
    if parts == [] then "" else [parts[0].0] + TwoDigits(parts[0].1) + Pieces(parts[1..])
  }

  function Components(d: DateParts): seq<(char, int)>
  {
    [('-', d.monthIndex + 1), ('-', d.day), (' ', d.hours), (':', d.minutes), (':', d.seconds)]
  }

  /** `n.toString().padStart(2, '0')`, as the source writes each component after the year. */
  function Padded(n: int): string
  {
    PadStart(IntToDecimal(n), 2, '0')
  }

  /** A first group in front of the rest. */
  lemma PiecesCons(sep: char, n: int, rest: seq<(char, int)>)
    ensures Pieces([(sep, n)] + rest) == [sep] + TwoDigits(n) + Pieces(rest)
  {
    assert ([(sep, n)] + rest)[1..] == rest;
  }

  /** `${year}-${month}-${day} ${hours}:${minutes}:${seconds}`. */
  function FormatDateToSqlTimestamp(d: DateParts): (ts: string)
    ensures |ts| >= |IntToDecimal(d.year)| && ts[..|IntToDecimal(d.year)|] == IntToDecimal(d.year)
    ensures ValidDate(d) ==> |ts| == |IntToDecimal(d.year)| + 15
  {
    var ts := IntToDecimal(d.year) + Pieces(Components(d));
    if ValidDate(d) then
      PiecesLength(Components(d));
      ts
    else
      ts
  }

  /** Right-nested concatenation of five groups equals the groups written one after the other. */
  lemma FlattenGroups(c1: char, s1: string, c2: char, s2: string, c3: char, s3: string,
                   c4: char, s4: string, c5: char, s5: string, g1: string, g2: string, g3: string, g4: string, g5: string)
    requires g5 == [c5] + s5 + ""
    requires g4 == [c4] + s4 + g5
    requires g3 == [c3] + s3 + g4
    requires g2 == [c2] + s2 + g3
    requires g1 == [c1] + s1 + g2
    ensures g1 == [c1] + s1 + [c2] + s2 + [c3] + s3 + [c4] + s4 + [c5] + s5
  {
  }

  /** The five groups of a date, built from the back. */
  lemma NestedPieces(d: DateParts, p1: seq<(char, int)>)
    requires p1 == [('-', d.monthIndex + 1)] + ([('-', d.day)] + ([(' ', d.hours)] + ([(':', d.minutes)] + [(':', d.seconds)])))
    ensures Pieces(p1)
         == "-" + TwoDigits(d.monthIndex + 1) + "-" + TwoDigits(d.day) + " " + TwoDigits(d.hours)
            + ":" + TwoDigits(d.minutes) + ":" + TwoDigits(d.seconds)
  {
    var p5 := [(':', d.seconds)];
    var p4 := [(':', d.minutes)] + p5;
    var p3 := [(' ', d.hours)] + p4;
    var p2 := [('-', d.day)] + p3;
    PiecesCons(':', d.seconds, []);
    PiecesCons(':', d.minutes, p5);
    PiecesCons(' ', d.hours, p4);
    PiecesCons('-', d.day, p3);
    PiecesCons('-', d.monthIndex + 1, p2);
    FlattenGroups('-', TwoDigits(d.monthIndex + 1), '-', TwoDigits(d.day), ' ', TwoDigits(d.hours),
               ':', TwoDigits(d.minutes), ':', TwoDigits(d.seconds),
               Pieces(p1), Pieces(p2), Pieces(p3), Pieces(p4), Pieces(p5));
  }

  /** The five groups of a date, one after the other. */
  lemma ComponentPieces(d: DateParts)
    ensures Pieces(Components(d))
         == "-" + TwoDigits(d.monthIndex + 1) + "-" + TwoDigits(d.day) + " " + TwoDigits(d.hours)
            + ":" + TwoDigits(d.minutes) + ":" + TwoDigits(d.seconds)
  {
    NestedPieces(d, Components(d));
  }

  /** The timestamp template with each component's text replaced by an equal text is the same text. */
  lemma TemplateOfEqualGroups(year: string, pieces: string, mo: string, da: string, ho: string, mi: string, se: string,
                   mo': string, da': string, ho': string, mi': string, se': string)
    requires pieces == "-" + mo + "-" + da + " " + ho + ":" + mi + ":" + se
    requires mo == mo' && da == da' && ho == ho' && mi == mi' && se == se'
    ensures year + pieces == year + "-" + mo' + "-" + da' + " " + ho' + ":" + mi' + ":" + se'
  {
  }

  /**
   * The timestamp is the source's template: the year's text, then month
   * (counted from 1), day, hours, minutes and seconds, each as its
   * `toString().padStart(2, '0')`, separated as in `YYYY-MM-DD HH:MM:SS`.
   */
  lemma TimestampTemplate(d: DateParts)
    ensures FormatDateToSqlTimestamp(d)
         == IntToDecimal(d.year) + "-" + Padded(d.monthIndex + 1) + "-" + Padded(d.day)
            + " " + Padded(d.hours) + ":" + Padded(d.minutes) + ":" + Padded(d.seconds)
  {
    ComponentPieces(d);
    assert TwoDigits(d.monthIndex + 1) == Padded(d.monthIndex + 1) by { TwoDigitsIsPadStart(d.monthIndex + 1); }
    assert TwoDigits(d.day) == Padded(d.day) by { TwoDigitsIsPadStart(d.day); }
    assert TwoDigits(d.hours) == Padded(d.hours) by { TwoDigitsIsPadStart(d.hours); }
    assert TwoDigits(d.minutes) == Padded(d.minutes) by { TwoDigitsIsPadStart(d.minutes); }
    assert TwoDigits(d.seconds) == Padded(d.seconds) by { TwoDigitsIsPadStart(d.seconds); }
    TemplateOfEqualGroups(IntToDecimal(d.year), Pieces(Components(d)),
               TwoDigits(d.monthIndex + 1), TwoDigits(d.day), TwoDigits(d.hours), TwoDigits(d.minutes), TwoDigits(d.seconds),
               Padded(d.monthIndex + 1), Padded(d.day), Padded(d.hours), Padded(d.minutes), Padded(d.seconds));
  }

  predicate TwoDigitParts(parts: seq<(char, int)>)
  {
    forall i :: 0 <= i < |parts| ==> 0 <= parts[i].1 < 100
  }

  /** Reads separator-and-two-digit groups back, three characters at a time. */
  function ParsePieces(s: string): Option<seq<(char, int)>>
    decreases |s|
  {
    if s == [] then Some([])
    else if |s| < 3 || !AllDigits(s[1..3]) then None
    else
      match ParsePieces(s[3..])
      case None => None
      case Some(rest) => Some([(s[0], DecimalValue(s[1..3]))] + rest)
  }

  lemma {:induction false} PiecesRoundTrip(parts: seq<(char, int)>)
    requires TwoDigitParts(parts)
    ensures ParsePieces(Pieces(parts)) == Some(parts)
  {
    if parts != [] {
      var p := parts[0];
      TwoDigitsValue(p.1);
      PiecesRoundTrip(parts[1..]);
      var s := Pieces(parts);
      assert s == [p.0] + TwoDigits(p.1) + Pieces(parts[1..]);
      assert s[1..3] == TwoDigits(p.1);
      assert s[3..] == Pieces(parts[1..]);
      assert s[0] == p.0;
      assert [(s[0], DecimalValue(s[1..3]))] + parts[1..] == parts;
    }
  }

  /** Year text as `toString` writes an integer: digits, with a leading `-` when negative. */
  predicate YearText(y: string)
  {
    (|y| >= 1 && AllDigits(y)) || (|y| >= 2 && y[0] == '-' && AllDigits(y[1..]))
  }

  function YearValue(y: string): int
    requires YearText(y)
  {
    if |y| >= 1 && AllDigits(y) then DecimalValue(y) else -(DecimalValue(y[1..]) as int)
  }

  /**
   * Reads a timestamp back: the last fifteen characters are
   * `-MM-DD HH:MM:SS`, everything before them is the year.
   */
  function ParseSqlTimestamp(ts: string): Option<DateParts>
  {
    if |ts| < 16 then None
    else
      var y := ts[..|ts| - 15];
      match ParsePieces(ts[|ts| - 15..])
      case None => None
      case Some(ps) =>
        if YearText(y) && |ps| == 5 && [ps[0].0, ps[1].0, ps[2].0, ps[3].0, ps[4].0] == "-- ::"
        then Some(DateParts(YearValue(y), ps[0].1 - 1, ps[1].1, ps[2].1, ps[3].1, ps[4].1))
        else None
  }

  lemma YearRoundTrip(year: int)
    ensures YearText(IntToDecimal(year)) && YearValue(IntToDecimal(year)) == year
  {
    var y := IntToDecimal(year);
    if year >= 0 {
      DecimalRoundTrip(year);
    } else {
      DecimalRoundTrip(-year);
      assert y[1..] == NatToDecimal(-year);
      assert !IsDigit(y[0]);
    }
  }

  /** The timestamp of a valid date reads back as that date. */
  lemma TimestampRoundTrip(d: DateParts)
    requires ValidDate(d)
    ensures ParseSqlTimestamp(FormatDateToSqlTimestamp(d)) == Some(d)
  {
    var y := IntToDecimal(d.year);
    var parts := Components(d);
    var p := Pieces(parts);
    var ts := FormatDateToSqlTimestamp(d);
    PiecesRoundTrip(parts);
    PiecesLength(parts);
    YearRoundTrip(d.year);
    assert |p| == 15 && ts == y + p;
    assert ts[..|ts| - 15] == y;
    assert ts[|ts| - 15..] == p;
    assert ParsePieces(p) == Some(parts);
  }

  lemma {:induction false} PiecesLength(parts: seq<(char, int)>)
    requires TwoDigitParts(parts)
    ensures |Pieces(parts)| == 3 * |parts|
  {
    if parts != [] {
      PiecesLength(parts[1..]);
    }
  }

  /** The separator of each group sits at every third character. */
  lemma {:induction false} PiecesSeparators(parts: seq<(char, int)>, i: nat)
    requires TwoDigitParts(parts) && i < |parts|
    ensures |Pieces(parts)| == 3 * |parts| && Pieces(parts)[3 * i] == parts[i].0
  {
    PiecesLength(parts);
    var head := [parts[0].0] + TwoDigits(parts[0].1);
    assert |head| == 3 && head[0] == parts[0].0;
    assert Pieces(parts) == head + Pieces(parts[1..]);
    if i > 0 {
      PiecesSeparators(parts[1..], i - 1);
      assert 3 * i == 3 + 3 * (i - 1);
    }
  }

  /** A valid date with a four-digit year gives the fixed 19-character layout. */
  lemma TimestampLayout(d: DateParts)
    requires ValidDate(d) && 1000 <= d.year <= 9999
    ensures var ts := FormatDateToSqlTimestamp(d);
      && |ts| == 19 && AllDigits(ts[..4])
      && ts[4] == '-' && ts[7] == '-' && ts[10] == ' ' && ts[13] == ':' && ts[16] == ':'
  {
    var parts := Components(d);
    var ts := FormatDateToSqlTimestamp(d);
    var y := IntToDecimal(d.year);
    PiecesSeparators(parts, 0);
    PiecesSeparators(parts, 1);
    PiecesSeparators(parts, 2);
    PiecesSeparators(parts, 3);
    PiecesSeparators(parts, 4);
    assert ts[..4] == y;
    assert ts[4..] == Pieces(parts);
  }

  /** January 1st at midnight pads every component: `2024-01-01 00:00:00`. */
  lemma NewYearMidnight()
    ensures FormatDateToSqlTimestamp(DateParts(2024, 0, 1, 0, 0, 0)) == "2024-01-01 00:00:00"
  {
    assert NatToDecimal(2024) == "2024" by {
      assert NatToDecimal(2) == "2";
      assert NatToDecimal(20) == "20";
      assert NatToDecimal(202) == "202";
    }
  }
}
