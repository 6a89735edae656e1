/**
 `Target::Format_time`: the date and time fields of a line or a file name. A time is the
 number of milliseconds since the epoch; finer ticks are cut off by every field.
 */
module TimeText {
  import opened Calendar
  import opened Placeholders
  import opened Template
  import opened Text

  const MILLIS_PER_DAY := 86_400_000

  function Pad2(n: nat): (s: string) { if n < 10 then "0" + Decimal(n) else Decimal(n) }

  function Pad3(n: nat): (s: string) {
    if n < 100 then (if n < 10 then "00" + Decimal(n) else "0" + Decimal(n)) else Decimal(n)
  }

  const Q1 := "Jan Feb Mar "
  const Q2 := "Apr May Jun "
  const Q3 := "Jul Aug Sep "
  const Q4 := "Oct Nov Dec"

  /** "Jan Feb ... Dec" */
  const MONTHS := Q1 + Q2 + Q3 + Q4

  function MonthName(m: nat): (s: string)
    requires 1 <= m <= 12
  {
    MONTHS[(m - 1) * 4..(m - 1) * 4 + 3]
  }

  function DayOf(t: nat): (d: Date) { DateOf(t / MILLIS_PER_DAY) }
  function Hour(t: nat): (n: nat) { t / 3_600_000 % 24 }
  function Minute(t: nat): (n: nat) { t / 60_000 % 60 }
  function Second(t: nat): (n: nat) { t / 1000 % 60 }
  function Milli(t: nat): (n: nat) { t % 1000 }

  function DateText(t: nat): (s: string) {
    Decimal(DayOf(t).year) + "-" + Pad2(DayOf(t).month) + "-" + Pad2(DayOf(t).day)
  }

  function ClockText(t: nat): (s: string) {
    Pad2(Hour(t)) + ":" + Pad2(Minute(t)) + ":" + Pad2(Second(t))
  }

  lemma DecimalLength(n: nat)
    requires n < 10_000
    ensures |Decimal(n)| == if n < 10 then 1 else if n < 100 then 2 else if n < 1000 then 3 else 4
  {
    assert n >= 10 ==> |Decimal(n)| == |Decimal(n / 10)| + 1;
    assert n >= 100 ==> |Decimal(n / 10)| == |Decimal(n / 10 / 10)| + 1;
    assert n >= 1000 ==> |Decimal(n / 10 / 10)| == |Decimal(n / 10 / 10 / 10)| + 1;
  }

  /** `substr(2)` needs two characters, which every year from 1970 has. */
  lemma {:induction false} YearHasFourDigits(y: nat)
    requires y >= 1000
    ensures |Decimal(y)| >= 4
  {
    if y < 10_000 { DecimalLength(y); } else { YearHasFourDigits(y / 10); }
  }

  function WholeFields(t: nat): (m: map<string, string>)
    ensures m.Keys == WHOLE_KEYS
  {
    map[DATATIME := DateText(t) + " " + ClockText(t), DATE := DateText(t), MONSTR := MonthName(DayOf(t).month),
        TIME := ClockText(t) + "." + Pad3(Milli(t)) + "0000"]
  }

  function DateFields(t: nat): (m: map<string, string>)
    ensures m.Keys == DATE_KEYS
  {
    YearHasFourDigits(DayOf(t).year);
    map[YEAR := Decimal(DayOf(t).year), YR := Decimal(DayOf(t).year)[2..], MONTH := Pad2(DayOf(t).month),
        DAY := Pad2(DayOf(t).day)]
  }

  function ClockFields(t: nat): (m: map<string, string>)
    ensures m.Keys == CLOCK_KEYS
  {
    map[HOUR := Pad2(Hour(t)), MIN := Pad2(Minute(t)), SEC := Pad2(Second(t)), MS := Pad3(Milli(t))]
  }

  /** The replacements of Format_time. */
  function TimeTable(t: nat): (m: map<string, string>)
    ensures m.Keys == TIME_KEYS
  {
    WholeFields(t) + DateFields(t) + ClockFields(t)
  }

  /** `Format_time` itself. */
  method FormatTime(input: string, t: nat) returns (r: string)
    ensures Substituted(input, TimeTable(t), r)
  {
    r := ReplacePlaceholders(input, TimeTable(t));
  }

  // ----- the values are plain text -----

  lemma DigitsArePlain(s: string)
    requires AllDigits(s)
    ensures Plain(s)
  {
  }

  lemma FieldsArePlain(n: nat)
    ensures Plain(Decimal(n)) && Plain(Pad2(n)) && Plain(Pad3(n))
  {
    DigitsArePlain(Decimal(n));
  }

  predicate IsLetter(c: char) { 'A' <= c <= 'Z' || 'a' <= c <= 'z' }

  const NAMES := ["Jan", "Feb", "Mar", "Apr", "May", "Jun", "Jul", "Aug", "Sep", "Oct", "Nov", "Dec"]

  /** The slice of the list of months is the name of the month. */
  lemma MonthNameIs(m: nat)
    requires 1 <= m <= 12
    ensures MonthName(m) == NAMES[m - 1]
  {
    MonthAt(m);
    ThreeChars(MONTHS, (m - 1) * 4, NAMES[m - 1]);
  }

  lemma ThreeChars(s: string, k: nat, name: string)
    requires k + 3 <= |s| && |name| == 3
    requires s[k] == name[0] && s[k + 1] == name[1] && s[k + 2] == name[2]
    ensures s[k..k + 3] == name
  {
  }

  lemma MonthAt(m: nat)
    requires 1 <= m <= 12
    ensures |NAMES[m - 1]| == 3
    ensures MONTHS[(m - 1) * 4] == NAMES[m - 1][0]
    ensures MONTHS[(m - 1) * 4 + 1] == NAMES[m - 1][1]
    ensures MONTHS[(m - 1) * 4 + 2] == NAMES[m - 1][2]
  {
    assert |Q1| == |Q2| == |Q3| == 12;
    if m <= 3 { Quarter1(m); }
    else if m <= 6 { Quarter2(m - 3); }
    else if m <= 9 { Quarter3(m - 6); }
    else { Quarter4(m - 9); }
  }

  lemma Quarter1(m: nat)
    requires 1 <= m <= 3
    ensures |NAMES[0 + m - 1]| == 3 && (m - 1) * 4 + 3 <= |Q1|
    ensures Q1[(m - 1) * 4] == NAMES[0 + m - 1][0]
    ensures Q1[(m - 1) * 4 + 1] == NAMES[0 + m - 1][1]
    ensures Q1[(m - 1) * 4 + 2] == NAMES[0 + m - 1][2]
  {
    match m
    case 1 =>
    case 2 =>
    case 3 =>
  }

  lemma Quarter2(m: nat)
    requires 1 <= m <= 3
    ensures |NAMES[3 + m - 1]| == 3 && (m - 1) * 4 + 3 <= |Q2|
    ensures Q2[(m - 1) * 4] == NAMES[3 + m - 1][0]
    ensures Q2[(m - 1) * 4 + 1] == NAMES[3 + m - 1][1]
    ensures Q2[(m - 1) * 4 + 2] == NAMES[3 + m - 1][2]
  {
    match m
    case 1 =>
    case 2 =>
    case 3 =>
  }

  lemma Quarter3(m: nat)
    requires 1 <= m <= 3
    ensures |NAMES[6 + m - 1]| == 3 && (m - 1) * 4 + 3 <= |Q3|
    ensures Q3[(m - 1) * 4] == NAMES[6 + m - 1][0]
    ensures Q3[(m - 1) * 4 + 1] == NAMES[6 + m - 1][1]
    ensures Q3[(m - 1) * 4 + 2] == NAMES[6 + m - 1][2]
  {
    match m
    case 1 =>
    case 2 =>
    case 3 =>
  }

  lemma Quarter4(m: nat)
    requires 1 <= m <= 3
    ensures |NAMES[9 + m - 1]| == 3 && (m - 1) * 4 + 3 <= |Q4|
    ensures Q4[(m - 1) * 4] == NAMES[9 + m - 1][0]
    ensures Q4[(m - 1) * 4 + 1] == NAMES[9 + m - 1][1]
    ensures Q4[(m - 1) * 4 + 2] == NAMES[9 + m - 1][2]
  {
    match m
    case 1 =>
    case 2 =>
    case 3 =>
  }

  lemma NamesAreLetters(m: nat)
    requires 1 <= m <= 12
    ensures |NAMES[m - 1]| == 3
    ensures IsLetter(NAMES[m - 1][0]) && IsLetter(NAMES[m - 1][1]) && IsLetter(NAMES[m - 1][2])
  {
  }

  /** Every month name is three letters. */
  lemma MonthNameLetters(m: nat)
    requires 1 <= m <= 12
    ensures |MonthName(m)| == 3 && forall i :: 0 <= i < 3 ==> IsLetter(MonthName(m)[i])
  {
    MonthNameIs(m);
    NamesAreLetters(m);
  }

  lemma DateAndClockArePlain(t: nat)
    ensures Plain(DateText(t)) && Plain(ClockText(t))
  {
    FieldsArePlain(DayOf(t).year);
    FieldsArePlain(DayOf(t).month);
    FieldsArePlain(DayOf(t).day);
    FieldsArePlain(Hour(t));
    FieldsArePlain(Minute(t));
    FieldsArePlain(Second(t));
  }

  lemma TimeFieldsArePlain(t: nat)
    ensures Plain(Decimal(DayOf(t).year)) && Plain(Decimal(DayOf(t).year)[2..])
    ensures Plain(MonthName(DayOf(t).month))
    ensures Plain(DateText(t) + " " + ClockText(t)) && Plain(ClockText(t) + "." + Pad3(Milli(t)) + "0000")
  {
    YearHasFourDigits(DayOf(t).year);
    FieldsArePlain(DayOf(t).year);
    assert forall c :: c in Decimal(DayOf(t).year)[2..] ==> c in Decimal(DayOf(t).year);
    DateAndClockArePlain(t);
    FieldsArePlain(Milli(t));
    MonthNameLetters(DayOf(t).month);
  }

  lemma ClockValues(p: string -> bool, k: string, t: nat)
    requires k in CLOCK_KEYS
    requires p(Pad2(Hour(t))) && p(Pad2(Minute(t))) && p(Pad2(Second(t))) && p(Pad3(Milli(t)))
    ensures p(ClockFields(t)[k])
  {
  }

  lemma DateValues(p: string -> bool, k: string, t: nat)
    requires k in DATE_KEYS && |Decimal(DayOf(t).year)| >= 2
    requires p(Decimal(DayOf(t).year)) && p(Decimal(DayOf(t).year)[2..])
    requires p(Pad2(DayOf(t).month)) && p(Pad2(DayOf(t).day))
    ensures p(DateFields(t)[k])
  {
  }

  lemma WholeValues(p: string -> bool, k: string, t: nat)
    requires k in WHOLE_KEYS
    requires p(DateText(t) + " " + ClockText(t)) && p(DateText(t)) && p(MonthName(DayOf(t).month))
    requires p(ClockText(t) + "." + Pad3(Milli(t)) + "0000")
    ensures p(WholeFields(t)[k])
  {
  }

  lemma TimeValueIsPlain(k: string, t: nat)
    requires k in TIME_KEYS
    ensures Plain(TimeTable(t)[k])
  {
    var p := (s: string) => Plain(s);
    YearHasFourDigits(DayOf(t).year);
    TimeFieldsArePlain(t);
    DateAndClockArePlain(t);
    FieldsArePlain(DayOf(t).month);
    FieldsArePlain(DayOf(t).day);
    FieldsArePlain(Hour(t));
    FieldsArePlain(Minute(t));
    FieldsArePlain(Second(t));
    FieldsArePlain(Milli(t));
    if k in CLOCK_KEYS {
      ClockValues(p, k, t);
    } else if k in DATE_KEYS {
      DateValues(p, k, t);
    } else {
      WholeValues(p, k, t);
    }
  }

  lemma TimeValuesArePlain(t: nat)
    ensures forall k :: k in TimeTable(t) ==> Plain(TimeTable(t)[k])
  {
    forall k | k in TimeTable(t) ensures Plain(TimeTable(t)[k]) {
      TimeValueIsPlain(k, t);
    }
  }

  // ----- digit strings of fixed width -----

  /** The last `w` decimal digits of `n`. */
  function Fixed(n: nat, w: nat): (s: string)
    ensures |s| == w && AllDigits(s)
  {
    if w == 0 then "" else Fixed(n / 10, w - 1) + [DigitChar(n % 10)]
  }

  function Power10(w: nat): (p: nat)
    ensures p >= 1
  {
    if w == 0 then 1 else 10 * Power10(w - 1)
  }

  lemma {:induction false} LeadingZero(n: nat, w: nat)
    requires n < Power10(w)
    ensures Fixed(n, w + 1) == "0" + Fixed(n, w)
    decreases w
  {
    if w > 0 {
      LeadingZero(n / 10, w - 1);
    }
  }

  lemma {:induction false} DecimalIsFixed(n: nat, w: nat)
    requires n < Power10(w + 1) && (w == 0 || Power10(w) <= n)
    ensures Decimal(n) == Fixed(n, w + 1)
    decreases w
  {
    if w > 0 {
      assert n >= 10 by { assert Power10(w) == 10 * Power10(w - 1); }
      DecimalIsFixed(n / 10, w - 1);
    }
  }

  lemma PaddedIsFixed(n: nat)
    ensures n < 100 ==> Pad2(n) == Fixed(n, 2)
    ensures n < 1000 ==> Pad3(n) == Fixed(n, 3)
    ensures 1000 <= n < 10_000 ==> Decimal(n) == Fixed(n, 4)
  {
    assert Power10(1) == 10 && Power10(2) == 100 && Power10(3) == 1000 && Power10(4) == 10_000;
    if n < 10 {
      DecimalIsFixed(n, 0);
      LeadingZero(n, 1);
      LeadingZero(n, 2);
    } else if n < 100 {
      DecimalIsFixed(n, 1);
      LeadingZero(n, 2);
    } else if n < 1000 {
      DecimalIsFixed(n, 2);
    } else if n < 10_000 {
      DecimalIsFixed(n, 3);
    }
  }

  lemma {:induction false} ValueOfFixed(n: nat, w: nat)
    requires n < Power10(w)
    ensures Value(Fixed(n, w)) == n
    decreases w
  {
    if w > 0 {
      ValueOfFixed(n / 10, w - 1);
      assert Fixed(n, w)[..w - 1] == Fixed(n / 10, w - 1);
    }
  }

  lemma {:induction false} FixedOrder(m: nat, n: nat, w: nat)
    requires m < Power10(w) && n < Power10(w)
    ensures Less(Fixed(m, w), Fixed(n, w)) <==> m < n
    ensures Fixed(m, w) == Fixed(n, w) <==> m == n
    decreases w
  {
    ValueOfFixed(m, w);
    ValueOfFixed(n, w);
    if w > 0 {
      FixedOrder(m / 10, n / 10, w - 1);
      LessConcat(Fixed(m / 10, w - 1), Fixed(n / 10, w - 1), [DigitChar(m % 10)], [DigitChar(n % 10)]);
      assert Less([DigitChar(m % 10)], [DigitChar(n % 10)]) <==> m % 10 < n % 10;
    }
  }

  // ----- a whole time stamp -----

  /** One numeric field of a stamp: its value, its width, and the character behind it. */
  datatype Field = Field(value: nat, width: nat, sep: string)

  function Render(fs: seq<Field>): (s: string) {
    if fs == [] then "" else Fixed(fs[0].value, fs[0].width) + (fs[0].sep + Render(fs[1..]))
  }

  /** Year, month, day, hour, minute, second and millisecond in the layout of a stamp. */
  function FieldsOf(v: seq<nat>): (fs: seq<Field>)
    requires |v| == 7
  {
    [Field(v[0], 4, "-"), Field(v[1], 2, "-"), Field(v[2], 2, " "),
     Field(v[3], 2, ":"), Field(v[4], 2, ":"), Field(v[5], 2, "."), Field(v[6], 3, "")]
  }

  function StampValues(t: nat): (v: seq<nat>) {
    [DayOf(t).year, DayOf(t).month, DayOf(t).day, Hour(t), Minute(t), Second(t), Milli(t)]
  }

  function StampFields(t: nat): (fs: seq<Field>) { FieldsOf(StampValues(t)) }

  const LAYOUT := FieldsOf([0, 0, 0, 0, 0, 0, 0])

  /** Date, hour, minute, second and millisecond as Format_time prints them. */
  function Stamp(t: nat): (s: string) { DateText(t) + " " + ClockText(t) + "." + Pad3(Milli(t)) }

  ghost predicate Fits(fs: seq<Field>) {
    forall i :: 0 <= i < |fs| ==> fs[i].value < Power10(fs[i].width)
  }

  /** Both lists have the same layout. */
  ghost predicate SameLayout(a: seq<Field>, b: seq<Field>) {
    |a| == |b| && forall i :: 0 <= i < |a| ==> a[i].width == b[i].width && a[i].sep == b[i].sep
  }

  ghost predicate LexLess(a: seq<Field>, b: seq<Field>)
    requires |a| == |b|
  {
    a != [] && (a[0].value < b[0].value || (a[0].value == b[0].value && LexLess(a[1..], b[1..])))
  }

  lemma {:induction false} RenderOrder(a: seq<Field>, b: seq<Field>)
    requires SameLayout(a, b) && Fits(a) && Fits(b)
    ensures Less(Render(a), Render(b)) <==> LexLess(a, b)
    ensures |Render(a)| == |Render(b)|
    decreases |a|
  {
    if a != [] {
      RenderOrder(a[1..], b[1..]);
      FixedOrder(a[0].value, b[0].value, a[0].width);
      LessConcat(Fixed(a[0].value, a[0].width), Fixed(b[0].value, b[0].width),
                 a[0].sep + Render(a[1..]), b[0].sep + Render(b[1..]));
      LessConcat(a[0].sep, b[0].sep, Render(a[1..]), Render(b[1..]));
      LessIrreflexive(a[0].sep);
    }
  }

  /** Before the first instant of the year 10000. */
  predicate InRange(t: nat) { t < DAY_10000 * MILLIS_PER_DAY }

  /** These are exactly the times whose year has four digits. */
  lemma InRangeExactly(t: nat)
    ensures InRange(t) <==> DayOf(t).year < 10_000
  {
    FourDigitYears(t / MILLIS_PER_DAY);
  }

  lemma StampFieldsFit(t: nat)
    requires InRange(t)
    ensures Fits(StampFields(t))
  {
    InRangeExactly(t);
    assert Power10(2) == 100 && Power10(3) == 1000 && Power10(4) == 10_000;
  }

  lemma RenderCons(f: Field, fs: seq<Field>)
    ensures Render([f] + fs) == Fixed(f.value, f.width) + (f.sep + Render(fs))
  {
    assert ([f] + fs)[1..] == fs;
  }

  lemma ConsThree(a: Field, b: Field, c: Field, rest: seq<Field>)
    ensures [a, b, c] + rest == [a] + ([b] + ([c] + rest))
  {
  }

  lemma RenderThree(a: Field, b: Field, c: Field, rest: seq<Field>)
    ensures Render([a, b, c] + rest)
         == Fixed(a.value, a.width) + a.sep + Fixed(b.value, b.width) + b.sep
            + Fixed(c.value, c.width) + c.sep + Render(rest)
  {
    ConsThree(a, b, c, rest);
    RenderCons(a, [b] + ([c] + rest));
    RenderCons(b, [c] + rest);
    RenderCons(c, rest);
  }

  lemma RegroupStamp(date: string, clock: string, dot: string, ms: string)
    ensures date + " " + (clock + dot + ms) == date + " " + clock + dot + ms
  {
  }

  lemma RenderLast(f: Field)
    requires f.sep == ""
    ensures Render([f]) == Fixed(f.value, f.width)
  {
    assert [f][1..] == [];
  }

  lemma RenderSeven(fs: seq<Field>)
    requires |fs| == 7
    ensures Render(fs)
         == Fixed(fs[0].value, fs[0].width) + fs[0].sep + Fixed(fs[1].value, fs[1].width) + fs[1].sep
          + Fixed(fs[2].value, fs[2].width) + fs[2].sep
          + (Fixed(fs[3].value, fs[3].width) + fs[3].sep + Fixed(fs[4].value, fs[4].width) + fs[4].sep
             + Fixed(fs[5].value, fs[5].width) + fs[5].sep + Render([fs[6]]))
  {
    assert fs == [fs[0], fs[1], fs[2]] + fs[3..] && fs[3..] == [fs[3], fs[4], fs[5]] + [fs[6]];
    RenderThree(fs[0], fs[1], fs[2], fs[3..]);
    RenderThree(fs[3], fs[4], fs[5], [fs[6]]);
  }

  lemma StampIsRendered(t: nat)
    requires InRange(t)
    ensures Stamp(t) == Render(StampFields(t))
  {
    var fs := StampFields(t);
    var d := DayOf(t);
    InRangeExactly(t);
    PaddedIsFixed(d.year);
    PaddedIsFixed(d.month);
    PaddedIsFixed(d.day);
    PaddedIsFixed(Hour(t));
    PaddedIsFixed(Minute(t));
    PaddedIsFixed(Second(t));
    PaddedIsFixed(Milli(t));
    RenderSeven(fs);
    RenderLast(fs[6]);
    RegroupStamp(DateText(t), ClockText(t), ".", Pad3(Milli(t)));
  }

  lemma LexCons(f: Field, a: seq<Field>, g: Field, b: seq<Field>)
    requires |a| == |b|
    ensures LexLess([f] + a, [g] + b) <==> f.value < g.value || (f.value == g.value && LexLess(a, b))
  {
    assert ([f] + a)[1..] == a && ([g] + b)[1..] == b;
  }

  lemma ThreeAndRest(a: seq<Field>)
    requires |a| >= 3
    ensures a == [a[0]] + ([a[1]] + ([a[2]] + a[3..]))
  {
  }

  lemma LexThree(a: seq<Field>, b: seq<Field>)
    requires |a| == |b| >= 3
    ensures LexLess(a, b) <==>
              || a[0].value < b[0].value
              || (a[0].value == b[0].value
                  && (a[1].value < b[1].value
                      || (a[1].value == b[1].value
                          && (a[2].value < b[2].value || (a[2].value == b[2].value && LexLess(a[3..], b[3..]))))))
  {
    ThreeAndRest(a);
    ThreeAndRest(b);
    LexCons(a[0], [a[1]] + ([a[2]] + a[3..]), b[0], [b[1]] + ([b[2]] + b[3..]));
    LexCons(a[1], [a[2]] + a[3..], b[1], [b[2]] + b[3..]);
    LexCons(a[2], a[3..], b[2], b[3..]);
  }

  /** The fields put together again. */
  lemma TimeFromFields(t: nat)
    ensures t == t / MILLIS_PER_DAY * MILLIS_PER_DAY + Hour(t) * 3_600_000 + Minute(t) * 60_000 + Second(t) * 1000
              + Milli(t)
    ensures Hour(t) < 24 && Minute(t) < 60 && Second(t) < 60 && Milli(t) < 1000
  {
    assert t / 1000 / 60 == t / 60_000 && t / 60_000 / 60 == t / 3_600_000 && t / 3_600_000 / 24 == t / MILLIS_PER_DAY;
  }

  lemma ClockOrder(t: nat, u: nat)
    requires t / MILLIS_PER_DAY == u / MILLIS_PER_DAY
    ensures t < u <==>
              || Hour(t) < Hour(u)
              || (Hour(t) == Hour(u)
                  && (Minute(t) < Minute(u)
                      || (Minute(t) == Minute(u)
                          && (Second(t) < Second(u) || (Second(t) == Second(u) && Milli(t) < Milli(u))))))
  {
    TimeFromFields(t);
    TimeFromFields(u);
  }

  lemma FieldsFollowTime(t: nat, u: nat)
    ensures LexLess(StampFields(t), StampFields(u)) <==> t < u
  {
    var a, b := StampFields(t), StampFields(u);
    var m, n := t / MILLIS_PER_DAY, u / MILLIS_PER_DAY;
    LexThree(a, b);
    LexThree(a[3..], b[3..]);
    LexCons(a[6], [], b[6], []);
    assert a[3..][3..] == [a[6]] + [] && b[3..][3..] == [b[6]] + [];
    DatesFollowDays(m, n);
    DatesFollowDays(n, m);
    if m == n { ClockOrder(t, u); }
  }

  lemma RenderedWidth(fs: seq<Field>)
    requires |fs| == 7 && fs[6].sep == ""
    ensures |Render(fs)| == fs[0].width + |fs[0].sep| + fs[1].width + |fs[1].sep| + fs[2].width + |fs[2].sep|
                          + fs[3].width + |fs[3].sep| + fs[4].width + |fs[4].sep| + fs[5].width + |fs[5].sep|
                          + fs[6].width
  {
    RenderSeven(fs);
    RenderLast(fs[6]);
  }

  /** Stamps of the years 1970 to 9999 have one width, and comparing them as texts is comparing
      the times. */
  lemma StampsCompareAsTimes(t: nat, u: nat)
    requires InRange(t) && InRange(u)
    ensures |Stamp(t)| == |Stamp(u)| == 23
    ensures Less(Stamp(t), Stamp(u)) <==> t < u
  {
    StampIsRendered(t);
    StampIsRendered(u);
    RenderedWidth(StampFields(t));
    RenderedWidth(StampFields(u));
    StampFieldsFit(t);
    StampFieldsFit(u);
    StampLayout(t, u);
    RenderOrder(StampFields(t), StampFields(u));
    FieldsFollowTime(t, u);
  }

  lemma StampLayout(t: nat, u: nat)
    ensures SameLayout(StampFields(t), StampFields(u))
  {
  }

  function Numbers(fs: seq<Field>): (vs: seq<nat>) {
    if fs == [] then [] else [fs[0].value] + Numbers(fs[1..])
  }

  /** Reading numbers back from a text with a given layout. */
  ghost function ReadBack(s: string, layout: seq<Field>): (values: seq<nat>) {
    if layout == [] then []
    else
      var w := layout[0].width;
      var next := w + |layout[0].sep|;
      if next <= |s| && AllDigits(s[..w]) then [Value(s[..w])] + ReadBack(s[next..], layout[1..]) else []
  }

  lemma {:induction false} ReadBackRendered(fs: seq<Field>, layout: seq<Field>)
    requires SameLayout(fs, layout) && Fits(fs)
    ensures ReadBack(Render(fs), layout) == Numbers(fs)
    decreases |fs|
  {
    if fs != [] {
      LayoutTail(fs, layout);
      ReadBackRendered(fs[1..], layout[1..]);
      ReadStep(fs[0].value, fs[0].width, fs[0].sep, Render(fs[1..]), layout);
    }
  }

  lemma LayoutTail(fs: seq<Field>, layout: seq<Field>)
    requires fs != [] && SameLayout(fs, layout) && Fits(fs)
    ensures SameLayout(fs[1..], layout[1..]) && Fits(fs[1..])
    ensures layout[0].width == fs[0].width && layout[0].sep == fs[0].sep && fs[0].value < Power10(fs[0].width)
  {
  }

  lemma ReadStep(n: nat, w: nat, sep: string, rest: string, layout: seq<Field>)
    requires layout != [] && layout[0].width == w && layout[0].sep == sep && n < Power10(w)
    ensures ReadBack(Fixed(n, w) + (sep + rest), layout) == [n] + ReadBack(rest, layout[1..])
  {
    ReadOne(Field(n, w, sep), rest);
  }

  lemma ReadOne(f: Field, rest: string)
    requires f.value < Power10(f.width)
    ensures var s := Fixed(f.value, f.width) + (f.sep + rest);
            && f.width + |f.sep| <= |s|
            && AllDigits(s[..f.width])
            && Value(s[..f.width]) == f.value
            && s[f.width + |f.sep|..] == rest
  {
    ValueOfFixed(f.value, f.width);
    var s := Fixed(f.value, f.width) + (f.sep + rest);
    assert s[..f.width] == Fixed(f.value, f.width);
  }

  lemma NumbersThree(a: Field, b: Field, c: Field, rest: seq<Field>)
    ensures Numbers([a, b, c] + rest) == [a.value, b.value, c.value] + Numbers(rest)
  {
    assert ([a, b, c] + rest)[1..] == [b, c] + rest && ([b, c] + rest)[1..] == [c] + rest && ([c] + rest)[1..] == rest;
    assert Numbers([c] + rest) == [c.value] + Numbers(rest);
    assert Numbers([b, c] + rest) == [b.value] + ([c.value] + Numbers(rest));
  }

  lemma NumbersOfFields(v: seq<nat>)
    requires |v| == 7
    ensures Numbers(FieldsOf(v)) == v
  {
    var fs := FieldsOf(v);
    assert fs == [fs[0], fs[1], fs[2]] + fs[3..] && fs[3..] == [fs[3], fs[4], fs[5]] + [fs[6]];
    NumbersThree(fs[0], fs[1], fs[2], fs[3..]);
    NumbersThree(fs[3], fs[4], fs[5], [fs[6]]);
    assert Numbers([fs[6]]) == [fs[6].value];
    assert v == [v[0], v[1], v[2]] + ([v[3], v[4], v[5]] + [v[6]]);
  }

  /** The seven numbers come back from the rendered text. */
  lemma FieldsReadBack(v: seq<nat>)
    requires |v| == 7 && Fits(FieldsOf(v))
    ensures ReadBack(Render(FieldsOf(v)), LAYOUT) == v
  {
    ReadBackRendered(FieldsOf(v), LAYOUT);
    NumbersOfFields(v);
  }

  /** The time that year, month, day, hour, minute, second and millisecond denote. */
  ghost function TimeOf(v: seq<nat>): (t: Option<nat>) {
    if |v| == 7 && Valid(Date(v[0], v[1], v[2])) then
      Some(DayNumber(Date(v[0], v[1], v[2])) * MILLIS_PER_DAY + v[3] * 3_600_000 + v[4] * 60_000 + v[5] * 1000 + v[6])
    else None
  }

  /** The time a stamp denotes. */
  ghost function ParseStamp(s: string): (t: Option<nat>) {
    TimeOf(ReadBack(s, LAYOUT))
  }

  lemma TimeOfValues(d: Date, h: nat, m: nat, s: nat, ms: nat)
    requires Valid(d)
    ensures TimeOf([d.year, d.month, d.day, h, m, s, ms])
         == Some(DayNumber(d) * MILLIS_PER_DAY + h * 3_600_000 + m * 60_000 + s * 1000 + ms)
  {
    assert Date(d.year, d.month, d.day) == d;
  }

  lemma StampReadsBack(t: nat)
    requires InRange(t)
    ensures ReadBack(Stamp(t), LAYOUT) == StampValues(t)
  {
    StampIsRendered(t);
    StampFieldsFit(t);
    FieldsReadBack(StampValues(t));
  }

  /** A stamp parses back to the very millisecond. */
  lemma StampParsesBack(t: nat)
    requires InRange(t)
    ensures ParseStamp(Stamp(t)) == Some(t)
  {
    StampReadsBack(t);
    StampValuesDenote(t);
  }

  lemma DaySums(t: nat)
    ensures var d := DayOf(t);
      Valid(d) && t == DayNumber(d) * MILLIS_PER_DAY + Hour(t) * 3_600_000 + Minute(t) * 60_000 + Second(t) * 1000
                       + Milli(t)
  {
    assert DayNumber(DayOf(t)) == t / MILLIS_PER_DAY;
    TimeFromFields(t);
  }

  lemma StampValuesDenote(t: nat)
    ensures TimeOf(StampValues(t)) == Some(t)
  {
    DaySums(t);
    TimeOfValues(DayOf(t), Hour(t), Minute(t), Second(t), Milli(t));
  }

  // ----- the stamp as Format_time makes it -----

  const STAMP_FORMAT := "%%datatime.%%ms"
  const STAMP_PIECES := [Hole(DATATIME), Lit("."), Hole(MS)]

  /** `%%datatime.%%ms` gives the stamp, in whatever order the map is walked. */
  lemma FormatGivesStamp(t: nat, order: seq<string>)
    requires IsOrder(order, TIME_KEYS)
    ensures ReplaceEach(STAMP_FORMAT, order, TimeTable(t)) == Stamp(t)
  {
    TablesInAll();
    SubTable(TIME_KEYS);
    TimeValuesArePlain(t);
    PlainValues(TimeTable(t), DATE);
    StampFormatPieces();
    SubstitutionRefinesFilling(STAMP_PIECES, TIME_KEYS, TimeTable(t), DATE, order);
    StampFilling(t);
  }

  lemma StampFormatPieces()
    ensures Flat(STAMP_PIECES) == STAMP_FORMAT && WellFormed(STAMP_PIECES, TIME_KEYS)
  {
    FlatOfThree(Hole(DATATIME), Lit("."), Hole(MS));
  }

  lemma StampFilling(t: nat)
    ensures Flat(FillAll(STAMP_PIECES, TIME_KEYS, TimeTable(t))) == Stamp(t)
  {
    StampKeys();
    StampFilled(TimeTable(t));
    StampTexts(t);
  }

  lemma StampFilled(m: map<string, string>)
    requires m.Keys == TIME_KEYS && DATATIME in TIME_KEYS && MS in TIME_KEYS && DATATIME != MS
    ensures Flat(FillAll(STAMP_PIECES, TIME_KEYS, m)) == m[DATATIME] + "." + m[MS]
  {
    var f := FillAll(STAMP_PIECES, TIME_KEYS, m);
    assert f == [Lit(m[DATATIME]), Lit("."), Lit(m[MS])];
    FlatOfThree(f[0], f[1], f[2]);
  }

  lemma StampKeys()
    ensures DATATIME in TIME_KEYS && MS in TIME_KEYS && DATATIME != MS
  {
    assert |DATATIME| != |MS|;
  }

  lemma StampTexts(t: nat)
    ensures TimeTable(t)[DATATIME] == DateText(t) + " " + ClockText(t) && TimeTable(t)[MS] == Pad3(Milli(t))
  {
  }
}
