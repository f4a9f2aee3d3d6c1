/**
 * The output of the `list` command: `formatISODate`, which renders a save
 * time as `Y-MM-DD hh:mm:ss`, and `formatSaves`, which prints one block of
 * lines per save between dividers. Colours, emoji and the divider's glyphs
 * are not part of the model; a line is kept as what it shows.
 */
module ListFormat {
  import opened Wrappers
  import opened Structs

  /**
   * The local calendar reading of a `Date`: `getFullYear()`, `getMonth()`
   * (0-based), `getDate()`, `getHours()`, `getMinutes()`, `getSeconds()`.
   */
  datatype DateParts = DateParts(year: int, month: nat, day: nat, hours: nat, minutes: nat, seconds: nat)
  {
    /** The ranges a `Date` reports its fields in. */
    predicate Valid() {
      month < 12 && 1 <= day <= 31 && hours < 24 && minutes < 60 && seconds < 60
    }
  }

  predicate IsDigit(c: char) {
    '0' <= c <= '9'
  }

  /** The number a decimal digit stands for. */
  function DigitValue(c: char): int {
    c as int - '0' as int
  }

  function DigitChar(d: nat): (c: char)
    requires d < 10
    ensures IsDigit(c) && DigitValue(c) == d
  {
    ('0' as int + d) as char
  }

  /** The number a string of decimal digits denotes. */
  function DigitsValue(s: string): int {
    if s == [] then 0 else 10 * DigitsValue(s[..|s| - 1]) + DigitValue(s[|s| - 1])
  }

  /** `String(n)` for a natural number. */
  function NatToString(n: nat): (s: string)
    ensures |s| >= 1
  {
    if n < 10 then [DigitChar(n)] else NatToString(n / 10) + [DigitChar(n % 10)]
  }

  /** `String(n)` is made of decimal digits, has no leading zero, and reads back as `n`. */
  lemma {:induction false} NatToStringValue(n: nat)
    ensures var s := NatToString(n);
      && (forall i :: 0 <= i < |s| ==> IsDigit(s[i]))
      && (|s| > 1 ==> s[0] != '0')
      && DigitsValue(s) == n
    decreases n
  {
    if n >= 10 {
      NatToStringValue(n / 10);
      var s := NatToString(n);
      assert s[..|s| - 1] == NatToString(n / 10);
    }
  }

  /** `String(i)` for an integer: a minus sign before the digits of a negative number. */
  function IntToString(i: int): (s: string)
    ensures |s| >= 1
    ensures i >= 0 ==> s == NatToString(i)
    ensures i < 0 ==> s[0] == '-' && s[1..] == NatToString(-i)
  {
    if i < 0 then "-" + NatToString(-i) else NatToString(i)
  }

  /** `s.padStart(width, fill)` */
  function PadStart(s: string, width: nat, fill: char): (r: string)
    ensures |r| == if |s| < width then width else |s|
    ensures r[|r| - |s|..] == s
    ensures forall i :: 0 <= i < |r| - |s| ==> r[i] == fill
  {
    if |s| < width then seq(width - |s|, _ => fill) + s else s
  }

  /** `String(n).padStart(2, "0")` */
  function TwoDigits(n: nat): string {
    PadStart(NatToString(n), 2, '0')
  }

  /** The two-digit field starting at `i` of `s`, as a number. */
  function FieldAt(s: string, i: nat): int
    requires i + 2 <= |s|
  {
    10 * DigitValue(s[i]) + DigitValue(s[i + 1])
  }

  /** The two characters of `s` at `i` are decimal digits that read as `n`. */
  predicate DigitPair(s: string, i: nat, n: int) {
    i + 2 <= |s| && IsDigit(s[i]) && IsDigit(s[i + 1]) && FieldAt(s, i) == n
  }

  /** A number below 100 is written in exactly two digits, zero-padded, that read back as it. */
  lemma TwoDigitsValue(n: nat)
    requires n < 100
    ensures var t := TwoDigits(n);
      |t| == 2 && IsDigit(t[0]) && IsDigit(t[1]) && FieldAt(t, 0) == n
    ensures n < 10 ==> TwoDigits(n)[0] == '0'
  {
    if n < 10 {
      assert NatToString(n) == [DigitChar(n)];
      assert TwoDigits(n) == ['0', DigitChar(n)];
    } else {
      assert NatToString(n) == [DigitChar(n / 10), DigitChar(n % 10)] by {
        assert NatToString(n / 10) == [DigitChar(n / 10)];
      }
    }
  }

  /** `formatISODate`: year, then month (1-based), day, hours, minutes and seconds. */
  function FormatISODate(d: DateParts): (s: string)
    ensures |s| >= |IntToString(d.year)| + 15
    ensures IntToString(d.year) <= s && s[|IntToString(d.year)|] == '-'
  {
    DateTemplate(IntToString(d.year), TwoDigits(d.month + 1), TwoDigits(d.day), TwoDigits(d.hours), TwoDigits(d.minutes), TwoDigits(d.seconds))
  }

  /** The template `${year}-${month}-${day} ${hours}:${minutes}:${seconds}`. */
  function DateTemplate(year: string, mo: string, da: string, ho: string, mi: string, se: string): string {
    year + "-" + mo + "-" + da + " " + ho + ":" + mi + ":" + se
  }

  /** Where the separators and the two-character fields of a date text fall. */
  lemma DateTextLayout(year: string, mo: string, da: string, ho: string, mi: string, se: string)
    requires |mo| == 2 && |da| == 2 && |ho| == 2 && |mi| == 2 && |se| == 2
    ensures var s := DateTemplate(year, mo, da, ho, mi, se);
      var y := |year|;
      && |s| == y + 15
      && s[..y] == year
      && s[y] == '-' && s[y + 3] == '-' && s[y + 6] == ' ' && s[y + 9] == ':' && s[y + 12] == ':'
      && s[y + 1] == mo[0] && s[y + 2] == mo[1] && s[y + 4] == da[0] && s[y + 5] == da[1]
      && s[y + 7] == ho[0] && s[y + 8] == ho[1] && s[y + 10] == mi[0] && s[y + 11] == mi[1]
      && s[y + 13] == se[0] && s[y + 14] == se[1]
  {
    var s := year + "-" + mo + "-" + da + " " + ho + ":" + mi + ":" + se;
    assert s == year + ['-', mo[0], mo[1], '-', da[0], da[1], ' ', ho[0], ho[1], ':', mi[0], mi[1], ':', se[0], se[1]];
  }

  /** The five two-digit fields of a valid date are two characters long. */
  lemma FieldLengths(d: DateParts)
    requires d.Valid()
    ensures |TwoDigits(d.month + 1)| == 2 && |TwoDigits(d.day)| == 2
    ensures |TwoDigits(d.hours)| == 2 && |TwoDigits(d.minutes)| == 2 && |TwoDigits(d.seconds)| == 2
  {
    TwoDigitsValue(d.month + 1);
    TwoDigitsValue(d.day);
    TwoDigitsValue(d.hours);
    TwoDigitsValue(d.minutes);
    TwoDigitsValue(d.seconds);
  }

  /**
   * The date text is the year followed by fifteen characters: five two-digit
   * fields separated by "-", "-", " ", ":" and ":".
   */
  lemma FormatISODateShape(d: DateParts)
    requires d.Valid()
    ensures |FormatISODate(d)| == |IntToString(d.year)| + 15
    ensures FormatISODate(d)[..|IntToString(d.year)|] == IntToString(d.year)
    ensures var s, y := FormatISODate(d), |IntToString(d.year)|;
      s[y] == '-' && s[y + 3] == '-' && s[y + 6] == ' ' && s[y + 9] == ':' && s[y + 12] == ':'
  {
    FieldLengths(d);
    DateTextLayout(IntToString(d.year), TwoDigits(d.month + 1), TwoDigits(d.day), TwoDigits(d.hours), TwoDigits(d.minutes), TwoDigits(d.seconds));
  }

  /** A number below 100 is written as a pair of digits reading back as it. */
  lemma TwoDigitsPair(n: nat)
    requires n < 100
    ensures |TwoDigits(n)| == 2 && DigitPair(TwoDigits(n), 0, n)
  {
    TwoDigitsValue(n);
  }

  /** A field copied character by character keeps its digits and its value. */
  lemma DigitPairCopied(s: string, i: nat, field: string, n: int)
    requires i + 2 <= |s| && |field| == 2 && s[i] == field[0] && s[i + 1] == field[1]
    requires DigitPair(field, 0, n)
    ensures DigitPair(s, i, n)
  {
  }

  /** The `k`-th two-digit field placed in the template keeps its digits and its value. */
  lemma TemplateField(year: string, mo: string, da: string, ho: string, mi: string, se: string, k: nat, n: int)
    requires |mo| == 2 && |da| == 2 && |ho| == 2 && |mi| == 2 && |se| == 2
    requires k < 5 && DigitPair([mo, da, ho, mi, se][k], 0, n)
    ensures DigitPair(DateTemplate(year, mo, da, ho, mi, se), |year| + 1 + 3 * k, n)
  {
    DateTextLayout(year, mo, da, ho, mi, se);
    DigitPairCopied(DateTemplate(year, mo, da, ho, mi, se), |year| + 1 + 3 * k, [mo, da, ho, mi, se][k], n);
  }

  /** The month field of the text is two digits that read back as the 1-based month. */
  lemma FormatISODateMonth(d: DateParts)
    requires d.Valid()
    ensures |FormatISODate(d)| == |IntToString(d.year)| + 15
    ensures DigitPair(FormatISODate(d), |IntToString(d.year)| + 1, d.month + 1)
  {
    FieldLengths(d);
    TwoDigitsPair(d.month + 1);
    TemplateField(IntToString(d.year), TwoDigits(d.month + 1), TwoDigits(d.day), TwoDigits(d.hours), TwoDigits(d.minutes), TwoDigits(d.seconds), 0, d.month + 1);
  }

  /** The day field of the text is two digits that read back as the day of the month. */
  lemma FormatISODateDay(d: DateParts)
    requires d.Valid()
    ensures |FormatISODate(d)| == |IntToString(d.year)| + 15
    ensures DigitPair(FormatISODate(d), |IntToString(d.year)| + 4, d.day)
  {
    FieldLengths(d);
    TwoDigitsPair(d.day);
    TemplateField(IntToString(d.year), TwoDigits(d.month + 1), TwoDigits(d.day), TwoDigits(d.hours), TwoDigits(d.minutes), TwoDigits(d.seconds), 1, d.day);
  }

  /** The time fields of the text are two digits each that read back as the hours, the minutes and the seconds. */
  lemma FormatISODateTime(d: DateParts)
    requires d.Valid()
    ensures |FormatISODate(d)| == |IntToString(d.year)| + 15
    ensures var s, y := FormatISODate(d), |IntToString(d.year)|;
      DigitPair(s, y + 7, d.hours) && DigitPair(s, y + 10, d.minutes) && DigitPair(s, y + 13, d.seconds)
  {
    var year, mo, da := IntToString(d.year), TwoDigits(d.month + 1), TwoDigits(d.day);
    var ho, mi, se := TwoDigits(d.hours), TwoDigits(d.minutes), TwoDigits(d.seconds);
    FieldLengths(d);
    TwoDigitsPair(d.hours);
    TwoDigitsPair(d.minutes);
    TwoDigitsPair(d.seconds);
    TemplateField(year, mo, da, ho, mi, se, 2, d.hours);
    TemplateField(year, mo, da, ho, mi, se, 3, d.minutes);
    TemplateField(year, mo, da, ho, mi, se, 4, d.seconds);
  }

  datatype Label = Auto | Manual

  /** A printed line, by what it shows. */
  datatype Line =
    | Divider                             // the grey rule
    | Header(kind: Label, name: string)  // "[Auto] name" or "[Manual] name"
    | Description(text: string)           // the description, when there is one
    | Date(text: string)                  // the formatted save time
    | NoSaveData(location: string)        // "No save data found at path …"

  /** `if (metadata.description)`: JavaScript's truthiness skips both a missing and an empty description. */
  predicate ShowsDescription(m: SaveMetadata) {
    m.description.Some? && m.description.value != ""
  }

  /**
   * The lines one record prints: a divider, its header, its description when
   * there is one, and its date, with `dateText` the rendering of a save time.
   */
  function SaveBlock(m: SaveMetadata, dateText: string -> string): (block: seq<Line>)
    ensures |block| == if ShowsDescription(m) then 4 else 3
    ensures block[0] == Divider
    ensures block[1].Header? && block[1].name == m.name
    ensures block[1].kind == Auto <==> m.isAutosave
    ensures block[2].Description? <==> ShowsDescription(m)
    ensures block[2].Description? ==> block[2].text == m.description.value
    ensures block[|block| - 1] == Date(dateText(m.saveTime))
  {
    var header := [Divider, Header(if m.isAutosave then Auto else Manual, m.name)];
    var date := [Date(dateText(m.saveTime))];
    if ShowsDescription(m) then header + [Description(m.description.value)] + date else header + date
  }

  /** The blocks of all records, in order. */
  function Blocks(records: seq<SaveMetadata>, dateText: string -> string): seq<Line> {
    if records == [] then []
    else Blocks(records[..|records| - 1], dateText) + SaveBlock(records[|records| - 1], dateText)
  }

  /** What `formatSaves(records, saveLocation)` prints. */
  function Layout(records: seq<SaveMetadata>, saveLocation: string, dateText: string -> string): (lines: seq<Line>)
    ensures records == [] ==> lines == [NoSaveData(saveLocation)]
    ensures records != [] ==> |lines| >= 2 && lines[0] == Divider && lines[|lines| - 1] == Divider
  {
    if records == [] then [NoSaveData(saveLocation)]
    else
      BlocksStart(records, dateText);
      Blocks(records, dateText) + [Divider]
  }

  /** The blocks of a concatenation are the concatenation of the blocks. */
  lemma {:induction false} BlocksAppend(a: seq<SaveMetadata>, b: seq<SaveMetadata>, dateText: string -> string)
    ensures Blocks(a + b, dateText) == Blocks(a, dateText) + Blocks(b, dateText)
    decreases |b|
  {
    if b == [] {
      assert a + b == a;
    } else {
      var front, last := b[..|b| - 1], b[|b| - 1];
      assert (a + b)[..|a + b| - 1] == a + front;
      assert (a + b)[|a + b| - 1] == last;
      calc {
        Blocks(a + b, dateText);
        Blocks(a + front, dateText) + SaveBlock(last, dateText);
        { BlocksAppend(a, front, dateText); }
        Blocks(a, dateText) + Blocks(front, dateText) + SaveBlock(last, dateText);
      }
    }
  }

  /** How many dividers a list of lines holds. */
  function Dividers(lines: seq<Line>): nat {
    multiset(lines)[Divider]
  }

  /** Each record's block holds one divider, so the blocks of n records hold n. */
  lemma {:induction false} BlocksDividers(records: seq<SaveMetadata>, dateText: string -> string)
    ensures Dividers(Blocks(records, dateText)) == |records|
    decreases |records|
  {
    if records != [] {
      var front := records[..|records| - 1];
      var block := SaveBlock(records[|records| - 1], dateText);
      BlocksDividers(front, dateText);
      BlockDividers(records[|records| - 1], dateText);
      assert Blocks(records, dateText) == Blocks(front, dateText) + block;
      assert multiset(Blocks(front, dateText) + block) == multiset(Blocks(front, dateText)) + multiset(block);
    }
  }

  /** A record's block holds exactly one divider, its first line. */
  lemma BlockDividers(m: SaveMetadata, dateText: string -> string)
    ensures Dividers(SaveBlock(m, dateText)) == 1
  {
    var block := SaveBlock(m, dateText);
    assert block == [Divider] + block[1..];
    assert Divider !in block[1..];
    assert multiset(block[1..])[Divider] == 0;
  }

  /** The blocks of one or more records start with a divider. */
  lemma {:induction false} BlocksStart(records: seq<SaveMetadata>, dateText: string -> string)
    requires records != []
    ensures |Blocks(records, dateText)| > 0 && Blocks(records, dateText)[0] == Divider
    decreases |records|
  {
    var front := records[..|records| - 1];
    if front != [] {
      BlocksStart(front, dateText);
    }
  }

  /** For n >= 1 records `formatSaves` prints n + 1 dividers, and the first line is one of them. */
  lemma LayoutDividers(records: seq<SaveMetadata>, saveLocation: string, dateText: string -> string)
    requires records != []
    ensures Dividers(Layout(records, saveLocation, dateText)) == |records| + 1
    ensures Layout(records, saveLocation, dateText)[0] == Divider
  {
    BlocksDividers(records, dateText);
    BlocksStart(records, dateText);
    var blocks := Blocks(records, dateText);
    assert multiset(blocks + [Divider]) == multiset(blocks) + multiset([Divider]);
  }

  /** The text of a save time: `formatISODate` of the time read as a local `Date`. */
  function DateText(localDate: string -> DateParts): string -> string {
    saveTime => FormatISODate(localDate(saveTime))
  }

  /**
   * `formatSaves`: with no records, the "no save data" line for
   * `saveLocation`; otherwise each record's block, in order, and a closing
   * divider. `localDate` reads a save time as a local `Date`.
   */
  method FormatSaves(records: seq<SaveMetadata>, saveLocation: string, localDate: string -> DateParts) returns (lines: seq<Line>)
    ensures lines == Layout(records, saveLocation, DateText(localDate))
  {
    if |records| == 0 {
      return [NoSaveData(saveLocation)];
    }
    lines := [];
    for i := 0 to |records|
      invariant lines == Blocks(records[..i], DateText(localDate))
    {
      lines := PrintSave(lines, records[i], localDate);
      assert records[..i + 1][..i] == records[..i];
    }
    assert records[..|records|] == records;
    lines := lines + [Divider];
  }

  /** The lines of a block, appended one by one, are the block appended at once. */
  lemma BlockAppended(printed: seq<Line>, m: SaveMetadata, dateText: string -> string, date: Line)
    requires date == Date(dateText(m.saveTime))
    ensures var header := [Divider, Header(if m.isAutosave then Auto else Manual, m.name)];
      ShowsDescription(m) ==> printed + header + [Description(m.description.value)] + [date] == printed + SaveBlock(m, dateText)
    ensures var header := [Divider, Header(if m.isAutosave then Auto else Manual, m.name)];
      !ShowsDescription(m) ==> printed + header + [date] == printed + SaveBlock(m, dateText)
  {
  }

  /** One turn of the loop in `formatSaves`: the lines printed for `m`, after those already printed. */
  method PrintSave(printed: seq<Line>, m: SaveMetadata, localDate: string -> DateParts) returns (lines: seq<Line>)
    ensures lines == printed + SaveBlock(m, DateText(localDate))
  {
    var header := Header(if m.isAutosave then Auto else Manual, m.name);
    var date := Date(FormatISODate(localDate(m.saveTime)));
    lines := printed + [Divider];
    lines := lines + [header];
    if ShowsDescription(m) {
      lines := lines + [Description(m.description.value)];
    }
    lines := lines + [date];
    BlockAppended(printed, m, DateText(localDate), date);
  }
}
