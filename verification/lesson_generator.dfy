/** The lesson generator: a plain-text planner document is read line by line into days,
    each day holding titled lessons whose content is rewritten into the lesson markup (`^`
    for bold labels, `*` and `**` for bullets) that the content reader understands. */
module LessonGenerator {
  import opened Options
  import opened Strings
  import opened ContentParser

  /** The bullet glyph U+2022 and the hollow sub-bullet glyph U+25E6. */
  const BulletGlyph: char := '\U{2022}'
  const SubBulletGlyph: char := '\U{25E6}'

  const WeekPrefix: string := "Detailed Daily Planner: Week "
  const DayPrefix: string := "Day"
  const DaysPerWeek: int := 5
  const SeparatorLength: nat := 80

  predicate IsBulletGlyph(c: char) {
    c == BulletGlyph
  }

  predicate IsRomanDigit(c: char) {
    c == 'I' || c == 'V' || c == 'X'
  }

  /** The characters of `^[\d◦•]+\.` before the dot. */
  predicate IsItemMark(c: char) {
    IsAsciiDigit(c) || c == SubBulletGlyph || c == BulletGlyph
  }

  /** Python's regular-expression `.`: anything but a line feed. */
  predicate NotLineFeed(c: char) {
    c != '\n'
  }

  // ---------------------------------------------------------------------------------------
  // Formatting one content line

  /** A label line without its leading bullet glyphs and surrounding whitespace. */
  function Cleaned(line: string): string {
    PyStrip(TrimStartWith(line, IsBulletGlyph))
  }

  /** `format_label_line`: a line with a colon becomes `^label:^ rest`, with the label cut at
      the first colon and both halves stripped; a line without one is only cleaned. */
  function FormatLabelLine(line: string): (r: string)
    ensures ':' !in Cleaned(line) ==> r == Cleaned(line)
    ensures ':' in Cleaned(line) ==> exists k :: LabelAt(Cleaned(line), k, r)
  {
    var cleaned := Cleaned(line);
    if ':' !in cleaned then cleaned
    else
      var k := IndexOf(cleaned, ':');
      var r := "^" + PyStrip(cleaned[..k]) + ":^ " + PyStrip(cleaned[k + 1..]);
      assert LabelAt(cleaned, k, r);
      r
  }

  /** `r` is `cleaned` cut at its first colon, at `k`, into a bold label with the colon and
      the rest after a space, both halves stripped. */
  predicate LabelAt(cleaned: string, k: int, r: string) {
    && 0 <= k < |cleaned| && cleaned[k] == ':' && ':' !in cleaned[..k]
    && r == "^" + PyStrip(cleaned[..k]) + ":^ " + PyStrip(cleaned[k + 1..])
  }

  /** `format_bullet_line`: `level` stars, one space, and the stripped text. */
  function FormatBulletLine(line: string, level: nat): (r: string)
    ensures |r| == level + 1 + |PyStrip(line)|
    ensures AllSatisfy(r[..level], IsStar) && r[level] == ' ' && r[level + 1..] == PyStrip(line)
  {
    var r := Repeat('*', level) + " " + PyStrip(line);
    assert r[..level] == Repeat('*', level);
    assert r[level + 1..] == PyStrip(line);
    r
  }

  /** `normalize_line` replaces U+2022 by the bullet glyph, which is U+2022 itself, so it
      leaves every line as it is. */
  function NormalizeLine(line: string): (r: string)
    ensures r == line
  {
    ReplaceChar(line, '\U{2022}', BulletGlyph)
  }

  /** `^[\d◦•]+\.`: a numbered (or glyph-numbered) item. */
  predicate NumberedItem(s: string) {
    var k := LeadingRun(s, IsItemMark);
    1 <= k < |s| && s[k] == '.'
  }

  /** The markup one recorded section line contributes to the lesson content: blank lines
      none; bullet lines a label line; numbered items a first-level bullet; sub-bullet lines a
      second-level bullet without the glyph; anything else the stripped line. */
  function ContentLine(line: string): (r: Option<string>)
    ensures r.None? <==> AllSatisfy(line, IsPySpace)
  {
    var stripped := PyStrip(line);
    if stripped == [] then None
    else if stripped[0] == BulletGlyph then Some(FormatLabelLine(stripped))
    else if NumberedItem(stripped) then Some(FormatBulletLine(stripped, 1))
    else if stripped[0] == SubBulletGlyph then Some(FormatBulletLine(PyStrip(stripped[1..]), 2))
    else Some(stripped)
  }

  /** The same, as the generator writes it: the label line is formatted from the line as
      recorded rather than from its stripped form. */
  function ContentLineAsWritten(line: string): (r: Option<string>)
    ensures r.None? <==> AllSatisfy(line, IsPySpace)
  {
    var stripped := PyStrip(line);
    if stripped != [] && stripped[0] == BulletGlyph then Some(FormatLabelLine(line))
    else ContentLine(line)
  }

  /** The markup of a section's recorded lines, as the generator writes it. */
  function ContentLines(lines: seq<string>): (r: seq<string>)
    ensures |r| <= |lines|
  {
    if lines == [] then []
    else
      (match ContentLineAsWritten(lines[0]) case Some(c) => [c] case None => []) + ContentLines(lines[1..])
  }

  /** The content of a section: its content lines joined by line breaks, then stripped. */
  function SectionContent(lines: seq<string>): string {
    PyStrip(Join(ContentLines(lines), "\n"))
  }

  // ---------------------------------------------------------------------------------------
  // The line patterns of the document

  /** `re.match(r"Detailed Daily Planner: Week (\d+)", line)`: the week number. */
  function WeekHeader(line: string): (r: Option<nat>)
    ensures r.Some? <==>
              StartsWith(line, WeekPrefix) && |line| > |WeekPrefix| && IsAsciiDigit(line[|WeekPrefix|])
    ensures r.Some? ==> line[0] == 'D' && line[1] == 'e'
  {
    if !StartsWith(line, WeekPrefix) then None
    else
      assert line[0] == 'D' && line[1] == 'e' by {
        assert line[..|WeekPrefix|][0] == line[0] && line[..|WeekPrefix|][1] == line[1];
      }
      LeadingNumber(line[|WeekPrefix|..])
  }

  /** The value of the leading run of digits, if there is one. */
  function LeadingNumber(tail: string): (r: Option<nat>)
    ensures r.Some? <==> tail != [] && IsAsciiDigit(tail[0])
  {
    var d := LeadingRun(tail, IsAsciiDigit);
    if d == 0 then None else Some(DigitsValue(tail[..d]))
  }

  /** The part `:\s+(.+)` asks of what follows the day number's colon: some whitespace, and
      after at least one of those whitespace characters, a character other than a line feed. */
  predicate TitleFollows(rest: string) {
    var q := LeadingRun(rest, IsPySpace);
    exists j :: 1 <= j <= q && j < |rest| && NotLineFeed(rest[j])
  }

  /** What follows `Day` in a day header: `sp` whitespace characters, `d` digits, a colon,
      and a title after it. */
  predicate DayShape(rest: string, sp: nat, d: nat) {
    && sp >= 1 && d >= 1 && sp + d < |rest|
    && AllSatisfy(rest[..sp], IsPySpace) && AllSatisfy(rest[sp..sp + d], IsAsciiDigit)
    && rest[sp + d] == ':' && TitleFollows(rest[sp + d + 1..])
  }

  /** `re.match(r"Day\s+(\d+):\s+(.+)", line)`: the day number within the week. */
  function DayHeader(line: string): (r: Option<nat>)
    ensures r.Some? ==> StartsWith(line, DayPrefix) && line[0] == 'D' && line[1] == 'a'
    ensures r.Some? ==>
              exists sp: nat, d: nat :: DayShape(line[3..], sp, d) && r.value == DigitsValue(line[3..][sp..sp + d])
  {
    if !StartsWith(line, DayPrefix) then None
    else
      assert line[0] == 'D' && line[1] == 'a' by {
        assert line[..3][0] == line[0] && line[..3][1] == line[1];
      }
      DayNumber(line[3..])
  }

  /** The day number after `Day`: the longest whitespace run, then the longest digit run,
      which a colon and a title must follow. */
  function DayNumber(rest: string): (r: Option<nat>)
    ensures r.Some? ==>
              exists sp: nat, d: nat :: DayShape(rest, sp, d) && r.value == DigitsValue(rest[sp..sp + d])
  {
    var sp := LeadingRun(rest, IsPySpace);
    var d := LeadingRun(rest[sp..], IsAsciiDigit);
    assert rest[sp..][..d] == rest[sp..sp + d];
    DayNumberAt(rest, sp, d)
  }

  /** The day number once the whitespace run `sp` and the digit run `d` after it are known. */
  function DayNumberAt(rest: string, sp: nat, d: nat): (r: Option<nat>)
    requires sp + d <= |rest| && AllSatisfy(rest[..sp], IsPySpace) && AllSatisfy(rest[sp..sp + d], IsAsciiDigit)
    ensures r.Some? <==> DayShape(rest, sp, d)
    ensures r.Some? ==> r.value == DigitsValue(rest[sp..sp + d])
  {
    if sp == 0 || d == 0 || sp + d == |rest| || rest[sp + d] != ':' || !TitleFollows(rest[sp + d + 1..]) then
      None
    else
      Some(DigitsValue(rest[sp..sp + d]))
  }

  /** Every text of the day shape is read as the number its digits spell: the whitespace and
      digit runs of the shape are the longest ones. */
  lemma {:induction false} DayNumberOfShape(rest: string, sp: nat, d: nat)
    requires DayShape(rest, sp, d)
    ensures DayNumber(rest) == Some(DigitsValue(rest[sp..sp + d]))
  {
    SpaceRunOfShape(rest, sp, d);
    DigitRunOfShape(rest, sp, d);
    DayNumberOfRuns(rest, sp, d);
  }

  lemma {:induction false} SpaceRunOfShape(rest: string, sp: nat, d: nat)
    requires DayShape(rest, sp, d)
    ensures LeadingRun(rest, IsPySpace) == sp
  {
    assert !IsPySpace(rest[sp]) by { assert rest[sp..sp + d][0] == rest[sp]; }
    LeadingRunStops(rest, IsPySpace, sp);
  }

  lemma {:induction false} DigitRunOfShape(rest: string, sp: nat, d: nat)
    requires DayShape(rest, sp, d)
    ensures LeadingRun(rest[sp..], IsAsciiDigit) == d
  {
    assert rest[sp..][..d] == rest[sp..sp + d];
    assert rest[sp..][d] == ':';
    LeadingRunStops(rest[sp..], IsAsciiDigit, d);
  }

  lemma {:induction false} DayNumberOfRuns(rest: string, sp: nat, d: nat)
    requires DayShape(rest, sp, d)
    requires LeadingRun(rest, IsPySpace) == sp && LeadingRun(rest[sp..], IsAsciiDigit) == d
    ensures DayNumber(rest) == Some(DigitsValue(rest[sp..sp + d]))
  {
    assert DayNumber(rest) == DayNumberAt(rest, sp, d);
  }

  /** `re.match(r"^[IVX]+\. (.+)", line)`: the section title, stripped. The title is what
      follows `. ` up to the first line feed. */
  function RomanHeader(line: string): (r: Option<string>)
    ensures r.Some? <==> (var k := LeadingRun(line, IsRomanDigit);
                          k >= 1 && k + 2 < |line| && line[k] == '.' && line[k + 1] == ' ' && line[k + 2] != '\n')
    ensures r.Some? ==> forall c :: c in r.value ==> c in line && c != '\n'
    ensures r.Some? ==> IsRomanDigit(line[0])
  {
    var k := LeadingRun(line, IsRomanDigit);
    if k >= 1 && k + 2 < |line| && line[k] == '.' && line[k + 1] == ' ' && line[k + 2] != '\n' then
      RomanNumeralFirst(line);
      Some(RomanTitle(line, k))
    else None
  }

  lemma {:induction false} RomanNumeralFirst(line: string)
    requires LeadingRun(line, IsRomanDigit) >= 1
    ensures IsRomanDigit(line[0])
  {
    assert line[..LeadingRun(line, IsRomanDigit)][0] == line[0];
  }

  /** The title of a section header whose numeral is `k` characters long: what follows `. `
      up to the first line feed, stripped. */
  function RomanTitle(line: string, k: nat): (t: string)
    requires k + 2 <= |line|
    ensures forall c :: c in t ==> c in line && c != '\n'
  {
    var tail := line[k + 2..];
    var group := tail[..LeadingRun(tail, NotLineFeed)];
    assert forall c :: c in group ==> c in line && c != '\n' by {
      forall c | c in group ensures c in line && c != '\n' {
        var i :| 0 <= i < |group| && group[i] == c;
        assert line[k + 2 + i] == c;
        assert NotLineFeed(group[i]);
      }
    }
    assert forall c :: c in PyStrip(group) ==> c in group by {
      forall c | c in PyStrip(group) ensures c in group { TrimWithKeepsChars(group, IsPySpace, c); }
    }
    PyStrip(group)
  }

  /** A line that starts with eighty dashes. */
  predicate IsSeparator(line: string) {
    StartsWith(line, Repeat('-', SeparatorLength))
  }

  // ---------------------------------------------------------------------------------------
  // The builder

  datatype Lesson = Lesson(title: string, content: string, video: string, doc: string)

  /** Day key to lessons, in the order the keys were first used. */
  type Days = seq<(string, seq<Lesson>)>

  function Keys(days: Days): seq<string> {
    if days == [] then [] else [days[0].0] + Keys(days[1..])
  }

  /** The lessons stored under `key`, none when the key is absent. */
  function LessonsOf(days: Days, key: string): seq<Lesson> {
    if days == [] then []
    else if days[0].0 == key then days[0].1
    else LessonsOf(days[1..], key)
  }

  /** `days.setdefault(key, []).append(lesson)`. */
  function AddLesson(days: Days, key: string, lesson: Lesson): (r: Days)
    ensures Keys(r) == if key in Keys(days) then Keys(days) else Keys(days) + [key]
    ensures LessonsOf(r, key) == LessonsOf(days, key) + [lesson]
    ensures forall other :: other != key ==> LessonsOf(r, other) == LessonsOf(days, other)
  {
    if days == [] then [(key, [lesson])]
    else if days[0].0 == key then [(key, days[0].1 + [lesson])] + days[1..]
    else
      var rest := AddLesson(days[1..], key, lesson);
      assert ([days[0]] + rest)[1..] == rest;
      [days[0]] + rest
  }

  /** The generator's variables between two lines. */
  datatype Builder = Builder(
    days: Days,
    day: Option<string>,
    week: nat,
    offset: int,
    title: Option<string>,
    lines: seq<string>)

  const Start: Builder := Builder([], None, 1, 0, None, [])

  /** Python truthiness of the current title: present and not empty. */
  predicate Truthy(title: Option<string>) {
    title.Some? && title.value != []
  }

  /** `flush_section`: with both a day and a title, the section becomes the next lesson of its
      day and is closed; without either, nothing happens. */
  function Flush(b: Builder): (r: Builder)
    ensures r.day == b.day && r.week == b.week && r.offset == b.offset
    ensures b.day.None? || b.title.None? ==> r == b
    ensures b.day.Some? && b.title.Some? ==>
              && r.title.None? && r.lines == []
              && LessonsOf(r.days, b.day.value)
                 == LessonsOf(b.days, b.day.value) + [Lesson(b.title.value, SectionContent(b.lines), "", "")]
              && (forall other :: other != b.day.value ==> LessonsOf(r.days, other) == LessonsOf(b.days, other))
  {
    if b.day.None? || b.title.None? then b
    else
      var lesson := Lesson(b.title.value, SectionContent(b.lines), "", "");
      b.(days := AddLesson(b.days, b.day.value, lesson), title := None, lines := [])
  }

  /** What a line of the document is, tested in the generator's order: blank, week header,
      day header, section title, separator, anything else. */
  datatype LineKind =
    | Blank
    | WeekLine(week: nat)
    | DayLine(number: nat)
    | TitleLine(title: string)
    | SeparatorLine
    | TextLine

  function Classify(line: string): (k: LineKind)
    ensures k.Blank? <==> AllSatisfy(line, IsPySpace)
    ensures k.WeekLine? ==> WeekHeader(line) == Some(k.week)
    ensures k.DayLine? ==> DayHeader(line) == Some(k.number)
    ensures k.TitleLine? ==> RomanHeader(line) == Some(k.title)
    ensures k.SeparatorLine? ==> IsSeparator(line)
  {
    KindOf(AllSatisfy(line, IsPySpace), WeekHeader(line), DayHeader(line), RomanHeader(line), IsSeparator(line))
  }

  /** The first test that matches, given the outcome of each. */
  function KindOf(blank: bool, week: Option<nat>, day: Option<nat>, title: Option<string>, separator: bool): LineKind {
    if blank then Blank
    else if week.Some? then WeekLine(week.value)
    else if day.Some? then DayLine(day.value)
    else if title.Some? then TitleLine(title.value)
    else if separator then SeparatorLine
    else TextLine
  }

  /** One line of the document. */
  function ProcessLine(b: Builder, raw: string): Builder {
    var line := NormalizeLine(raw);
    Apply(b, line, Classify(line))
  }

  /** What a line of the given kind does to the builder. */
  function Apply(b: Builder, line: string, kind: LineKind): Builder {
    match kind
    case Blank => b
    case WeekLine(week) => Flush(b).(week := week, offset := (week - 1) * DaysPerWeek)
    case DayLine(n) => Flush(b).(day := Some(IntToString(n + b.offset)))
    case TitleLine(title) => Flush(b).(title := Some(title), lines := [])
    case SeparatorLine => Flush(b).(day := None, title := None, lines := [])
    case TextLine => if Truthy(b.title) then b.(lines := b.lines + [line]) else b
  }

  function Feed(b: Builder, lines: seq<string>): Builder
    decreases |lines|
  {
    if lines == [] then b else Feed(ProcessLine(b, lines[0]), lines[1..])
  }

  // ---------------------------------------------------------------------------------------
  // The generated plan

  datatype DayPlan = DayPlan(lessons: seq<Lesson>)
  datatype MonthPlan = MonthPlan(days: seq<(string, DayPlan)>)
  datatype ClassPlan = ClassPlan(months: seq<(string, MonthPlan)>)
  datatype Plan = Plan(classes: seq<(string, ClassPlan)>, week: nat)

  function DayPlans(days: Days): (r: seq<(string, DayPlan)>)
    ensures |r| == |days|
    ensures forall i :: 0 <= i < |days| ==> r[i] == (days[i].0, DayPlan(days[i].1))
  {
    if days == [] then [] else [(days[0].0, DayPlan(days[0].1))] + DayPlans(days[1..])
  }

  /** Every stored lesson has an empty video and an empty document link. */
  predicate NoLinks(days: Days) {
    forall i, j :: 0 <= i < |days| && 0 <= j < |days[i].1| ==> days[i].1[j].video == [] && days[i].1[j].doc == []
  }

  /** `build_lessons` on the lines of the document: every lesson goes to the Nursery class
      under month "1", the other two classes have no months, and the week is the last one
      announced (1 when none is). */
  function BuildLessons(document: seq<string>): (r: Plan)
    ensures |r.classes| == 3 && r.classes[0].0 == "Nursery" && r.classes[1] == ("LKG", ClassPlan([]))
            && r.classes[2] == ("UKG", ClassPlan([]))
    ensures |r.classes[0].1.months| == 1 && r.classes[0].1.months[0].0 == "1"
    ensures forall d, j :: 0 <= d < |r.classes[0].1.months[0].1.days| && 0 <= j < |r.classes[0].1.months[0].1.days[d].1.lessons| ==>
              r.classes[0].1.months[0].1.days[d].1.lessons[j].video == []
              && r.classes[0].1.months[0].1.days[d].1.lessons[j].doc == []
  {
    var last := Flush(Feed(Start, document));
    FeedNoLinks(Start, document);
    FlushNoLinks(Feed(Start, document));
    Plan([("Nursery", ClassPlan([("1", MonthPlan(DayPlans(last.days)))])),
          ("LKG", ClassPlan([])),
          ("UKG", ClassPlan([]))],
         last.week)
  }

  // ---------------------------------------------------------------------------------------
  // Properties of the builder

  lemma {:induction false} AddLessonNoLinks(days: Days, key: string, lesson: Lesson)
    requires NoLinks(days) && lesson.video == [] && lesson.doc == []
    ensures NoLinks(AddLesson(days, key, lesson))
  {
    if days != [] && days[0].0 != key {
      assert NoLinks(days[1..]) by {
        forall i, j | 0 <= i < |days[1..]| && 0 <= j < |days[1..][i].1|
          ensures days[1..][i].1[j].video == [] && days[1..][i].1[j].doc == []
        {
          assert days[1..][i] == days[i + 1];
        }
      }
      AddLessonNoLinks(days[1..], key, lesson);
      var rest := AddLesson(days[1..], key, lesson);
      forall i, j | 0 <= i < |[days[0]] + rest| && 0 <= j < |([days[0]] + rest)[i].1|
        ensures ([days[0]] + rest)[i].1[j].video == [] && ([days[0]] + rest)[i].1[j].doc == []
      {
        if i > 0 {
          assert ([days[0]] + rest)[i] == rest[i - 1];
        }
      }
    }
  }

  lemma {:induction false} FlushNoLinks(b: Builder)
    requires NoLinks(b.days)
    ensures NoLinks(Flush(b).days)
  {
    if b.day.Some? && b.title.Some? {
      AddLessonNoLinks(b.days, b.day.value, Lesson(b.title.value, SectionContent(b.lines), "", ""));
    }
  }

  lemma {:induction false} ProcessLineNoLinks(b: Builder, raw: string)
    requires NoLinks(b.days)
    ensures NoLinks(ProcessLine(b, raw).days)
  {
    FlushNoLinks(b);
  }

  lemma {:induction false} FeedNoLinks(b: Builder, lines: seq<string>)
    requires NoLinks(b.days)
    ensures NoLinks(Feed(b, lines).days)
    decreases |lines|
  {
    if lines != [] {
      ProcessLineNoLinks(b, lines[0]);
      FeedNoLinks(ProcessLine(b, lines[0]), lines[1..]);
    }
  }

  /** The offset always matches the week: five days per week before it. */
  predicate OffsetMatchesWeek(b: Builder) {
    b.offset == (b.week - 1) * DaysPerWeek
  }

  lemma {:induction false} FeedKeepsOffset(b: Builder, lines: seq<string>)
    requires OffsetMatchesWeek(b)
    ensures OffsetMatchesWeek(Feed(b, lines))
    decreases |lines|
  {
    if lines != [] {
      assert OffsetMatchesWeek(ProcessLine(b, lines[0]));
      FeedKeepsOffset(ProcessLine(b, lines[0]), lines[1..]);
    }
  }

  /** A line that announces day `n` opens the day whose key is `n` plus five days for every
      earlier week. */
  lemma {:induction false} DayKeyFollowsWeek(b: Builder, line: string, n: nat)
    requires OffsetMatchesWeek(b) && DayHeader(line) == Some(n)
    ensures ProcessLine(b, line).day == Some(IntToString(n + (b.week - 1) * DaysPerWeek))
  {
    ClassifyDay(line, n);
    DayLineOpensDay(b, line, n);
  }

  lemma {:induction false} DayLineOpensDay(b: Builder, line: string, n: nat)
    requires Classify(line) == DayLine(n)
    ensures ProcessLine(b, line).day == Some(IntToString(n + b.offset))
  {
    ProcessLineApplies(b, line);
    DayLineSetsDay(b, line, n);
  }

  lemma {:induction false} DayLineSetsDay(b: Builder, line: string, n: nat)
    ensures Apply(b, line, DayLine(n)).day == Some(IntToString(n + b.offset))
  {
  }

  lemma {:induction false} ProcessLineApplies(b: Builder, line: string)
    ensures ProcessLine(b, line) == Apply(b, line, Classify(line))
  {
    assert NormalizeLine(line) == line;
  }

  /** A week header resets the offset so that its first day is numbered after the five days
      of each earlier week. */
  lemma {:induction false} WeekHeaderSetsOffset(b: Builder, line: string, w: nat)
    requires WeekHeader(line) == Some(w)
    ensures ProcessLine(b, line).week == w && ProcessLine(b, line).offset == (w - 1) * DaysPerWeek
    ensures OffsetMatchesWeek(ProcessLine(b, line))
  {
    ClassifyWeek(line, w);
  }

  /** Reading a week number: the header followed by the decimal form of `w` and then anything
      that is not a digit announces week `w`. */
  lemma {:induction false} WeekHeaderOfNumber(w: nat, tail: string)
    requires tail == [] || !IsAsciiDigit(tail[0])
    ensures WeekHeader(WeekPrefix + NatToString(w) + tail) == Some(w)
  {
    var line := WeekPrefix + NatToString(w) + tail;
    assert line[..|WeekPrefix|] == WeekPrefix;
    var rest := line[|WeekPrefix|..];
    assert rest == NatToString(w) + tail;
    assert rest[..|NatToString(w)|] == NatToString(w);
    LeadingRunStops(rest, IsAsciiDigit, |NatToString(w)|);
    DigitsValueOfNatToString(w);
  }

  /** Reading a day number: `Day`, whitespace, the decimal form of `n`, a colon, a space and
      a title that does not start with a line feed announce day `n`. */
  lemma {:induction false} DayHeaderOfNumber(gap: string, n: nat, title: string)
    requires gap != [] && AllSatisfy(gap, IsPySpace)
    requires title != [] && title[0] != '\n'
    ensures DayHeader(DayPrefix + gap + NatToString(n) + ": " + title) == Some(n)
  {
    var line := DayPrefix + gap + NatToString(n) + ": " + title;
    var rest := gap + NatToString(n) + ": " + title;
    assert line == DayPrefix + rest;
    assert line[..3] == DayPrefix && line[3..] == rest;
    DayNumberOfParts(gap, NatToString(n), title);
    DigitsValueOfNatToString(n);
  }

  lemma {:induction false} DayNumberOfParts(gap: string, digits: string, title: string)
    requires gap != [] && AllSatisfy(gap, IsPySpace)
    requires digits != [] && AllSatisfy(digits, IsAsciiDigit)
    requires title != [] && title[0] != '\n'
    ensures DayNumber(gap + digits + ": " + title) == Some(DigitsValue(digits))
  {
    var rest := gap + digits + ": " + title;
    var sp, d := |gap|, |digits|;
    assert rest[..sp] == gap;
    assert rest[sp..sp + d] == digits;
    assert rest[sp + d] == ':';
    var after := rest[sp + d + 1..];
    assert after == " " + title;
    assert 1 <= LeadingRun(after, IsPySpace) by { assert IsPySpace(after[0]); }
    assert NotLineFeed(after[1]);
    assert DayShape(rest, sp, d);
    DayNumberOfShape(rest, sp, d);
  }

  /** Reading a title: a Roman numeral, `. ` and a title with no line feed open a section
      titled with the stripped title. */
  lemma {:induction false} RomanHeaderOfTitle(numeral: string, title: string)
    requires numeral != [] && AllSatisfy(numeral, IsRomanDigit)
    requires title != [] && '\n' !in title
    ensures RomanHeader(numeral + ". " + title) == Some(PyStrip(title))
  {
    NumeralRun(numeral, title);
    AfterNumeral(numeral, title);
    RomanHeaderAt(numeral + ". " + title, |numeral|);
    RomanTitleOfLine(numeral, title);
  }

  lemma {:induction false} AfterNumeral(numeral: string, title: string)
    requires title != [] && '\n' !in title
    ensures var line := numeral + ". " + title; var k := |numeral|;
      k + 2 < |line| && line[k] == '.' && line[k + 1] == ' ' && line[k + 2] != '\n'
  {
    assert (numeral + ". " + title)[|numeral| + 2] == title[0];
  }

  lemma {:induction false} RomanHeaderAt(line: string, k: nat)
    requires LeadingRun(line, IsRomanDigit) == k
    requires k >= 1 && k + 2 < |line| && line[k] == '.' && line[k + 1] == ' ' && line[k + 2] != '\n'
    ensures RomanHeader(line) == Some(RomanTitle(line, k))
  {
  }

  lemma {:induction false} NumeralRun(numeral: string, title: string)
    requires AllSatisfy(numeral, IsRomanDigit)
    ensures LeadingRun(numeral + ". " + title, IsRomanDigit) == |numeral|
  {
    var line := numeral + ". " + title;
    assert line[..|numeral|] == numeral;
    assert line[|numeral|] == '.';
    LeadingRunStops(line, IsRomanDigit, |numeral|);
  }

  lemma {:induction false} RomanTitleOfLine(numeral: string, title: string)
    requires '\n' !in title
    ensures RomanTitle(numeral + ". " + title, |numeral|) == PyStrip(title)
  {
    var tail := (numeral + ". " + title)[|numeral| + 2..];
    assert tail == title;
    LeadingRunStops(tail, NotLineFeed, |tail|);
    assert tail[..|tail|] == title;
  }

  /** After a separator no day is open, and until the next day header nothing else is stored:
      every section before it is dropped. */
  lemma {:induction false} NothingStoredWithoutDay(b: Builder, lines: seq<string>)
    requires b.day.None?
    requires forall i :: 0 <= i < |lines| ==> DayHeader(lines[i]).None?
    ensures Feed(b, lines).day.None? && Feed(b, lines).days == b.days
    ensures Flush(Feed(b, lines)).days == b.days
    decreases |lines|
  {
    if lines != [] {
      var next := ProcessLine(b, lines[0]);
      assert next.day.None? && next.days == b.days;
      NothingStoredWithoutDay(next, lines[1..]);
    }
  }

  /** A line whose first character is neither `D` nor a Roman digit is no header. */
  lemma {:induction false} NotAHeader(line: string)
    requires line != [] && line[0] != 'D' && !IsRomanDigit(line[0])
    ensures WeekHeader(line).None? && DayHeader(line).None? && RomanHeader(line).None?
  {
  }

  /** The kind of each header line: the checks before it in the generator's order do not
      catch it. */
  lemma {:induction false} ClassifyWeek(line: string, w: nat)
    requires WeekHeader(line) == Some(w)
    ensures Classify(line) == WeekLine(w)
  {
    assert !IsPySpace(line[0]);
  }

  lemma {:induction false} ClassifyDay(line: string, n: nat)
    requires DayHeader(line) == Some(n)
    ensures Classify(line) == DayLine(n)
  {
    DayIsNoWeekHeader(line);
  }

  lemma {:induction false} DayIsNoWeekHeader(line: string)
    requires DayHeader(line).Some?
    ensures !AllSatisfy(line, IsPySpace) && WeekHeader(line).None?
  {
    assert line[0] == 'D' && line[1] == 'a';
    assert !IsPySpace(line[0]);
  }

  lemma {:induction false} ClassifyTitle(line: string, title: string)
    requires RomanHeader(line) == Some(title)
    ensures Classify(line) == TitleLine(title)
  {
    TitleIsNoOtherHeader(line);
  }

  lemma {:induction false} TitleIsNoOtherHeader(line: string)
    requires RomanHeader(line).Some?
    ensures !AllSatisfy(line, IsPySpace) && WeekHeader(line).None? && DayHeader(line).None?
  {
    var c := line[0];
    assert IsRomanDigit(c);
    assert !IsPySpace(c);
    assert c != 'D';
  }

  lemma {:induction false} ClassifySeparator(line: string)
    requires IsSeparator(line)
    ensures Classify(line) == SeparatorLine
  {
    assert line[0] == '-' by { assert line[..SeparatorLength][0] == line[0]; }
    assert !IsPySpace(line[0]);
    NotAHeader(line);
  }

  lemma {:induction false} ClassifyText(line: string)
    requires !AllSatisfy(line, IsPySpace)
    requires WeekHeader(line).None? && DayHeader(line).None? && RomanHeader(line).None? && !IsSeparator(line)
    ensures Classify(line) == TextLine
  {
  }

  lemma {:induction false} SeparatorClosesDay(b: Builder, line: string)
    requires IsSeparator(line)
    ensures ProcessLine(b, line).day.None? && ProcessLine(b, line).title.None?
  {
    ClassifySeparator(line);
  }

  /** A Roman-numeral header closes the open section (storing it when a day and a title are
      set) and opens a new, empty section with the header's title. */
  lemma {:induction false} RomanHeaderOpensSection(b: Builder, line: string, title: string)
    requires RomanHeader(line) == Some(title)
    ensures ProcessLine(b, line) == Flush(b).(title := Some(title), lines := [])
  {
    ClassifyTitle(line, title);
  }

  /** An ordinary line (not blank, no header, no separator) is recorded exactly when the open
      section has a non-empty title, and changes nothing else. */
  lemma {:induction false} OrdinaryLineRecorded(b: Builder, line: string)
    requires !AllSatisfy(line, IsPySpace)
    requires WeekHeader(line).None? && DayHeader(line).None? && RomanHeader(line).None? && !IsSeparator(line)
    ensures ProcessLine(b, line) == if Truthy(b.title) then b.(lines := b.lines + [line]) else b
  {
    ClassifyText(line);
  }

  // ---------------------------------------------------------------------------------------
  // What the content reader makes of the generated markup

  /** A bullet line is read back as a bullet of the same level holding the stripped text,
      provided the stripped text is a single line that also counts as trimmed for the reader. */
  lemma {:induction false} BulletLineReadsBack(line: string, level: nat)
    requires level >= 1
    requires var c := PyStrip(line);
      c != [] && NoLineTerminator(c) && !IsJsSpace(c[0]) && !IsJsSpace(c[|c| - 1])
    ensures ParseLessonContent(Some(FormatBulletLine(line, level))) == [Bullet(level, InlineSegments(PyStrip(line)))]
  {
    assert FormatBulletLine(line, level) == Repeat('*', level) + " " + PyStrip(line);
    StarredLineReads(level, PyStrip(line));
  }

  /** Stars, a space and a trimmed single line read as a bullet of that many stars. */
  lemma {:induction false} StarredLineReads(stars: nat, c: string)
    requires stars >= 1 && c != [] && NoLineTerminator(c) && !IsJsSpace(c[0]) && !IsJsSpace(c[|c| - 1])
    ensures ParseLessonContent(Some(Repeat('*', stars) + " " + c)) == [Bullet(stars, InlineSegments(c))]
  {
    var r := Repeat('*', stars) + " " + c;
    StarredEnds(stars, c);
    TrimWithKeepsTrimmed(r, IsJsSpace);
    ParseOneLine(r);
    MatchBulletOfShape(stars, " ", c);
  }

  lemma {:induction false} StarredEnds(stars: nat, c: string)
    requires stars >= 1 && c != [] && NoLineTerminator(c)
    ensures var r := Repeat('*', stars) + " " + c;
      r[0] == '*' && r[|r| - 1] == c[|c| - 1] && '\n' !in r
  {
    var r := Repeat('*', stars) + " " + c;
    forall i | 0 <= i < |r| ensures r[i] != '\n' {
      if i > stars {
        assert r[i] == c[i - stars - 1];
      }
    }
  }

  /** A sub-bullet line is read back as a second-level bullet holding its text after the
      glyph, and a numbered item as a first-level bullet holding the whole item. */
  lemma {:induction false} SubBulletReadsBack(line: string)
    requires var s := PyStrip(line); s != [] && s[0] == SubBulletGlyph && !NumberedItem(s)
    requires var c := PyStrip(PyStrip(line)[1..]);
      c != [] && NoLineTerminator(c) && !IsJsSpace(c[0]) && !IsJsSpace(c[|c| - 1])
    ensures ContentLineAsWritten(line).Some?
    ensures ParseLessonContent(Some(ContentLineAsWritten(line).value))
            == [Bullet(2, InlineSegments(PyStrip(PyStrip(line)[1..])))]
  {
    assert ContentLineAsWritten(line) == ContentLine(line);
    var c := PyStrip(PyStrip(line)[1..]);
    PyStripIdempotent(PyStrip(line)[1..]);
    assert ContentLine(line) == Some(FormatBulletLine(c, 2));
    BulletLineReadsBack(c, 2);
  }

  lemma {:induction false} NumberedItemReadsBack(line: string)
    requires var s := PyStrip(line); s != [] && s[0] != BulletGlyph && NumberedItem(s)
    requires var c := PyStrip(line); NoLineTerminator(c) && !IsJsSpace(c[0]) && !IsJsSpace(c[|c| - 1])
    ensures ContentLineAsWritten(line).Some?
    ensures ParseLessonContent(Some(ContentLineAsWritten(line).value)) == [Bullet(1, InlineSegments(PyStrip(line)))]
  {
    assert ContentLineAsWritten(line) == ContentLine(line);
    PyStripIdempotent(line);
    BulletLineReadsBack(PyStrip(line), 1);
  }

  /** A label line with a colon is read back as the bold label with its colon followed by the
      plain rest, provided the line holds no bold toggle of its own. */
  lemma {:induction false} LabelLineReadsBack(line: string)
    requires ':' in Cleaned(line) && Highlight !in Cleaned(line)
    ensures var c := Cleaned(line); var k := IndexOf(c, ':');
      InlineSegments(FormatLabelLine(line))
        == [Segment(PyStrip(c[..k]) + ":", true), Segment(" " + PyStrip(c[k + 1..]), false)]
  {
    var c := Cleaned(line);
    var k := IndexOf(c, ':');
    LabelCut(line);
    HalvesKeepOut(c, k, Highlight);
    LabelMarkupReads(PyStrip(c[..k]), PyStrip(c[k + 1..]));
  }

  /** The whole label line is read back as one paragraph: the bold label with its colon, then
      the plain rest. The reader trims with JavaScript's whitespace, so the stripped rest must be
      non-empty and must not end in a character only JavaScript counts as a space. */
  lemma {:induction false} LabelLineParsesBack(line: string)
    requires var c := Cleaned(line); ':' in c && Highlight !in c && '\n' !in c
    requires var c := Cleaned(line); var rest := PyStrip(c[IndexOf(c, ':') + 1..]);
      rest != [] && !IsJsSpace(rest[|rest| - 1])
    ensures var c := Cleaned(line); var k := IndexOf(c, ':');
      ParseLessonContent(Some(FormatLabelLine(line)))
        == [Paragraph([Segment(PyStrip(c[..k]) + ":", true), Segment(" " + PyStrip(c[k + 1..]), false)])]
  {
    var c := Cleaned(line);
    var k := IndexOf(c, ':');
    LabelCut(line);
    HalvesKeepOut(c, k, Highlight);
    HalvesKeepOut(c, k, '\n');
    LabelMarkupParses(PyStrip(c[..k]), PyStrip(c[k + 1..]));
  }

  /** The markup of a label line, on one line and ending in a visible character, is one
      paragraph of the bold label and the plain rest. */
  lemma {:induction false} LabelMarkupParses(name: string, rest: string)
    requires Highlight !in name && Highlight !in rest && '\n' !in name && '\n' !in rest
    requires rest != [] && !IsJsSpace(rest[|rest| - 1])
    ensures ParseLessonContent(Some("^" + name + ":^ " + rest))
              == [Paragraph([Segment(name + ":", true), Segment(" " + rest, false)])]
  {
    var r := "^" + name + ":^ " + rest;
    LabelMarkupOneLine(name, rest);
    TrimWithKeepsTrimmed(r, IsJsSpace);
    ParseOneLine(r);
    assert MatchBullet(r).None?;
    LabelMarkupReads(name, rest);
  }

  lemma {:induction false} LabelMarkupOneLine(name: string, rest: string)
    requires '\n' !in name && '\n' !in rest && rest != []
    ensures var r := "^" + name + ":^ " + rest;
      '\n' !in r && r[0] == Highlight && r[|r| - 1] == rest[|rest| - 1]
  {
    var r := "^" + name + ":^ " + rest;
    forall i | 0 <= i < |r|
      ensures r[i] != '\n'
    {
      if 0 < i < 1 + |name| {
        assert r[i] == name[i - 1];
      } else if i >= |name| + 4 {
        assert r[i] == rest[i - |name| - 4];
      }
    }
  }

  /** The label line is the markup around the two stripped halves of the cleaned text. */
  lemma {:induction false} LabelCut(line: string)
    requires ':' in Cleaned(line)
    ensures var c := Cleaned(line); var k := IndexOf(c, ':');
      FormatLabelLine(line) == "^" + PyStrip(c[..k]) + ":^ " + PyStrip(c[k + 1..])
  {
    var c := Cleaned(line);
    var j :| LabelAt(c, j, FormatLabelLine(line));
    IndexOfFirst(c, ':', j);
  }

  /** A character missing from a text is missing from both stripped halves around a cut. */
  lemma {:induction false} HalvesKeepOut(c: string, k: nat, x: char)
    requires k < |c| && x !in c
    ensures x !in PyStrip(c[..k]) && x !in PyStrip(c[k + 1..])
  {
    forall i | 0 <= i < k
      ensures c[..k][i] != x
    {
      assert c[..k][i] == c[i];
    }
    var d := c[k + 1..];
    forall i | 0 <= i < |d|
      ensures d[i] != x
    {
      assert d[i] == c[k + 1 + i];
    }
    PyStripKeepsOut(c[..k], x);
    PyStripKeepsOut(c[k + 1..], x);
  }

  /** The markup of a label line reads as the bold label with its colon, then the plain rest
      after one space. */
  lemma {:induction false} LabelMarkupReads(name: string, rest: string)
    requires Highlight !in name && Highlight !in rest
    ensures InlineSegments("^" + name + ":^ " + rest) == [Segment(name + ":", true), Segment(" " + rest, false)]
  {
    assert "^" + name + ":^ " + rest == [Highlight] + (name + ":") + [Highlight] + (" " + rest);
    BoldThenPlain(name + ":", " " + rest);
  }

  /** A toggle, a text, a toggle and another text read as the first text in bold followed by
      the second in plain type. */
  lemma {:induction false} BoldThenPlain(x: string, y: string)
    requires x != [] && y != [] && Highlight !in x && Highlight !in y
    ensures InlineSegments([Highlight] + x + [Highlight] + y) == [Segment(x, true), Segment(y, false)]
  {
    var t := [Highlight] + x + [Highlight] + y;
    assert t == [] + [Highlight] + (x + [Highlight] + y);
    SplitAround([], x + [Highlight] + y, Highlight);
    SplitAround(x, y, Highlight);
    NoSeparatorOnePiece(x, Highlight);
    NoSeparatorOnePiece(y, Highlight);
    var pieces: seq<string> := [[], x, y];
    assert Split(t, Highlight) == [[]] + ([x] + [y]);
    assert Split(t, Highlight) == pieces;
    assert pieces[..2] == [[], x];
    assert [[], x][..1] == [[]];
    assert SegmentsOfPieces([[]]) == [];
    assert SegmentsOfPieces([[], x]) == [Segment(x, true)];
    assert SegmentsOfPieces(pieces) == SegmentsOfPieces([[], x]) + PieceSegments(y, 2);
  }

  // ---------------------------------------------------------------------------------------
  // Indentation of bullet lines

  /** In the corrected reading a section line's markup does not depend on its indentation;
      as written, a label line's does (see `IndentedLabelKeepsGlyph`). */
  lemma {:induction false} ContentLineIgnoresIndent(line: string)
    ensures ContentLine(line) == ContentLine(PyStrip(line))
  {
    PyStripIdempotent(line);
  }

  /** As written, a bullet line indented by one space keeps its bullet glyph inside the bold
      label; the corrected reading, and the same line without the indentation, drop it. */
  lemma {:induction false} IndentedLabelKeepsGlyph(name: string, rest: string)
    requires name != [] && ':' !in name && name[0] != BulletGlyph
    requires !IsPySpace(name[0]) && !IsPySpace(name[|name| - 1])
    requires rest != [] && !IsPySpace(rest[0]) && !IsPySpace(rest[|rest| - 1])
    ensures ContentLineAsWritten(" " + [BulletGlyph] + name + ":" + rest)
            == Some("^" + [BulletGlyph] + name + ":^ " + rest)
    ensures ContentLine(" " + [BulletGlyph] + name + ":" + rest) == Some("^" + name + ":^ " + rest)
    ensures ContentLineAsWritten([BulletGlyph] + name + ":" + rest) == Some("^" + name + ":^ " + rest)
  {
    LabelShapes(BulletGlyph, name, rest);
    IndentedAsWritten(name, rest);
    IndentedCorrected(name, rest);
    UnindentedAsWritten(name, rest);
  }

  lemma {:induction false} IndentedAsWritten(name: string, rest: string)
    requires name != [] && ':' !in name
    requires !IsPySpace(name[0]) && !IsPySpace(name[|name| - 1])
    requires rest != [] && !IsPySpace(rest[0]) && !IsPySpace(rest[|rest| - 1])
    ensures ContentLineAsWritten([' '] + ([BulletGlyph] + (name + ":" + rest)))
            == Some("^" + ([BulletGlyph] + name) + ":^ " + rest)
  {
    var u := name + ":" + rest;
    PartsEnds(name, rest);
    var plain := [BulletGlyph] + u;
    BulletedStripped(u);
    var line := [' '] + plain;
    StripPrefixSpace(plain);
    AsWrittenOfBullet(line);
    CleanedOfIndented(plain);
    LabelShapes(BulletGlyph, name, rest);
    GlyphName(name);
    LabelOfParts(line, [BulletGlyph] + name, rest);
  }

  /** An indented line does not start with a bullet glyph, so cleaning it only strips it. */
  lemma {:induction false} CleanedOfIndented(plain: string)
    requires PyStrip([' '] + plain) == plain
    ensures Cleaned([' '] + plain) == plain
  {
    var line := [' '] + plain;
    LeadingRunStops(line, IsBulletGlyph, 0);
    assert line[0..] == line;
  }

  lemma {:induction false} GlyphName(name: string)
    requires name != [] && ':' !in name && !IsPySpace(name[|name| - 1])
    ensures var g := [BulletGlyph] + name; ':' !in g && !IsPySpace(g[0]) && !IsPySpace(g[|g| - 1])
  {
    var g := [BulletGlyph] + name;
    assert g[|g| - 1] == name[|name| - 1];
  }

  lemma {:induction false} IndentedCorrected(name: string, rest: string)
    requires name != [] && name[0] != BulletGlyph
    requires ':' !in name && !IsPySpace(name[0]) && !IsPySpace(name[|name| - 1])
    requires rest != [] && !IsPySpace(rest[0]) && !IsPySpace(rest[|rest| - 1])
    ensures ContentLine([' '] + ([BulletGlyph] + (name + ":" + rest))) == Some("^" + name + ":^ " + rest)
  {
    var u := name + ":" + rest;
    PartsEnds(name, rest);
    var plain := [BulletGlyph] + u;
    BulletedStripped(u);
    StripPrefixSpace(plain);
    ContentLineOfBullet([' '] + plain);
    CleanedOfBulleted(u);
    LabelOfParts(plain, name, rest);
  }

  lemma {:induction false} UnindentedAsWritten(name: string, rest: string)
    requires name != [] && name[0] != BulletGlyph
    requires ':' !in name && !IsPySpace(name[0]) && !IsPySpace(name[|name| - 1])
    requires rest != [] && !IsPySpace(rest[0]) && !IsPySpace(rest[|rest| - 1])
    ensures ContentLineAsWritten([BulletGlyph] + (name + ":" + rest)) == Some("^" + name + ":^ " + rest)
  {
    var u := name + ":" + rest;
    PartsEnds(name, rest);
    BulletedStripped(u);
    AsWrittenOfBullet([BulletGlyph] + u);
    CleanedOfBulleted(u);
    LabelOfParts([BulletGlyph] + u, name, rest);
  }

  lemma {:induction false} PartsEnds(name: string, rest: string)
    requires name != [] && rest != []
    ensures var u := name + ":" + rest; u != [] && u[0] == name[0] && u[|u| - 1] == rest[|rest| - 1]
  {
  }

  /** A bullet glyph before a stripped text leaves nothing to strip. */
  lemma {:induction false} BulletedStripped(u: string)
    requires u != [] && !IsPySpace(u[|u| - 1])
    ensures var plain := [BulletGlyph] + u;
      PyStrip(plain) == plain && plain[0] == BulletGlyph && !IsPySpace(plain[|plain| - 1])
  {
    var plain := [BulletGlyph] + u;
    assert plain[|plain| - 1] == u[|u| - 1];
    TrimWithKeepsTrimmed(plain, IsPySpace);
  }

  /** Cleaning a bulleted stripped text removes exactly the bullet. */
  lemma {:induction false} CleanedOfBulleted(u: string)
    requires u != [] && u[0] != BulletGlyph && !IsPySpace(u[0]) && !IsPySpace(u[|u| - 1])
    ensures Cleaned([BulletGlyph] + u) == u
  {
    var plain := [BulletGlyph] + u;
    LeadingRunStops(plain, IsBulletGlyph, 1);
    assert plain[1..] == u;
    TrimWithKeepsTrimmed(u, IsPySpace);
  }

  /** A line whose stripped form starts with the bullet glyph is a label line. */
  lemma {:induction false} ContentLineOfBullet(line: string)
    requires PyStrip(line) != [] && PyStrip(line)[0] == BulletGlyph
    ensures ContentLine(line) == Some(FormatLabelLine(PyStrip(line)))
  {
  }

  lemma {:induction false} AsWrittenOfBullet(line: string)
    requires PyStrip(line) != [] && PyStrip(line)[0] == BulletGlyph
    ensures ContentLineAsWritten(line) == Some(FormatLabelLine(line))
  {
  }

  /** The groupings of the label line and its markup used above are the same strings. */
  lemma {:induction false} LabelShapes(g: char, name: string, rest: string)
    ensures " " + [g] + name + ":" + rest == [' '] + ([g] + (name + ":" + rest))
    ensures [g] + name + ":" + rest == [g] + (name + ":" + rest)
    ensures ([g] + (name + ":" + rest)) == ([g] + name) + ":" + rest
    ensures "^" + ([g] + name) + ":^ " + rest == "^" + [g] + name + ":^ " + rest
  {
  }

  /** The smallest instance: ` •a:b` gives `^•a:^ b` as written and `^a:^ b` once corrected. */
  lemma {:induction false} IndentedLabelExample()
    ensures ContentLineAsWritten(" " + [BulletGlyph] + "a" + ":" + "b") == Some("^" + [BulletGlyph] + "a" + ":^ " + "b")
    ensures ContentLine(" " + [BulletGlyph] + "a" + ":" + "b") == Some("^" + "a" + ":^ " + "b")
  {
    IndentedLabelKeepsGlyph("a", "b");
  }

  /** A single leading space goes when stripping a text that is already stripped. */
  lemma {:induction false} StripPrefixSpace(s: string)
    requires s != [] && !IsPySpace(s[0]) && !IsPySpace(s[|s| - 1])
    ensures PyStrip([' '] + s) == s
  {
    LeadingRunStops([' '] + s, IsPySpace, 1);
    assert ([' '] + s)[1..] == s;
  }

  /** The label line of a cleaned text made of a stripped name without colons, a colon and a
      stripped rest. */
  lemma {:induction false} LabelOfParts(line: string, name: string, rest: string)
    requires Cleaned(line) == name + ":" + rest && ':' !in name
    requires name == [] || (!IsPySpace(name[0]) && !IsPySpace(name[|name| - 1]))
    requires rest == [] || (!IsPySpace(rest[0]) && !IsPySpace(rest[|rest| - 1]))
    ensures FormatLabelLine(line) == "^" + name + ":^ " + rest
  {
    var c := Cleaned(line);
    assert c[..|name|] == name;
    IndexOfFirst(c, ':', |name|);
    var k := IndexOf(c, ':');
    assert c[..k] == name && c[k + 1..] == rest;
    TrimWithKeepsTrimmed(name, IsPySpace);
    TrimWithKeepsTrimmed(rest, IsPySpace);
  }

  /** On a line that is already stripped the two readings agree. */
  lemma {:induction false} AsWrittenAgreesWhenStripped(line: string)
    requires PyStrip(line) == line
    ensures ContentLineAsWritten(line) == ContentLine(line)
  {
  }
}
