# Edplore monthly planner — a Dafny model of its core

Edplore is a small React application for pre-school teachers. A Python script turns a
plain-text daily planner into a lesson file; the page lets a teacher pick a class, a month
and a day, and shows that day's lessons. Lesson texts use a tiny markup that a parser turns
into paragraphs, bullets and bold runs. A letter-tracing widget animates the strokes of a
letter on a canvas, point by point, with numbered badges and arrowheads. A pop-up player
looks videos up by key in a nested data file.

This project models that core as pure Dafny functions over immutable datatypes and proves
what each part promises:

- `TraceCatalog`: the normalisation of the letter prop, and the letter catalog built from
  the letter files, with its lower-case aliases.
- `TraceGeometry`: the stroke colours, the badge clamp, the arrow's predecessor point and
  the reference drawing of a letter.
- `TraceSequencer`: the tracing widget as a state machine. Its events are a prop change, a
  timer callback, the catalog arriving or failing, and unmounting. The invariant ties the
  timer and the canvas to the position of the animation in flight. The tick-counting lemmas
  show that a letter plays to its complete reference drawing in a known number of ticks.
- `ContentParser`: `parseInlineSegments`, proved equal to a reference reading through the
  pieces between `^` toggles, and `parseLessonContent`.
- `LessonGenerator`: the generator's line formatting, its header patterns and
  `build_lessons` with `flush_section`. It includes round trips from the generated markup
  back through the content parser.
- `VideoLookup`: the walk that files video entries by key, the grouping into the lookup
  table, the first-entry selection and `parseTiming`.
- `VideoUtils`: the extension pattern, the MIME lookup and `isDirectVideoUrl`.
- `Planner`: the page's selection state, its derived data, the three select handlers and
  the effect that resets the preview flags.
- `Strings` and `Options`: shared string functions (trims, case mapping, split and join,
  decimal conversion) and the optional value.

Two places in the model follow the code as written, not the corrected reading of its
findings:

- The widget's event step (`TraceSequencer.Step`) loads the catalog as written, so the
  initial letter is requested twice. Every invariant proved about reachable states covers
  that program.
- The generator's section content (`LessonGenerator.ContentLines`) formats label lines as
  written.

The corrected readings are separate members, each with its intended property proved.

Anything the code takes from outside becomes a parameter:

- the letter files become the `Loaded` event's entries;
- timers become `TimerFired` events;
- the badge's trigonometric offset becomes the `offset` function;
- the parsed video data becomes a `Json` value;
- the planner document becomes its list of lines.

## Model

| member | source | states |
|---|---|---|
| TraceCatalog.NormalizeLetterInput | src/components/TraceLetter.js:9-18 | a letter exactly when the input is a string whose trim is one character long, and then that character upper-cased |
| TraceCatalog.NormalizeLetterInputIdempotent | src/components/TraceLetter.js:9-18 | a normalised letter, passed again as the prop, normalises to itself |
| TraceCatalog.StrokesOf | src/components/TraceLetter.js:275-285 | a non-empty `strokes` array wins, else a non-empty `points` array becomes one stroke; nothing exactly when neither is present and non-empty, or the record is not an object |
| TraceCatalog.BuildCatalogNonEmpty | src/components/TraceLetter.js:287-291 | every letter in the catalog has at least one stroke |
| TraceCatalog.BuildCatalogKeys | src/components/TraceLetter.js:268-293 | every kept letter and its lower-case alias are keys, and every key is a kept letter or such an alias |
| TraceCatalog.BuildCatalogAliases | src/components/TraceLetter.js:291-292 | the alias of a kept letter holds the strokes of a kept letter with the same lower-case form |
| TraceCatalog.BuildCatalogKeepsOwnStrokes | src/components/TraceLetter.js:268-292 | with keys visited in sorted order, every kept letter's own key holds its own strokes (a later alias never overwrites it) |
| TraceCatalog.LowerNotBelow | src/components/TraceLetter.js:268-269 | a lower-cased key never sorts before its original, which is why an alias cannot precede and then overwrite a letter |
| TraceGeometry.StrokeColour | src/components/TraceLetter.js:196 | a stroke's colour is always one of the five palette colours |
| TraceGeometry.ColourCycle | src/components/TraceLetter.js:6 | colours repeat every five strokes; stroke `i` takes palette entry `i mod 5` |
| TraceGeometry.ClampBadge | src/components/TraceLetter.js:84-85 | the result lies in [20, 280]; it is the input when the input lies there, and otherwise the nearer bound |
| TraceGeometry.BadgeCentre | src/components/TraceLetter.js:72-85 | the badge centre lies inside the 20-unit margin on both axes, whatever the offset |
| TraceGeometry.PredecessorFrom | src/components/TraceLetter.js:114-121 | the backward scan returns the highest index at or below its start whose point differs from the last point, else the second-to-last index |
| TraceGeometry.PredecessorIndex | src/components/TraceLetter.js:111-121 | the arrow's tail is the last earlier point that differs from the stroke's end, or the second-to-last point when none does |
| TraceGeometry.ArrowDirectionNonDegenerate | src/components/TraceLetter.js:111-124 | unless all points coincide, the arrow's tail differs from its tip |
| TraceGeometry.Dots | src/components/TraceLetter.js:174-187 | one point marker per point of the stroke, in order, in the stroke's colour |
| TraceGeometry.StrokeBadges | src/components/TraceLetter.js:65-67 | a stroke contributes its badge number `i + 1` exactly when it has at least two points |
| TraceGeometry.RenderBadgeSet | src/components/TraceLetter.js:190-209 | badge `b` is drawn for the first `n` strokes exactly when stroke `b - 1` is among them and has two points |
| TraceGeometry.RenderBadgesIncrease | src/components/TraceLetter.js:190-209 | the badges drawn so far are strictly increasing and lie in `1..n` |
| TraceGeometry.RenderBadgesOrdered | src/components/TraceLetter.js:190-209 | a finished letter shows its badges in strictly increasing order |
| TraceSequencer.Unmount | src/components/TraceLetter.js:236-243 | after unmounting nothing draws, nothing is pending and no timer is left; the canvas is untouched |
| TraceSequencer.LoadFailed | src/components/TraceLetter.js:301-308 | a failed load sets the error status and message and draws nothing |
| TraceSequencer.DrawingCompleteOk | src/components/TraceLetter.js:157-165 | completing a letter leaves it idle with its whole reference drawing, or starts the pending letter, keeping the invariant |
| TraceSequencer.StrokeDoneOk | src/components/TraceLetter.js:197-209 | a finished stroke adds its badge and arrow, then pauses before the next stroke or completes the letter, keeping the invariant |
| TraceSequencer.StartOk | src/components/TraceLetter.js:212-232 | starting a playable letter from idle sets up that letter's animation with its whole tick count left (a letter of one empty stroke completes at once), within the invariant |
| TraceSequencer.TickOk | src/components/TraceLetter.js:167-210 | every tick keeps the invariant; while more than one tick is left it advances the same animation by one step; the last completes it |
| TraceSequencer.RunKeepsInv | src/components/TraceLetter.js:175-185 | any number of ticks keeps the invariant |
| TraceSequencer.DrawingHasTicksLeft | src/components/TraceLetter.js:174-185 | a drawing state always has at least one tick left |
| TraceSequencer.TickAdvances | src/components/TraceLetter.js:174-185 | with more than one tick left, a tick takes exactly one off and keeps the same animation |
| TraceSequencer.RunToEnd | src/components/TraceLetter.js:190-210 | after exactly the ticks left, the letter's full reference drawing is shown and the pending letter, if any, has been started |
| TraceSequencer.PlayLetter | src/components/TraceLetter.js:212-232 | a letter requested from idle is still drawing before its total tick count and, at that count, shows its complete reference drawing with nothing scheduled |
| TraceSequencer.DrawUnknownIsNoOp | src/components/TraceLetter.js:213-220 | `drawLetter` of an empty or unknown letter changes nothing |
| TraceSequencer.DrawWhileDrawing | src/components/TraceLetter.js:222-225 | while drawing, `drawLetter` of a known letter only replaces the pending letter with its upper case |
| TraceSequencer.DrawBurst | src/components/TraceLetter.js:212-225 | calls made during an animation change only the pending letter, which becomes the last known letter of the burst |
| TraceSequencer.LastDrawableIsLast | src/components/TraceLetter.js:222-225 | when the last letter of a burst is known, it is the pending one |
| TraceSequencer.LastDrawableUnknown | src/components/TraceLetter.js:213-220 | unknown letters leave the pending letter as it was |
| TraceSequencer.RequestWhileDrawing | src/components/TraceLetter.js:319-329 | a prop change during an animation only updates the prop and, for a new known letter, the pending letter |
| TraceSequencer.RequestBurst | src/components/TraceLetter.js:319-329 | after a burst of prop changes during an animation, the prop is the last value and the pending letter is what the changes leave; the animation in flight is untouched |
| TraceSequencer.LastKnownIsLast | src/components/TraceLetter.js:319-329 | a burst whose last value changes the prop to a known letter leaves exactly that letter pending |
| TraceSequencer.RequestWhileLoading | src/components/TraceLetter.js:319-326 | before the catalog is ready, a prop change only records the normalised prop |
| TraceSequencer.PropEffectOk | src/components/TraceLetter.js:319-329 | the prop effect keeps the invariant |
| TraceSequencer.DrawLetterOk | src/components/TraceLetter.js:212-232 | once the catalog is ready, `drawLetter` of any letter keeps the invariant |
| TraceSequencer.LoadLettersAsWrittenOk | src/components/TraceLetter.js:259-300 | the load as written keeps the invariant |
| TraceSequencer.LoadServesOwnStrokes | src/components/TraceLetter.js:268-300 | after a successful load the catalog is the one built from the letter files, and, with the keys distinct and sorted as `Object.keys(aggregated).sort()` lists them, every kept letter serves its own strokes |
| TraceSequencer.LoadLettersOk | src/components/TraceLetter.js:266-296 | the corrected load keeps the invariant |
| TraceSequencer.StepOk | src/components/TraceLetter.js:234-329 | every event keeps the invariant |
| TraceSequencer.Reachable | src/components/TraceLetter.js:24-39 | the mounted component and every state reached from it by any events satisfy the invariant |
| TraceSequencer.RunEventsOk | src/components/TraceLetter.js:234-329 | any sequence of events keeps the invariant |
| TraceSequencer.NothingAfterUnmount | src/components/TraceLetter.js:312-315 | after unmounting, whatever happens, nothing is drawn, no timer is scheduled and the canvas never changes |
| TraceSequencer.LoadQueuesInitialLetterTwice | src/components/TraceLetter.js:298-300 | as written, a load with the mount-time letter known leaves that letter both drawing and pending |
| TraceSequencer.LoadAfterPropChange | src/components/TraceLetter.js:298-329 | as written, after a prop change during loading, the mount-time letter plays and the new one is pending; corrected, the new letter plays and nothing is pending |
| TraceSequencer.LoadPlaysInitialLetterOnce | src/components/TraceLetter.js:296-329 | corrected, the load plays a known initial letter once with nothing pending, and starts nothing for an unknown one |
| ContentParser.ParseInlineSegments | src/utils/contentParser.js:3-26 | the one-pass loop returns the reference segments; each is non-empty, free of `^`, and occurs in the text, bold exactly after an odd number of toggles |
| ContentParser.ScanIsPieces | src/utils/contentParser.js:8-19 | at every prefix the loop's segments, buffer and bold flag agree with the pieces between toggles |
| ContentParser.ScanDone | src/utils/contentParser.js:21-23 | flushing the final buffer completes the reference segments |
| ContentParser.InlineSegmentPositions | src/utils/contentParser.js:3-26 | every segment occurs in the line, bold exactly when an odd number of toggles come before it |
| ContentParser.InlineSegmentsWellFormed | src/utils/contentParser.js:11-14 | every segment is non-empty and contains no toggle |
| ContentParser.InlineSegmentsKeepText | src/utils/contentParser.js:8-19 | the segment texts run together are the line with its toggles removed |
| ContentParser.MatchBullet | src/utils/contentParser.js:40 | a match gives the maximal star run, a whitespace gap and a content free of line terminators; no match exactly when the line lacks stars, lacks a gap or has a terminator after it |
| ContentParser.MatchBulletOfShape | src/utils/contentParser.js:40-43 | stars, whitespace and a content starting with no whitespace always match, with that star count and that content |
| ContentParser.LineBlock | src/utils/contentParser.js:40-55 | a bullet always has a level of at least one |
| ContentParser.LineBlocks | src/utils/contentParser.js:35-38 | a line makes no block exactly when it is whitespace only |
| ContentParser.ParseLessonContent | src/utils/contentParser.js:28-29 | missing, empty or whitespace-only text gives no blocks |
| ContentParser.BlocksOfLinesAppend | src/utils/contentParser.js:34-56 | the lines are read independently: the blocks of two lists are the blocks of each, in order |
| ContentParser.BlanksMakeNoBlocks | src/utils/contentParser.js:31-38 | whitespace-only text has only blank lines, so no blocks |
| ContentParser.ParseLinesInOrder | src/utils/contentParser.js:31-58 | text joined by a line break parses to the blocks of the first part followed by those of the second |
| ContentParser.ParseIsBlocksOfLines | src/utils/contentParser.js:29-31 | the early return for empty text agrees with reading its single blank line |
| ContentParser.ParseOneLine | src/utils/contentParser.js:34-56 | a single line gives no block when blank, else one: a bullet when the trimmed line matches the pattern, a paragraph of the trimmed line otherwise |
| LessonGenerator.FormatLabelLine | scripts/generate_lessons.py:191-196 | without a colon, the line without leading bullet glyphs and stripped; with one, `^label:^ rest` cut at the first colon with both halves stripped |
| LessonGenerator.FormatBulletLine | scripts/generate_lessons.py:199-201 | `level` stars, one space, then the stripped line |
| LessonGenerator.NormalizeLine | scripts/generate_lessons.py:204-205 | the replacement maps U+2022 to itself, so every line is unchanged |
| LessonGenerator.ContentLineAsWritten | scripts/generate_lessons.py:222-233 | a recorded line contributes markup exactly when it is not whitespace only |
| LessonGenerator.ContentLine | scripts/generate_lessons.py:222-233 | the corrected reading: the same condition for contributing markup, with the label line formatted from the stripped line |
| LessonGenerator.WeekHeader | scripts/generate_lessons.py:250 | a week number exactly when the line starts with the week prefix followed by a digit |
| LessonGenerator.DayHeader | scripts/generate_lessons.py:255 | a day number only for `Day`, whitespace, digits, a colon and a title, and then the number its digits spell |
| LessonGenerator.DayNumberAt | scripts/generate_lessons.py:255 | with the runs fixed, a number exactly when the runs are non-empty and a colon and a title follow |
| LessonGenerator.DayNumberOfShape | scripts/generate_lessons.py:255 | every text of the day-header shape is read as the number its digits spell |
| LessonGenerator.RomanHeader | scripts/generate_lessons.py:260-262 | a title exactly when a Roman numeral, a dot, a space and a non-line-feed character start the line; the title keeps only characters of the line other than line feeds |
| LessonGenerator.AddLesson | scripts/generate_lessons.py:220 | the lesson is appended under its key, a new key goes last, and no other key's lessons change |
| LessonGenerator.Flush | scripts/generate_lessons.py:216-244 | with a day and a title, the section becomes the next lesson of that day and is closed, other days unchanged; otherwise nothing happens |
| LessonGenerator.Classify | scripts/generate_lessons.py:246-272 | a line is blank exactly when it is whitespace only; each header kind is reported only when its pattern matches |
| LessonGenerator.DayPlans | scripts/generate_lessons.py:282-286 | one day plan per day key, in order, holding that day's lessons |
| LessonGenerator.BuildLessons | scripts/generate_lessons.py:208-294 | the three classes with every lesson under Nursery month "1", the others empty, and no lesson carrying a video or document link |
| LessonGenerator.FeedNoLinks | scripts/generate_lessons.py:235-242 | no stored lesson ever has a video or document link |
| LessonGenerator.FeedKeepsOffset | scripts/generate_lessons.py:250-253 | the day offset is always five days for each week before the current one |
| LessonGenerator.DayKeyFollowsWeek | scripts/generate_lessons.py:255-258 | day `n` is stored under `n` plus five days for every earlier week |
| LessonGenerator.DayLineOpensDay | scripts/generate_lessons.py:255-258 | a day line opens the day keyed by its number plus the offset |
| LessonGenerator.WeekHeaderSetsOffset | scripts/generate_lessons.py:250-253 | a week header sets the week and the matching offset |
| LessonGenerator.WeekHeaderOfNumber | scripts/generate_lessons.py:250-252 | the header followed by the decimal form of `w` and a non-digit is read as week `w` |
| LessonGenerator.DayHeaderOfNumber | scripts/generate_lessons.py:255-257 | `Day`, whitespace, the decimal form of `n`, a colon, a space and a title are read as day `n` |
| LessonGenerator.RomanHeaderOfTitle | scripts/generate_lessons.py:260-262 | a numeral, `. ` and a title without line feeds give the stripped title |
| LessonGenerator.NothingStoredWithoutDay | scripts/generate_lessons.py:265-272 | with no day open and no day header ahead, nothing is stored, not even at the final flush |
| LessonGenerator.NotAHeader | scripts/generate_lessons.py:250-264 | a line starting with neither `D` nor a Roman digit is no header |
| LessonGenerator.ClassifyWeek | scripts/generate_lessons.py:248-254 | a week header is classified as one: no earlier test catches it |
| LessonGenerator.ClassifyDay | scripts/generate_lessons.py:255-259 | a day header is classified as one |
| LessonGenerator.ClassifyTitle | scripts/generate_lessons.py:260-264 | a section title is classified as one |
| LessonGenerator.ClassifySeparator | scripts/generate_lessons.py:265-270 | a separator that is no header is classified as a separator |
| LessonGenerator.ClassifyText | scripts/generate_lessons.py:271-272 | a line matching no test is ordinary text |
| LessonGenerator.SeparatorClosesDay | scripts/generate_lessons.py:265-270 | after a separator no day and no section are open |
| LessonGenerator.RomanHeaderOpensSection | scripts/generate_lessons.py:260-264 | a section title flushes the open section and opens an empty one with its title |
| LessonGenerator.OrdinaryLineRecorded | scripts/generate_lessons.py:271-272 | an ordinary line is recorded exactly when the open section's title is non-empty, and nothing else changes |
| LessonGenerator.BulletLineReadsBack | scripts/generate_lessons.py:199-201 | a formatted bullet line parses back to a bullet of that level holding the stripped text |
| LessonGenerator.StarredLineReads | src/utils/contentParser.js:40-48 | stars, a space and a trimmed single line parse to a bullet of that many stars |
| LessonGenerator.SubBulletReadsBack | scripts/generate_lessons.py:230-231 | a sub-bullet line parses back to a second-level bullet holding its text after the glyph |
| LessonGenerator.NumberedItemReadsBack | scripts/generate_lessons.py:228-229 | a numbered item parses back to a first-level bullet holding the whole item |
| LessonGenerator.LabelLineReadsBack | scripts/generate_lessons.py:191-196 | a label line with a colon parses back to the bold label with its colon, then the plain rest |
| LessonGenerator.LabelMarkupReads | src/utils/contentParser.js:3-26 | `^label:^ rest` reads as the bold label with its colon, then a space and the plain rest |
| LessonGenerator.LabelLineParsesBack | scripts/generate_lessons.py:191-196 | a one-line label line whose rest is non-empty and does not end in JavaScript whitespace is read by `parseLessonContent` as one paragraph: the bold label with its colon, then the plain rest |
| LessonGenerator.LabelMarkupParses | src/utils/contentParser.js:28-58 | the label markup on one line is a paragraph, not a bullet, whose segments are the bold label and the plain rest |
| LessonGenerator.BoldThenPlain | src/utils/contentParser.js:3-26 | a toggle, a text, a toggle and another text read as the first text bold and the second plain |
| LessonGenerator.ContentLineIgnoresIndent | scripts/generate_lessons.py:222-233 | corrected, a line's markup does not depend on its indentation |
| LessonGenerator.IndentedLabelKeepsGlyph | scripts/generate_lessons.py:226-227 | as written, an indented label line keeps its bullet glyph inside the bold label; corrected, and without the indent, the glyph goes |
| LessonGenerator.IndentedLabelExample | scripts/generate_lessons.py:226-227 | ` •a:b` gives `^•a:^ b` as written and `^a:^ b` corrected |
| LessonGenerator.AsWrittenAgreesWhenStripped | scripts/generate_lessons.py:223-227 | on a line that is already stripped, the two readings agree |
| VideoLookup.RecordOf | src/components/PopVideoPlayer.js:7-15 | an entry is filed under the lower case of its upper-cased key, keeping its members and the path above it |
| VideoLookup.Traverse | src/components/PopVideoPlayer.js:17-30 | a non-object files nothing; every filed record is an entry filed under its lower-cased key, below the walk's path |
| VideoLookup.TraverseSound | src/components/PopVideoPlayer.js:17-30 | every filed record is an entry that sits in the tree where its ancestor keys lead, reached without passing through another entry |
| VideoLookup.MemberVisited | src/components/PopVideoPlayer.js:22-29 | every member of an object is visited: its records are among the object's |
| VideoLookup.EntryMemberFiled | src/components/PopVideoPlayer.js:23-26 | a member that is an entry is filed, with the parent's path |
| VideoLookup.OtherMemberWalked | src/components/PopVideoPlayer.js:28 | a member that is not an entry is walked with its key appended to the path |
| VideoLookup.ChildAt | src/components/PopVideoPlayer.js:22 | with distinct member names, a member is found again by its key |
| VideoLookup.Group | src/components/PopVideoPlayer.js:4-15 | the table exists exactly when no record is filed under an inherited name; its keys are the filed names and each holds that name's entries in filing order |
| VideoLookup.LookupIsEntriesFor | src/components/PopVideoPlayer.js:9-14 | what the table holds under a name, none when absent, is the entries filed under it, and a key never holds an empty list |
| VideoLookup.NormalizeKey | src/components/PopVideoPlayer.js:111 | empty exactly for a missing or whitespace-only key; never contains an upper-case letter |
| VideoLookup.EntriesForFirst | src/components/PopVideoPlayer.js:116-117 | no entries exactly when no record has the name; otherwise the first entry is that of the first such record |
| VideoLookup.SelectsFirstFiled | src/components/PopVideoPlayer.js:111-118 | the player shows the first entry, in walking order, filed under the normalised key, and nothing for a blank key or one nothing matches |
| VideoLookup.SelectFromEntries | src/components/PopVideoPlayer.js:112-118 | the selected entry is the first of those filed under the normalised key |
| VideoLookup.ParseInt | src/components/PopVideoPlayer.js:66-67 | a number only when the text holds a digit |
| VideoLookup.ParseIntOfIntToString | src/components/PopVideoPlayer.js:66 | a formatted integer followed by a non-digit reads back as itself |
| VideoLookup.ParseIntSkipsSpace | src/components/PopVideoPlayer.js:66 | leading whitespace does not change what is read |
| VideoLookup.ReadSeconds | src/components/PopVideoPlayer.js:66-68 | reading throws exactly for an element that is neither missing nor a string; a missing one gives `NaN` |
| VideoLookup.ParseTiming | src/components/PopVideoPlayer.js:61-69 | anything but an array gives two `NaN`s; an array gives a timing exactly when both of its first two elements can be read |
| VideoLookup.TimingOfNumbers | src/components/PopVideoPlayer.js:61-69 | a pair of whitespace-padded formatted integers reads back as those integers, whatever follows |
| VideoLookup.PaddedNumberReads | src/components/PopVideoPlayer.js:66 | one element holding a formatted integer between whitespace reads as that integer |
| VideoLookup.UnreadableStartAlone | src/components/PopVideoPlayer.js:66-68 | an unreadable start spoils only the start field |
| VideoLookup.EntryTiming | src/components/PopVideoPlayer.js:120-123 | without a selected entry both fields are `NaN` |
| VideoUtils.FirstMatch | src/utils/videoUtils.js:9 | the leftmost position where the pattern matches, and no match before it |
| VideoUtils.RunAt | src/utils/videoUtils.js:9 | the letters and digits from a position on; non-empty exactly when the first is one |
| VideoUtils.ExtensionWith | src/utils/videoUtils.js:7-11 | nothing for a missing or empty URL; non-empty exactly when the pattern matches, where the as-written `.` after the backslash takes one UTF-16 unit, so a character above U+FFFF there never matches; then the lower-cased run of the leftmost match, always lower-case letters and digits |
| VideoUtils.MimeOfExtensionAsWritten | src/utils/videoUtils.js:13-16 | the three own keys give their types, and exactly `constructor` gives the inherited `Object` function |
| VideoUtils.MimeOfExtension | src/utils/videoUtils.js:1-5 | one of the three video types exactly for the three own keys, else the empty string |
| VideoUtils.MimeType | src/utils/videoUtils.js:13-16 | corrected: one of the three video types or empty, and empty for a missing or empty URL |
| VideoUtils.IsDirectVideoUrl | src/utils/videoUtils.js:18 | direct exactly when the MIME type is non-empty, that is when the extension is a known one |
| VideoUtils.ExtensionOfFileName | src/utils/videoUtils.js:7-11 | corrected: a base without `?` or `#` (dots in the host and path allowed), a dot, an alphanumeric extension and an optional query or fragment give that extension, lower-cased |
| VideoUtils.NoEarlierMatch | src/utils/videoUtils.js:9 | a match with none before it is the one the search finds |
| VideoUtils.NoBackslashNoExtension | src/utils/videoUtils.js:9 | as written, a URL without a backslash has no extension |
| VideoUtils.EscapedExtension | src/utils/videoUtils.js:9-10 | as written, a backslash, any single-unit character but a line terminator and an alphanumeric run give that run, lower-cased |
| VideoUtils.AstralAfterBackslash | src/utils/videoUtils.js:9-10 | as written, `x\😀mp4` has no extension, since `.` takes only the high surrogate, while `x\emp4` gives `mp4` |
| VideoUtils.PlainFileName | src/utils/videoUtils.js:9-18 | `clip.mp4` has no type as written and is not direct; corrected it is `video/mp4` and direct |
| VideoUtils.InheritedKeyIsDirect | src/utils/videoUtils.js:15-18 | as written, the extension `constructor` finds a truthy inherited value; with own keys only it finds nothing |
| VideoUtils.InheritedKeyUrl | src/utils/videoUtils.js:9-18 | as written, a whole URL reaching `constructor` counts as a direct video |
| Planner.LookupFindsListed | src/App.js:19-27 | a key is listed exactly when looking it up finds a member |
| Planner.Initial | src/App.js:9-17 | the first class, no month or day, both flags off |
| Planner.MonthData | src/App.js:14 | month data only while a non-empty month is selected |
| Planner.DayData | src/App.js:15 | day data only while both a month and a day are selected |
| Planner.AvailableDays | src/App.js:24-27 | no days without a selected month |
| Planner.DayRef | src/App.js:15 | the day on display is identified exactly when there is day data |
| Planner.SelectClass | src/App.js:29-33 | the class is set, the month and day cleared, and the flags left to the effect |
| Planner.SelectMonth | src/App.js:35-39 | a month the class lacks changes nothing; another is selected and the day cleared |
| Planner.SelectDay | src/App.js:41-44 | a day the month lacks changes nothing; another is selected |
| Planner.PreviewEffect | src/App.js:46-49 | when the day on display changes both flags go off, otherwise nothing changes; the selection is untouched |
| Planner.StepKeepsInv | src/App.js:29-49 | each offered event keeps the invariant: existing class, month and day, and a preview only on a day on display |
| Planner.RunKeepsInv | src/App.js:29-49 | every state reached by offered events satisfies the invariant |
| Planner.InitialInv | src/App.js:9-17 | the first render satisfies the invariant |
| Planner.SelectedDayShown | src/App.js:15 | in a reachable state, a selected day belongs to the selected month of the class and has content on display |
| Planner.LockedMonthIgnored | src/App.js:36 | a click on a month the class lacks changes nothing, flags included |
| Planner.LockedDayIgnored | src/App.js:42 | a click on a day the month lacks, or on any day with no month, changes nothing |
| Planner.ClassChangeClearsAll | src/App.js:29-33 | a class change leaves no month, no day, no content and no preview |
| Planner.MonthChangeClearsDay | src/App.js:35-39 | selecting an available month clears the day and the preview |
| Planner.DayChangeResetsPreview | src/App.js:41-49 | a different day puts its content on display and resets the preview; the day already shown keeps it |
| Strings.JsTrim | src/utils/contentParser.js:35 | the result starts and ends with no whitespace, and is empty exactly for whitespace-only input |
| Strings.PyStrip | scripts/generate_lessons.py:223 | the same for Python's whitespace |
| Strings.PyStripIdempotent | scripts/generate_lessons.py:223 | stripping twice is stripping once |
| Strings.Split | src/utils/contentParser.js:31 | one more piece than separators, and no piece contains the separator |
| Strings.JoinSplit | src/utils/contentParser.js:31 | joining the pieces with the separator gives the text back |
| Strings.SplitAround | src/utils/contentParser.js:31 | the pieces of `a`, a separator and `b` are those of `a` followed by those of `b` |
| Strings.ConcatSplit | src/utils/contentParser.js:31 | the pieces run together are the text without its separators |
| Strings.Upper | src/components/TraceLetter.js:213 | same length, each character upper-cased |
| Strings.Lower | src/components/TraceLetter.js:292 | same length, each character lower-cased |
| Strings.LowerOfUpper | src/components/PopVideoPlayer.js:8-13 | lower-casing forgets an upper-casing, so an entry's upper-cased key lower-cases to its index |
| Strings.DigitsValueOfNatToString | scripts/generate_lessons.py:257-258 | a formatted natural reads back as itself |
| Strings.NatToStringInjective | scripts/generate_lessons.py:258 | different day numbers give different day keys |

## Left out

- NormalizeLetterInput, Upper, Lower, RecordOf, NormalizeKey: case mapping covers the ASCII
  letters only, and lengths count code points. JavaScript's `toUpperCase` and
  `toLowerCase` map all of Unicode and `.length` counts UTF-16 units. For "é" the source
  gives "É" where the model keeps "é". "ß" becomes "SS" in the source, two units long, so no
  letter; "😀" is two units long, so no letter either. The model gives a letter for both.
- DayHeader, WeekHeader, IsItemMark: the digits are the ASCII digits. Python's `\d` and
  `int()` also accept other Unicode decimal digits.
- DrawNextPoint, StrokeDone: a canvas context is assumed while the component is mounted.
  Without one, the source completes each stroke at once with nothing drawn and skips the
  badge and the arrow (TraceLetter.js:169-172, :67, :107).
- BuildCatalog: takes the records after `Object.assign` has merged the letter files, where
  a later file overrides an earlier one's key (TraceLetter.js:259-264). The dynamic imports
  themselves, and their failure, are the `Loaded` and `LoadError` events.
- StrokesOf, BuildCatalog: records are taken to be well formed, with `strokes` an array of
  arrays of points and every point an object with numeric `x` and `y`. In the source a stroke
  that is not an array, or a point that is `null` or `undefined`, makes `convertPoints` throw
  (TraceLetter.js:20-22, :275-280), and the whole load fails; the model takes such a load as
  the `LoadError` event. A point without numeric coordinates gives NaN in the source, and
  NaN is not modelled, so `BadgeCentre`'s margin bound is stated for real coordinates only.
  The `Loaded` event's entries are taken to be the distinct keys in sorted order, as
  `Object.keys(aggregated).sort()` lists them (:268-269); the event type itself admits any
  list, and `LoadServesOwnStrokes` states what the sorted order gives.
- SortedKeys: keys are ordered by code point. The default `Array.prototype.sort` compares
  UTF-16 code units, which orders characters above U+FFFF differently.
- Traverse: an object's members are taken in the order the `Json` value lists them.
  `Object.entries` lists integer-like keys first, in ascending order, then the others in
  insertion order.
- ParseInt: the value is an exact integer. `Number.parseInt` returns a double, so more than
  about 2^53 loses precision, and "-0" gives negative zero.
- TraceGeometry.BadgeCentre: the trigonometry of the badge offset (TraceLetter.js:76-81) is
  the host function `offset`. The arrowhead's corner coordinates (:124-137) are left out;
  only its tail and tip points are modelled.
- Planner.Initial: requires a non-empty data file. With none, the page throws on reading
  `classData.months`.
- BuildLessons: takes the document already split into lines. `RAW_DOC.splitlines()`, the
  document text itself and `main`'s writing of the JSON file are left out.
- VideoLookup.SelectEntry: `entries?.[0]` for the inherited names yields nothing, as
  modelled. When the data files an entry under such a name, building the table throws at
  module load; `Group` models that throw as `None`.
- Not modelled, being I/O or rendering:
  - `parseYouTubeId`, the YouTube iframe API loader and the player's lifecycle;
  - the JSX of every component, and the class, month and day selector components;
  - `console.error` and the timers' real delays (only their values 90 and 220 are kept);
  - `getContext` and the canvas calls below the level of a point, a badge and an arrow.
- React scheduling: an effect is taken to run right after the state change that triggers
  it, in the order the source's effects are declared.

## Findings

| source | as written | input that shows it | evidently intended | confidence | as-written member | corrected member |
|---|---|---|---|---|---|---|
| src/utils/videoUtils.js:9 | the regular-expression literal `/\\.([a-z0-9]+)…/` needs a backslash followed by any character before the extension | `clip.mp4` gives extension `''`, so no MIME type and not a direct video | a literal dot, `/\.([a-z0-9]+)…/`, giving `mp4` and `video/mp4` | high, not executed | VideoUtils.ExtensionWith, VideoUtils.EscapedExtension, VideoUtils.AstralAfterBackslash, VideoUtils.NoBackslashNoExtension, VideoUtils.PlainFileName | VideoUtils.Extension, VideoUtils.ExtensionOfFileName, VideoUtils.PlainFileName |
| src/utils/videoUtils.js:15 | `VIDEO_MIME_TYPE_MAP[ext]` also finds properties every plain object inherits | the URL `a\.constructor` has extension `constructor`; the lookup returns the `Object` function, and `isDirectVideoUrl` is true | only the three own keys count; `''` for any other extension | medium, not executed | VideoUtils.MimeOfExtensionAsWritten, VideoUtils.InheritedKeyIsDirect, VideoUtils.InheritedKeyUrl | VideoUtils.MimeOfExtension, VideoUtils.MimeType, VideoUtils.IsDirectVideoUrl |
| src/components/TraceLetter.js:298-300 | `loadLetters` draws the mount-time letter itself, and the `[normalized, status]` effect (:319-329) draws the current letter again once the status turns ready | mount with `"A"` and a catalog holding A: A starts, then A is queued and plays a second time; after a change to `"B"` during loading, A plays before B | the letter is requested once, when the status turns ready: A plays once, or B alone | medium, not executed | TraceSequencer.LoadLettersAsWritten, TraceSequencer.LoadQueuesInitialLetterTwice, TraceSequencer.LoadAfterPropChange | TraceSequencer.LoadLetters, TraceSequencer.LoadPlaysInitialLetterOnce |
| scripts/generate_lessons.py:226-227 | a bullet line is formatted from the recorded line, not the stripped one, so `lstrip('•')` misses a glyph behind indentation | the section line ` •a:b` gives `^•a:^ b`, with the glyph inside the bold label | the stripped line is formatted, giving `^a:^ b` | medium, not executed | LessonGenerator.ContentLineAsWritten, LessonGenerator.IndentedLabelKeepsGlyph, LessonGenerator.IndentedLabelExample | LessonGenerator.ContentLine, LessonGenerator.ContentLineIgnoresIndent |
