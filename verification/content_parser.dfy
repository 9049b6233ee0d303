/** The lesson markup reader: lesson text is cut into lines, each non-blank line becomes a
    bullet (`*`, `**`, ... then whitespace) or a paragraph, and inside a line every `^`
    toggles bold. */
module ContentParser {
  import opened Options
  import opened Strings

  /** The inline bold toggle. */
  const Highlight: char := '^'

  datatype Segment = Segment(text: string, bold: bool)

  datatype Block =
    | Bullet(level: nat, children: seq<Segment>)
    | Paragraph(children: seq<Segment>)

  // ---------------------------------------------------------------------------------------
  // Inline segments

  /** The segment piece number `index` between toggles makes: none when it is empty, and bold
      exactly when an odd number of toggles precede it. */
  function PieceSegments(piece: string, index: nat): seq<Segment> {
    if piece == [] then [] else [Segment(piece, index % 2 == 1)]
  }

  function SegmentsOfPieces(pieces: seq<string>): seq<Segment>
    decreases |pieces|
  {
    if pieces == [] then []
    else SegmentsOfPieces(pieces[..|pieces| - 1]) + PieceSegments(pieces[|pieces| - 1], |pieces| - 1)
  }

  /** The reference reading of a line: the text between toggles, in order. */
  function InlineSegments(text: string): seq<Segment> {
    SegmentsOfPieces(Split(text, Highlight))
  }

  /** `seg` occurs in `text` at position `p`, and it is bold exactly when an odd number of
      toggles come before that position. */
  predicate SegmentAt(text: string, p: nat, seg: Segment) {
    && p + |seg.text| <= |text| && text[p..p + |seg.text|] == seg.text
    && (seg.bold <==> Count(text[..p], Highlight) % 2 == 1)
  }

  /** After reading the prefix `pre`: the finished segments are those of every piece but the
      last, the buffer holds the last piece, and bold is on after an odd number of toggles. */
  ghost predicate Scanned(pre: string, segments: seq<Segment>, buffer: string, bold: bool) {
    var ps := Split(pre, Highlight);
    && segments == SegmentsOfPieces(ps[..|ps| - 1])
    && buffer == ps[|ps| - 1]
    && (bold <==> (|ps| - 1) % 2 == 1)
  }

  /** Bold is on exactly after an odd number of toggles, and the buffer holds none. */
  lemma {:induction false} ScanParity(pre: string, segments: seq<Segment>, buffer: string, bold: bool)
    requires Scanned(pre, segments, buffer, bold)
    ensures bold <==> Count(pre, Highlight) % 2 == 1
    ensures Highlight !in buffer
  {
    var ps := Split(pre, Highlight);
    assert buffer == ps[|ps| - 1];
  }

  /** A toggle closes the buffer as a segment (when it is not empty) and flips bold. */
  lemma {:induction false} ScanToggle(pre: string, segments: seq<Segment>, buffer: string, bold: bool)
    requires Scanned(pre, segments, buffer, bold)
    ensures buffer != [] ==> Scanned(pre + [Highlight], segments + [Segment(buffer, bold)], [], !bold)
    ensures buffer == [] ==> Scanned(pre + [Highlight], segments, [], !bold)
  {
    var ps := Split(pre, Highlight);
    SplitSnocSep(pre, Highlight);
    var ps' := Split(pre + [Highlight], Highlight);
    LastOfSnoc(ps, []);
    assert ps'[..|ps'| - 1] == ps && ps'[|ps'| - 1] == [];
    SegmentsOfLastPiece(ps);
    ParityFlip(|ps|);
  }

  lemma ParityFlip(n: nat)
    requires n >= 1
    ensures (n - 1) % 2 == 1 <==> n % 2 != 1
  {
  }

  lemma {:induction false} LastOfSnoc(ps: seq<string>, x: string)
    ensures var q := ps + [x]; |q| == |ps| + 1 && q[..|q| - 1] == ps && q[|q| - 1] == x
  {
    var q := ps + [x];
    assert q[..|q| - 1] == ps;
  }

  /** The segments of a list of pieces end with those of its last piece. */
  lemma {:induction false} SegmentsOfLastPiece(ps: seq<string>)
    requires |ps| >= 1
    ensures SegmentsOfPieces(ps) == SegmentsOfPieces(ps[..|ps| - 1]) + PieceSegments(ps[|ps| - 1], |ps| - 1)
  {
  }

  /** Any other character extends the buffer. */
  lemma {:induction false} ScanOther(pre: string, c: char, segments: seq<Segment>, buffer: string, bold: bool)
    requires c != Highlight && Scanned(pre, segments, buffer, bold)
    ensures Scanned(pre + [c], segments, buffer + [c], bold)
  {
    SplitSnocOther(pre, c, Highlight);
  }

  /** The state of the one-pass reading after the prefix `pre`. */
  datatype ScanState = ScanState(segments: seq<Segment>, buffer: string, bold: bool)

  function Scan(pre: string): ScanState
    decreases |pre|
  {
    if pre == [] then ScanState([], [], false)
    else
      var st := Scan(pre[..|pre| - 1]);
      var c := pre[|pre| - 1];
      if c == Highlight then
        if st.buffer != [] then ScanState(st.segments + [Segment(st.buffer, st.bold)], [], !st.bold)
        else ScanState(st.segments, [], !st.bold)
      else ScanState(st.segments, st.buffer + [c], st.bold)
  }

  /** The one-pass reading agrees with the pieces between toggles at every prefix. */
  lemma {:induction false} ScanIsPieces(pre: string)
    ensures Scanned(pre, Scan(pre).segments, Scan(pre).buffer, Scan(pre).bold)
    decreases |pre|
  {
    if pre == [] {
      assert Split(pre, Highlight) == [[]];
    } else {
      var init := pre[..|pre| - 1];
      var c := pre[|pre| - 1];
      assert pre == init + [c];
      ScanIsPieces(init);
      var st := Scan(init);
      if c == Highlight {
        ScanToggle(init, st.segments, st.buffer, st.bold);
      } else {
        ScanOther(init, c, st.segments, st.buffer, st.bold);
      }
    }
  }

  /** Facts about the reading state the positions of segments need. */
  lemma {:induction false} ScanFacts(pre: string)
    ensures Scan(pre).bold <==> Count(pre, Highlight) % 2 == 1
    ensures Highlight !in Scan(pre).buffer
  {
    ScanIsPieces(pre);
    ScanParity(pre, Scan(pre).segments, Scan(pre).buffer, Scan(pre).bold);
  }

  /** At the end of the text, closing the buffer gives the reference segments. */
  lemma {:induction false} ScanDone(text: string)
    ensures Scan(text).buffer != [] ==>
              Scan(text).segments + [Segment(Scan(text).buffer, Scan(text).bold)] == InlineSegments(text)
    ensures Scan(text).buffer == [] ==> Scan(text).segments == InlineSegments(text)
  {
    ScanIsPieces(text);
    var ps := Split(text, Highlight);
    assert ps == ps[..|ps| - 1] + [ps[|ps| - 1]];
  }

  /** The buffer sits right before position `i` and holds no toggle, so a segment made from it
      has as many toggles before it as position `i`. */
  lemma {:induction false} BufferSegmentAt(text: string, i: nat, buffer: string, bold: bool)
    requires i <= |text| && |buffer| <= i && buffer == text[i - |buffer|..i] && Highlight !in buffer
    requires bold <==> Count(text[..i], Highlight) % 2 == 1
    ensures SegmentAt(text, i - |buffer|, Segment(buffer, bold))
  {
    var p := i - |buffer|;
    assert text[..i] == text[..p] + buffer;
    CountAppend(text[..p], buffer, Highlight);
    CountAbsent(buffer, Highlight);
  }

  /** `parseInlineSegments`: one pass over the characters with a text buffer and a bold flag. */
  method ParseInlineSegments(text: string) returns (segments: seq<Segment>)
    ensures segments == InlineSegments(text)
    ensures forall m :: 0 <= m < |segments| ==> segments[m].text != [] && Highlight !in segments[m].text
    ensures forall m :: 0 <= m < |segments| ==> Occurs(text, segments[m])
  {
    segments := [];
    var buffer: string := [];
    var bold := false;
    var i := 0;
    while i < |text|
      invariant 0 <= i <= |text|
      invariant Scan(text[..i]) == ScanState(segments, buffer, bold)
    {
      var ch := text[i];
      assert text[..i + 1][..i] == text[..i];
      if ch == Highlight {
        if |buffer| > 0 {
          segments := segments + [Segment(buffer, bold)];
        }
        buffer := [];
        bold := !bold;
      } else {
        buffer := buffer + [ch];
      }
      i := i + 1;
    }
    assert text[..i] == text;
    ScanDone(text);
    if |buffer| > 0 {
      segments := segments + [Segment(buffer, bold)];
    }
    InlineSegmentsWellFormed(text);
    InlineSegmentPositions(text);
  }

  /** `seg` occurs somewhere in `text`, with the bold flag the toggles before it give. */
  ghost predicate Occurs(text: string, seg: Segment) {
    exists p: nat :: SegmentAt(text, p, seg)
  }

  lemma {:induction false} OccursExtend(text: string, c: char, seg: Segment)
    requires Occurs(text, seg)
    ensures Occurs(text + [c], seg)
  {
    var p: nat :| SegmentAt(text, p, seg);
    var t := text + [c];
    assert t[p..p + |seg.text|] == text[p..p + |seg.text|];
    assert t[..p] == text[..p];
    assert SegmentAt(t, p, seg);
  }

  /** Every finished segment of the reading occurs in the prefix read, and the buffer is the
      end of that prefix. */
  lemma {:induction false} ScanPositions(pre: string)
    ensures forall m :: 0 <= m < |Scan(pre).segments| ==> Occurs(pre, Scan(pre).segments[m])
    ensures |Scan(pre).buffer| <= |pre| && Scan(pre).buffer == pre[|pre| - |Scan(pre).buffer|..]
    decreases |pre|
  {
    if pre != [] {
      var init := pre[..|pre| - 1];
      var c := pre[|pre| - 1];
      assert pre == init + [c];
      ScanPositions(init);
      var st := Scan(init);
      forall m | 0 <= m < |st.segments|
        ensures Occurs(pre, st.segments[m])
      {
        OccursExtend(init, c, st.segments[m]);
      }
      if c == Highlight && st.buffer != [] {
        ScanFacts(init);
        assert pre[..|init|] == init;
        BufferSegmentAt(pre, |init|, st.buffer, st.bold);
        assert Scan(pre).segments == st.segments + [Segment(st.buffer, st.bold)];
      }
    }
  }

  /** Every segment of a line occurs in it, bold exactly when an odd number of toggles come
      before it. */
  lemma {:induction false} InlineSegmentPositions(text: string)
    ensures forall m :: 0 <= m < |InlineSegments(text)| ==> Occurs(text, InlineSegments(text)[m])
  {
    ScanDone(text);
    ScanPositions(text);
    var st := Scan(text);
    if st.buffer != [] {
      ScanFacts(text);
      assert text[..|text|] == text;
      BufferSegmentAt(text, |text|, st.buffer, st.bold);
    }
  }

  /** Every segment is non-empty and free of toggles. */
  lemma {:induction false} InlineSegmentsWellFormed(text: string)
    ensures forall m :: 0 <= m < |InlineSegments(text)| ==>
              InlineSegments(text)[m].text != [] && Highlight !in InlineSegments(text)[m].text
  {
    PiecesWellFormed(Split(text, Highlight));
  }

  lemma {:induction false} PiecesWellFormed(pieces: seq<string>)
    requires forall j :: 0 <= j < |pieces| ==> Highlight !in pieces[j]
    ensures forall m :: 0 <= m < |SegmentsOfPieces(pieces)| ==>
              SegmentsOfPieces(pieces)[m].text != [] && Highlight !in SegmentsOfPieces(pieces)[m].text
    decreases |pieces|
  {
    if pieces != [] {
      PiecesWellFormed(pieces[..|pieces| - 1]);
    }
  }

  /** The texts of the segments, run together. */
  function TextOf(segments: seq<Segment>): string {
    if segments == [] then [] else segments[0].text + TextOf(segments[1..])
  }

  lemma {:induction false} TextOfAppend(a: seq<Segment>, b: seq<Segment>)
    ensures TextOf(a + b) == TextOf(a) + TextOf(b)
  {
    if a == [] {
      assert a + b == b;
    } else {
      assert (a + b)[0] == a[0] && (a + b)[1..] == a[1..] + b;
      assert TextOf(a + b) == a[0].text + TextOf(a[1..] + b);
      TextOfAppend(a[1..], b);
      assert TextOf(a) == a[0].text + TextOf(a[1..]);
      AppendAssoc(a[0].text, TextOf(a[1..]), TextOf(b));
    }
  }

  lemma {:induction false} TextOfPieces(pieces: seq<string>)
    ensures TextOf(SegmentsOfPieces(pieces)) == Concat(pieces)
    decreases |pieces|
  {
    if pieces != [] {
      var n := |pieces|;
      var init := pieces[..n - 1];
      TextOfPieces(init);
      TextOfAppend(SegmentsOfPieces(init), PieceSegments(pieces[n - 1], n - 1));
      ConcatAppend(init, [pieces[n - 1]]);
      assert init + [pieces[n - 1]] == pieces;
    }
  }

  /** Running the segment texts together gives the line with every toggle removed: nothing is
      lost, duplicated or reordered. */
  lemma {:induction false} InlineSegmentsKeepText(text: string)
    ensures TextOf(InlineSegments(text)) == Remove(text, Highlight)
  {
    TextOfPieces(Split(text, Highlight));
    ConcatSplit(text, Highlight);
  }

  // ---------------------------------------------------------------------------------------
  // Lines and blocks

  predicate IsStar(c: char) {
    c == '*'
  }

  /** The bullet pattern on a trimmed line: one or more stars, a run of whitespace, then the
      content up to the end, which may not contain a line terminator (the pattern's `.`).
      The star run and the whitespace run are maximal. */
  function MatchBullet(line: string): (r: Option<(nat, string)>)
    ensures r.Some? ==>
      var (stars, content) := r.value;
      && stars >= 1 && stars + |content| < |line|
      && line[..stars] == Repeat('*', stars)
      && AllSatisfy(line[stars..|line| - |content|], IsJsSpace)
      && content == line[|line| - |content|..]
      && NoLineTerminator(content)
      && (content == [] || !IsJsSpace(content[0]))
    ensures r.None? ==>
      || line == [] || line[0] != '*'
      || (var stars := LeadingRun(line, IsStar); stars == |line| || !IsJsSpace(line[stars]))
      || !NoLineTerminator(TrimStartWith(line[LeadingRun(line, IsStar)..], IsJsSpace))
  {
    var stars := LeadingRun(line, IsStar);
    var rest := line[stars..];
    var gap := LeadingRun(rest, IsJsSpace);
    var content := rest[gap..];
    if stars == 0 || gap == 0 || !NoLineTerminator(content) then None
    else
      assert line[..stars] == Repeat('*', stars) by {
        assert forall i :: 0 <= i < stars ==> line[..stars][i] == line[i] == '*';
      }
      assert line[stars..|line| - |content|] == rest[..gap];
      Some((stars, content))
  }

  /** Stars, whitespace and a content that starts with no whitespace are always read back as
      a bullet of that many stars with that content. */
  lemma {:induction false} MatchBulletOfShape(stars: nat, gap: string, content: string)
    requires stars >= 1 && gap != [] && AllSatisfy(gap, IsJsSpace)
    requires NoLineTerminator(content) && (content == [] || !IsJsSpace(content[0]))
    ensures MatchBullet(Repeat('*', stars) + gap + content) == Some((stars, content))
  {
    var line := Repeat('*', stars) + gap + content;
    LeadingRunStops(line, IsStar, stars);
    assert line[stars..] == gap + content;
    LeadingRunStops(gap + content, IsJsSpace, |gap|);
    assert (gap + content)[|gap|..] == content;
  }

  /** The block a non-blank trimmed line makes. */
  function LineBlock(trimmed: string): (b: Block)
    ensures b.Bullet? ==> b.level >= 1
  {
    match MatchBullet(trimmed)
    case Some((stars, content)) => Bullet(if stars > 1 then stars else 1, InlineSegments(content))
    case None => Paragraph(InlineSegments(trimmed))
  }

  /** The blocks of a list of lines: blank lines (after trimming) make none, every other line
      makes exactly one. */
  function BlocksOfLines(lines: seq<string>): seq<Block> {
    if lines == [] then [] else LineBlocks(lines[0]) + BlocksOfLines(lines[1..])
  }

  /** The blocks of one line: none when it is blank after trimming, else its block. */
  function LineBlocks(line: string): (r: seq<Block>)
    ensures r == [] <==> AllSatisfy(line, IsJsSpace)
  {
    var trimmed := JsTrim(line);
    if trimmed == [] then [] else [LineBlock(trimmed)]
  }

  /** `parseLessonContent`: no text (`undefined`, `null` or empty) gives no blocks. */
  function ParseLessonContent(rawText: Option<string>): (r: seq<Block>)
    ensures rawText.None? || rawText == Some([]) ==> r == []
    ensures rawText.Some? && AllSatisfy(rawText.value, IsJsSpace) ==> r == []
  {
    if rawText.None? || rawText.value == [] then []
    else
      BlanksMakeNoBlocks(rawText.value);
      BlocksOfLines(Split(rawText.value, '\n'))
  }

  lemma {:induction false} BlocksOfLinesAppend(a: seq<string>, b: seq<string>)
    ensures BlocksOfLines(a + b) == BlocksOfLines(a) + BlocksOfLines(b)
  {
    if a == [] {
      assert a + b == b;
    } else {
      var x, rest := a[0], a[1..];
      assert a == [x] + rest;
      assert a + b == [x] + (rest + b);
      BlocksOfLinesAppend(rest, b);
      BlocksOfLinesCons(x, rest);
      BlocksOfLinesCons(x, rest + b);
      AppendAssoc(LineBlocks(x), BlocksOfLines(rest), BlocksOfLines(b));
    }
  }

  lemma {:induction false} BlocksOfLinesCons(x: string, rest: seq<string>)
    ensures BlocksOfLines([x] + rest) == LineBlocks(x) + BlocksOfLines(rest)
  {
    assert ([x] + rest)[0] == x;
    assert ([x] + rest)[1..] == rest;
  }

  /** Text that is whitespace throughout has only blank lines. */
  lemma {:induction false} BlanksMakeNoBlocks(text: string)
    ensures AllSatisfy(text, IsJsSpace) ==> BlocksOfLines(Split(text, '\n')) == []
  {
    if AllSatisfy(text, IsJsSpace) {
      BlankLinesMakeNoBlocks(text);
    }
  }

  lemma {:induction false} BlankLinesMakeNoBlocks(text: string)
    requires AllSatisfy(text, IsJsSpace)
    ensures BlocksOfLines(Split(text, '\n')) == []
  {
    if text != [] {
      var rest := text[1..];
      assert AllSatisfy(rest, IsJsSpace);
      BlankLinesMakeNoBlocks(rest);
      var q := Split(rest, '\n');
      if text[0] == '\n' {
        BlankHeadDropped([[]] + q);
        assert ([[]] + q)[1..] == q;
      } else {
        var first := [text[0]] + q[0];
        AllPiecesBlank(rest, '\n');
        assert AllSatisfy(q[0], IsJsSpace);
        assert AllSatisfy(first, IsJsSpace) by {
          forall i | 0 <= i < |first| ensures IsJsSpace(first[i]) {
            if i > 0 { assert first[i] == q[0][i - 1]; }
          }
        }
        BlankHeadDropped(q);
        BlankHeadDropped([first] + q[1..]);
        assert ([first] + q[1..])[1..] == q[1..];
      }
    }
  }

  /** A blank first line makes no block. */
  lemma {:induction false} BlankHeadDropped(lines: seq<string>)
    requires lines != [] && AllSatisfy(lines[0], IsJsSpace)
    ensures BlocksOfLines(lines) == BlocksOfLines(lines[1..])
  {
    assert LineBlocks(lines[0]) == [];
  }

  /** A piece of a whitespace-only text is itself whitespace only. */
  lemma {:induction false} AllPiecesBlank(text: string, sep: char)
    requires AllSatisfy(text, IsJsSpace)
    ensures forall j :: 0 <= j < |Split(text, sep)| ==> AllSatisfy(Split(text, sep)[j], IsJsSpace)
  {
    if text != [] {
      AllPiecesBlank(text[1..], sep);
    }
  }

  /** Lines are read independently and in order: the blocks of two texts joined by a line
      break are the blocks of the first followed by those of the second. */
  lemma {:induction false} ParseLinesInOrder(a: string, b: string)
    ensures ParseLessonContent(Some(a + "\n" + b)) == ParseLessonContent(Some(a)) + ParseLessonContent(Some(b))
  {
    SplitAround(a, b, '\n');
    BlocksOfLinesAppend(Split(a, '\n'), Split(b, '\n'));
    ParseIsBlocksOfLines(a);
    ParseIsBlocksOfLines(b);
    ParseIsBlocksOfLines(a + "\n" + b);
  }

  /** Empty text has one blank line, so reading the lines of any text agrees with the
      early return for empty text. */
  lemma {:induction false} ParseIsBlocksOfLines(text: string)
    ensures ParseLessonContent(Some(text)) == BlocksOfLines(Split(text, '\n'))
  {
    if text == [] {
      assert Split(text, '\n') == [[]];
      assert BlocksOfLines([[]]) == [] + BlocksOfLines([]);
    }
  }

  /** A single line makes no block when it is blank and exactly one otherwise: a bullet when
      it matches the bullet pattern once trimmed, a paragraph of the trimmed line if not. */
  lemma {:induction false} ParseOneLine(line: string)
    requires '\n' !in line
    ensures ParseLessonContent(Some(line)) ==
              (if JsTrim(line) == [] then [] else [LineBlock(JsTrim(line))])
  {
    ParseIsBlocksOfLines(line);
    NoSeparatorOnePiece(line, '\n');
    assert [line][1..] == [];
    assert BlocksOfLines([line]) == LineBlocks(line) + BlocksOfLines([]);
  }

  lemma {:induction false} NoSeparatorOnePiece(s: string, sep: char)
    requires sep !in s
    ensures Split(s, sep) == [s]
  {
    if s == [] {
    } else {
      assert sep !in s[1..];
      NoSeparatorOnePiece(s[1..], sep);
      assert [s[0]] + s[1..] == s;
    }
  }
}
