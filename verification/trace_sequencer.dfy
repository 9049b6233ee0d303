/** The timer-driven animation of the tracing component as an explicit state record.
    The mutable refs (`isDrawing`, `pendingLetter`, `timer`), the React state (`status`,
    `activeLetter`) and the closures' captured loop positions become fields; every scheduled
    callback becomes a `Callback` value that a `Tick` fires. The single public input is the
    `initialLetter` prop; the catalog load completes once, with success or failure. */
module TraceSequencer {
  import opened Options
  import opened Strings
  import opened TraceCatalog
  import opened TraceGeometry

  /** Delay between two points of a stroke and between two strokes. */
  const StrokeDelay: nat := 90
  const BetweenStrokeDelay: nat := 220
  const LoadErrorMessage: string := "Could not load trace animations."

  /** The callback a pending timer will run: draw the next point of a stroke (or finish the
      stroke when none is left), or start the next stroke. */
  datatype Callback = DrawNext(stroke: nat, point: nat) | NextStroke(stroke: nat)

  datatype Timer = Timer(callback: Callback, delay: nat)

  datatype Status = Loading | Ready | Failed(message: string)

  /** One mounted component. `mountLetter` is the normalised prop at mounting, the value the
      load callback closes over; `prop` is the current one. `strokes` are the strokes of the
      letter in flight (the array the callbacks captured); `canvas` lists what has been drawn
      since the canvas was last cleared; `offset` is the host's trigonometric badge offset. */
  datatype Tracer = Tracer(
    mounted: bool,
    status: Status,
    letters: Catalog,
    mountLetter: Option<string>,
    prop: Option<string>,
    isDrawing: bool,
    pending: Option<string>,
    timer: Option<Timer>,
    active: Option<string>,
    strokes: seq<Stroke>,
    canvas: seq<Op>,
    offset: (Point, Point) -> Point)

  /** The component right after mounting: loading, with the normalised prop. */
  function Mount(initialLetter: JsValue, offset: (Point, Point) -> Point): Tracer {
    var normalized := NormalizeLetterInput(initialLetter);
    Tracer(true, Loading, map[], normalized, normalized, false, None, None, None, [], [], offset)
  }

  function PendingRank(s: Tracer): nat {
    if s.pending.Some? then 1 else 0
  }

  // ---------------------------------------------------------------------------------------
  // The drawing functions of the component, one per closure

  /** `drawLetter`: ignore an empty or unknown letter; while drawing, only remember the letter
      as the pending one; otherwise cancel the timer, clear the canvas and start stroke 0. */
  function DrawLetter(s: Tracer, letter: string): Tracer
    decreases PendingRank(s), 4
  {
    var key := Upper(letter);
    if key == "" || key !in s.letters || |s.letters[key]| == 0 then s
    else if s.isDrawing then s.(pending := Some(key))
    else DrawStrokeSequence(Started(s, key), 0)
  }

  /** The state `drawLetter` sets up before playing stroke 0 of `key`. */
  function Started(s: Tracer, key: string): Tracer
    requires key in s.letters
  {
    s.(timer := None, canvas := [], isDrawing := true, active := Some(key), strokes := s.letters[key])
  }

  /** `drawStrokeSequence`: play stroke `i`, or complete the letter when none is left. */
  function DrawStrokeSequence(s: Tracer, i: nat): Tracer
    decreases PendingRank(s), 3
  {
    if i >= |s.strokes| then DrawingComplete(s) else DrawNextPoint(s, i, 0)
  }

  /** `drawNext` inside `drawStrokePoints`: draw point `k` of stroke `i` and schedule the next
      call, or finish the stroke once every point is drawn. */
  function DrawNextPoint(s: Tracer, i: nat, k: nat): Tracer
    requires i < |s.strokes| && k <= |s.strokes[i]|
    decreases PendingRank(s), 2
  {
    if k >= |s.strokes[i]| then StrokeDone(s.(timer := None), i)
    else s.(canvas := s.canvas + [Dot(s.strokes[i][k], StrokeColour(i))],
            timer := Some(Timer(DrawNext(i, k + 1), StrokeDelay)))
  }

  /** The `onComplete` callback of stroke `i`: badge and arrow, then the pause before the next
      stroke when there is one, otherwise the completion of the letter. */
  function StrokeDone(s: Tracer, i: nat): Tracer
    requires i < |s.strokes|
    decreases PendingRank(s), 1
  {
    var annotated := s.(canvas := s.canvas + Annotations(s.strokes[i], i, s.offset));
    if i + 1 < |s.strokes| then annotated.(timer := Some(Timer(NextStroke(i + 1), BetweenStrokeDelay)))
    else DrawingComplete(annotated)
  }

  /** `handleDrawingComplete`: stop drawing and start the pending letter, if any, after
      clearing it. */
  function DrawingComplete(s: Tracer): Tracer
    decreases PendingRank(s), 0
  {
    var idle := s.(isDrawing := false, timer := None);
    match s.pending
    case None => idle
    case Some(next) => DrawLetter(idle.(pending := None), next)
  }

  // ---------------------------------------------------------------------------------------
  // Events

  /** The scheduled callback refers to a stroke and a point that exist. */
  predicate TimerOk(s: Tracer) {
    s.timer.Some? && s.timer.value.callback.DrawNext? ==>
      s.timer.value.callback.stroke < |s.strokes|
      && s.timer.value.callback.point <= |s.strokes[s.timer.value.callback.stroke]|
  }

  /** The pending timer fires; with no timer nothing happens. */
  function Tick(s: Tracer): Tracer
    requires TimerOk(s)
  {
    match s.timer
    case None => s
    case Some(t) =>
      match t.callback
      case DrawNext(i, k) => DrawNextPoint(s.(timer := None), i, k)
      case NextStroke(i) => DrawStrokeSequence(s.(timer := None), i)
  }

  /** The unmount `cancel`: clear the flags, the pending letter and the timer. */
  function Unmount(s: Tracer): (r: Tracer)
    ensures !r.isDrawing && r.pending.None? && r.timer.None? && !r.mounted
    ensures r.canvas == s.canvas && r.active == s.active
  {
    s.(mounted := false, isDrawing := false, pending := None, timer := None)
  }

  /** The effect keyed on the normalised prop and the status: once ready, draw the requested
      letter when the catalog has it. */
  function PropEffect(s: Tracer): Tracer {
    if s.status != Ready || s.prop.None? || s.prop.value !in s.letters then s
    else DrawLetter(s, s.prop.value)
  }

  /** A new `initialLetter` prop: the effect runs only when the normalised value changes. */
  function Request(s: Tracer, input: JsValue): Tracer {
    if !s.mounted then s
    else
      var normalized := NormalizeLetterInput(input);
      if normalized == s.prop then s else PropEffect(s.(prop := normalized))
  }

  /** `loadLetters` succeeding, as written: it draws the letter of the prop as it was at
      mounting itself, and then the status change from loading to ready runs the prop effect
      with the current prop, which asks for a letter again. */
  function LoadLettersAsWritten(s: Tracer, entries: seq<(string, RawValue)>): Tracer {
    if !s.mounted || s.status != Loading then s
    else
      var loaded := s.(letters := BuildCatalog(entries), status := Ready);
      var drawn := if s.mountLetter.Some? && s.mountLetter.value in loaded.letters
                   then DrawLetter(loaded, s.mountLetter.value) else loaded;
      PropEffect(drawn)
  }

  /** `loadLetters` succeeding, with the letter requested once: the status change alone lets
      the prop effect start the animation. */
  function LoadLetters(s: Tracer, entries: seq<(string, RawValue)>): Tracer {
    if !s.mounted || s.status != Loading then s
    else PropEffect(s.(letters := BuildCatalog(entries), status := Ready))
  }

  /** `loadLetters` failing: the error status and message; nothing is drawn. */
  function LoadFailed(s: Tracer): (r: Tracer)
    ensures s.mounted && s.status == Loading ==> r.status == Failed(LoadErrorMessage)
    ensures r.letters == s.letters && r.isDrawing == s.isDrawing && r.canvas == s.canvas
  {
    if !s.mounted || s.status != Loading then s else s.(status := Failed(LoadErrorMessage))
  }

  datatype Event =
    | RequestLetter(input: JsValue)
    | TimerFired
    | Unmounted
    | Loaded(entries: seq<(string, RawValue)>)
    | LoadError

  // ---------------------------------------------------------------------------------------
  // The invariant

  predicate CatalogOk(letters: Catalog) {
    forall k :: k in letters ==> |letters[k]| > 0
  }

  /** The canvas and the timer agree with the position of the animation in flight: at point
      `k` of stroke `i` the first `i` strokes are complete and `k` points of stroke `i` are
      drawn; before stroke `i` exactly the first `i` strokes are complete. */
  predicate InProgress(s: Tracer)
    requires s.timer.Some?
  {
    match s.timer.value.callback
    case DrawNext(i, k) =>
      && i < |s.strokes| && 1 <= k <= |s.strokes[i]| && s.timer.value.delay == StrokeDelay
      && s.canvas == RenderPrefix(s.strokes, i, s.offset) + Dots(s.strokes[i][..k], StrokeColour(i))
    case NextStroke(i) =>
      && 1 <= i < |s.strokes| && s.timer.value.delay == BetweenStrokeDelay
      && s.canvas == RenderPrefix(s.strokes, i, s.offset)
  }

  ghost predicate Inv(s: Tracer) {
    && CatalogOk(s.letters)
    && (s.isDrawing <==> s.timer.Some?)
    && (s.pending.Some? ==> s.isDrawing && Playable(s.letters, s.pending.value))
    && (!s.mounted ==> !s.isDrawing)
    && (s.status != Ready ==> s.letters == map[] && s.active.None? && !s.isDrawing)
    && (s.isDrawing ==> s.mounted && s.active.Some? && |s.strokes| >= 1 && InProgress(s))
    && (s.mounted && !s.isDrawing ==>
          s.canvas == (if s.active.Some? then Render(s.strokes, s.offset) else []))
  }

  /** A drawing state in the middle of a transition: everything of `Inv` except the timer. */
  ghost predicate Busy(s: Tracer) {
    && CatalogOk(s.letters)
    && s.mounted && s.status == Ready && s.isDrawing && s.active.Some? && |s.strokes| >= 1
    && (s.pending.Some? ==> Playable(s.letters, s.pending.value))
  }

  /** The letter drawn to the end: not drawing, no timer, the whole reference drawing shown. */
  function Idle(s: Tracer): Tracer {
    s.(isDrawing := false, timer := None, canvas := Render(s.strokes, s.offset))
  }

  /** What the last tick of an animation leads to: idle, or the pending letter started. */
  function AfterLast(s: Tracer): Tracer {
    match s.pending
    case None => Idle(s)
    case Some(next) => DrawLetter(Idle(s).(pending := None), next)
  }

  // ---------------------------------------------------------------------------------------
  // Tick counting

  /** Ticks that strokes `j..` take when each starts after a pause: one for the pause's
      callback, one per point (the last of which finishes the stroke). */
  function TailTicks(strokes: seq<Stroke>, j: nat): nat
    decreases |strokes| - j
  {
    if j >= |strokes| then 0 else 1 + |strokes[j]| + TailTicks(strokes, j + 1)
  }

  /** Ticks a whole letter takes: stroke 0 starts without a pause. */
  function TotalTicks(strokes: seq<Stroke>): nat {
    if strokes == [] then 0 else |strokes[0]| + TailTicks(strokes, 1)
  }

  /** Ticks left until the animation in flight completes. */
  function Remaining(s: Tracer): nat
    requires s.timer.Some? && InProgress(s)
  {
    match s.timer.value.callback
    case DrawNext(i, k) => |s.strokes[i]| - k + 1 + TailTicks(s.strokes, i + 1)
    case NextStroke(i) => TailTicks(s.strokes, i)
  }

  /** Everything of a state but the progress of its animation (timer, canvas, drawing flag). */
  datatype Animation = Animation(
    mounted: bool, status: Status, letters: Catalog, mountLetter: Option<string>,
    prop: Option<string>, pending: Option<string>, active: Option<string>, strokes: seq<Stroke>,
    offset: (Point, Point) -> Point)

  function AnimationOf(s: Tracer): Animation {
    Animation(s.mounted, s.status, s.letters, s.mountLetter, s.prop, s.pending, s.active, s.strokes, s.offset)
  }

  /** The two states describe the same animation. */
  ghost predicate SameAnimation(a: Tracer, b: Tracer) {
    AnimationOf(a) == AnimationOf(b)
  }

  // ---------------------------------------------------------------------------------------
  // Transition lemmas

  lemma {:induction false} DotsExtend(points: Stroke, k: nat, colour: string)
    requires k < |points|
    ensures Dots(points[..k + 1], colour) == Dots(points[..k], colour) + [Dot(points[k], colour)]
  {
  }

  /** The completion of the letter: idle with the full drawing, or the pending letter started. */
  lemma {:induction false} DrawingCompleteOk(s: Tracer)
    requires Busy(s) && s.canvas == Render(s.strokes, s.offset)
    ensures Inv(DrawingComplete(s))
    ensures DrawingComplete(s) == AfterLast(s)
    decreases PendingRank(s), 0
  {
    var idle := s.(isDrawing := false, timer := None);
    assert idle == Idle(s);
    if s.pending.Some? {
      StartOk(idle.(pending := None), s.pending.value);
    }
  }

  /** The end of stroke `i`: its annotations, then the pause or the completion. */
  lemma {:induction false} StrokeDoneOk(s: Tracer, i: nat)
    requires Busy(s) && i < |s.strokes|
    requires s.canvas == RenderPrefix(s.strokes, i, s.offset) + Dots(s.strokes[i], StrokeColour(i))
    ensures Inv(StrokeDone(s, i))
    ensures i + 1 < |s.strokes| ==>
              StrokeDone(s, i) == s.(canvas := RenderPrefix(s.strokes, i + 1, s.offset),
                                     timer := Some(Timer(NextStroke(i + 1), BetweenStrokeDelay)))
    ensures i + 1 == |s.strokes| ==> StrokeDone(s, i) == AfterLast(s)
    decreases PendingRank(s), 1
  {
    var annotated := s.(canvas := s.canvas + Annotations(s.strokes[i], i, s.offset));
    AnnotationsCompleteStroke(s.strokes, i, s.offset);
    if i + 1 == |s.strokes| {
      DrawingCompleteOk(annotated);
      assert Idle(annotated) == Idle(s);
    } else {
      PauseOk(s, i);
    }
  }

  /** The dots of stroke `i` followed by its annotations complete the stroke's drawing. */
  lemma {:induction false} AnnotationsCompleteStroke(strokes: seq<Stroke>, i: nat, offset: (Point, Point) -> Point)
    requires i < |strokes|
    ensures RenderPrefix(strokes, i, offset) + Dots(strokes[i], StrokeColour(i)) + Annotations(strokes[i], i, offset)
            == RenderPrefix(strokes, i + 1, offset)
  {
    AppendAssoc(RenderPrefix(strokes, i, offset), Dots(strokes[i], StrokeColour(i)), Annotations(strokes[i], i, offset));
  }

  /** The pause after a stroke that is not the last keeps the invariant. */
  lemma {:induction false} PauseOk(s: Tracer, i: nat)
    requires Busy(s) && i + 1 < |s.strokes|
    ensures Inv(s.(canvas := RenderPrefix(s.strokes, i + 1, s.offset),
                   timer := Some(Timer(NextStroke(i + 1), BetweenStrokeDelay))))
  {
  }

  /** Starting a letter from an idle state: the animation of `key` is in flight (or already
      complete when it is a single empty stroke), with `Remaining` equal to the letter's
      total tick count. */
  lemma {:induction false} StartOk(s: Tracer, key: string)
    requires CatalogOk(s.letters) && s.mounted && s.status == Ready && !s.isDrawing && s.pending.None?
    requires Playable(s.letters, key)
    ensures Inv(DrawLetter(s, key))
    ensures var r := DrawLetter(s, key);
      && SameAnimation(r, Started(s, key))
      && (r.isDrawing ==> Remaining(r) == TotalTicks(s.letters[key]))
      && (!r.isDrawing ==> r == Idle(Started(s, key)) && TotalTicks(s.letters[key]) == 0)
    decreases PendingRank(s), 2
  {
    var t := Started(s, key);
    assert Busy(t);
    assert DrawLetter(s, key) == DrawStrokeSequence(t, 0) == DrawNextPoint(t, 0, 0);
    var first := t.strokes[0];
    if |first| > 0 {
      assert Dots(first[..1], StrokeColour(0)) == [Dot(first[0], StrokeColour(0))];
    } else {
      assert first[..0] == first;
      StrokeDoneOk(t.(timer := None), 0);
      assert TailTicks(t.strokes, 1) == (if 1 < |t.strokes| then 1 + |t.strokes[1]| + TailTicks(t.strokes, 2) else 0);
    }
  }

  /** What a tick of a drawing state must achieve: the invariant, one step of the same
      animation while more than one tick is left, the completion on the last one. */
  ghost predicate TickSpec(s: Tracer, t: Tracer)
    requires Inv(s) && s.isDrawing
  {
    && Inv(t)
    && (Remaining(s) > 1 ==>
          t.isDrawing && SameAnimation(t, s) && Remaining(t) == Remaining(s) - 1 && s.canvas <= t.canvas)
    && (Remaining(s) == 1 ==> t == AfterLast(s))
  }

  /** A tick that draws the next point of the current stroke. */
  lemma {:induction false} TickPoint(s: Tracer, i: nat, k: nat)
    requires Inv(s) && s.isDrawing && s.timer.value.callback == DrawNext(i, k) && k < |s.strokes[i]|
    ensures TickSpec(s, Tick(s))
  {
    PointDrawn(s, i, k);
    PointAdvances(s, i, k);
  }

  /** Drawing point `k` of stroke `i` is one step of the animation. */
  lemma {:induction false} PointAdvances(s: Tracer, i: nat, k: nat)
    requires Inv(s) && s.isDrawing && s.timer.value.callback == DrawNext(i, k) && k < |s.strokes[i]|
    ensures TickSpec(s, s.(canvas := s.canvas + [Dot(s.strokes[i][k], StrokeColour(i))],
                           timer := Some(Timer(DrawNext(i, k + 1), StrokeDelay))))
  {
    var t := s.(canvas := s.canvas + [Dot(s.strokes[i][k], StrokeColour(i))],
                timer := Some(Timer(DrawNext(i, k + 1), StrokeDelay)));
    PointOk(s, i, k);
    assert Remaining(s) == Remaining(t) + 1;
    StepAdvances(s, t);
  }

  /** A successor state of the same animation, with one tick fewer left and more drawn, is
      one step of the animation. */
  lemma {:induction false} StepAdvances(s: Tracer, t: Tracer)
    requires Inv(s) && s.isDrawing && Inv(t) && t.isDrawing && SameAnimation(t, s)
    requires Remaining(s) == Remaining(t) + 1 && s.canvas <= t.canvas
    ensures TickSpec(s, t)
  {
    DrawingHasTicksLeft(t);
  }

  /** Drawing point `k` of stroke `i` keeps the invariant. */
  lemma {:induction false} PointOk(s: Tracer, i: nat, k: nat)
    requires Inv(s) && s.isDrawing && s.timer.value.callback == DrawNext(i, k) && k < |s.strokes[i]|
    ensures Inv(s.(canvas := s.canvas + [Dot(s.strokes[i][k], StrokeColour(i))],
                   timer := Some(Timer(DrawNext(i, k + 1), StrokeDelay))))
  {
    var points := s.strokes[i];
    var dot := Dot(points[k], StrokeColour(i));
    DotsExtend(points, k, StrokeColour(i));
    AppendAssoc(RenderPrefix(s.strokes, i, s.offset), Dots(points[..k], StrokeColour(i)), [dot]);
  }

  /** The tick adds the point's dot and schedules the point after it. */
  lemma {:induction false} PointDrawn(s: Tracer, i: nat, k: nat)
    requires TimerOk(s) && s.timer.Some? && s.timer.value.callback == DrawNext(i, k) && i < |s.strokes| && k < |s.strokes[i]|
    ensures Tick(s) == s.(canvas := s.canvas + [Dot(s.strokes[i][k], StrokeColour(i))],
                          timer := Some(Timer(DrawNext(i, k + 1), StrokeDelay)))
  {
  }

  /** A tick after the last point of a stroke: the stroke is finished. */
  lemma {:induction false} TickStrokeEnd(s: Tracer, i: nat)
    requires Inv(s) && s.isDrawing && i < |s.strokes| && s.timer.value.callback == DrawNext(i, |s.strokes[i]|)
    ensures TickSpec(s, Tick(s))
  {
    LastPointDrawn(s, i);
    FinishingTick(s, i);
    StrokeFinishes(s, i);
  }

  /** With the timer after the last point of stroke `i`, all of its dots are drawn and one
      tick is left for it. */
  lemma {:induction false} LastPointDrawn(s: Tracer, i: nat)
    requires Inv(s) && s.isDrawing && i < |s.strokes| && s.timer.value.callback == DrawNext(i, |s.strokes[i]|)
    ensures s.canvas == RenderPrefix(s.strokes, i, s.offset) + Dots(s.strokes[i], StrokeColour(i))
    ensures Remaining(s) == 1 + TailTicks(s.strokes, i + 1)
  {
    var points := s.strokes[i];
    assert points[..|points|] == points;
  }

  /** The tick that finishes stroke `i`, after its last point or after the pause before it
      when it has none, runs the stroke's completion callback. */
  lemma {:induction false} FinishingTick(s: Tracer, i: nat)
    requires TimerOk(s) && s.timer.Some? && i < |s.strokes|
    requires s.timer.value.callback == DrawNext(i, |s.strokes[i]|)
             || (s.timer.value.callback == NextStroke(i) && |s.strokes[i]| == 0)
    ensures Tick(s) == StrokeDone(s.(timer := None), i)
  {
    var u := s.(timer := None);
    if s.timer.value.callback.NextStroke? {
      assert Tick(s) == DrawStrokeSequence(u, i) == DrawNextPoint(u, i, 0);
    }
  }

  /** Finishing stroke `i` with its dots complete and one tick left for it. */
  lemma {:induction false} StrokeFinishes(s: Tracer, i: nat)
    requires Inv(s) && s.isDrawing && i < |s.strokes|
    requires s.canvas == RenderPrefix(s.strokes, i, s.offset) + Dots(s.strokes[i], StrokeColour(i))
    requires Remaining(s) == 1 + TailTicks(s.strokes, i + 1)
    ensures TickSpec(s, StrokeDone(s.(timer := None), i))
  {
    var u := s.(timer := None);
    assert Busy(u);
    StrokeDoneOk(u, i);
    if i + 1 < |s.strokes| {
      PauseAdvances(s, i);
    } else {
      AfterLastOfSame(u, s);
    }
  }

  /** The pause after a stroke that is not the last is one step of the animation. */
  lemma {:induction false} PauseAdvances(s: Tracer, i: nat)
    requires Inv(s) && s.isDrawing && i + 1 < |s.strokes|
    requires s.canvas == RenderPrefix(s.strokes, i, s.offset) + Dots(s.strokes[i], StrokeColour(i))
    requires Remaining(s) == 1 + TailTicks(s.strokes, i + 1)
    ensures TickSpec(s, s.(canvas := RenderPrefix(s.strokes, i + 1, s.offset),
                           timer := Some(Timer(NextStroke(i + 1), BetweenStrokeDelay))))
  {
    assert Busy(s);
    PauseOk(s, i);
    AnnotationsCompleteStroke(s.strokes, i, s.offset);
    assert s.canvas <= s.canvas + Annotations(s.strokes[i], i, s.offset);
    assert TailTicks(s.strokes, i + 1) == 1 + |s.strokes[i + 1]| + TailTicks(s.strokes, i + 2);
  }

  /** A tick after the pause: the first point of the next stroke. */
  lemma {:induction false} TickStrokeStart(s: Tracer, i: nat)
    requires Inv(s) && s.isDrawing && s.timer.value.callback == NextStroke(i) && |s.strokes[i]| > 0
    ensures TickSpec(s, Tick(s))
  {
    FirstPointDrawn(s, i);
    FirstPointAdvances(s, i);
  }

  /** The tick after the pause draws the first point of the stroke. */
  lemma {:induction false} FirstPointDrawn(s: Tracer, i: nat)
    requires TimerOk(s) && s.timer.Some? && s.timer.value.callback == NextStroke(i)
    requires i < |s.strokes| && |s.strokes[i]| > 0
    ensures Tick(s) == s.(canvas := s.canvas + [Dot(s.strokes[i][0], StrokeColour(i))],
                          timer := Some(Timer(DrawNext(i, 1), StrokeDelay)))
  {
    var u := s.(timer := None);
    assert Tick(s) == DrawStrokeSequence(u, i) == DrawNextPoint(u, i, 0);
  }

  /** Drawing the first point of a stroke after the pause is one step of the animation. */
  lemma {:induction false} FirstPointAdvances(s: Tracer, i: nat)
    requires Inv(s) && s.isDrawing && s.timer.value.callback == NextStroke(i) && |s.strokes[i]| > 0
    ensures TickSpec(s, s.(canvas := s.canvas + [Dot(s.strokes[i][0], StrokeColour(i))],
                           timer := Some(Timer(DrawNext(i, 1), StrokeDelay))))
  {
    var points := s.strokes[i];
    var t := s.(canvas := s.canvas + [Dot(points[0], StrokeColour(i))],
                timer := Some(Timer(DrawNext(i, 1), StrokeDelay)));
    FirstPointOk(s, i);
    assert TailTicks(s.strokes, i) == 1 + |points| + TailTicks(s.strokes, i + 1);
    assert Remaining(s) == Remaining(t) + 1;
    StepAdvances(s, t);
  }

  /** Drawing the first point of a stroke after the pause keeps the invariant. */
  lemma {:induction false} FirstPointOk(s: Tracer, i: nat)
    requires Inv(s) && s.isDrawing && s.timer.value.callback == NextStroke(i) && |s.strokes[i]| > 0
    ensures Inv(s.(canvas := s.canvas + [Dot(s.strokes[i][0], StrokeColour(i))],
                   timer := Some(Timer(DrawNext(i, 1), StrokeDelay))))
  {
    var points := s.strokes[i];
    assert Dots(points[..1], StrokeColour(i)) == [Dot(points[0], StrokeColour(i))];
  }

  /** A tick after the pause before an empty stroke: the stroke finishes at once. */
  lemma {:induction false} TickStrokeEmpty(s: Tracer, i: nat)
    requires Inv(s) && s.isDrawing && s.timer.value.callback == NextStroke(i) && |s.strokes[i]| == 0
    ensures TickSpec(s, Tick(s))
  {
    assert Dots(s.strokes[i], StrokeColour(i)) == [];
    assert TailTicks(s.strokes, i) == 1 + TailTicks(s.strokes, i + 1);
    FinishingTick(s, i);
    StrokeFinishes(s, i);
  }

  /** One tick keeps the invariant. While more than one tick is left it advances the same
      animation by exactly one step; the last tick completes it. */
  lemma {:induction false} TickOk(s: Tracer)
    requires Inv(s)
    ensures Inv(Tick(s))
    ensures s.isDrawing ==> TickSpec(s, Tick(s))
    ensures !s.isDrawing ==> Tick(s) == s
  {
    if s.isDrawing {
      match s.timer.value.callback
      case DrawNext(i, k) =>
        if k < |s.strokes[i]| { TickPoint(s, i, k); } else { TickStrokeEnd(s, i); }
      case NextStroke(i) =>
        if |s.strokes[i]| > 0 { TickStrokeStart(s, i); } else { TickStrokeEmpty(s, i); }
    }
  }

  /** `n` ticks in a row (stopping early at a timer that refers to nothing, which the
      invariant rules out). */
  function Run(s: Tracer, n: nat): Tracer
    decreases n
  {
    if n == 0 || !TimerOk(s) then s else Run(Tick(s), n - 1)
  }

  lemma {:induction false} RunKeepsInv(s: Tracer, n: nat)
    requires Inv(s)
    ensures Inv(Run(s, n))
    decreases n
  {
    if n > 0 {
      TickOk(s);
      RunKeepsInv(Tick(s), n - 1);
    }
  }

  /** Ticks left of an animation in flight; none for a state that is not drawing or breaks
      the invariant. */
  ghost function TicksLeft(s: Tracer): nat {
    if Inv(s) && s.isDrawing then Remaining(s) else 0
  }

  /** A drawing state has at least one tick left. */
  lemma {:induction false} DrawingHasTicksLeft(s: Tracer)
    requires Inv(s) && s.isDrawing
    ensures TicksLeft(s) == Remaining(s) >= 1
  {
    if s.timer.value.callback.NextStroke? {
      var i := s.timer.value.callback.stroke;
      assert TailTicks(s.strokes, i) == 1 + |s.strokes[i]| + TailTicks(s.strokes, i + 1);
    }
  }

  /** A state with ticks left is drawing, within the invariant. */
  lemma {:induction false} TicksLeftIsDrawing(s: Tracer)
    requires TicksLeft(s) >= 1
    ensures Inv(s) && s.isDrawing && TimerOk(s) && Remaining(s) == TicksLeft(s)
  {
  }

  /** The animation a state is playing, if it is drawing. */
  function Playing(s: Tracer): Option<Animation> {
    if s.isDrawing then Some(AnimationOf(s)) else None
  }

  /** Before its last tick the animation keeps playing: `rest` ticks are left after the
      first `n`. */
  lemma {:induction false} RunBeforeEnd(s: Tracer, n: nat, rest: nat)
    requires TicksLeft(s) == n + rest && rest > 0
    ensures Playing(Run(s, n)) == Some(AnimationOf(s))
    decreases n, 1
  {
    if n == 0 {
      TicksLeftIsDrawing(s);
    } else {
      RunBeforeEndAfterFirst(s, n, rest);
    }
  }

  /** The first of several ticks, then the others before the last. */
  lemma {:induction false} RunBeforeEndAfterFirst(s: Tracer, n: nat, rest: nat)
    requires TicksLeft(s) == n + rest && n > 0 && rest > 0
    ensures Playing(Run(s, n)) == Some(AnimationOf(s))
    decreases n, 0
  {
    FirstOfTicks(s, n, rest);
    RunBeforeEnd(Tick(s), n - 1, rest);
  }

  /** The first of `n` ticks, before the last one: one tick fewer left of the same
      animation, the other `n - 1` ticks ahead. */
  lemma {:induction false} FirstOfTicks(s: Tracer, n: nat, rest: nat)
    requires TicksLeft(s) == n + rest && n > 0 && rest > 0
    ensures TimerOk(s) && TicksLeft(Tick(s)) == (n - 1) + rest
    ensures Playing(Run(s, n)) == Playing(Run(Tick(s), n - 1))
    ensures Some(AnimationOf(Tick(s))) == Some(AnimationOf(s))
  {
    TickAdvances(s);
    RunStep(s, n);
  }

  /** The first of `n` ticks, then the other `n - 1`. */
  lemma {:induction false} RunStep(s: Tracer, n: nat)
    requires TimerOk(s) && n > 0
    ensures Run(s, n) == Run(Tick(s), n - 1)
  {
  }

  /** A tick with more than one tick left advances the same animation by one step. */
  lemma {:induction false} TickAdvances(s: Tracer)
    requires TicksLeft(s) > 1
    ensures TimerOk(s) && TicksLeft(Tick(s)) == TicksLeft(s) - 1 && SameAnimation(Tick(s), s)
  {
    TicksLeftIsDrawing(s);
    TickOk(s);
    DrawingHasTicksLeft(Tick(s));
  }

  /** After exactly the ticks left the animation is complete: the letter's whole reference
      drawing is on the canvas, and the pending letter, if any, has been started. */
  lemma {:induction false} RunToEnd(s: Tracer, n: nat)
    requires n >= 1 && TicksLeft(s) == n
    ensures Run(s, n) == AfterLast(s)
    decreases n, 1
  {
    if n == 1 {
      LastTick(s);
    } else {
      RunToEndAfterFirst(s, n);
    }
  }

  /** The first of several ticks, then the rest of the animation. */
  lemma {:induction false} RunToEndAfterFirst(s: Tracer, n: nat)
    requires n > 1 && TicksLeft(s) == n
    ensures Run(s, n) == AfterLast(s)
    decreases n, 0
  {
    TowardsEnd(s, n);
    RunToEnd(Tick(s), n - 1);
  }

  /** The first of several ticks left: one tick fewer, the same completion ahead. */
  lemma {:induction false} TowardsEnd(s: Tracer, n: nat)
    requires n > 1 && TicksLeft(s) == n
    ensures TimerOk(s) && TicksLeft(Tick(s)) == n - 1
    ensures Run(s, n) == Run(Tick(s), n - 1) && AfterLast(Tick(s)) == AfterLast(s)
  {
    TickAdvances(s);
    RunStep(s, n);
    AfterLastOfSame(s, Tick(s));
  }

  /** The last tick completes the animation. */
  lemma {:induction false} LastTick(s: Tracer)
    requires TicksLeft(s) == 1
    ensures Run(s, 1) == AfterLast(s)
  {
    TicksLeftIsDrawing(s);
    TickOk(s);
    RunStep(s, 1);
  }

  /** The completion depends only on the animation, not on how far it has got. */
  lemma {:induction false} AfterLastOfSame(s: Tracer, t: Tracer)
    requires SameAnimation(t, s)
    ensures AfterLast(t) == AfterLast(s)
  {
    assert Idle(t) == Idle(s);
  }

  /** Requesting a letter from an idle component plays it through: after the letter's total
      number of ticks the canvas holds its whole drawing, badges in strictly increasing order,
      and nothing is scheduled; before that it is still drawing. */
  lemma {:induction false} PlayLetter(s: Tracer, key: string)
    requires Inv(s) && s.mounted && s.status == Ready && !s.isDrawing && Playable(s.letters, key)
    ensures Inv(DrawLetter(s, key))
    ensures var done := Run(DrawLetter(s, key), TotalTicks(s.letters[key]));
      && done == Idle(Started(s, key))
      && !done.isDrawing && done.timer.None? && done.pending.None? && done.active == Some(key)
      && done.canvas == Render(s.letters[key], s.offset)
      && StrictlyIncreasing(BadgeNumbers(done.canvas))
    ensures forall n :: 0 <= n < TotalTicks(s.letters[key]) ==> Run(DrawLetter(s, key), n).isDrawing
  {
    StartOk(s, key);
    var r := DrawLetter(s, key);
    if r.isDrawing {
      DrawingHasTicksLeft(r);
      RunToEnd(r, Remaining(r));
      assert Idle(r) == Idle(Started(s, key));
      forall n | 0 <= n < TotalTicks(s.letters[key])
        ensures Run(r, n).isDrawing
      {
        RunBeforeEnd(r, n, Remaining(r) - n);
      }
    }
    RenderBadgesOrdered(s.letters[key], s.offset);
  }

  // ---------------------------------------------------------------------------------------
  // Requests

  /** `drawLetter` of an unknown or empty letter changes nothing: no clear, no timer. */
  lemma {:induction false} DrawUnknownIsNoOp(s: Tracer, letter: string)
    requires Upper(letter) == "" || Upper(letter) !in s.letters
    ensures DrawLetter(s, letter) == s
  {
  }

  /** While drawing, `drawLetter` of a known letter only overwrites the pending letter. */
  lemma {:induction false} DrawWhileDrawing(s: Tracer, letter: string)
    requires Inv(s) && s.isDrawing && Upper(letter) != "" && Upper(letter) in s.letters
    ensures DrawLetter(s, letter) == s.(pending := Some(Upper(letter)))
  {
  }

  /** Calls of `drawLetter` made while drawing. */
  function DrawAll(s: Tracer, letters: seq<string>): Tracer
    decreases |letters|
  {
    if letters == [] then s else DrawAll(DrawLetter(s, letters[0]), letters[1..])
  }

  /** The pending letter after calls of `drawLetter` during an animation: each letter the
      catalog has replaces it, upper-cased; the others are ignored. */
  function LastDrawable(pending: Option<string>, letters: Catalog, requested: seq<string>): Option<string>
    decreases |requested|
  {
    if requested == [] then pending
    else
      var key := Upper(requested[0]);
      LastDrawable(if key != "" && key in letters then Some(key) else pending, letters, requested[1..])
  }

  /** A burst of `drawLetter` calls during an animation changes only the pending letter, which
      ends up the last known letter of the burst; the animation in flight is untouched. */
  lemma {:induction false} DrawBurst(s: Tracer, letters: seq<string>)
    requires Inv(s) && s.isDrawing
    ensures DrawAll(s, letters) == s.(pending := LastDrawable(s.pending, s.letters, letters))
    ensures Inv(DrawAll(s, letters))
    decreases |letters|
  {
    if letters != [] {
      var key := Upper(letters[0]);
      var t := DrawLetter(s, letters[0]);
      if key != "" && key in s.letters {
        DrawWhileDrawing(s, letters[0]);
        UpperIdempotent(letters[0]);
      } else {
        DrawUnknownIsNoOp(s, letters[0]);
      }
      assert t == s.(pending := if key != "" && key in s.letters then Some(key) else s.pending);
      DrawBurst(t, letters[1..]);
    }
  }

  /** The last letter of a burst wins when the catalog has it. */
  lemma {:induction false} LastDrawableIsLast(pending: Option<string>, letters: Catalog, requested: seq<string>)
    requires requested != []
    ensures var key := Upper(requested[|requested| - 1]);
      key != "" && key in letters ==> LastDrawable(pending, letters, requested) == Some(key)
    decreases |requested|
  {
    var key := Upper(requested[0]);
    var next := if key != "" && key in letters then Some(key) else pending;
    if |requested| > 1 {
      LastDrawableIsLast(next, letters, requested[1..]);
      assert requested[1..][|requested[1..]| - 1] == requested[|requested| - 1];
    }
  }

  /** A letter the catalog lacks leaves the pending letter as it was. */
  lemma {:induction false} LastDrawableUnknown(pending: Option<string>, letters: Catalog, requested: seq<string>)
    requires forall i :: 0 <= i < |requested| ==> Upper(requested[i]) == "" || Upper(requested[i]) !in letters
    ensures LastDrawable(pending, letters, requested) == pending
    decreases |requested|
  {
    if requested != [] {
      LastDrawableUnknown(pending, letters, requested[1..]);
    }
  }

  /** The pending letter is the requested one whenever the requested one is known. */
  ghost predicate Settled(s: Tracer) {
    s.prop.Some? && s.prop.value in s.letters ==> s.pending == s.prop
  }

  /** A prop change during an animation touches only the prop and the pending letter: a new
      known letter becomes pending, anything else leaves the pending letter alone. */
  lemma {:induction false} RequestWhileDrawing(s: Tracer, input: JsValue)
    requires Inv(s) && s.isDrawing
    ensures var r := Request(s, input);
      && Inv(r) && r.isDrawing && SameAnimation(r.(prop := s.prop, pending := s.pending), s)
      && r.timer == s.timer && r.canvas == s.canvas
      && r.prop == NormalizeLetterInput(input)
      && (r.prop != s.prop ==> Settled(r))
      && r.pending == NextPending(s.pending, s.prop, s.letters, r.prop)
  {
    var n := NormalizeLetterInput(input);
    var r := Request(s, input);
    if n == s.prop {
      assert r == s;
    } else if n.Some? && n.value in s.letters {
      UpperIdempotent(JsTrim(input.s));
      assert Upper(n.value) == n.value;
      assert r == DrawLetter(s.(prop := n), n.value);
      DrawWhileDrawing(s.(prop := n), n.value);
      assert r == s.(prop := n, pending := n);
    } else {
      assert r == s.(prop := n);
    }
  }

  function RequestAll(s: Tracer, inputs: seq<JsValue>): Tracer
    decreases |inputs|
  {
    if inputs == [] then s else RequestAll(Request(s, inputs[0]), inputs[1..])
  }

  /** The pending letter once the prop changes from `prop` to `next` during an animation: a
      new value that names a known letter replaces it. */
  function NextPending(pending: Option<string>, prop: Option<string>, letters: Catalog, next: Option<string>): Option<string> {
    if next != prop && next.Some? && next.value in letters then next else pending
  }

  /** The pending letter after a burst of prop values during an animation. */
  function LastKnown(pending: Option<string>, prop: Option<string>, letters: Catalog, inputs: seq<JsValue>): Option<string>
    decreases |inputs|
  {
    if inputs == [] then pending
    else
      var next := NormalizeLetterInput(inputs[0]);
      LastKnown(NextPending(pending, prop, letters, next), next, letters, inputs[1..])
  }

  /** Last request wins: after any burst of prop changes during an animation the prop is the
      last value, the pending letter is the one the changes leave (the last changed value that
      names a known letter, or the old pending letter when there is none), and the animation
      in flight is untouched. */
  lemma {:induction false} RequestBurst(s: Tracer, inputs: seq<JsValue>)
    requires Inv(s) && s.isDrawing
    ensures var r := RequestAll(s, inputs);
      && Inv(r) && r.isDrawing && r.timer == s.timer && r.canvas == s.canvas
      && r.active == s.active && r.strokes == s.strokes
      && r.pending == LastKnown(s.pending, s.prop, s.letters, inputs)
      && (inputs != [] ==> r.prop == NormalizeLetterInput(inputs[|inputs| - 1]))
      && (inputs == [] ==> r.prop == s.prop)
      && (r.prop != s.prop ==> Settled(r))
      && (Settled(s) ==> Settled(r))
    decreases |inputs|
  {
    if inputs != [] {
      var t := Request(s, inputs[0]);
      RequestWhileDrawing(s, inputs[0]);
      RequestBurst(t, inputs[1..]);
      if |inputs| > 1 {
        assert inputs[1..][|inputs[1..]| - 1] == inputs[|inputs| - 1];
      }
    }
  }

  /** A burst whose last value changes the prop to a known letter leaves that letter pending,
      whatever came before it. */
  lemma {:induction false} LastKnownIsLast(pending: Option<string>, prop: Option<string>, letters: Catalog, inputs: seq<JsValue>)
    requires inputs != []
    ensures var last := NormalizeLetterInput(inputs[|inputs| - 1]);
      var before := if |inputs| == 1 then prop else NormalizeLetterInput(inputs[|inputs| - 2]);
      last != before && last.Some? && last.value in letters ==> LastKnown(pending, prop, letters, inputs) == last
    decreases |inputs|
  {
    if |inputs| > 1 {
      var next := NormalizeLetterInput(inputs[0]);
      var rest := inputs[1..];
      LastKnownIsLast(NextPending(pending, prop, letters, next), next, letters, rest);
      TailEnds(inputs, rest);
    }
  }

  /** The tail of a sequence ends the way the sequence does. */
  lemma {:induction false} TailEnds<T>(xs: seq<T>, rest: seq<T>)
    requires |xs| > 1 && rest == xs[1..]
    ensures rest[|rest| - 1] == xs[|xs| - 1]
    ensures |rest| > 1 ==> rest[|rest| - 2] == xs[|xs| - 2]
    ensures |rest| == 1 ==> rest[0] == xs[|xs| - 1] && xs[0] == xs[|xs| - 2]
  {
  }

  /** Before the catalog is ready a request only records the normalised prop. */
  lemma {:induction false} RequestWhileLoading(s: Tracer, input: JsValue)
    requires Inv(s) && s.status != Ready
    ensures Request(s, input) == (if s.mounted then s.(prop := NormalizeLetterInput(input)) else s)
  {
  }

  // ---------------------------------------------------------------------------------------
  // Loading, unmounting, and every event

  lemma {:induction false} PropEffectOk(s: Tracer)
    requires Inv(s) && s.mounted
    ensures Inv(PropEffect(s)) && PropEffect(s).mounted
    ensures PropEffect(s).letters == s.letters && PropEffect(s).status == s.status
  {
    if s.status == Ready && s.prop.Some? && s.prop.value in s.letters {
      var key := s.prop.value;
      if Upper(key) in s.letters && Upper(key) != "" {
        UpperIdempotent(key);
        if !s.isDrawing {
          StartOk(s, Upper(key));
        }
      }
    }
  }

  lemma {:induction false} LoadLettersOk(s: Tracer, entries: seq<(string, RawValue)>)
    requires Inv(s)
    ensures Inv(LoadLetters(s, entries))
  {
    if s.mounted && s.status == Loading {
      BuildCatalogNonEmpty(entries);
      PropEffectOk(s.(letters := BuildCatalog(entries), status := Ready));
    }
  }

  lemma {:induction false} LoadLettersAsWrittenOk(s: Tracer, entries: seq<(string, RawValue)>)
    requires Inv(s)
    ensures Inv(LoadLettersAsWritten(s, entries))
  {
    if s.mounted && s.status == Loading {
      BuildCatalogNonEmpty(entries);
      var loaded := s.(letters := BuildCatalog(entries), status := Ready);
      if s.mountLetter.Some? && s.mountLetter.value in loaded.letters {
        DrawLetterOk(loaded, s.mountLetter.value);
        PropEffectOk(DrawLetter(loaded, s.mountLetter.value));
      } else {
        PropEffectOk(loaded);
      }
    }
  }

  /** Once the catalog is ready, `drawLetter` of any letter keeps the invariant. */
  lemma {:induction false} DrawLetterOk(s: Tracer, letter: string)
    requires Inv(s) && s.mounted && s.status == Ready
    ensures Inv(DrawLetter(s, letter)) && DrawLetter(s, letter).mounted
    ensures DrawLetter(s, letter).letters == s.letters && DrawLetter(s, letter).status == s.status
  {
    var key := Upper(letter);
    if key != "" && key in s.letters {
      UpperIdempotent(letter);
      if s.isDrawing {
        DrawWhileDrawing(s, letter);
      } else {
        assert DrawLetter(s, letter) == DrawLetter(s, key);
        StartOk(s, key);
      }
    } else {
      DrawUnknownIsNoOp(s, letter);
    }
  }

  /** One event of the component's life. */
  function Step(s: Tracer, e: Event): Tracer
    requires Inv(s)
  {
    match e
    case RequestLetter(input) => Request(s, input)
    case TimerFired => Tick(s)
    case Unmounted => Unmount(s)
    case Loaded(entries) => LoadLettersAsWritten(s, entries)
    case LoadError => LoadFailed(s)
  }

  lemma {:induction false} StepOk(s: Tracer, e: Event)
    requires Inv(s)
    ensures Inv(Step(s, e))
  {
    match e
    case RequestLetter(input) =>
      if s.mounted && NormalizeLetterInput(input) != s.prop {
        PropEffectOk(s.(prop := NormalizeLetterInput(input)));
      }
    case TimerFired => TickOk(s);
    case Unmounted =>
    case Loaded(entries) => LoadLettersAsWrittenOk(s, entries);
    case LoadError =>
  }

  /** The catalog a load leaves behind serves every kept letter its own strokes, given the
      letter files' keys as `Object.keys(aggregated).sort()` lists them: distinct and sorted. */
  lemma {:induction false} LoadServesOwnStrokes(s: Tracer, entries: seq<(string, RawValue)>)
    requires Inv(s) && s.mounted && s.status == Loading && SortedKeys(entries)
    ensures var r := Step(s, Loaded(entries));
      && r.status == Ready && r.letters == BuildCatalog(entries)
      && forall i :: 0 <= i < |entries| && Kept(entries[i]) ==>
           entries[i].0 in r.letters && r.letters[entries[i].0] == StrokesOf(entries[i].1)
  {
    BuildCatalogNonEmpty(entries);
    BuildCatalogKeepsOwnStrokes(entries);
    var loaded := s.(letters := BuildCatalog(entries), status := Ready);
    if s.mountLetter.Some? && s.mountLetter.value in loaded.letters {
      DrawLetterOk(loaded, s.mountLetter.value);
      PropEffectOk(DrawLetter(loaded, s.mountLetter.value));
    } else {
      PropEffectOk(loaded);
    }
  }

  ghost function RunEvents(s: Tracer, events: seq<Event>): Tracer
    requires Inv(s)
    decreases |events|
  {
    if events == [] then s else StepOk(s, events[0]); RunEvents(Step(s, events[0]), events[1..])
  }

  /** Every state the component reaches from mounting satisfies the invariant: a timer exists
      exactly while drawing, a pending letter only while drawing, and the canvas matches the
      animation's position. */
  lemma {:induction false} Reachable(initialLetter: JsValue, offset: (Point, Point) -> Point, events: seq<Event>)
    ensures Inv(Mount(initialLetter, offset))
    ensures Inv(RunEvents(Mount(initialLetter, offset), events))
  {
    RunEventsOk(Mount(initialLetter, offset), events);
  }

  lemma {:induction false} RunEventsOk(s: Tracer, events: seq<Event>)
    requires Inv(s)
    ensures Inv(RunEvents(s, events))
    decreases |events|
  {
    if events != [] {
      StepOk(s, events[0]);
      RunEventsOk(Step(s, events[0]), events[1..]);
    }
  }

  /** After unmounting no callback remains and nothing more is ever drawn, whatever happens. */
  lemma {:induction false} NothingAfterUnmount(s: Tracer, events: seq<Event>)
    requires Inv(s)
    ensures Inv(Unmount(s))
    ensures var r := RunEvents(Unmount(s), events);
      r.canvas == s.canvas && r.timer.None? && !r.isDrawing && r.pending.None? && !r.mounted
    decreases |events|
  {
    NothingAfterUnmountFrom(Unmount(s), events);
  }

  lemma {:induction false} NothingAfterUnmountFrom(s: Tracer, events: seq<Event>)
    requires Inv(s) && !s.mounted && s.timer.None?
    ensures var r := RunEvents(s, events);
      r.canvas == s.canvas && r.timer.None? && !r.isDrawing && r.pending.None? && !r.mounted
    decreases |events|
  {
    if events != [] {
      StepOk(s, events[0]);
      var t := Step(s, events[0]);
      assert t.canvas == s.canvas && t.timer.None? && !t.mounted;
      NothingAfterUnmountFrom(t, events[1..]);
    }
  }

  // ---------------------------------------------------------------------------------------
  // The initial letter on load

  /** As written, when the prop has not changed since mounting, the load plays the initial
      letter and then queues it again: once the catalog is in, the letter is both drawing and
      pending, so it is animated twice. */
  lemma {:induction false} LoadQueuesInitialLetterTwice(initialLetter: JsValue, offset: (Point, Point) -> Point,
                                     entries: seq<(string, RawValue)>)
    requires NormalizeLetterInput(initialLetter).Some?
    requires NormalizeLetterInput(initialLetter).value in BuildCatalog(entries)
    requires var strokes := BuildCatalog(entries)[NormalizeLetterInput(initialLetter).value];
      strokes != [] && |strokes[0]| > 0
    ensures var r := LoadLettersAsWritten(Mount(initialLetter, offset), entries);
      && r.isDrawing && r.active == NormalizeLetterInput(initialLetter)
      && r.pending == NormalizeLetterInput(initialLetter)
  {
    var s := Mount(initialLetter, offset);
    var key := NormalizeLetterInput(initialLetter).value;
    BuildCatalogNonEmpty(entries);
    UpperIdempotent(JsTrim(initialLetter.s));
    var loaded := s.(letters := BuildCatalog(entries), status := Ready);
    StartOk(loaded, key);
  }

  /** As written, a prop that changes while the catalog loads does not replace the letter of
      the mount: the load plays the mount-time letter and leaves the new one pending. With the
      letter requested once, the load plays the new letter and leaves nothing pending. */
  lemma {:induction false} LoadAfterPropChange(initialLetter: JsValue, input: JsValue, offset: (Point, Point) -> Point,
                                entries: seq<(string, RawValue)>)
    requires NormalizeLetterInput(initialLetter).Some? && NormalizeLetterInput(input).Some?
    requires NormalizeLetterInput(initialLetter) != NormalizeLetterInput(input)
    requires NormalizeLetterInput(initialLetter).value in BuildCatalog(entries)
    requires NormalizeLetterInput(input).value in BuildCatalog(entries)
    requires var strokes := BuildCatalog(entries)[NormalizeLetterInput(initialLetter).value];
      strokes != [] && |strokes[0]| > 0
    ensures var r := LoadLettersAsWritten(Request(Mount(initialLetter, offset), input), entries);
      && r.isDrawing && r.active == NormalizeLetterInput(initialLetter)
      && r.pending == NormalizeLetterInput(input)
    ensures var r := LoadLetters(Request(Mount(initialLetter, offset), input), entries);
      r.active == NormalizeLetterInput(input) && r.pending.None?
  {
    var s := Mount(initialLetter, offset);
    var first := NormalizeLetterInput(initialLetter).value;
    var next := NormalizeLetterInput(input).value;
    var t := Request(s, input);
    assert t == s.(prop := Some(next));
    BuildCatalogNonEmpty(entries);
    UpperIdempotent(JsTrim(initialLetter.s));
    UpperIdempotent(JsTrim(input.s));
    var loaded := t.(letters := BuildCatalog(entries), status := Ready);
    StartOk(loaded, first);
    var drawn := DrawLetter(loaded, first);
    assert drawn.isDrawing && drawn.letters == loaded.letters && drawn.prop == Some(next);
    DrawWhileDrawing(drawn, next);
    assert LoadLettersAsWritten(t, entries) == PropEffect(drawn);
    assert LoadLetters(t, entries) == PropEffect(loaded) == DrawLetter(loaded, next);
    StartOk(loaded, next);
  }

  /** With the letter requested once, the load starts the initial letter once and leaves
      nothing pending; an unknown initial letter starts nothing. */
  lemma {:induction false} LoadPlaysInitialLetterOnce(initialLetter: JsValue, offset: (Point, Point) -> Point,
                                   entries: seq<(string, RawValue)>)
    ensures Inv(Mount(initialLetter, offset))
    ensures var r := LoadLetters(Mount(initialLetter, offset), entries);
      && Inv(r) && r.pending.None? && r.status == Ready && r.letters == BuildCatalog(entries)
      && (var n := NormalizeLetterInput(initialLetter);
          if n.Some? && n.value in BuildCatalog(entries) then r.active == n
          else r.active.None? && !r.isDrawing && r.canvas == [])
  {
    var s := Mount(initialLetter, offset);
    LoadLettersOk(s, entries);
    var n := NormalizeLetterInput(initialLetter);
    var loaded := s.(letters := BuildCatalog(entries), status := Ready);
    assert LoadLetters(s, entries) == PropEffect(loaded);
    if n.Some? && n.value in BuildCatalog(entries) {
      BuildCatalogNonEmpty(entries);
      UpperIdempotent(JsTrim(initialLetter.s));
      assert PropEffect(loaded) == DrawLetter(loaded, n.value);
      StartOk(loaded, n.value);
    } else {
      assert PropEffect(loaded) == loaded;
    }
  }
}
