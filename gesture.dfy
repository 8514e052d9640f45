/**
 * The arithmetic of the floating menu's two drag-to-style axes, font weight
 * and font size, and the per-axis gesture state machine that turns a pointer
 * press, moves and release into either a tap toggle or a drag to a quantized
 * value. Pointer coordinates are integers, so the rounding is exact.
 */
module Gesture {

  import opened Wrappers

  datatype Axis = Weight | Size

  /** Scaled pointer movement below or at this distance is jitter, not a drag. */
  const DragThreshold: int := 5

  /** Pointer x is scaled by 5 on the weight axis and by 2 on the size axis. */
  function Scale(axis: Axis): int {
    match axis
    case Weight => 5
    case Size => 2
  }

  function Abs(x: int): nat {
    if x < 0 then -x else x
  }

  /** `Math.max(lo, Math.min(hi, x))`. */
  function Clamp(lo: int, hi: int, x: int): (r: int)
    requires lo <= hi
    ensures lo <= r <= hi
    ensures lo <= x <= hi ==> r == x
    ensures x < lo ==> r == lo
    ensures hi < x ==> r == hi
  {
    if hi < x then hi else if x < lo then lo else x
  }

  /**
   * `Math.round(n / d)` for integers: the integer nearest to n/d, a tie going
   * up, i.e. floor(n/d + 1/2).
   */
  function RoundDiv(n: int, d: int): (r: int)
    requires d > 0
    ensures 2 * n - d < 2 * d * r <= 2 * n + d
  {
    var q := (2 * n + d) / (2 * d);
    assert 2 * n + d == 2 * d * q + (2 * n + d) % (2 * d);
    q
  }

  /** The legal values of an axis: weights 100, 200, ..., 900 and sizes 16, 17, ..., 24. */
  predicate Legal(axis: Axis, v: int) {
    match axis
    case Weight => 100 <= v <= 900 && v % 100 == 0
    case Size => 16 <= v <= 24
  }

  /** The preset values a tap moves between. */
  predicate Preset(axis: Axis, v: int) {
    match axis
    case Weight => v == 400 || v == 700
    case Size => v == 16 || v == 20 || v == 24
  }

  /** The weight a drag shows: `round((initial + delta) / 100) * 100` clamped to [100, 900]. */
  function WeightCandidate(initial: int, delta: int): (r: int)
    ensures Legal(Weight, r)
  {
    var q := RoundDiv(initial + delta, 100);
    Clamp(100, 900, q * 100)
  }

  /** The size a drag shows: `round(initial + delta / 20)` clamped to [16, 24]. */
  function SizeCandidate(initial: int, delta: int): (r: int)
    ensures Legal(Size, r)
  {
    Clamp(16, 24, RoundDiv(20 * initial + delta, 20))
  }

  function Candidate(axis: Axis, initial: int, delta: int): (r: int)
    ensures Legal(axis, r)
  {
    match axis
    case Weight => WeightCandidate(initial, delta)
    case Size => SizeCandidate(initial, delta)
  }

  /**
   * The weight tapping the bold button chooses: 400 when the document's
   * weight is 700, otherwise 700. It is a preset and always differs from the
   * weight it replaces.
   */
  function ToggleBoldWeight(current: int): (r: int)
    ensures Preset(Weight, r) && r != current
  {
    if current == 700 then 400 else 700
  }

  /**
   * The size tapping the size button chooses: 24 becomes 16, 20 becomes 24 and
   * every other size becomes 20. It is a preset and always differs from the
   * size it replaces.
   */
  function ToggleFontSizeValue(current: int): (r: int)
    ensures Preset(Size, r) && r != current
  {
    if current == 24 then 16 else if current == 20 then 24 else 20
  }

  function Toggled(axis: Axis, current: int): (r: int)
    ensures Preset(axis, r) && Legal(axis, r) && r != current
  {
    match axis
    case Weight => ToggleBoldWeight(current)
    case Size => ToggleFontSizeValue(current)
  }

  /**
   * Taps cycle through the presets: only 700 goes to 400 and every other
   * weight goes to 700, so 400 and 700 alternate; sizes go 16, 20, 24, 16.
   */
  lemma TapCyclesPresets(v: int)
    ensures ToggleBoldWeight(700) == 400 && (v != 700 ==> ToggleBoldWeight(v) == 700)
    ensures ToggleFontSizeValue(16) == 20 && ToggleFontSizeValue(20) == 24 && ToggleFontSizeValue(24) == 16
    ensures Preset(Weight, v) ==> ToggleBoldWeight(ToggleBoldWeight(v)) == v
    ensures Preset(Size, v) ==> ToggleFontSizeValue(ToggleFontSizeValue(ToggleFontSizeValue(v))) == v
    ensures !Preset(Size, v) ==> ToggleFontSizeValue(v) == 20
  {
  }

  /**
   * A drag snaps to the legal weight nearest to `initial + delta`: no legal
   * weight lies closer.
   */
  lemma WeightCandidateIsNearest(initial: int, delta: int, v: int)
    requires Legal(Weight, v)
    ensures Abs(WeightCandidate(initial, delta) - (initial + delta)) <= Abs(v - (initial + delta))
  {
    var n := initial + delta;
    var q := RoundDiv(n, 100);
    var c := WeightCandidate(initial, delta);
    var k := v / 100;
    assert v == 100 * k;
    if q < 1 {
      assert c == 100;
      assert n < 50;
    } else if q > 9 {
      assert c == 900;
      assert 200 * q > 2 * n - 100;
    } else {
      assert c == 100 * q;
      assert Abs(c - n) <= 50;
      if k < q {
        assert k <= q - 1;
        assert v <= c - 100;
      } else if k > q {
        assert v >= c + 100;
      }
    }
  }

  /**
   * A drag snaps to the legal size nearest to `initial + delta / 20`: no legal
   * size lies closer (distances scaled by 20).
   */
  lemma SizeCandidateIsNearest(initial: int, delta: int, v: int)
    requires Legal(Size, v)
    ensures Abs(20 * SizeCandidate(initial, delta) - (20 * initial + delta)) <= Abs(20 * v - (20 * initial + delta))
  {
    var n := 20 * initial + delta;
    var q := RoundDiv(n, 20);
    assert 2 * n - 20 < 40 * q <= 2 * n + 20;
    var c := SizeCandidate(initial, delta);
    if q < 16 {
      assert c == 16;
    } else if q > 24 {
      assert c == 24;
    } else {
      assert c == q;
      if v < q {
        assert 20 * v <= 20 * q - 20;
      } else if v > q {
        assert 20 * v >= 20 * q + 20;
      }
    }
  }

  /**
   * Halves round up, as `Math.round` does: 400 dragged by 150 is 5.5 hundreds
   * and shows 600; size 20 dragged by -10 is 19.5 and stays 20, while 16
   * dragged by 10 is 16.5 and shows 17.
   */
  lemma DragRoundsHalfUp()
    ensures WeightCandidate(400, 150) == 600
    ensures SizeCandidate(20, -10) == 20 && SizeCandidate(16, 10) == 17
  {
    assert RoundDiv(550, 100) == 6;
    assert RoundDiv(390, 20) == 20;
    assert RoundDiv(330, 20) == 17;
  }

  /** Dragging further to the right never gives a smaller value. */
  lemma CandidateMonotone(axis: Axis, initial: int, d1: int, d2: int)
    requires d1 <= d2
    ensures Candidate(axis, initial, d1) <= Candidate(axis, initial, d2)
  {
    match axis
    case Weight =>
      var q1, q2 := RoundDiv(initial + d1, 100), RoundDiv(initial + d2, 100);
      assert q1 <= q2;
    case Size =>
      var q1, q2 := RoundDiv(20 * initial + d1, 20), RoundDiv(20 * initial + d2, 20);
      assert q1 <= q2;
  }

  // ---------------------------------------------------------------------------
  // Tones

  /** The sound file (by its number) the weight tone map holds for a weight, if any. */
  function WeightSound(w: int): (r: Option<int>)
    ensures r.Some? <==> Legal(Weight, w)
  {
    if w == 100 then Some(200)
    else if w == 200 then Some(300)
    else if w == 300 then Some(400)
    else if w == 400 then Some(500)
    else if w == 500 then Some(600)
    else if w == 600 then Some(700)
    else if w == 700 then Some(800)
    else if w == 800 then Some(900)
    else if w == 900 then Some(900)
    else None
  }

  /** The sound file (by its number) the size tone map holds for a size, if any. */
  function SizeSound(s: int): (r: Option<int>)
    ensures r.Some? <==> Legal(Size, s)
  {
    if s == 16 then Some(200)
    else if s == 17 then Some(300)
    else if s == 18 then Some(400)
    else if s == 19 then Some(500)
    else if s == 20 then Some(600)
    else if s == 21 then Some(700)
    else if s == 22 then Some(800)
    else if s == 23 then Some(800)
    else if s == 24 then Some(900)
    else None
  }

  function Sound(axis: Axis, v: int): (r: Option<int>)
    ensures r.Some? <==> Legal(axis, v)
  {
    match axis
    case Weight => WeightSound(v)
    case Size => SizeSound(v)
  }

  /**
   * The tone keys announced while the value takes the successive values `vs`,
   * starting from the last announced value `last`: a value is announced when
   * it differs from the one announced before it.
   */
  function Announced(last: int, vs: seq<int>): seq<int>
    decreases |vs|
  {
    if vs == [] then []
    else (if vs[0] != last then [vs[0]] else []) + Announced(vs[0], vs[1..])
  }

  predicate NoAdjacentRepeats(ts: seq<int>) {
    forall i :: 0 < i < |ts| ==> ts[i - 1] != ts[i]
  }

  /**
   * The announcements never repeat a value back to back, and the first one
   * differs from the value announced before the run.
   */
  lemma {:induction false} AnnouncedHasNoRepeats(last: int, vs: seq<int>)
    ensures NoAdjacentRepeats(Announced(last, vs))
    ensures |Announced(last, vs)| > 0 ==> Announced(last, vs)[0] != last
    decreases |vs|
  {
    if vs != [] {
      AnnouncedHasNoRepeats(vs[0], vs[1..]);
    }
  }

  /**
   * Announcing one more value keeps a log free of back-to-back repeats, as
   * long as the log ended with the last announced value.
   */
  lemma AnnounceExtendsLog(log: seq<int>, last: int, v: int)
    requires NoAdjacentRepeats(log) && (|log| > 0 ==> log[|log| - 1] == last)
    ensures Announced(last, [v]) == if v != last then [v] else []
    ensures NoAdjacentRepeats(log + Announced(last, [v]))
    ensures |log + Announced(last, [v])| > 0 ==> (log + Announced(last, [v]))[|log + Announced(last, [v])| - 1] == (if v != last then v else last)
  {
    assert Announced(last, [v]) == (if v != last then [v] else []) + Announced(v, []);
  }

  /**
   * A tone is played only when the map holds a file for the key: when every
   * value of the run is legal, every announced key has one.
   */
  lemma {:induction false} AnnouncedKeysHaveSounds(axis: Axis, last: int, vs: seq<int>)
    requires forall i :: 0 <= i < |vs| ==> Legal(axis, vs[i])
    ensures forall i :: 0 <= i < |Announced(last, vs)| ==> Sound(axis, Announced(last, vs)[i]).Some?
    decreases |vs|
  {
    if vs != [] {
      AnnouncedKeysHaveSounds(axis, vs[0], vs[1..]);
    }
  }

  /** A run of equal values announces at most once: on entry, and only if the value is new. */
  lemma {:induction false} ConstantRunAnnouncesOnce(last: int, v: int, n: nat)
    ensures Announced(last, seq(n, _ => v)) == if n > 0 && v != last then [v] else []
    decreases n
  {
    if n > 0 {
      var vs := seq(n, _ => v);
      assert vs[1..] == seq(n - 1, _ => v);
      ConstantRunAnnouncesOnce(v, v, n - 1);
    }
  }

  // ---------------------------------------------------------------------------
  // The per-axis gesture state machine

  /**
   * One axis's gesture state: pressed, adjusting (the drag threshold was
   * crossed since the press), the scaled x at the press, the value at the
   * press and the live value.
   */
  datatype Session = Session(pointerDown: bool, adjusting: bool, startX: int, initial: int, value: int)

  datatype PointerEvent = Down(clientX: int) | Move(clientX: int) | Up

  /** A move at `clientX` during a press is a drag step: its scaled distance passes the threshold. */
  predicate Crosses(axis: Axis, s: Session, clientX: int) {
    s.pointerDown && Abs(Scale(axis) * clientX - s.startX) > DragThreshold
  }

  /**
   * One pointer event on one axis. A press records the scaled x and the value
   * and clears adjusting; a move past the threshold sets adjusting and shows
   * the candidate for the value at the press and the current distance; a
   * release after no drag toggles; a release clears both flags; moves and
   * releases without a press change nothing.
   */
  function Step(axis: Axis, s: Session, e: PointerEvent): Session
  {
    match e
    case Down(x) => Session(true, false, Scale(axis) * x, s.value, s.value)
    case Move(x) =>
      if !s.pointerDown then s
      else
        var delta := Scale(axis) * x - s.startX;
        if Abs(delta) > DragThreshold then s.(adjusting := true, value := Candidate(axis, s.initial, delta))
        else s
    case Up =>
      if !s.pointerDown then s
      else if !s.adjusting then s.(pointerDown := false, adjusting := false, value := Toggled(axis, s.value))
      else s.(pointerDown := false, adjusting := false)
  }

  /**
   * What every event keeps: a legal value stays legal, adjusting never holds
   * without a press, the value changes only on a move past the threshold or
   * on the release of a tap, a release (of a consistent state) leaves the
   * axis neither pressed nor adjusting, only a press moves the recorded
   * start and initial value, and a move or release without a press changes
   * nothing.
   */
  lemma StepKeepsInvariants(axis: Axis, s: Session, e: PointerEvent)
    ensures var t := Step(axis, s, e);
            && (Legal(axis, s.value) ==> Legal(axis, t.value))
            && ((s.adjusting ==> s.pointerDown) ==> (t.adjusting ==> t.pointerDown))
            && (t.value != s.value ==> (e.Move? && Crosses(axis, s, e.clientX)) || (e.Up? && s.pointerDown && !s.adjusting))
            && (e.Up? && (s.adjusting ==> s.pointerDown) ==> !t.pointerDown && !t.adjusting)
            && (!e.Down? ==> t.startX == s.startX && t.initial == s.initial)
            && (!e.Down? && !s.pointerDown ==> t == s)
  {
  }

  /** The state after a sequence of events, processed in arrival order. */
  function Run(axis: Axis, s: Session, es: seq<PointerEvent>): Session
    decreases |es|
  {
    if es == [] then s else Step(axis, Run(axis, s, es[..|es| - 1]), es[|es| - 1])
  }

  function Moves(xs: seq<int>): (es: seq<PointerEvent>)
    ensures |es| == |xs| && forall i :: 0 <= i < |xs| ==> es[i] == Move(xs[i])
  {
    seq(|xs|, i requires 0 <= i < |xs| => Move(xs[i]))
  }

  /**
   * The scaled distance of the last move in `xs` that crosses the threshold
   * from the pressed position `startX`, if any move does.
   */
  function LastDrag(axis: Axis, startX: int, xs: seq<int>): (r: Option<int>)
    ensures r.None? <==> forall i :: 0 <= i < |xs| ==> Abs(Scale(axis) * xs[i] - startX) <= DragThreshold
    ensures r.Some? ==> Abs(r.value) > DragThreshold
    decreases |xs|
  {
    if xs == [] then None
    else
      var x := xs[|xs| - 1];
      var d := Scale(axis) * x - startX;
      if Abs(d) > DragThreshold then Some(d)
      else
        var r := LastDrag(axis, startX, xs[..|xs| - 1]);
        assert forall i :: 0 <= i < |xs| - 1 ==> xs[..|xs| - 1][i] == xs[i];
        r
  }

  /** Every event keeps the value legal once it is legal. */
  lemma {:induction false} RunKeepsLegal(axis: Axis, s: Session, es: seq<PointerEvent>)
    requires Legal(axis, s.value)
    ensures Legal(axis, Run(axis, s, es).value)
    decreases |es|
  {
    if es != [] {
      RunKeepsLegal(axis, s, es[..|es| - 1]);
      StepKeepsInvariants(axis, Run(axis, s, es[..|es| - 1]), es[|es| - 1]);
    }
  }

  /** Whatever the events, the value a session shows has a tone file when it started from a legal value. */
  lemma RunAlwaysHasSound(axis: Axis, s: Session, es: seq<PointerEvent>)
    requires Legal(axis, s.value)
    ensures Sound(axis, Run(axis, s, es).value).Some?
  {
    RunKeepsLegal(axis, s, es);
  }

  /**
   * During a press, moves keep the press, the recorded start and the initial
   * value; the live value is the candidate of the last move that crossed the
   * threshold, and adjusting says whether one did. Earlier moves do not matter.
   */
  lemma {:induction false} MovesDependOnlyOnLastDrag(axis: Axis, s: Session, xs: seq<int>)
    requires s.pointerDown && !s.adjusting
    ensures var t := Run(axis, s, Moves(xs));
            var last := LastDrag(axis, s.startX, xs);
            t.pointerDown && t.startX == s.startX && t.initial == s.initial &&
            t.adjusting == last.Some? &&
            t.value == (if last.Some? then Candidate(axis, s.initial, last.value) else s.value)
    decreases |xs|
  {
    if xs != [] {
      var init := xs[..|xs| - 1];
      assert Moves(xs)[..|xs| - 1] == Moves(init);
      MovesDependOnlyOnLastDrag(axis, s, init);
    }
  }

  /**
   * A whole press, moves and release: it is a tap, and toggles the value it
   * found at the press, exactly when no move crossed the threshold; otherwise
   * the value stays at the candidate of the last crossing move. Either way
   * the release leaves the axis not pressed and not adjusting.
   */
  lemma TapOrDrag(axis: Axis, s: Session, x0: int, xs: seq<int>)
    ensures var t := Step(axis, Run(axis, Step(axis, s, Down(x0)), Moves(xs)), Up);
            var last := LastDrag(axis, Scale(axis) * x0, xs);
            !t.pointerDown && !t.adjusting &&
            t.value == (if last.Some? then Candidate(axis, s.value, last.value) else Toggled(axis, s.value))
  {
    MovesDependOnlyOnLastDrag(axis, Step(axis, s, Down(x0)), xs);
  }
}
