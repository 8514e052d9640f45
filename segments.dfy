/**
 * The segment store of the memo editor: a document held as an ordered list of
 * styled text segments, the operation that cuts one segment at a selection,
 * the operation that flips a style flag on the segments a selection names,
 * and the test of whether a character lies inside a selection.
 */
module Segments {

  import opened Wrappers

  type Id = string

  /** An optional boolean of a style object: the key is absent, or present with a value. */
  datatype Flag = Absent | Present(on: bool)

  /** JavaScript truthiness of an optional boolean: an absent flag reads as false. */
  function IsOn(f: Flag): bool {
    f == Present(true)
  }

  datatype StyleKey = Bold | Italic | Underline | Strikethrough

  datatype SegmentStyle = SegmentStyle(bold: Flag, italic: Flag, underline: Flag, strikethrough: Flag)

  datatype Segment = Segment(id: Id, text: string, style: SegmentStyle)

  /** Offsets are character indices into the named segments' texts, both ends inclusive. */
  datatype SelectionRange = SelectionRange(startSegmentId: Id, startOffset: int, endSegmentId: Id, endOffset: int)

  function Min(a: int, b: int): int { if a <= b then a else b }

  function Max(a: int, b: int): int { if a <= b then b else a }

  function FlagOf(st: SegmentStyle, key: StyleKey): Flag {
    match key
    case Bold => st.bold
    case Italic => st.italic
    case Underline => st.underline
    case Strikethrough => st.strikethrough
  }

  /** The style with one key replaced, as the object spread `{ ...style, [key]: f }` builds it. */
  function WithFlag(st: SegmentStyle, key: StyleKey, f: Flag): (r: SegmentStyle)
    ensures FlagOf(r, key) == f
    ensures forall other :: other != key ==> FlagOf(r, other) == FlagOf(st, other)
  {
    match key
    case Bold => st.(bold := f)
    case Italic => st.(italic := f)
    case Underline => st.(underline := f)
    case Strikethrough => st.(strikethrough := f)
  }

  // ---------------------------------------------------------------------------
  // String.prototype.slice

  /** How `slice` reads an index: a negative one counts from the end, then it is clamped to [0, len]. */
  function SliceIndex(i: int, len: nat): (r: nat)
    ensures r <= len
    ensures 0 <= i <= len ==> r == i
    ensures len < i ==> r == len
  {
    if i < 0 then (if len + i < 0 then 0 else len + i)
    else if len < i then len
    else i
  }

  /**
   * `t.slice(from, to)`: empty when the normalised end does not lie past the
   * normalised start. Indices are positions in the sequence of characters.
   */
  function Slice(t: string, from: int, to: int): (r: string)
    ensures |r| <= |t|
    ensures 0 <= from <= to <= |t| ==> r == t[from..to]
    ensures 0 <= to <= from ==> r == []
  {
    var a, b := SliceIndex(from, |t|), SliceIndex(to, |t|);
    if a < b then t[a..b] else []
  }

  /** `t.slice(from)`: the suffix from `from` on; a negative `from` keeps the last `-from` characters. */
  function SliceFrom(t: string, from: int): (r: string)
    ensures 0 <= from <= |t| ==> r == t[from..]
    ensures |t| < from ==> r == []
    ensures from < 0 ==> r == t[|t| - Min(-from, |t|)..]
  {
    t[SliceIndex(from, |t|)..]
  }

  // ---------------------------------------------------------------------------
  // splitSegmentsForRange

  /** With `0 <= lo <= hi`, slicing up to `lo`, from `lo` to `hi + 1` and from `hi + 1` gives consecutive parts of the text. */
  lemma SlicesAt(text: string, lo: int, hi: int)
    requires 0 <= lo <= hi
    ensures var a, b := SliceIndex(lo, |text|), SliceIndex(hi + 1, |text|);
            a <= b && Slice(text, 0, lo) == text[..a] && Slice(text, lo, hi + 1) == text[a..b] && SliceFrom(text, hi + 1) == text[b..]
            && text[..a] + text[a..b] + text[b..] == text
  {
    var a, b := SliceIndex(lo, |text|), SliceIndex(hi + 1, |text|);
    assert text[..a] + text[a..b] == text[..b];
  }

  /** The left, middle and right texts a segment is cut into. */
  datatype Cuts = Cuts(left: string, middle: string, right: string)

  /**
   * The three slices of a segment's text cut at the smaller and the larger
   * offset of the range; the middle one includes both offsets. With
   * non-negative offsets the three lengths add up to the text's length, and
   * for offsets inside the text the left cut holds the characters before the
   * smaller offset and the middle one those from it to the larger offset.
   * `CutsCoverText` and `SplitMiddlePiece` state the contents.
   */
  function CutText(text: string, range: SelectionRange): (r: Cuts)
    ensures 0 <= range.startOffset && 0 <= range.endOffset ==> |r.left| + |r.middle| + |r.right| == |text|
    ensures var lo, hi := Min(range.startOffset, range.endOffset), Max(range.startOffset, range.endOffset);
            0 <= lo && hi < |text| ==> |r.left| == lo && |r.middle| == hi - lo + 1
  {
    var lo := Min(range.startOffset, range.endOffset);
    var hi := Max(range.startOffset, range.endOffset);
    var c := Cuts(Slice(text, 0, lo), Slice(text, lo, hi + 1), SliceFrom(text, hi + 1));
    if 0 <= lo then SlicesAt(text, lo, hi); c else c
  }

  /** With non-negative offsets the three slices cover the text exactly once. */
  lemma CutsCoverText(text: string, range: SelectionRange)
    requires 0 <= range.startOffset && 0 <= range.endOffset
    ensures var c := CutText(text, range); c.left + c.middle + c.right == text
  {
    SlicesAt(text, Min(range.startOffset, range.endOffset), Max(range.startOffset, range.endOffset));
  }

  /**
   * For an offset pair inside the text, the three cuts are the characters
   * before the smaller offset, those from the smaller to the larger offset
   * with both included, and those after the larger offset.
   */
  lemma SplitMiddlePiece(text: string, range: SelectionRange)
    requires 0 <= range.startOffset < |text| && 0 <= range.endOffset < |text|
    ensures var lo, hi := Min(range.startOffset, range.endOffset), Max(range.startOffset, range.endOffset);
            CutText(text, range) == Cuts(text[..lo], text[lo..hi + 1], text[hi + 1..])
  {
    SlicesAt(text, Min(range.startOffset, range.endOffset), Max(range.startOffset, range.endOffset));
  }

  /** A piece with the given text, or none when the text is empty (`text ? { ... } : null`, then `filter`). */
  function Piece(text: string, id: Id, style: SegmentStyle): (r: seq<Segment>)
    ensures |r| <= 1 && forall i :: 0 <= i < |r| ==> r[i] == Segment(id, text, style) && text != ""
  {
    if text == "" then [] else [Segment(id, text, style)]
  }

  /**
   * The segments that replace the target segment `seg`: its non-empty left,
   * middle and right pieces, in that order, each keeping the original style.
   * The identifier source `newId` stands for `crypto.randomUUID`; the three
   * possible pieces take `newId(next)`, `newId(next + 1)` and `newId(next + 2)`.
   */
  function Pieces(seg: Segment, range: SelectionRange, newId: nat -> Id, next: nat): (r: seq<Segment>)
    ensures |r| <= 3
    ensures forall i :: 0 <= i < |r| ==> r[i].text != "" && r[i].style == seg.style
    ensures forall i :: 0 <= i < |r| ==> r[i].id in {newId(next), newId(next + 1), newId(next + 2)}
  {
    var c := CutText(seg.text, range);
    Piece(c.left, newId(next), seg.style) + Piece(c.middle, newId(next + 1), seg.style) + Piece(c.right, newId(next + 2), seg.style)
  }

  /** What one segment becomes: its pieces if it is the range's start segment, itself otherwise. */
  function Replacement(seg: Segment, range: SelectionRange, newId: nat -> Id, next: nat): seq<Segment> {
    if seg.id != range.startSegmentId then [seg] else Pieces(seg, range, newId, next)
  }

  /**
   * Every segment whose id is the range's start id is replaced by its pieces;
   * the others are kept. The segment at position k draws its identifiers from
   * `newId(next + 3 * k)` on.
   */
  function SplitSegmentsForRange(segments: seq<Segment>, range: SelectionRange, newId: nat -> Id, next: nat): (r: seq<Segment>)
    ensures |r| <= 3 * |segments|
    decreases |segments|
  {
    if segments == [] then []
    else Replacement(segments[0], range, newId, next) + SplitSegmentsForRange(segments[1..], range, newId, next + 3)
  }

  /** The document's plain text: the segments' texts concatenated in order. */
  function PlainText(segments: seq<Segment>): string
    decreases |segments|
  {
    if segments == [] then "" else segments[0].text + PlainText(segments[1..])
  }

  /** The segments whose ids lie in `keep`, in their original order. */
  function Retain(segments: seq<Segment>, keep: set<Id>): seq<Segment>
    decreases |segments|
  {
    if segments == [] then []
    else (if segments[0].id in keep then [segments[0]] else []) + Retain(segments[1..], keep)
  }

  function Swapped(range: SelectionRange): SelectionRange {
    range.(startOffset := range.endOffset, endOffset := range.startOffset)
  }

  lemma {:induction false} PlainTextAppend(a: seq<Segment>, b: seq<Segment>)
    ensures PlainText(a + b) == PlainText(a) + PlainText(b)
    decreases |a|
  {
    if a == [] {
      assert a + b == b;
    } else {
      assert (a + b)[1..] == a[1..] + b;
      PlainTextAppend(a[1..], b);
    }
  }

  lemma PieceText(text: string, id: Id, style: SegmentStyle)
    ensures PlainText(Piece(text, id, style)) == text
  {
    if text != "" {
      assert PlainText([Segment(id, text, style)]) == text + PlainText([]);
    }
  }

  lemma ReplacementText(seg: Segment, range: SelectionRange, newId: nat -> Id, next: nat)
    requires 0 <= range.startOffset && 0 <= range.endOffset
    ensures PlainText(Replacement(seg, range, newId, next)) == seg.text
  {
    if seg.id != range.startSegmentId {
      assert PlainText([seg]) == seg.text + PlainText([]);
    } else {
      var c := CutText(seg.text, range);
      var l, m, r := Piece(c.left, newId(next), seg.style), Piece(c.middle, newId(next + 1), seg.style), Piece(c.right, newId(next + 2), seg.style);
      PieceText(c.left, newId(next), seg.style);
      PieceText(c.middle, newId(next + 1), seg.style);
      PieceText(c.right, newId(next + 2), seg.style);
      PlainTextAppend(l, m);
      PlainTextAppend(l + m, r);
      CutsCoverText(seg.text, range);
    }
  }

  /** Splitting never changes the document's plain text, provided the offsets are not negative. */
  lemma {:induction false} SplitPreservesText(segments: seq<Segment>, range: SelectionRange, newId: nat -> Id, next: nat)
    requires 0 <= range.startOffset && 0 <= range.endOffset
    ensures PlainText(SplitSegmentsForRange(segments, range, newId, next)) == PlainText(segments)
    decreases |segments|
  {
    if segments != [] {
      var head, tail := segments[0], segments[1..];
      var out := Replacement(head, range, newId, next);
      var rest := SplitSegmentsForRange(tail, range, newId, next + 3);
      calc {
        PlainText(SplitSegmentsForRange(segments, range, newId, next));
        PlainText(out + rest);
        { PlainTextAppend(out, rest); }
        PlainText(out) + PlainText(rest);
        { ReplacementText(head, range, newId, next);
          SplitPreservesText(tail, range, newId, next + 3); }
        head.text + PlainText(tail);
        PlainText(segments);
      }
    }
  }

  /**
   * A negative offset counts from the end of the text in `slice`, so the three
   * pieces can overlap: splitting "abc" at offsets -1 and -1 yields the texts
   * "ab" and "abc".
   */
  lemma SplitNegativeOffsetDuplicatesText(newId: nat -> Id)
    ensures var segs := [Segment("s", "abc", SegmentStyle(Absent, Absent, Absent, Absent))];
            PlainText(SplitSegmentsForRange(segs, SelectionRange("s", -1, "s", -1), newId, 0)) == "ababc"
  {
    var segs := [Segment("s", "abc", SegmentStyle(Absent, Absent, Absent, Absent))];
    var range := SelectionRange("s", -1, "s", -1);
    assert CutText("abc", range) == Cuts("ab", "", "abc");
    var ps := Replacement(segs[0], range, newId, 0);
    assert ps == [Segment(newId(0), "ab", segs[0].style), Segment(newId(2), "abc", segs[0].style)];
    assert SplitSegmentsForRange(segs[1..], range, newId, 3) == [];
    assert SplitSegmentsForRange(segs, range, newId, 0) == ps + [];
    assert PlainText(ps) == "ab" + PlainText(ps[1..]);
    assert PlainText(ps[1..]) == "abc" + PlainText([]);
  }

  lemma {:induction false} RetainAppend(a: seq<Segment>, b: seq<Segment>, keep: set<Id>)
    ensures Retain(a + b, keep) == Retain(a, keep) + Retain(b, keep)
    decreases |a|
  {
    if a == [] {
      assert a + b == b;
    } else {
      assert (a + b)[1..] == a[1..] + b;
      RetainAppend(a[1..], b, keep);
    }
  }

  lemma RetainFreshPiece(text: string, id: Id, style: SegmentStyle, keep: set<Id>)
    requires id !in keep
    ensures Retain(Piece(text, id, style), keep) == []
  {
    if text != "" {
      assert Retain([Segment(id, text, style)], keep) == [] + Retain([], keep);
    }
  }

  lemma RetainFreshPieces(seg: Segment, range: SelectionRange, newId: nat -> Id, next: nat, keep: set<Id>)
    requires forall j :: newId(j) !in keep
    ensures Retain(Pieces(seg, range, newId, next), keep) == []
  {
    var c := CutText(seg.text, range);
    var l, m, r := Piece(c.left, newId(next), seg.style), Piece(c.middle, newId(next + 1), seg.style), Piece(c.right, newId(next + 2), seg.style);
    RetainFreshPiece(c.left, newId(next), seg.style, keep);
    RetainFreshPiece(c.middle, newId(next + 1), seg.style, keep);
    RetainFreshPiece(c.right, newId(next + 2), seg.style, keep);
    RetainAppend(l, m, keep);
    RetainAppend(l + m, r, keep);
  }

  /**
   * Segments other than the target pass through unchanged and in their
   * original relative order: looking only at ids from a set that excludes the
   * target id and every id the newId-identifier source can produce, the list
   * after the split is the list before it.
   */
  lemma {:induction false} SplitPassesOthersThrough(segments: seq<Segment>, range: SelectionRange, newId: nat -> Id, next: nat, keep: set<Id>)
    requires range.startSegmentId !in keep
    requires forall j :: newId(j) !in keep
    ensures Retain(SplitSegmentsForRange(segments, range, newId, next), keep) == Retain(segments, keep)
    decreases |segments|
  {
    if segments != [] {
      var head, tail := segments[0], segments[1..];
      var out := Replacement(head, range, newId, next);
      var rest := SplitSegmentsForRange(tail, range, newId, next + 3);
      var own := if head.id in keep then [head] else [];
      assert Retain(out, keep) == own by {
        if head.id != range.startSegmentId {
          assert Retain(out, keep) == own + Retain([], keep);
        } else {
          RetainFreshPieces(head, range, newId, next, keep);
        }
      }
      calc {
        Retain(SplitSegmentsForRange(segments, range, newId, next), keep);
        Retain(out + rest, keep);
        { RetainAppend(out, rest, keep); }
        own + Retain(rest, keep);
        { SplitPassesOthersThrough(tail, range, newId, next + 3, keep); }
        own + Retain(tail, keep);
        Retain(segments, keep);
      }
    }
  }

  /** A range whose start id names no segment leaves the list as it is. */
  lemma {:induction false} SplitAbsentTargetIsIdentity(segments: seq<Segment>, range: SelectionRange, newId: nat -> Id, next: nat)
    requires forall i :: 0 <= i < |segments| ==> segments[i].id != range.startSegmentId
    ensures SplitSegmentsForRange(segments, range, newId, next) == segments
    decreases |segments|
  {
    if segments != [] {
      SplitAbsentTargetIsIdentity(segments[1..], range, newId, next + 3);
    }
  }

  /** Swapping the two offsets of the range gives the same split. */
  lemma {:induction false} SplitSymmetric(segments: seq<Segment>, range: SelectionRange, newId: nat -> Id, next: nat)
    ensures SplitSegmentsForRange(segments, Swapped(range), newId, next) == SplitSegmentsForRange(segments, range, newId, next)
    decreases |segments|
  {
    if segments != [] {
      var head, tail := segments[0], segments[1..];
      var n := next + 3;
      assert CutText(head.text, Swapped(range)) == CutText(head.text, range);
      calc {
        SplitSegmentsForRange(segments, Swapped(range), newId, next);
        Replacement(head, Swapped(range), newId, next) + SplitSegmentsForRange(tail, Swapped(range), newId, n);
        { SplitSymmetric(tail, range, newId, n); }
        Replacement(head, range, newId, next) + SplitSegmentsForRange(tail, range, newId, n);
        SplitSegmentsForRange(segments, range, newId, next);
      }
    }
  }

  // ---------------------------------------------------------------------------
  // applyStyleToRange

  /** A segment the range names by its start or its end id. */
  predicate Named(id: Id, range: SelectionRange) {
    id == range.startSegmentId || id == range.endSegmentId
  }

  /** `{ ...style, [key]: !style[key] }`: the flag becomes present and takes the negation of its truthiness. */
  function ToggleFlag(st: SegmentStyle, key: StyleKey): (r: SegmentStyle)
    ensures FlagOf(r, key) == Present(!IsOn(FlagOf(st, key)))
    ensures forall other :: other != key ==> FlagOf(r, other) == FlagOf(st, other)
  {
    WithFlag(st, key, Present(!IsOn(FlagOf(st, key))))
  }

  /**
   * Flips `key` on each segment named by the range's start or end id (once,
   * even when both ids are the same); ids, texts, order and every other flag
   * are kept, and segments not named are returned as they are.
   */
  function ApplyStyleToRange(segments: seq<Segment>, range: SelectionRange, key: StyleKey): (r: seq<Segment>)
    ensures |r| == |segments|
    ensures forall i :: 0 <= i < |r| ==> r[i].id == segments[i].id && r[i].text == segments[i].text
    ensures forall i :: 0 <= i < |r| && !Named(segments[i].id, range) ==> r[i] == segments[i]
    ensures forall i :: 0 <= i < |r| && Named(segments[i].id, range) ==>
              FlagOf(r[i].style, key).Present? && IsOn(FlagOf(r[i].style, key)) == !IsOn(FlagOf(segments[i].style, key))
    ensures forall i, other :: 0 <= i < |r| && other != key ==> FlagOf(r[i].style, other) == FlagOf(segments[i].style, other)
  {
    seq(|segments|, i requires 0 <= i < |segments| =>
      if Named(segments[i].id, range) then segments[i].(style := ToggleFlag(segments[i].style, key))
      else segments[i])
  }

  /**
   * Applying the same toggle twice restores every flag's truthiness (an
   * absent flag reading as false) and leaves ids and texts as they were.
   */
  lemma ApplyStyleTwiceRestoresFlags(segments: seq<Segment>, range: SelectionRange, key: StyleKey)
    ensures var r := ApplyStyleToRange(ApplyStyleToRange(segments, range, key), range, key);
            |r| == |segments| &&
            forall i, k :: 0 <= i < |r| ==>
              r[i].id == segments[i].id && r[i].text == segments[i].text &&
              IsOn(FlagOf(r[i].style, k)) == IsOn(FlagOf(segments[i].style, k))
  {
    var once := ApplyStyleToRange(segments, range, key);
    var r := ApplyStyleToRange(once, range, key);
    forall i, k | 0 <= i < |r|
      ensures IsOn(FlagOf(r[i].style, k)) == IsOn(FlagOf(segments[i].style, k))
    {
      assert once[i].id == segments[i].id;
    }
  }

  /**
   * Applying the same toggle twice gives back exactly the list it started
   * from if and only if every named segment already holds the flag
   * explicitly.
   */
  lemma ApplyStyleTwiceIsIdentity(segments: seq<Segment>, range: SelectionRange, key: StyleKey)
    ensures ApplyStyleToRange(ApplyStyleToRange(segments, range, key), range, key) == segments
            <==> forall i :: 0 <= i < |segments| && Named(segments[i].id, range) ==> FlagOf(segments[i].style, key).Present?
  {
    var once := ApplyStyleToRange(segments, range, key);
    var r := ApplyStyleToRange(once, range, key);
    if forall i :: 0 <= i < |segments| && Named(segments[i].id, range) ==> FlagOf(segments[i].style, key).Present? {
      forall i | 0 <= i < |r|
        ensures r[i] == segments[i]
      {
        if Named(segments[i].id, range) {
          var s, t := segments[i].style, r[i].style;
          assert FlagOf(t, key) == FlagOf(s, key);
          forall k ensures FlagOf(t, k) == FlagOf(s, k) {
            if k != key { assert FlagOf(once[i].style, k) == FlagOf(s, k); }
          }
          assert FlagOf(t, Bold) == FlagOf(s, Bold) && FlagOf(t, Italic) == FlagOf(s, Italic);
          assert FlagOf(t, Underline) == FlagOf(s, Underline) && FlagOf(t, Strikethrough) == FlagOf(s, Strikethrough);
        }
      }
    }
    if r == segments {
      forall i | 0 <= i < |segments| && Named(segments[i].id, range)
        ensures FlagOf(segments[i].style, key).Present?
      {
        assert once[i].id == segments[i].id;
        assert FlagOf(r[i].style, key).Present?;
      }
    }
  }

  /** An absent flag does not come back as absent: toggling twice leaves it explicitly false. */
  lemma ApplyStyleTwiceMaterializesAbsentFlag()
    ensures var segs := [Segment("s", "x", SegmentStyle(Absent, Absent, Absent, Absent))];
            var range := SelectionRange("s", 0, "s", 0);
            ApplyStyleToRange(ApplyStyleToRange(segs, range, Bold), range, Bold)
              == [Segment("s", "x", SegmentStyle(Present(false), Absent, Absent, Absent))]
  {
    var segs := [Segment("s", "x", SegmentStyle(Absent, Absent, Absent, Absent))];
    var range := SelectionRange("s", 0, "s", 0);
    var once := ApplyStyleToRange(segs, range, Bold);
    assert once[0] == Segment("s", "x", SegmentStyle(Present(true), Absent, Absent, Absent));
  }

  // ---------------------------------------------------------------------------
  // isCharSelected

  /**
   * True exactly when there is a range, both of its ends name `segmentId`, and
   * `charIndex` lies between the two offsets, whichever of them is larger.
   */
  function IsCharSelected(range: Option<SelectionRange>, segmentId: Id, charIndex: int): (r: bool)
    ensures r <==> range.Some? && range.value.startSegmentId == segmentId && range.value.endSegmentId == segmentId &&
                   (range.value.startOffset <= charIndex <= range.value.endOffset ||
                    range.value.endOffset <= charIndex <= range.value.startOffset)
  {
    match range
    case None => false
    case Some(rg) =>
      if rg.startSegmentId == segmentId && rg.endSegmentId == segmentId then
        var lo, hi := Min(rg.startOffset, rg.endOffset), Max(rg.startOffset, rg.endOffset);
        charIndex >= lo && charIndex <= hi
      else false
  }
}
