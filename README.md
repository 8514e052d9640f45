# Styled segments and drag-to-style controls of the memo editor

This project is a Dafny model of the two parts of the memo editor that carry real logic.

- **The segment store** (`segments.dfy`, module `Segments`). A document is an ordered list of segments. Each segment has an id, a text and four optional boolean style flags: bold, italic, underline and strikethrough.
  - `SplitSegmentsForRange` cuts the segment a selection starts in into left, middle and right pieces and drops the empty ones.
  - `ApplyStyleToRange` flips one flag on the segments the selection names.
  - `IsCharSelected` decides whether a character index lies in a single-segment selection.
  - JavaScript's `String.prototype.slice` is modelled with its negative indices and its clamping, over positions in the sequence of characters (see "## Left out" for texts outside the Basic Multilingual Plane).
- **The gesture controller of the floating menu** (`gesture.dfy`, module `Gesture`, and `menu.dfy`, module `Menu`). The weight axis and the size axis each turn a press, a series of moves and a release into one of two outcomes:
  - a **tap**: toggle between presets. Weight goes 700 → 400 and anything else → 700. Size goes 24 → 16, 20 → 24 and anything else → 20.
  - a **drag**: the pointer's scaled horizontal distance maps to a quantized value. Weight uses `round((initial + delta) / 100) * 100` clamped to [100, 900]. Size uses `round(initial + delta / 20)` clamped to [16, 24].
  - Scaled moves of at most 5 units are ignored (the deadband).
  - A tone is announced whenever the value differs from the last announced one.

  `Gesture` holds the arithmetic and a pure step function per axis (`Step`, `Run`), and states the session-level properties about them. `Menu.FloatingMenu` is a class with the component's own fields (`isPointerDown`, `isAdjusting`, `startX`, `initialWeight`, `fontWeight`, `lastStep` and their size counterparts, plus `shouldBounce`). Its handler methods each prove that the axis state after the call equals `Step` applied to the state before it. They also prove that the class invariant `Valid()` is kept.

Pointer coordinates are integers. `Math.round(n / d)` then equals `floor(n/d + 1/2)`, computed exactly as `(2n + d) div 2d` (`RoundDiv`).

After each handler, React runs the component's effects. The model runs them at the end of each handler method, in declaration order:
- A value is applied to the document when it changed or when `shouldBounce` changed.
- A value is announced when it differs from the last announced value (the `lastStepRef` / `lastFontSizeRef` check).

The rich-text document is reduced to two parts: its current weight and size (`documentWeight`, `documentSize`), and a ghost log of the `setFontWeight` / `setFontSize` commands it received. `editor.isActive('textStyle', { fontWeight: 700 })` is read as `documentWeight == 700`. The size checks are read the same way.

Two behaviours of the code are worth stating plainly:
- **Toggling twice does not give back the same list.** `!seg.style[key]` turns an absent flag into `true`, then `false`, and never back into an absent one. The model proves that toggling twice restores every flag's truth value (`ApplyStyleTwiceRestoresFlags`), and that it restores the list if and only if every named segment held the flag explicitly (`ApplyStyleTwiceIsIdentity`). `ApplyStyleTwiceMaterializesAbsentFlag` shows an absent flag coming back as `false`.
- **The bold tap tests equality with 700.** It tests `isActive('textStyle', { fontWeight: 700 })`, so a tap at 700 gives 400 and a tap at any other weight, 800 included, gives 700 (`TapCyclesPresets`).

## Model

| member | source | states |
|---|---|---|
| `Segments.SliceIndex` | app/src/utils.ts:14-16 | how `slice` reads an index: in-range indices are kept, larger ones clamp to the length, and the result never exceeds the length |
| `Segments.Slice` | app/src/utils.ts:14-15 | `slice(from, to)` within the text is exactly `text[from..to]`, is empty when `0 <= to <= from`, and is never longer than the text |
| `Segments.SliceFrom` | app/src/utils.ts:16 | `slice(from)` is the suffix from `from`; past the end it is empty; a negative `from` keeps the last `-from` characters |
| `Segments.CutText` | app/src/utils.ts:11-16 | the cut points are the smaller and the larger offset: with non-negative offsets the three lengths add up to the text's length, and for in-range offsets the left cut has `lo` characters and the middle `hi - lo + 1` |
| `Segments.CutsCoverText` | app/src/utils.ts:14-16 | with non-negative offsets the three slices concatenate back to the segment's text |
| `Segments.Pieces` | app/src/utils.ts:18-28 | at most three pieces, each with non-empty text and the original style, each id drawn from the segment's three id slots |
| `Segments.SplitSegmentsForRange` | app/src/utils.ts:3-30 | the split list is at most three times as long as the input |
| `Segments.SplitPreservesText` | app/src/utils.ts:14-16 | with non-negative offsets the document's plain text is unchanged by a split |
| `Segments.SplitNegativeOffsetDuplicatesText` | app/src/utils.ts:14-16 | with a negative offset the slices overlap: splitting "abc" at -1,-1 gives plain text "ababc" |
| `Segments.SplitPassesOthersThrough` | app/src/utils.ts:6-9 | segments other than the target, and fresh pieces aside, appear unchanged and in their original order |
| `Segments.SplitAbsentTargetIsIdentity` | app/src/utils.ts:6-9 | a range whose start id names no segment leaves the list unchanged |
| `Segments.SplitMiddlePiece` | app/src/utils.ts:11-15 | for in-range offsets the three cuts are `text[..lo]`, `text[lo..hi+1]` and `text[hi+1..]`, with `lo` and `hi` the smaller and larger offset (before empty cuts are dropped) |
| `Segments.SplitSymmetric` | app/src/utils.ts:11-12 | swapping start and end offsets gives the same split |
| `Segments.ToggleFlag` | app/src/utils.ts:39-44 | the flag becomes present with the negation of its truthiness; other flags are kept |
| `Segments.ApplyStyleToRange` | app/src/utils.ts:32-49 | length, order, ids and texts kept; `key` flipped exactly once on segments named by start or end id; unnamed segments and other flags untouched |
| `Segments.ApplyStyleTwiceRestoresFlags` | app/src/utils.ts:43 | toggling twice restores every flag's truth value, an absent flag reading as false |
| `Segments.ApplyStyleTwiceIsIdentity` | app/src/utils.ts:37-48 | toggling twice gives back the same list if and only if every named segment holds the flag explicitly |
| `Segments.ApplyStyleTwiceMaterializesAbsentFlag` | app/src/utils.ts:39-44 | an absent flag toggled twice becomes an explicit false |
| `Segments.IsCharSelected` | app/src/utils.ts:51-67 | true iff a range is given, both ends name the segment, and the index lies between the two offsets in either order |
| `Gesture.RoundDiv` | app/src/components/FloatingMenu.tsx:190 | the result is the integer nearest to n/d, with halves rounded up |
| `Gesture.WeightCandidate` | app/src/components/FloatingMenu.tsx:189-192 | a dragged weight is a multiple of 100 in [100, 900] |
| `Gesture.SizeCandidate` | app/src/components/FloatingMenu.tsx:248-253 | a dragged size is an integer in [16, 24] |
| `Gesture.WeightCandidateIsNearest` | app/src/components/FloatingMenu.tsx:188-192 | no legal weight is closer to `initial + delta` than the dragged weight |
| `Gesture.SizeCandidateIsNearest` | app/src/components/FloatingMenu.tsx:248-253 | no legal size is closer to `initial + delta / 20` than the dragged size |
| `Gesture.DragRoundsHalfUp` | app/src/components/FloatingMenu.tsx:190 | 400 dragged by 150 gives 600; size 20 dragged by -10 stays 20; 16 dragged by 10 gives 17 |
| `Gesture.CandidateMonotone` | app/src/components/FloatingMenu.tsx:180-253 | a larger drag distance never gives a smaller value |
| `Gesture.ToggleBoldWeight` | app/src/components/FloatingMenu.tsx:147-149 | a bold tap gives the preset 400 or 700, always different from the current weight |
| `Gesture.ToggleFontSizeValue` | app/src/components/FloatingMenu.tsx:219-224 | a size tap gives the preset 16, 20 or 24, always different from the current size |
| `Gesture.TapCyclesPresets` | app/src/components/FloatingMenu.tsx:147-224 | only 700 taps to 400 and every other weight to 700, so 400 and 700 alternate; sizes go 16 → 20 → 24 → 16 and a non-preset size goes to 20 |
| `Gesture.WeightSound` | app/src/components/FloatingMenu.tsx:22-32 | the weight tone map has a sound exactly for the legal weights |
| `Gesture.SizeSound` | app/src/components/FloatingMenu.tsx:34-44 | the size tone map has a sound exactly for the legal sizes |
| `Gesture.Sound` | app/src/components/FloatingMenu.tsx:22-44 | on either axis a tone file exists exactly for the legal values |
| `Gesture.Announced` | app/src/components/FloatingMenu.tsx:104-111 | the tone keys the effect announces over a run of values: a value is announced when it differs from the one announced before it (its properties are the lemmas below) |
| `Gesture.AnnouncedHasNoRepeats` | app/src/components/FloatingMenu.tsx:104-111 | announced tone keys never repeat back to back, and the first differs from the last key announced before (keys 800 and 900, or sizes 22 and 23, still share a sound file) |
| `Gesture.ConstantRunAnnouncesOnce` | app/src/components/FloatingMenu.tsx:127-132 | a run of equal values announces once if the value is new, otherwise never |
| `Gesture.AnnouncedKeysHaveSounds` | app/src/components/FloatingMenu.tsx:104-111 | when every value of a run is legal, every announced key has a tone file, so `?.play()` always finds one |
| `Gesture.AnnounceExtendsLog` | app/src/components/FloatingMenu.tsx:105-110 | announcing one more value keeps a tone log free of back-to-back repeats |
| `Gesture.Step` | app/src/components/FloatingMenu.tsx:164-265 | the per-event transition of one axis's down, move and up handlers (its properties are `StepKeepsInvariants`, `TapOrDrag` and the handler methods of `Menu.FloatingMenu`) |
| `Gesture.StepKeepsInvariants` | app/src/components/FloatingMenu.tsx:164-205 | every pointer event keeps a legal value legal and adjusting only while pressed; the value changes only on a move past the threshold or on a tap's release; a release clears both flags when adjusting held only while pressed; only a press moves the recorded start and initial value; a move or release without a press changes nothing |
| `Gesture.LastDrag` | app/src/components/FloatingMenu.tsx:180-183 | no crossing move exists iff every move stays within the deadband |
| `Gesture.RunKeepsLegal` | app/src/components/FloatingMenu.tsx:183-192 | once the value is legal, every event sequence keeps it legal |
| `Gesture.RunAlwaysHasSound` | app/src/components/FloatingMenu.tsx:104-111 | from a legal value, the value after any event sequence has a tone file |
| `Gesture.MovesDependOnlyOnLastDrag` | app/src/components/FloatingMenu.tsx:176-194 | during a press the value depends only on the baseline and the last crossing move's distance |
| `Gesture.TapOrDrag` | app/src/components/FloatingMenu.tsx:196-205 | a press-moves-release session toggles iff no move crossed the threshold, otherwise keeps the last drag's value; both flags end cleared |
| `Menu.FloatingMenu.constructor` | app/src/components/FloatingMenu.tsx:48-76 | mounting applies both values and announces them against the initial last values 100 and 16 |
| `Menu.FloatingMenu.SyncSelectedStyle` | app/src/components/FloatingMenu.tsx:81-86 | a new selection style replaces both live values; changed ones are applied and announced |
| `Menu.FloatingMenu.FontWeightEffect` | app/src/components/FloatingMenu.tsx:88-101 | the weight is sent to the document when its dependencies changed |
| `Menu.FloatingMenu.WeightToneEffect` | app/src/components/FloatingMenu.tsx:104-111 | a weight differing from the last announced one is announced and becomes the last |
| `Menu.FloatingMenu.FontSizeEffect` | app/src/components/FloatingMenu.tsx:113-125 | the size is sent to the document when its dependencies changed |
| `Menu.FloatingMenu.SizeToneEffect` | app/src/components/FloatingMenu.tsx:127-132 | a size differing from the last announced one is announced and becomes the last |
| `Menu.FloatingMenu.RunEffects` | app/src/components/FloatingMenu.tsx:88-132 | after a handler the document shows the live values and the tone logs gain exactly the new values |
| `Menu.FloatingMenu.ToggleBold` | app/src/components/FloatingMenu.tsx:135-151 | sets bounce and the weight to 400 if the document's weight is 700, else 700 |
| `Menu.FloatingMenu.BoldPointerDown` | app/src/components/FloatingMenu.tsx:165-173 | the weight axis takes `Step(Down)`: pressed, not adjusting, x×5 and the weight recorded |
| `Menu.FloatingMenu.PointerMove` | app/src/components/FloatingMenu.tsx:177-194 | the weight axis takes `Step(Move)`; after a drag move the weight is legal, adjusting is set and bounce cleared; within the deadband nothing changes |
| `Menu.FloatingMenu.PointerUp` | app/src/components/FloatingMenu.tsx:196-205 | the weight axis takes `Step(Up)`; only a tap sets bounce and sends a command |
| `Menu.FloatingMenu.ToggleFontSize` | app/src/components/FloatingMenu.tsx:216-227 | sets bounce and the size to 16 after 24, 24 after 20, otherwise 20 |
| `Menu.FloatingMenu.FontSizePointerDown` | app/src/components/FloatingMenu.tsx:229-235 | the size axis takes `Step(Down)`: pressed, not adjusting, x×2 and the size recorded |
| `Menu.FloatingMenu.FontSizePointerMove` | app/src/components/FloatingMenu.tsx:238-255 | the size axis takes `Step(Move)`; after a drag move the size is legal, adjusting is set and bounce cleared |
| `Menu.FloatingMenu.FontSizePointerUp` | app/src/components/FloatingMenu.tsx:257-265 | the size axis takes `Step(Up)`; only a tap sets bounce and sends a command |

## Left out

- `crypto.randomUUID` (app/src/utils.ts:19,22,25) is a foreign call. It is a parameter `newId: nat -> Id`, and the k-th segment of the list owns the three id slots `newId(next + 3k)`, `newId(next + 3k + 1)` and `newId(next + 3k + 2)` for its left, middle and right pieces; a piece whose text is empty is dropped and its slot goes unused, just as the source calls `crypto.randomUUID` only for non-empty pieces. Since the ids are random, only their freshness matters. Lemmas that need the ids to be new say so in their `requires`.
- The rich-text editor library (`editor.chain()`, `setMark`, `isActive`, `getHTML`, the extension definitions in RichTextEditor.tsx) is an external library. It is reduced to the document's current weight and size and a log of applied commands.
- With no editor, `toggleBold` returns early and `toggleFontSize` falls back to 20. This is not modelled, because the menu renders nothing without an editor, so no press can start.
- `toggleBold` schedules a second `setFontWeight` and `setTextSelection` with `setTimeout`. This deferred asynchronous work is not modelled. It re-applies the weight the effect has already applied.
- React's render scheduling and batching, and adding and removing window listeners, are not modelled. Each handler is one sequential method call followed by the effects. A single window event that reaches both axes' listeners is modelled as two calls, each with its own effects, not as one batched render.
- Positions in texts are positions in Dafny's sequence of characters (Unicode scalar values). JavaScript's `slice` and the selection offsets count UTF-16 code units, so for a text holding a character outside the Basic Multilingual Plane (an emoji, say) the two disagree: in "a😀b" JavaScript puts "b" at offset 3 and `slice(0, 2)` ends in a lone surrogate, while the model puts "b" at offset 2 and `Slice("a😀b", 0, 2)` is "a😀". Lone surrogates are not modelled.
- Audio playback (`play()` and its failures) is device I/O. Announced tone keys go in ghost logs. `WeightSound` and `SizeSound` give the sound file each key maps to.
- Rendering is not modelled: the JSX, the framer-motion values, the visual effect of `shouldBounce`, and the step picker. This includes the picker's direct `setFontWeight(stepValue)` on a step. `shouldBounce` is kept only as a flag, because a change to it re-applies both values to the document.
- `console.log` of the weight is not modelled.
- Coordinates and values are integers. Fractional `clientX` and fractional or string-typed style values are not modelled: a weight parsed from HTML arrives as a string, and `+` would then concatenate.
- RichTextEditor.tsx touch selection, SelectionOverlay.tsx, App.tsx, Memo.tsx and CustomPointer.tsx are presentation and DOM geometry. They are not part of this model.
- `Selection`, `Position`, `StyleRange` and `EditorState` in types.ts are used by no logic and are not modelled.
