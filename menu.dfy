/**
 * The floating style menu as a state machine over its own fields: the weight
 * axis and the size axis each hold a pressed flag, an adjusting flag, the
 * scaled x at the press, the value at the press, the live value and the last
 * announced value. Each pointer handler is one method call; the effects React
 * runs after the handler (applying a changed value to the document, firing a
 * tone for a new value) run at its end. The rich-text document is abstracted
 * to its current weight and size and the log of commands applied to it.
 */
module Menu {
  import opened Gesture

  /** A command sent to the rich-text document. */
  datatype EditorCommand = SetFontWeight(weight: int) | SetFontSize(size: int)

  class FloatingMenu {
    // weight axis
    var fontWeight: int
    var isPointerDown: bool
    var isAdjusting: bool
    var startX: int
    var initialWeight: int
    var lastStep: int

    // size axis
    var fontSize: int
    var isFontSizePointerDown: bool
    var isAdjustingFontSize: bool
    var fontSizeStartX: int
    var initialFontSize: int
    var lastFontSize: int

    /** Whether the last value change came from a tap (animated) rather than a drag. */
    var shouldBounce: bool

    // the document: its current text-style attributes and the commands applied to it
    var documentWeight: int
    var documentSize: int
    ghost var applied: seq<EditorCommand>

    // the tone keys announced so far, per axis
    ghost var weightTones: seq<int>
    ghost var sizeTones: seq<int>

    /**
     * The document always shows the live values, the last announced value of
     * each axis is its live value, no axis is adjusting unless pressed, and
     * no tone is announced twice in a row.
     */
    ghost predicate Valid()
      reads this
    {
      && documentWeight == fontWeight && documentSize == fontSize
      && lastStep == fontWeight && lastFontSize == fontSize
      && (!isPointerDown ==> !isAdjusting)
      && (!isFontSizePointerDown ==> !isAdjustingFontSize)
      && NoAdjacentRepeats(weightTones) && (|weightTones| > 0 ==> weightTones[|weightTones| - 1] == lastStep)
      && NoAdjacentRepeats(sizeTones) && (|sizeTones| > 0 ==> sizeTones[|sizeTones| - 1] == lastFontSize)
    }

    ghost function WeightSession(): Session
      reads this
    {
      Session(isPointerDown, isAdjusting, startX, initialWeight, fontWeight)
    }

    ghost function SizeSession(): Session
      reads this
    {
      Session(isFontSizePointerDown, isAdjustingFontSize, fontSizeStartX, initialFontSize, fontSize)
    }

    /**
     * Mounting the menu for a selection whose weight and size are given:
     * the values are applied to the document and announced against the
     * initial last values 100 and 16.
     */
    constructor (selectedWeight: int, selectedSize: int)
      ensures Valid()
      ensures WeightSession() == Session(false, false, 0, 100, selectedWeight)
      ensures SizeSession() == Session(false, false, 0, 16, selectedSize)
      ensures !shouldBounce
      ensures applied == [SetFontWeight(selectedWeight), SetFontSize(selectedSize)]
      ensures weightTones == Announced(100, [selectedWeight])
      ensures sizeTones == Announced(16, [selectedSize])
    {
      fontWeight, isPointerDown, isAdjusting, startX, initialWeight, lastStep := selectedWeight, false, false, 0, 100, 100;
      fontSize, isFontSizePointerDown, isAdjustingFontSize, fontSizeStartX, initialFontSize, lastFontSize := selectedSize, false, false, 0, 16, 16;
      shouldBounce := false;
      // the mount effects: both values are applied to the document and announced
      documentWeight, documentSize := selectedWeight, selectedSize;
      applied := [SetFontWeight(selectedWeight), SetFontSize(selectedSize)];
      weightTones := if selectedWeight != 100 then [selectedWeight] else [];
      sizeTones := if selectedSize != 16 then [selectedSize] else [];
      lastStep, lastFontSize := selectedWeight, selectedSize;
      AnnouncedHasNoRepeats(100, [selectedWeight]);
      AnnouncedHasNoRepeats(16, [selectedSize]);
    }

    /** The effect that applies the live weight to the document when its dependencies changed. */
    method FontWeightEffect(depsChanged: bool)
      modifies this`documentWeight, this`applied
      ensures documentWeight == if depsChanged then fontWeight else old(documentWeight)
      ensures applied == old(applied) + if depsChanged then [SetFontWeight(fontWeight)] else []
    {
      if depsChanged {
        documentWeight := fontWeight;
        applied := applied + [SetFontWeight(fontWeight)];
      }
    }

    /** The effect that announces the live weight when it differs from the last announced one. */
    method WeightToneEffect()
      requires NoAdjacentRepeats(weightTones) && (|weightTones| > 0 ==> weightTones[|weightTones| - 1] == lastStep)
      modifies this`lastStep, this`weightTones
      ensures NoAdjacentRepeats(weightTones) && (|weightTones| > 0 ==> weightTones[|weightTones| - 1] == lastStep)
      ensures lastStep == fontWeight
      ensures weightTones == old(weightTones) + Announced(old(lastStep), [fontWeight])
    {
      AnnounceExtendsLog(weightTones, lastStep, fontWeight);
      if lastStep != fontWeight {
        weightTones := weightTones + [fontWeight];
        lastStep := fontWeight;
      }
    }

    /** The effect that applies the live size to the document when its dependencies changed. */
    method FontSizeEffect(depsChanged: bool)
      modifies this`documentSize, this`applied
      ensures documentSize == if depsChanged then fontSize else old(documentSize)
      ensures applied == old(applied) + if depsChanged then [SetFontSize(fontSize)] else []
    {
      if depsChanged {
        documentSize := fontSize;
        applied := applied + [SetFontSize(fontSize)];
      }
    }

    /** The effect that announces the live size when it differs from the last announced one. */
    method SizeToneEffect()
      requires NoAdjacentRepeats(sizeTones) && (|sizeTones| > 0 ==> sizeTones[|sizeTones| - 1] == lastFontSize)
      modifies this`lastFontSize, this`sizeTones
      ensures NoAdjacentRepeats(sizeTones) && (|sizeTones| > 0 ==> sizeTones[|sizeTones| - 1] == lastFontSize)
      ensures lastFontSize == fontSize
      ensures sizeTones == old(sizeTones) + Announced(old(lastFontSize), [fontSize])
    {
      AnnounceExtendsLog(sizeTones, lastFontSize, fontSize);
      if lastFontSize != fontSize {
        sizeTones := sizeTones + [fontSize];
        lastFontSize := fontSize;
      }
    }

    /**
     * The effects after a handler, in declaration order: a value is applied
     * to the document when it or the bounce flag changed, and announced when
     * it differs from the last announced value.
     */
    method RunEffects(prevWeight: int, prevSize: int, prevBounce: bool)
      requires documentWeight == prevWeight && lastStep == prevWeight
      requires documentSize == prevSize && lastFontSize == prevSize
      requires NoAdjacentRepeats(weightTones) && (|weightTones| > 0 ==> weightTones[|weightTones| - 1] == lastStep)
      requires NoAdjacentRepeats(sizeTones) && (|sizeTones| > 0 ==> sizeTones[|sizeTones| - 1] == lastFontSize)
      requires (!isPointerDown ==> !isAdjusting) && (!isFontSizePointerDown ==> !isAdjustingFontSize)
      modifies this`documentWeight, this`documentSize, this`applied, this`lastStep, this`lastFontSize, this`weightTones, this`sizeTones
      ensures Valid()
      ensures applied == old(applied)
                         + (if fontWeight != prevWeight || shouldBounce != prevBounce then [SetFontWeight(fontWeight)] else [])
                         + (if fontSize != prevSize || shouldBounce != prevBounce then [SetFontSize(fontSize)] else [])
      ensures weightTones == old(weightTones) + Announced(prevWeight, [fontWeight])
      ensures sizeTones == old(sizeTones) + Announced(prevSize, [fontSize])
    {
      FontWeightEffect(fontWeight != prevWeight || shouldBounce != prevBounce);
      WeightToneEffect();
      FontSizeEffect(fontSize != prevSize || shouldBounce != prevBounce);
      SizeToneEffect();
    }

    /** A new selection style arrives: both live values follow it. */
    method SyncSelectedStyle(selectedWeight: int, selectedSize: int)
      requires Valid()
      modifies this
      ensures Valid()
      ensures WeightSession() == old(WeightSession()).(value := selectedWeight)
      ensures SizeSession() == old(SizeSession()).(value := selectedSize)
      ensures shouldBounce == old(shouldBounce)
      ensures applied == old(applied)
                         + (if selectedWeight != old(fontWeight) then [SetFontWeight(selectedWeight)] else [])
                         + (if selectedSize != old(fontSize) then [SetFontSize(selectedSize)] else [])
      ensures weightTones == old(weightTones) + Announced(old(fontWeight), [selectedWeight])
      ensures sizeTones == old(sizeTones) + Announced(old(fontSize), [selectedSize])
    {
      var w, s, b := fontWeight, fontSize, shouldBounce;
      fontWeight, fontSize := selectedWeight, selectedSize;
      RunEffects(w, s, b);
    }

    // -------------------------------------------------------------------------
    // weight axis

    /** Tap on the bold button: bounce, and 400 if the document's weight is 700, else 700. */
    method ToggleBold()
      modifies this`shouldBounce, this`fontWeight
      ensures shouldBounce
      ensures fontWeight == ToggleBoldWeight(documentWeight)
    {
      shouldBounce := true;
      fontWeight := ToggleBoldWeight(documentWeight);
    }

    /** Press on the bold button: records the scaled x and the current weight. */
    method BoldPointerDown(clientX: int)
      requires Valid()
      modifies this
      ensures Valid()
      ensures WeightSession() == Step(Weight, old(WeightSession()), Down(clientX))
      ensures SizeSession() == old(SizeSession()) && shouldBounce == old(shouldBounce)
      ensures applied == old(applied) && weightTones == old(weightTones) && sizeTones == old(sizeTones)
    {
      isPointerDown := true;
      isAdjusting := false;
      startX := clientX * 5;
      initialWeight := fontWeight;
    }

    /**
     * A window pointer move seen by the weight axis: past the threshold the
     * weight becomes the candidate for the weight at the press and the
     * current distance, bounce is cleared, and a new weight is applied and
     * announced; otherwise nothing changes.
     */
    method PointerMove(clientX: int)
      requires Valid()
      modifies this
      ensures Valid()
      ensures WeightSession() == Step(Weight, old(WeightSession()), Move(clientX))
      ensures SizeSession() == old(SizeSession())
      ensures Crosses(Weight, old(WeightSession()), clientX) ==> Legal(Weight, fontWeight) && isAdjusting && !shouldBounce
      ensures !Crosses(Weight, old(WeightSession()), clientX) ==>
                shouldBounce == old(shouldBounce) && applied == old(applied) && weightTones == old(weightTones)
      ensures Crosses(Weight, old(WeightSession()), clientX) ==>
                applied == old(applied)
                           + (if fontWeight != old(fontWeight) || old(shouldBounce) then [SetFontWeight(fontWeight)] else [])
                           + (if old(shouldBounce) then [SetFontSize(fontSize)] else [])
      ensures weightTones == old(weightTones) + Announced(old(fontWeight), [fontWeight])
      ensures sizeTones == old(sizeTones)
    {
      if !isPointerDown {
        return;
      }
      var currentX := clientX * 5;
      var delta := currentX - startX;
      if Abs(delta) > DragThreshold {
        var w, s, b := fontWeight, fontSize, shouldBounce;
        isAdjusting := true;
        shouldBounce := false;
        fontWeight := WeightCandidate(initialWeight, delta);
        RunEffects(w, s, b);
      }
    }

    /**
     * A window pointer release seen by the weight axis: a tap (no drag since
     * the press) toggles the weight; the release clears pressed and adjusting.
     */
    method PointerUp()
      requires Valid()
      modifies this
      ensures Valid()
      ensures WeightSession() == Step(Weight, old(WeightSession()), Up)
      ensures SizeSession() == old(SizeSession())
      ensures shouldBounce == (old(shouldBounce) || (old(isPointerDown) && !old(isAdjusting)))
      ensures old(isPointerDown) && !old(isAdjusting) ==>
                applied == old(applied) + [SetFontWeight(fontWeight)]
                           + (if !old(shouldBounce) then [SetFontSize(fontSize)] else [])
      ensures !(old(isPointerDown) && !old(isAdjusting)) ==> applied == old(applied)
      ensures weightTones == old(weightTones) + Announced(old(fontWeight), [fontWeight])
      ensures sizeTones == old(sizeTones)
    {
      if !isPointerDown {
        return;
      }
      var w, s, b := fontWeight, fontSize, shouldBounce;
      if !isAdjusting {
        ToggleBold();
      }
      isPointerDown := false;
      isAdjusting := false;
      RunEffects(w, s, b);
    }

    // -------------------------------------------------------------------------
    // size axis

    /** Tap on the size button: bounce, and 24 -> 16, 20 -> 24, anything else -> 20 by the document's size. */
    method ToggleFontSize()
      modifies this`shouldBounce, this`fontSize
      ensures shouldBounce
      ensures fontSize == ToggleFontSizeValue(documentSize)
    {
      shouldBounce := true;
      fontSize := ToggleFontSizeValue(documentSize);
    }

    /** Press on the size button: records the scaled x and the current size. */
    method FontSizePointerDown(clientX: int)
      requires Valid()
      modifies this
      ensures Valid()
      ensures SizeSession() == Step(Size, old(SizeSession()), Down(clientX))
      ensures WeightSession() == old(WeightSession()) && shouldBounce == old(shouldBounce)
      ensures applied == old(applied) && weightTones == old(weightTones) && sizeTones == old(sizeTones)
    {
      isFontSizePointerDown := true;
      isAdjustingFontSize := false;
      fontSizeStartX := clientX * 2;
      initialFontSize := fontSize;
    }

    /** A window pointer move seen by the size axis; the counterpart of PointerMove. */
    method FontSizePointerMove(clientX: int)
      requires Valid()
      modifies this
      ensures Valid()
      ensures SizeSession() == Step(Size, old(SizeSession()), Move(clientX))
      ensures WeightSession() == old(WeightSession())
      ensures Crosses(Size, old(SizeSession()), clientX) ==> Legal(Size, fontSize) && isAdjustingFontSize && !shouldBounce
      ensures !Crosses(Size, old(SizeSession()), clientX) ==>
                shouldBounce == old(shouldBounce) && applied == old(applied) && sizeTones == old(sizeTones)
      ensures Crosses(Size, old(SizeSession()), clientX) ==>
                applied == old(applied)
                           + (if old(shouldBounce) then [SetFontWeight(fontWeight)] else [])
                           + (if fontSize != old(fontSize) || old(shouldBounce) then [SetFontSize(fontSize)] else [])
      ensures sizeTones == old(sizeTones) + Announced(old(fontSize), [fontSize])
      ensures weightTones == old(weightTones)
    {
      if !isFontSizePointerDown {
        return;
      }
      var currentX := clientX * 2;
      var delta := currentX - fontSizeStartX;
      if Abs(delta) > DragThreshold {
        var w, s, b := fontWeight, fontSize, shouldBounce;
        isAdjustingFontSize := true;
        shouldBounce := false;
        fontSize := SizeCandidate(initialFontSize, delta);
        RunEffects(w, s, b);
      }
    }

    /** A window pointer release seen by the size axis; the counterpart of PointerUp. */
    method FontSizePointerUp()
      requires Valid()
      modifies this
      ensures Valid()
      ensures SizeSession() == Step(Size, old(SizeSession()), Up)
      ensures WeightSession() == old(WeightSession())
      ensures shouldBounce == (old(shouldBounce) || (old(isFontSizePointerDown) && !old(isAdjustingFontSize)))
      ensures old(isFontSizePointerDown) && !old(isAdjustingFontSize) ==>
                applied == old(applied) + (if !old(shouldBounce) then [SetFontWeight(fontWeight)] else [])
                           + [SetFontSize(fontSize)]
      ensures !(old(isFontSizePointerDown) && !old(isAdjustingFontSize)) ==> applied == old(applied)
      ensures sizeTones == old(sizeTones) + Announced(old(fontSize), [fontSize])
      ensures weightTones == old(weightTones)
    {
      if !isFontSizePointerDown {
        return;
      }
      var w, s, b := fontWeight, fontSize, shouldBounce;
      if !isAdjustingFontSize {
        ToggleFontSize();
      }
      isFontSizePointerDown := false;
      isAdjustingFontSize := false;
      RunEffects(w, s, b);
    }
  }
}
