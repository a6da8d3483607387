/** components/ward/text-input-area.tsx: a text area with a handwriting canvas.
    The component is an event-driven state machine: its props, state and refs
    are fields, and each handler, effect, canvas callback and timer is a method.
    A timer firing is an event of its own; the signature canvas's
    `readSignature` answers with the `SignatureResult` event. `emitted` records
    the contents passed to `onChange`, `penMode` the last value passed to
    `onPenModeChange`. */
module TextInputArea {
  import opened Optional
  import opened Text
  import opened Types
  import opened Canvas

  const MEANINGFUL_DRAWING_LENGTH := 400

  /** `hasMeaningfulDrawing`: a non-blank image longer than 400 characters. */
  predicate HasMeaningfulDrawing(image: Option<string>) {
    HasTextOpt(image) && |image.value| > MEANINGFUL_DRAWING_LENGTH
  }

  /** `hasContent`: non-blank text or a meaningful drawing. */
  predicate HasContent(v: Option<DxPlanContent>) {
    HasText(TextOf(v)) || HasMeaningfulDrawing(ImageOf(v))
  }

  /** The rule here is strict: a 400-character drawing is not meaningful,
      while the investigations table counts it (`>= 400`). */
  lemma DrawingThreshold(image: string)
    requires |image| == 400
    ensures !HasMeaningfulDrawing(Some(image))
    ensures !HasContent(Some(DxPlanContent(None, Some(image))))
  {
    assert TextOf(Some(DxPlanContent(None, Some(image)))) == "";
    HasTextIff("");
  }

  lemma ContentIff(v: Option<DxPlanContent>)
    ensures HasContent(v) <==>
      (exists i :: 0 <= i < |TextOf(v)| && !IsSpace(TextOf(v)[i]))
      || (ImageOf(v).Some? && |ImageOf(v).value| > 400 && exists i :: 0 <= i < |ImageOf(v).value| && !IsSpace(ImageOf(v).value[i]))
  {
    HasTextIff(TextOf(v));
    if ImageOf(v).Some? { HasTextIff(ImageOf(v).value); }
  }

  /** `draft.trim() || undefined` */
  function TrimmedOrAbsent(s: string): (r: Option<string>)
    ensures r.None? <==> !HasText(s)
    ensures r.Some? ==> r.value == Trim(s) && r.value != []
  {
    if Trim(s) == [] then None else Some(Trim(s))
  }

  /** `x || undefined` */
  function NonEmptyOrAbsent(s: Option<string>): (r: Option<string>)
    ensures r.None? <==> s.None? || s.value == []
    ensures r.Some? ==> r == s
  {
    if s.Some? && s.value != [] then s else None
  }

  /** What `handleSignatureSave(signature)` emits: the trimmed draft (blank
      is absent), and the signature when it is not blank, else the stored
      image. */
  function SignatureContent(draft: string, signature: string, stored: Option<string>): (c: DxPlanContent)
    ensures c.text == TrimmedOrAbsent(draft)
    ensures HasText(signature) ==> c.image == Some(signature)
    ensures !HasText(signature) ==> c.image == NonEmptyOrAbsent(stored)
  {
    DxPlanContent(TrimmedOrAbsent(draft), NonEmptyOrAbsent(if HasText(signature) then Some(signature) else stored))
  }

  /** What the 200 ms fallback emits: the trimmed draft and the stored image. */
  function FallbackContent(draft: string, stored: Option<string>): (c: DxPlanContent)
    ensures c.text == TrimmedOrAbsent(draft) && c.image == stored
  {
    DxPlanContent(TrimmedOrAbsent(draft), stored)
  }

  class TextInputAreaState {
    var value: Option<DxPlanContent>
    var draftText: string
    var isEditing: bool
    var tool: Option<Tool>
    var canvasKey: nat
    var canvasReady: bool
    var pendingTool: Option<Tool>
    var showDiscardDrawingConfirm: bool
    var pendingSave: bool
    var penMode: bool
    var emitted: seq<DxPlanContent>

    constructor (value: Option<DxPlanContent>, initialEditing: bool)
      ensures this.value == value && draftText == TextOf(value) && isEditing == initialEditing
      ensures tool.None? && canvasKey == 0 && !canvasReady && pendingTool.None?
      ensures !showDiscardDrawingConfirm && !pendingSave && !penMode && emitted == []
    {
      this.value := value;
      draftText := TextOf(value);
      isEditing := initialEditing;
      tool := None;
      canvasKey := 0;
      canvasReady := false;
      pendingTool := None;
      showDiscardDrawingConfirm := false;
      pendingSave := false;
      penMode := false;
      emitted := [];
    }

    /** A new `value` prop; the draft follows it when `value?.text` changed. */
    method SetValue(v: Option<DxPlanContent>)
      modifies this
      ensures value == v
      ensures draftText == if TextField(v) != TextField(old(value)) then TextOf(v) else old(draftText)
      ensures isEditing == old(isEditing) && tool == old(tool) && canvasKey == old(canvasKey)
      ensures canvasReady == old(canvasReady) && pendingTool == old(pendingTool) && pendingSave == old(pendingSave)
      ensures emitted == old(emitted) && penMode == old(penMode) && showDiscardDrawingConfirm == old(showDiscardDrawingConfirm)
    {
      var changed := TextField(v) != TextField(value);
      value := v;
      if changed {
        draftText := TextOf(v);
      }
    }

    method TypeText(t: string)
      modifies this
      ensures draftText == t
      ensures value == old(value) && isEditing == old(isEditing) && tool == old(tool) && canvasKey == old(canvasKey)
      ensures canvasReady == old(canvasReady) && pendingTool == old(pendingTool) && pendingSave == old(pendingSave)
      ensures emitted == old(emitted) && penMode == old(penMode) && showDiscardDrawingConfirm == old(showDiscardDrawingConfirm)
    {
      draftText := t;
    }

    /** `exitDrawingMode` */
    method ExitDrawingMode()
      modifies this
      ensures tool.None? && !penMode
      ensures value == old(value) && draftText == old(draftText) && isEditing == old(isEditing) && canvasKey == old(canvasKey)
      ensures canvasReady == old(canvasReady) && pendingTool == old(pendingTool) && pendingSave == old(pendingSave)
      ensures emitted == old(emitted) && showDiscardDrawingConfirm == old(showDiscardDrawingConfirm)
    {
      tool := None;
      penMode := false;
    }

    /** A new canvas: the key is bumped, and the effect on the key resets
        readiness and the pending tool. */
    method RemountCanvas()
      modifies this
      ensures canvasKey == old(canvasKey) + 1 && !canvasReady && pendingTool.None?
      ensures value == old(value) && draftText == old(draftText) && isEditing == old(isEditing) && tool == old(tool)
      ensures pendingSave == old(pendingSave) && emitted == old(emitted) && penMode == old(penMode)
      ensures showDiscardDrawingConfirm == old(showDiscardDrawingConfirm)
    {
      canvasKey := canvasKey + 1;
      canvasReady := false;
      pendingTool := None;
    }

    /** The canvas reports it has loaded. */
    method CanvasLoaded()
      modifies this
      ensures canvasReady
      ensures value == old(value) && draftText == old(draftText) && isEditing == old(isEditing) && tool == old(tool)
      ensures canvasKey == old(canvasKey) && pendingTool == old(pendingTool) && pendingSave == old(pendingSave)
      ensures emitted == old(emitted) && penMode == old(penMode) && showDiscardDrawingConfirm == old(showDiscardDrawingConfirm)
    {
      canvasReady := true;
    }

    /** The 3000 ms readiness fallback, armed only while editing. */
    method ReadyTimeout()
      modifies this
      ensures canvasReady == (old(canvasReady) || old(isEditing))
      ensures value == old(value) && draftText == old(draftText) && isEditing == old(isEditing) && tool == old(tool)
      ensures canvasKey == old(canvasKey) && pendingTool == old(pendingTool) && pendingSave == old(pendingSave)
      ensures emitted == old(emitted) && penMode == old(penMode) && showDiscardDrawingConfirm == old(showDiscardDrawingConfirm)
    {
      if isEditing {
        canvasReady := true;
      }
    }

    /** The 150 ms timer armed when the canvas is ready with a pending tool:
        the pending tool is selected and cleared. */
    method PendingToolTimeout()
      modifies this
      ensures old(canvasReady) && old(pendingTool).Some? ==> tool == old(pendingTool) && penMode && pendingTool.None?
      ensures !(old(canvasReady) && old(pendingTool).Some?) ==> tool == old(tool) && penMode == old(penMode) && pendingTool == old(pendingTool)
      ensures value == old(value) && draftText == old(draftText) && isEditing == old(isEditing) && canvasKey == old(canvasKey)
      ensures canvasReady == old(canvasReady) && pendingSave == old(pendingSave) && emitted == old(emitted)
      ensures showDiscardDrawingConfirm == old(showDiscardDrawingConfirm)
    {
      if canvasReady && pendingTool.Some? {
        tool := pendingTool;
        penMode := true;
        pendingTool := None;
      }
    }

    /** `handleDraw` / `handleEraser`: select the tool when the canvas is
        ready (after an 80 ms deferral, taken as immediate), else remember it. */
    method ChooseTool(t: Tool)
      modifies this
      ensures old(canvasReady) ==> tool == Some(t) && penMode && pendingTool == old(pendingTool)
      ensures !old(canvasReady) ==> pendingTool == Some(t) && tool == old(tool) && penMode == old(penMode)
      ensures value == old(value) && draftText == old(draftText) && isEditing == old(isEditing) && canvasKey == old(canvasKey)
      ensures canvasReady == old(canvasReady) && pendingSave == old(pendingSave) && emitted == old(emitted)
      ensures showDiscardDrawingConfirm == old(showDiscardDrawingConfirm)
    {
      if canvasReady {
        tool := Some(t);
        penMode := true;
      } else {
        pendingTool := Some(t);
      }
    }

    /** `handleSave`: a save becomes pending and the canvas is asked for its
        signature; the 200 ms fallback is `SaveTimeout`. */
    method Save()
      modifies this
      ensures pendingSave
      ensures value == old(value) && draftText == old(draftText) && isEditing == old(isEditing) && tool == old(tool)
      ensures canvasKey == old(canvasKey) && canvasReady == old(canvasReady) && pendingTool == old(pendingTool)
      ensures emitted == old(emitted) && penMode == old(penMode) && showDiscardDrawingConfirm == old(showDiscardDrawingConfirm)
    {
      pendingSave := true;
    }

    /** `handleSignatureSave`: always emits; ends editing only when a save was
        pending, and clears the pending flag. */
    method SignatureResult(signature: string)
      modifies this
      ensures emitted == old(emitted) + [SignatureContent(old(draftText), signature, ImageOf(old(value)))]
      ensures old(pendingSave) ==> !pendingSave && !isEditing && tool.None? && !penMode
      ensures !old(pendingSave) ==> !pendingSave && isEditing == old(isEditing) && tool == old(tool) && penMode == old(penMode)
      ensures value == old(value) && draftText == old(draftText) && canvasKey == old(canvasKey)
      ensures canvasReady == old(canvasReady) && pendingTool == old(pendingTool)
      ensures showDiscardDrawingConfirm == old(showDiscardDrawingConfirm)
    {
      emitted := emitted + [SignatureContent(draftText, signature, ImageOf(value))];
      if pendingSave {
        pendingSave := false;
        isEditing := false;
        tool := None;
        penMode := false;
      }
    }

    /** The 200 ms fallback: only a still-pending save emits the draft with the
        stored image and ends editing; otherwise nothing happens. */
    method SaveTimeout()
      modifies this
      ensures !pendingSave
      ensures old(pendingSave) ==> emitted == old(emitted) + [FallbackContent(old(draftText), ImageOf(old(value)))]
      ensures old(pendingSave) ==> !isEditing && tool.None? && !penMode
      ensures !old(pendingSave) ==> emitted == old(emitted) && isEditing == old(isEditing)
      ensures !old(pendingSave) ==> tool == old(tool) && penMode == old(penMode)
      ensures value == old(value) && draftText == old(draftText) && canvasKey == old(canvasKey)
      ensures canvasReady == old(canvasReady) && pendingTool == old(pendingTool)
      ensures showDiscardDrawingConfirm == old(showDiscardDrawingConfirm)
    {
      if pendingSave {
        var content := FallbackContent(draftText, ImageOf(value));
        pendingSave := false;
        emitted := emitted + [content];
        isEditing := false;
        tool := None;
        penMode := false;
      }
    }

    /** `handleCancelDrawing`: a meaningful drawing asks first; otherwise a new
        canvas and drawing mode ends. */
    method CancelDrawing()
      modifies this
      ensures HasMeaningfulDrawing(ImageOf(old(value))) ==>
        showDiscardDrawingConfirm && canvasKey == old(canvasKey) && tool == old(tool) && pendingTool == old(pendingTool)
        && canvasReady == old(canvasReady) && penMode == old(penMode)
      ensures !HasMeaningfulDrawing(ImageOf(old(value))) ==>
        canvasKey == old(canvasKey) + 1 && !canvasReady && pendingTool.None? && tool.None? && !penMode
        && showDiscardDrawingConfirm == old(showDiscardDrawingConfirm)
      ensures value == old(value) && draftText == old(draftText) && isEditing == old(isEditing)
      ensures pendingSave == old(pendingSave) && emitted == old(emitted)
    {
      if HasMeaningfulDrawing(ImageOf(value)) {
        showDiscardDrawingConfirm := true;
      } else {
        canvasKey := canvasKey + 1;
        canvasReady := false;
        pendingTool := None;
        tool := None;
        penMode := false;
      }
    }

    /** The discard-drawing prompt dismissed ("Keep editing" or the
        backdrop, `onOpenChange` with false): the prompt closes and the
        drawing stays. */
    method KeepEditing()
      modifies this
      ensures !showDiscardDrawingConfirm
      ensures value == old(value) && draftText == old(draftText) && isEditing == old(isEditing)
      ensures tool == old(tool) && canvasKey == old(canvasKey) && canvasReady == old(canvasReady)
      ensures pendingTool == old(pendingTool) && pendingSave == old(pendingSave)
      ensures penMode == old(penMode) && emitted == old(emitted)
    {
      showDiscardDrawingConfirm := false;
    }

    /** `handleConfirmDiscardDrawing` */
    method ConfirmDiscardDrawing()
      modifies this
      ensures !showDiscardDrawingConfirm && canvasKey == old(canvasKey) + 1 && !canvasReady && pendingTool.None?
      ensures tool.None? && !penMode
      ensures value == old(value) && draftText == old(draftText) && isEditing == old(isEditing)
      ensures pendingSave == old(pendingSave) && emitted == old(emitted)
    {
      showDiscardDrawingConfirm := false;
      RemountCanvas();
      ExitDrawingMode();
    }

    method StartEdit()
      modifies this
      ensures isEditing
      ensures value == old(value) && draftText == old(draftText) && tool == old(tool) && canvasKey == old(canvasKey)
      ensures canvasReady == old(canvasReady) && pendingTool == old(pendingTool) && pendingSave == old(pendingSave)
      ensures emitted == old(emitted) && penMode == old(penMode) && showDiscardDrawingConfirm == old(showDiscardDrawingConfirm)
    {
      isEditing := true;
    }

    method DoneEdit()
      modifies this
      ensures !isEditing && tool.None? && !penMode
      ensures value == old(value) && draftText == old(draftText) && canvasKey == old(canvasKey)
      ensures canvasReady == old(canvasReady) && pendingTool == old(pendingTool) && pendingSave == old(pendingSave)
      ensures emitted == old(emitted) && showDiscardDrawingConfirm == old(showDiscardDrawingConfirm)
    {
      isEditing := false;
      ExitDrawingMode();
    }

    /** The unmount clean-up: the draft is saved, with the stored image, only
        when its trimmed text differs from the stored text's. */
    method Unmount()
      modifies this
      ensures Trim(old(draftText)) != Trim(TextOf(old(value))) ==>
        emitted == old(emitted) + [DxPlanContent(TrimmedOrAbsent(old(draftText)), ImageOf(old(value)))]
      ensures Trim(old(draftText)) == Trim(TextOf(old(value))) ==> emitted == old(emitted)
      ensures value == old(value) && draftText == old(draftText) && isEditing == old(isEditing) && tool == old(tool)
      ensures canvasKey == old(canvasKey) && canvasReady == old(canvasReady) && pendingTool == old(pendingTool)
      ensures pendingSave == old(pendingSave) && penMode == old(penMode)
      ensures showDiscardDrawingConfirm == old(showDiscardDrawingConfirm)
    {
      if Trim(draftText) != Trim(TextOf(value)) {
        emitted := emitted + [DxPlanContent(TrimmedOrAbsent(draftText), ImageOf(value))];
      }
    }
  }

  /** A save ends editing exactly once whichever of the signature and the
      fallback comes first: signature first emits once and the fallback does
      nothing; fallback first emits, and the late signature still emits but
      changes nothing else. */
  method SaveRace(area: TextInputAreaState, signature: string, signatureFirst: bool)
    modifies area
    ensures !area.pendingSave && !area.isEditing && area.tool.None? && !area.penMode
    ensures signatureFirst ==>
      area.emitted == old(area.emitted) + [SignatureContent(old(area.draftText), signature, ImageOf(old(area.value)))]
    ensures !signatureFirst ==>
      area.emitted == old(area.emitted) + [FallbackContent(old(area.draftText), ImageOf(old(area.value))),
                                           SignatureContent(old(area.draftText), signature, ImageOf(old(area.value)))]
  {
    area.Save();
    if signatureFirst {
      area.SignatureResult(signature);
      area.SaveTimeout();
    } else {
      area.SaveTimeout();
      area.SignatureResult(signature);
    }
  }
}
