/** components/ward/keyboard-handwriting-editor.tsx: a text area above a
    handwriting canvas, whose owner asks for the edited content with
    `getContent()`. Each call to `getContent` is a request with a number; the
    signature canvas answers with `SignatureResult`, and the 500 ms fallback of
    request `k` is the event `ContentTimeout(k)`. `resolved` records each
    call of a request's resolver with its content; a promise settles on the
    first call, so only the first entry of a request is observable; `emitted` the contents
    passed to `onChange`. */
module HandwritingEditor {
  import opened Optional
  import opened Text
  import opened Types
  import opened Canvas

  /** How `getContent` is answered from a signature: the trimmed draft (blank
      gives ''), and the signature when it is not blank, else the stored
      image. */
  function SignatureContent(draft: string, signature: string, stored: Option<string>): (c: DxPlanContent)
    ensures c.text == Some(Trim(draft))
    ensures HasText(signature) ==> c.image == Some(signature)
    ensures !HasText(signature) ==> c.image == stored
  {
    DxPlanContent(Some(Trim(draft)), if HasText(signature) then Some(signature) else stored)
  }

  /** How the 500 ms fallback answers: the trimmed draft and the stored image. */
  function FallbackContent(draft: string, stored: Option<string>): (c: DxPlanContent)
    ensures c.text == Some(Trim(draft)) && c.image == stored
  {
    DxPlanContent(Some(Trim(draft)), stored)
  }

  /** A blank canvas and the fallback give the same answer, so the owner sees
      no difference when nothing was drawn. */
  lemma BlankSignatureIsFallback(draft: string, signature: string, stored: Option<string>)
    requires !HasText(signature)
    ensures SignatureContent(draft, signature, stored) == FallbackContent(draft, stored)
  {
  }

  /** Neither answer loses drawn content: the answer's image is either the
      new signature or the stored one. */
  lemma AnswerKeepsDrawing(draft: string, signature: string, stored: Option<string>)
    ensures var c := SignatureContent(draft, signature, stored);
      c.image == Some(signature) || c.image == stored
    ensures HasTextOpt(stored) ==> HasTextOpt(SignatureContent(draft, signature, stored).image)
  {
  }

  class HandwritingEditorState {
    var value: Option<DxPlanContent>
    var draftText: string
    var tool: Option<Tool>
    var canvasKey: nat
    var canvasReady: bool
    var pendingTool: Option<Tool>
    /** The request whose resolver `getContentResolveRef` holds, if any. */
    var waiting: Option<nat>
    /** How many `getContent` requests were made. */
    var requests: nat
    var resolved: seq<(nat, DxPlanContent)>
    var emitted: seq<DxPlanContent>

    /** Every answer used up a request, and so does a waiting resolver. */
    predicate Valid()
      reads this
    {
      && |resolved| + (if waiting.Some? then 1 else 0) <= requests
      && (waiting.Some? ==> waiting.value < requests)
      && (forall i :: 0 <= i < |resolved| ==> resolved[i].0 < requests)
    }

    constructor (value: Option<DxPlanContent>)
      ensures Valid()
      ensures this.value == value && draftText == TextOf(value) && tool == Some(Pen)
      ensures canvasKey == 0 && !canvasReady && pendingTool.None?
      ensures waiting.None? && requests == 0 && resolved == [] && emitted == []
    {
      this.value := value;
      draftText := TextOf(value);
      tool := Some(Pen);
      canvasKey := 0;
      canvasReady := false;
      pendingTool := None;
      waiting := None;
      requests := 0;
      resolved := [];
      emitted := [];
    }

    /** A new `value` prop; the draft follows it when `value?.text` changed. */
    method SetValue(v: Option<DxPlanContent>)
      requires Valid()
      modifies this
      ensures Valid()
      ensures value == v
      ensures draftText == if TextField(v) != TextField(old(value)) then TextOf(v) else old(draftText)
      ensures tool == old(tool) && canvasKey == old(canvasKey) && canvasReady == old(canvasReady)
      ensures pendingTool == old(pendingTool) && waiting == old(waiting) && requests == old(requests)
      ensures resolved == old(resolved) && emitted == old(emitted)
    {
      var changed := TextField(v) != TextField(value);
      value := v;
      if changed {
        draftText := TextOf(v);
      }
    }

    /** `handleTextChange`: the typed text, untrimmed, is passed on with the
        stored image. */
    method TextChange(text: string)
      requires Valid()
      modifies this
      ensures Valid()
      ensures draftText == text
      ensures emitted == old(emitted) + [DxPlanContent(Some(text), ImageOf(old(value)))]
      ensures value == old(value) && tool == old(tool) && canvasKey == old(canvasKey) && canvasReady == old(canvasReady)
      ensures pendingTool == old(pendingTool) && waiting == old(waiting) && requests == old(requests)
      ensures resolved == old(resolved)
    {
      draftText := text;
      emitted := emitted + [DxPlanContent(Some(text), ImageOf(value))];
    }

    /** A new canvas (`handleClearDrawing`): the key is bumped, and the effect
        on the key resets readiness and the pending tool and selects the pen. */
    method ClearDrawing()
      requires Valid()
      modifies this
      ensures Valid()
      ensures canvasKey == old(canvasKey) + 1 && !canvasReady && pendingTool.None? && tool == Some(Pen)
      ensures value == old(value) && draftText == old(draftText) && waiting == old(waiting)
      ensures requests == old(requests) && resolved == old(resolved) && emitted == old(emitted)
    {
      canvasKey := canvasKey + 1;
      canvasReady := false;
      pendingTool := None;
      tool := Some(Pen);
    }

    /** The canvas reports it has loaded, or the 3000 ms fallback fires. */
    method CanvasLoaded()
      requires Valid()
      modifies this
      ensures Valid()
      ensures canvasReady
      ensures value == old(value) && draftText == old(draftText) && tool == old(tool) && canvasKey == old(canvasKey)
      ensures pendingTool == old(pendingTool) && waiting == old(waiting) && requests == old(requests)
      ensures resolved == old(resolved) && emitted == old(emitted)
    {
      canvasReady := true;
    }

    /** The 150 ms timer armed while the canvas is ready: the pending tool,
        or the pen when none is pending, is selected. */
    method ReadyToolTimeout()
      requires Valid()
      modifies this
      ensures Valid()
      ensures old(canvasReady) ==> tool == Some(old(pendingTool).GetOr(Pen)) && pendingTool.None?
      ensures !old(canvasReady) ==> tool == old(tool) && pendingTool == old(pendingTool)
      ensures value == old(value) && draftText == old(draftText) && canvasKey == old(canvasKey)
      ensures canvasReady == old(canvasReady) && waiting == old(waiting) && requests == old(requests)
      ensures resolved == old(resolved) && emitted == old(emitted)
    {
      if canvasReady {
        tool := Some(pendingTool.GetOr(Pen));
        pendingTool := None;
      }
    }

    /** `handleDraw` / `handleEraser`: select the tool when the canvas is
        ready (after an 80 ms deferral, taken as immediate), else remember it. */
    method ChooseTool(t: Tool)
      requires Valid()
      modifies this
      ensures Valid()
      ensures old(canvasReady) ==> tool == Some(t) && pendingTool == old(pendingTool)
      ensures !old(canvasReady) ==> pendingTool == Some(t) && tool == old(tool)
      ensures value == old(value) && draftText == old(draftText) && canvasKey == old(canvasKey)
      ensures canvasReady == old(canvasReady) && waiting == old(waiting) && requests == old(requests)
      ensures resolved == old(resolved) && emitted == old(emitted)
    {
      if canvasReady {
        tool := Some(t);
      } else {
        pendingTool := Some(t);
      }
    }

    /** `getContent()`: a new request takes the resolver slot (a previous
        request's resolver is dropped) and the canvas is asked for its
        signature. */
    method GetContent() returns (request: nat)
      requires Valid()
      modifies this
      ensures Valid()
      ensures request == old(requests) && requests == old(requests) + 1 && waiting == Some(request)
      ensures value == old(value) && draftText == old(draftText) && tool == old(tool) && canvasKey == old(canvasKey)
      ensures canvasReady == old(canvasReady) && pendingTool == old(pendingTool)
      ensures resolved == old(resolved) && emitted == old(emitted)
    {
      request := requests;
      requests := requests + 1;
      waiting := Some(request);
    }

    /** `handleSignatureResult`: answers the waiting request, if any, and
        empties the slot. */
    method SignatureResult(signature: string)
      requires Valid()
      modifies this
      ensures Valid()
      ensures waiting.None?
      ensures old(waiting).Some? ==>
        resolved == old(resolved) + [(old(waiting).value, SignatureContent(old(draftText), signature, ImageOf(old(value))))]
      ensures old(waiting).None? ==> resolved == old(resolved)
      ensures value == old(value) && draftText == old(draftText) && tool == old(tool) && canvasKey == old(canvasKey)
      ensures canvasReady == old(canvasReady) && pendingTool == old(pendingTool) && requests == old(requests)
      ensures emitted == old(emitted)
    {
      if waiting.Some? {
        var answer := (waiting.value, SignatureContent(draftText, signature, ImageOf(value)));
        waiting := None;
        resolved := resolved + [answer];
      }
    }

    /** The 500 ms fallback of request `k`: when some resolver is still
        waiting, the slot is emptied and request `k` is answered from the
        draft and the stored image. */
    method ContentTimeout(k: nat)
      requires Valid() && k < requests
      modifies this
      ensures Valid()
      ensures waiting.None?
      ensures old(waiting).Some? ==> resolved == old(resolved) + [(k, FallbackContent(old(draftText), ImageOf(old(value))))]
      ensures old(waiting).None? ==> resolved == old(resolved)
      ensures value == old(value) && draftText == old(draftText) && tool == old(tool) && canvasKey == old(canvasKey)
      ensures canvasReady == old(canvasReady) && pendingTool == old(pendingTool) && requests == old(requests)
      ensures emitted == old(emitted)
    {
      if waiting.Some? {
        var answer := (k, FallbackContent(draftText, ImageOf(value)));
        waiting := None;
        resolved := resolved + [answer];
      }
    }
  }

  /** One `getContent` call is answered exactly once, whichever of the
      signature and its fallback comes first; what the answer is depends on
      which came first. */
  method GetContentRace(editor: HandwritingEditorState, signature: string, signatureFirst: bool)
    returns (request: nat)
    requires editor.Valid()
    modifies editor
    ensures editor.Valid() && editor.waiting.None?
    ensures signatureFirst ==>
      editor.resolved == old(editor.resolved) + [(request, SignatureContent(old(editor.draftText), signature, ImageOf(old(editor.value))))]
    ensures !signatureFirst ==>
      editor.resolved == old(editor.resolved) + [(request, FallbackContent(old(editor.draftText), ImageOf(old(editor.value))))]
  {
    request := editor.GetContent();
    if signatureFirst {
      editor.SignatureResult(signature);
      editor.ContentTimeout(request);
    } else {
      editor.ContentTimeout(request);
      editor.SignatureResult(signature);
    }
  }

  /** The fallback of an answered request still empties the slot: when a
      second `getContent` follows the first's signature answer within 500 ms,
      the first request's resolver is called again, to no effect on its
      already settled promise, and the second request is never answered, by
      its fallback or by a later signature. */
  method OverlappingRequests(editor: HandwritingEditorState, first: string, late: string)
    returns (r1: nat, r2: nat)
    requires editor.Valid()
    modifies editor
    ensures editor.Valid() && editor.waiting.None?
    ensures |editor.resolved| == |old(editor.resolved)| + 2
    ensures editor.resolved[|editor.resolved| - 2].0 == r1 && editor.resolved[|editor.resolved| - 1].0 == r1
    ensures r1 != r2 && forall i :: |old(editor.resolved)| <= i < |editor.resolved| ==> editor.resolved[i].0 != r2
  {
    r1 := editor.GetContent();
    editor.SignatureResult(first);
    r2 := editor.GetContent();
    editor.ContentTimeout(r1);
    editor.ContentTimeout(r2);
    editor.SignatureResult(late);
  }
}
