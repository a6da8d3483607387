/** components/ward/keyboard-handwriting-editor-modal.tsx: the modal around the
    keyboard-and-handwriting editor. It keeps a draft of the content, asks
    before discarding unsaved changes, and saves what the editor reports. The
    parent's `open` and `value` props are fields here, and `onOpenChange(false)`
    is taken to close the modal. */
module EditorModal {
  import opened Optional
  import opened Text
  import opened Types
  import opened Canvas

  /** `a?.image ?? ''` */
  function ImageOrEmpty(a: Option<DxPlanContent>): string {
    ImageOf(a).GetOr("")
  }

  /** `hasUnsavedChanges`: the trimmed texts differ or the images differ,
      absent text or image counting as ''. */
  predicate HasUnsavedChanges(a: Option<DxPlanContent>, b: Option<DxPlanContent>) {
    Trim(TextOf(a)) != Trim(TextOf(b)) || ImageOrEmpty(a) != ImageOrEmpty(b)
  }

  /** Content never differs from itself, the comparison does not depend on
      the argument order, and absent content is the same as empty content. */
  lemma UnsavedChangesLaws(a: Option<DxPlanContent>, b: Option<DxPlanContent>)
    ensures !HasUnsavedChanges(a, a)
    ensures HasUnsavedChanges(a, b) <==> HasUnsavedChanges(b, a)
    ensures !HasUnsavedChanges(None, Some(DxPlanContent(None, None)))
    ensures !HasUnsavedChanges(None, Some(DxPlanContent(Some(""), Some(""))))
  {
    assert Trim("") == "";
  }

  /** Text differing only in leading or trailing white space is no change. */
  lemma PaddingIsNoChange(a: Option<DxPlanContent>)
    requires a.Some?
    ensures !HasUnsavedChanges(a, Some(a.value.(text := Some(Trim(TextOf(a))))))
  {
    TrimIdempotent(TextOf(a));
  }

  /** The separator before an inserted phrase: a space unless the text is
      empty or already ends with one. */
  function Separator(current: string): (sep: string)
    ensures sep == " " <==> current != [] && current[|current| - 1] != ' '
    ensures sep == "" <==> !(current != [] && current[|current| - 1] != ' ')
  {
    if |current| > 0 && !EndsWith(current, " ") then " " else ""
  }

  /** `handleInsertPhrase`'s update of the draft. */
  function InsertPhrase(draft: Option<DxPlanContent>, phrase: string): (next: DxPlanContent)
    ensures next.text == Some(TextOf(draft) + Separator(TextOf(draft)) + phrase)
    ensures next.image == if draft.Some? then draft.value.image else None
  {
    var current := TextOf(draft);
    DxPlanContent(Some(current + Separator(current) + phrase), if draft.Some? then draft.value.image else None)
  }

  /** The phrase is appended after the existing text, which is kept. */
  lemma InsertPhraseAppends(draft: Option<DxPlanContent>, phrase: string)
    ensures var t := InsertPhrase(draft, phrase).text.value;
      StartsWith(t, TextOf(draft)) && EndsWith(t, phrase)
      && |t| == |TextOf(draft)| + |phrase| + (if TextOf(draft) != [] && TextOf(draft)[|TextOf(draft)| - 1] != ' ' then 1 else 0)
  {
    var current := TextOf(draft);
    var t := current + Separator(current) + phrase;
    assert t[..|current|] == current;
    assert t[|t| - |phrase|..] == phrase;
  }

  class EditorModalState {
    var open: bool
    var value: Option<DxPlanContent>
    var draft: Option<DxPlanContent>
    var saving: bool
    var showDiscardConfirm: bool
    /** The contents passed to `onSave`. */
    var saved: seq<DxPlanContent>

    constructor (open: bool, value: Option<DxPlanContent>)
      ensures this.open == open && this.value == value && draft == value
      ensures !saving && !showDiscardConfirm && saved == []
    {
      this.open := open;
      this.value := value;
      draft := value;
      saving := false;
      showDiscardConfirm := false;
      saved := [];
    }

    /** New props. The effect on `[open, value]` resets the draft to `value`
        when it runs with the modal open; it runs only when one of them
        changed (`value` compared by its contents here, by reference in
        React). */
    method SetProps(open': bool, value': Option<DxPlanContent>)
      modifies this
      ensures open == open' && value == value'
      ensures draft == if open' && (open' != old(open) || value' != old(value)) then value' else old(draft)
      ensures saving == old(saving) && showDiscardConfirm == old(showDiscardConfirm) && saved == old(saved)
    {
      var changed := open' != open || value' != value;
      open := open';
      value := value';
      if open && changed {
        draft := value;
      }
    }

    /** `handleClose` */
    method Close()
      modifies this
      ensures !open && !showDiscardConfirm
      ensures value == old(value) && draft == old(draft) && saving == old(saving) && saved == old(saved)
    {
      open := false;
      showDiscardConfirm := false;
    }

    /** The editor's `onChange={setDraft}`: what the user types or draws
        becomes the draft. */
    method EditorChange(c: DxPlanContent)
      modifies this
      ensures draft == Some(c)
      ensures open == old(open) && value == old(value) && saving == old(saving)
      ensures showDiscardConfirm == old(showDiscardConfirm) && saved == old(saved)
    {
      draft := Some(c);
    }

    /** `handleCancel` (the header's close button and the system back
        gesture): with unsaved changes ask first, otherwise close. */
    method Cancel()
      modifies this
      ensures HasUnsavedChanges(old(draft), old(value)) ==> open == old(open) && showDiscardConfirm
      ensures !HasUnsavedChanges(old(draft), old(value)) ==> !open && !showDiscardConfirm
      ensures value == old(value) && draft == old(draft) && saving == old(saving) && saved == old(saved)
    {
      if HasUnsavedChanges(draft, value) {
        showDiscardConfirm := true;
      } else {
        Close();
      }
    }

    /** The footer's Cancel button, `disabled={saving}`. */
    method PressFooterCancel()
      modifies this
      ensures old(saving) ==>
        open == old(open) && showDiscardConfirm == old(showDiscardConfirm)
      ensures !old(saving) && HasUnsavedChanges(old(draft), old(value)) ==> open == old(open) && showDiscardConfirm
      ensures !old(saving) && !HasUnsavedChanges(old(draft), old(value)) ==> !open && !showDiscardConfirm
      ensures value == old(value) && draft == old(draft) && saving == old(saving) && saved == old(saved)
    {
      if !saving {
        Cancel();
      }
    }

    /** `handleConfirmDiscard` */
    method ConfirmDiscard()
      modifies this
      ensures !open && !showDiscardConfirm
      ensures value == old(value) && draft == old(draft) && saving == old(saving) && saved == old(saved)
    {
      showDiscardConfirm := false;
      Close();
    }

    /** The discard prompt's own dismissal, `onOpenChange={setShowDiscardConfirm}`
        called with false: the prompt closes and the editor stays open. */
    method DismissDiscardPrompt()
      modifies this
      ensures !showDiscardConfirm
      ensures open == old(open) && value == old(value) && draft == old(draft)
      ensures saving == old(saving) && saved == old(saved)
    {
      showDiscardConfirm := false;
    }

    /** The Save button (`disabled={saving}`) running `handleSave` up to its
        `await editor.getContent()`: nothing while saving or without a
        mounted editor; otherwise `saving` is set and the editor is asked for
        its content, which `ContentArrived` delivers. While the editor does
        not answer, the modal stays open showing "Saving…". */
    method StartSave(editorMounted: bool)
      modifies this
      ensures saving == (old(saving) || editorMounted)
      ensures open == old(open) && value == old(value) && draft == old(draft)
      ensures showDiscardConfirm == old(showDiscardConfirm) && saved == old(saved)
    {
      if saving || !editorMounted {
        return;
      }
      saving := true;
    }

    /** The editor's content arriving for the save in progress: it is passed
        to `onSave`, the modal closes and the `finally` clears `saving`.
        Without a save in progress nothing happens. */
    method ContentArrived(content: DxPlanContent)
      modifies this
      ensures old(saving) ==> saved == old(saved) + [content] && !open && !saving && !showDiscardConfirm
      ensures !old(saving) ==>
        open == old(open) && saved == old(saved) && !saving && showDiscardConfirm == old(showDiscardConfirm)
      ensures value == old(value) && draft == old(draft)
    {
      if !saving {
        return;
      }
      saved := saved + [content];
      Close();
      saving := false;
    }

    /** The editor failing to deliver its content for the save in progress:
        the `finally` clears `saving`, nothing is saved and the modal stays
        open. */
    method ContentFailed()
      modifies this
      ensures !saving
      ensures open == old(open) && value == old(value) && draft == old(draft)
      ensures showDiscardConfirm == old(showDiscardConfirm) && saved == old(saved)
    {
      saving := false;
    }

    /** `handleInsertPhrase` */
    method InsertPhraseIntoDraft(phrase: string)
      modifies this
      ensures draft == Some(InsertPhrase(old(draft), phrase))
      ensures open == old(open) && value == old(value) && saving == old(saving)
      ensures showDiscardConfirm == old(showDiscardConfirm) && saved == old(saved)
    {
      draft := Some(InsertPhrase(draft, phrase));
    }
  }

  /** Typing or drawing and then cancelling asks before discarding exactly
      when the new content differs from the value; otherwise the modal
      closes. */
  method EditThenCancel(modal: EditorModalState, c: DxPlanContent)
    modifies modal
    ensures modal.draft == Some(c)
    ensures HasUnsavedChanges(Some(c), old(modal.value)) ==> modal.showDiscardConfirm && modal.open == old(modal.open)
    ensures !HasUnsavedChanges(Some(c), old(modal.value)) ==> !modal.showDiscardConfirm && !modal.open
  {
    modal.EditorChange(c);
    modal.Cancel();
  }

  /** A save whose content arrives: the content is saved exactly once, the
      modal is closed and `saving` is clear again; a second press of Save
      while the first is waiting changes nothing. */
  method SaveFlow(modal: EditorModalState, content: DxPlanContent)
    requires !modal.saving
    modifies modal
    ensures modal.saved == old(modal.saved) + [content]
    ensures !modal.open && !modal.saving && !modal.showDiscardConfirm
    ensures modal.value == old(modal.value) && modal.draft == old(modal.draft)
  {
    modal.StartSave(true);
    modal.StartSave(true);
    modal.ContentArrived(content);
  }
}
