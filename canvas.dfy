/** What the two handwriting editors (components/ward/text-input-area.tsx and
    components/ward/keyboard-handwriting-editor.tsx) share: the drawing tools
    of the signature canvas and the reads of the optional `value` prop. */
module Canvas {
  import opened Optional
  import opened Types

  datatype Tool = Pen | Eraser

  /** `value?.text ?? ''` */
  function TextOf(v: Option<DxPlanContent>): string {
    if v.Some? then v.value.text.GetOr("") else ""
  }

  /** `value?.image` */
  function ImageOf(v: Option<DxPlanContent>): Option<string> {
    if v.Some? then v.value.image else None
  }

  /** `value?.text`, the dependency of the draft-reset effect. */
  function TextField(v: Option<DxPlanContent>): Option<string> {
    if v.Some? then v.value.text else None
  }
}
