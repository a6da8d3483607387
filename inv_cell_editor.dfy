/** components/ward/inv-cell-editor.tsx: the dialog that edits one cell of an
    investigation row as text-or-handwriting content. */
module InvCellEditor {
  import opened Optional
  import opened Types
  import opened InvTable

  /** `COLUMN_LABELS` */
  function ColumnLabel(c: Column): (name: string)
    ensures c == DateColumn ==> name == "Date"
    ensures c == InvestigationColumn ==> name == "Investigation"
    ensures c == FindingsColumn ==> name == "Findings"
  {
    match c
    case DateColumn => "Date"
    case InvestigationColumn => "Investigation"
    case FindingsColumn => "Findings"
  }

  /** `rowToDxPlan`: the column's text, '' when absent, and its image. */
  function RowToDxPlan(r: InvRow, c: Column): (content: DxPlanContent)
    ensures content.text == Some(GetField(r, TextField(c)).GetOr(""))
    ensures content.image == GetField(r, ImageField(c))
  {
    DxPlanContent(Some(GetField(r, TextField(c)).GetOr("")), GetField(r, ImageField(c)))
  }

  /** Saving a cell's content unchanged leaves the row as it was, as long as
      the row holds no empty strings in that cell (the save stores those as
      absent). */
  lemma SaveUnchangedIsIdentity(r: InvRow, c: Column)
    requires GetField(r, TextField(c)) != Some("") && GetField(r, ImageField(c)) != Some("")
    ensures Merge(r, CellUpdates(c, RowToDxPlan(r, c))) == r
  {
    var m := Merge(r, CellUpdates(c, RowToDxPlan(r, c)));
    forall f ensures GetField(m, f) == GetField(r, f) {
      CellUpdateFields(r, c, RowToDxPlan(r, c), f);
    }
    assert GetField(m, Date) == GetField(r, Date);
    assert GetField(m, DateImage) == GetField(r, DateImage);
    assert GetField(m, Investigation) == GetField(r, Investigation);
    assert GetField(m, InvestigationImage) == GetField(r, InvestigationImage);
    assert GetField(m, Findings) == GetField(r, Findings);
    assert GetField(m, FindingsImage) == GetField(r, FindingsImage);
  }

  /** The dialog: whether it is open and the contents passed to `onSave`. */
  class CellEditorDialog {
    var open: bool
    var saved: seq<DxPlanContent>

    constructor ()
      ensures open && saved == []
    {
      open := true;
      saved := [];
    }

    /** `handleChange`: save the content, then close. */
    method HandleChange(next: DxPlanContent)
      modifies this
      ensures saved == old(saved) + [next]
      ensures !open
    {
      saved := saved + [next];
      open := false;
    }
  }
}
