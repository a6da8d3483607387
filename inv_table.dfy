/** components/ward/inv-table.tsx: the investigations table editor. The
    row-list edits are pure functions; the component's draft state (rows, row
    heights, the row awaiting removal and the `onChange` notifications) is a
    class whose handlers apply them. */
module InvTable {
  import opened Optional
  import opened Text
  import opened Types

  datatype Column = DateColumn | InvestigationColumn | FindingsColumn

  /** The six optional fields of a row, as the keys of `Partial<InvRow>`. */
  datatype RowField = Date | DateImage | Investigation | InvestigationImage | Findings | FindingsImage

  function TextField(c: Column): RowField {
    match c
    case DateColumn => Date
    case InvestigationColumn => Investigation
    case FindingsColumn => Findings
  }

  /** The `${column}Image` key. */
  function ImageField(c: Column): (f: RowField)
    ensures f != TextField(c)
  {
    match c
    case DateColumn => DateImage
    case InvestigationColumn => InvestigationImage
    case FindingsColumn => FindingsImage
  }

  function GetField(r: InvRow, f: RowField): Option<string> {
    match f
    case Date => r.date
    case DateImage => r.dateImage
    case Investigation => r.investigation
    case InvestigationImage => r.investigationImage
    case Findings => r.findings
    case FindingsImage => r.findingsImage
  }

  /** `getCellContent(row, key)`: the `key` field as text, `${key}Image` as image. */
  function GetCellContent(r: InvRow, c: Column): (content: DxPlanContent)
    ensures content.text == GetField(r, TextField(c)) && content.image == GetField(r, ImageField(c))
  {
    DxPlanContent(GetField(r, TextField(c)), GetField(r, ImageField(c)))
  }

  const MEANINGFUL_DRAWING_MIN_LENGTH := 400

  /** The cell's empty state: the date cell is empty without non-blank text;
      the other cells also need no drawing of at least 400 characters. */
  predicate IsCellEmpty(r: InvRow, c: Column) {
    var content := GetCellContent(r, c);
    var hasText := HasTextOpt(content.text);
    var hasMeaningfulDrawing := c != DateColumn && HasTextOpt(content.image)
                                && |content.image.value| >= MEANINGFUL_DRAWING_MIN_LENGTH;
    if c == DateColumn then !hasText else !hasText && !hasMeaningfulDrawing
  }

  lemma CellEmptiness(r: InvRow, c: Column)
    ensures c == DateColumn ==> (IsCellEmpty(r, c) <==> !HasTextOpt(r.date))
    ensures c != DateColumn ==>
      (IsCellEmpty(r, c) <==>
        && !HasTextOpt(GetField(r, TextField(c)))
        && !(HasTextOpt(GetField(r, ImageField(c))) && |GetField(r, ImageField(c)).value| >= 400))
  {
  }

  /** `{ ...r, ...updates }`: every field named in `updates` takes its value
      there (an explicit `undefined` included); the id is never updated. */
  function Merge(r: InvRow, updates: map<RowField, Option<string>>): (m: InvRow)
    ensures m.id == r.id
  {
    InvRow(r.id,
           if Date in updates then updates[Date] else r.date,
           if DateImage in updates then updates[DateImage] else r.dateImage,
           if Investigation in updates then updates[Investigation] else r.investigation,
           if InvestigationImage in updates then updates[InvestigationImage] else r.investigationImage,
           if Findings in updates then updates[Findings] else r.findings,
           if FindingsImage in updates then updates[FindingsImage] else r.findingsImage)
  }

  /** The merge writes exactly the named fields. */
  lemma MergeFields(r: InvRow, updates: map<RowField, Option<string>>, f: RowField)
    ensures GetField(Merge(r, updates), f) == if f in updates then updates[f] else GetField(r, f)
  {
  }

  /** `updateRow(id, updates)`: merge into the rows with that id. */
  function UpdatedRows(rows: seq<InvRow>, id: string, updates: map<RowField, Option<string>>): seq<InvRow> {
    seq(|rows|, i requires 0 <= i < |rows| => if rows[i].id == id then Merge(rows[i], updates) else rows[i])
  }

  /** The update keeps the length, the order and every id, changes only rows
      with that id, and changes nothing for an unknown id. */
  lemma UpdatedRowsShape(rows: seq<InvRow>, id: string, updates: map<RowField, Option<string>>)
    ensures var r := UpdatedRows(rows, id, updates);
      && |r| == |rows|
      && (forall i :: 0 <= i < |r| ==> r[i].id == rows[i].id)
      && (forall i :: 0 <= i < |r| && rows[i].id != id ==> r[i] == rows[i])
      && ((forall i :: 0 <= i < |rows| ==> rows[i].id != id) ==> r == rows)
  {
  }

  /** `value.text || undefined`: an empty string is stored as absent. */
  function OrUndefined(s: Option<string>): (r: Option<string>)
    ensures r.Some? <==> s.Some? && s.value != []
    ensures r.Some? ==> r == s
  {
    if s.Some? && s.value != [] then s else None
  }

  /** The updates `updateCell(rowId, column, value)` passes to `updateRow`. */
  function CellUpdates(c: Column, value: DxPlanContent): map<RowField, Option<string>> {
    map[TextField(c) := OrUndefined(value.text), ImageField(c) := OrUndefined(value.image)]
  }

  /** A cell update writes the column and its image, turning empty strings
      into absent fields, and leaves the other four fields alone. */
  lemma CellUpdateFields(r: InvRow, c: Column, value: DxPlanContent, f: RowField)
    ensures var m := Merge(r, CellUpdates(c, value));
      && GetField(m, TextField(c)) == OrUndefined(value.text)
      && GetField(m, ImageField(c)) == OrUndefined(value.image)
      && (f != TextField(c) && f != ImageField(c) ==> GetField(m, f) == GetField(r, f))
  {
  }

  /** `{ id: generateId() }` */
  function NewRow(id: string): (r: InvRow)
    ensures r.id == id
    ensures forall f :: GetField(r, f).None?
  {
    InvRow(id, None, None, None, None, None, None)
  }

  /** `prev.filter((r) => r.id !== id)` */
  function RowsWithout(rows: seq<InvRow>, id: string): (r: seq<InvRow>)
    ensures |r| <= |rows|
    ensures forall i :: 0 <= i < |r| ==> r[i].id != id
    ensures forall x :: x in rows && x.id != id ==> x in r
    ensures forall x :: x in r ==> x in rows
  {
    if rows == [] then []
    else if rows[0].id != id then [rows[0]] + RowsWithout(rows[1..], id)
    else RowsWithout(rows[1..], id)
  }

  /** Removal keeps the surviving rows in their order, and removing an id no
      row has changes nothing. */
  lemma {:induction false} RowsWithoutAppend(a: seq<InvRow>, b: seq<InvRow>, id: string)
    ensures RowsWithout(a + b, id) == RowsWithout(a, id) + RowsWithout(b, id)
  {
    if a == [] {
      assert a + b == b;
    } else {
      assert (a + b)[0] == a[0] && (a + b)[1..] == a[1..] + b;
      RowsWithoutAppend(a[1..], b, id);
    }
  }

  lemma {:induction false} RowsWithoutAbsent(rows: seq<InvRow>, id: string)
    requires forall i :: 0 <= i < |rows| ==> rows[i].id != id
    ensures RowsWithout(rows, id) == rows
  {
    if rows != [] {
      RowsWithoutAbsent(rows[1..], id);
    }
  }

  /** The rows the table starts from: the given rows, or one fresh row. */
  function InitialRows(rows: seq<InvRow>, newId: string): (r: seq<InvRow>)
    ensures rows != [] ==> r == rows
    ensures rows == [] ==> r == [NewRow(newId)]
  {
    if |rows| > 0 then rows else [NewRow(newId)]
  }

  const MIN_ROW_HEIGHT := 44
  const MAX_ROW_HEIGHT := 240
  const DEFAULT_ROW_HEIGHT := 56

  /** The dragged row height, clamped to 44..240. */
  function ClampRowHeight(startHeight: int, translation: int): (h: int)
    ensures MIN_ROW_HEIGHT <= h <= MAX_ROW_HEIGHT
    ensures MIN_ROW_HEIGHT <= startHeight + translation <= MAX_ROW_HEIGHT ==> h == startHeight + translation
    ensures startHeight + translation < MIN_ROW_HEIGHT ==> h == MIN_ROW_HEIGHT
    ensures startHeight + translation > MAX_ROW_HEIGHT ==> h == MAX_ROW_HEIGHT
  {
    var h := startHeight + translation;
    if h < MIN_ROW_HEIGHT then MIN_ROW_HEIGHT else if h > MAX_ROW_HEIGHT then MAX_ROW_HEIGHT else h
  }

  /** The table's state. `emitted` records the row lists passed to `onChange`. */
  class InvTableEditor {
    var draftRows: seq<InvRow>
    var rowHeights: map<string, int>
    var confirmRemoveId: Option<string>
    var emitted: seq<seq<InvRow>>

    constructor (rows: seq<InvRow>, newId: string)
      ensures draftRows == InitialRows(rows, newId)
      ensures rowHeights == map[] && confirmRemoveId.None? && emitted == []
    {
      draftRows := InitialRows(rows, newId);
      rowHeights := map[];
      confirmRemoveId := None;
      emitted := [];
    }

    /** `getRowHeight` */
    function RowHeight(id: string): (h: int)
      reads this
      ensures id in rowHeights ==> h == rowHeights[id]
      ensures id !in rowHeights ==> h == DEFAULT_ROW_HEIGHT
    {
      if id in rowHeights then rowHeights[id] else DEFAULT_ROW_HEIGHT
    }

    /** The effect on a new `rows` prop: a non-empty list replaces the draft. */
    method SyncRows(rows: seq<InvRow>)
      modifies this
      ensures draftRows == if rows != [] then rows else old(draftRows)
      ensures rowHeights == old(rowHeights) && confirmRemoveId == old(confirmRemoveId) && emitted == old(emitted)
    {
      if |rows| > 0 {
        draftRows := rows;
      }
    }

    method UpdateRow(id: string, updates: map<RowField, Option<string>>)
      modifies this
      ensures draftRows == UpdatedRows(old(draftRows), id, updates)
      ensures emitted == old(emitted) + [draftRows]
      ensures rowHeights == old(rowHeights) && confirmRemoveId == old(confirmRemoveId)
    {
      var next := UpdatedRows(draftRows, id, updates);
      emitted := emitted + [next];
      draftRows := next;
    }

    method UpdateCell(rowId: string, c: Column, value: DxPlanContent)
      modifies this
      ensures draftRows == UpdatedRows(old(draftRows), rowId, CellUpdates(c, value))
      ensures emitted == old(emitted) + [draftRows]
      ensures rowHeights == old(rowHeights) && confirmRemoveId == old(confirmRemoveId)
    {
      UpdateRow(rowId, CellUpdates(c, value));
    }

    /** `addRow`, with the fresh id as a parameter. */
    method AddRow(newId: string)
      modifies this
      ensures draftRows == old(draftRows) + [NewRow(newId)]
      ensures emitted == old(emitted) + [draftRows]
      ensures rowHeights == old(rowHeights) && confirmRemoveId == old(confirmRemoveId)
    {
      var next := draftRows + [NewRow(newId)];
      emitted := emitted + [next];
      draftRows := next;
    }

    /** A long press asks to remove the row. */
    method AskRemove(id: string)
      modifies this
      ensures confirmRemoveId == Some(id)
      ensures draftRows == old(draftRows) && rowHeights == old(rowHeights) && emitted == old(emitted)
    {
      confirmRemoveId := Some(id);
    }

    /** `removeRow`, the dialog's confirm handler: nothing unless a row
        awaits removal under a non-empty id (`if (!confirmRemoveId) return`
        also returns on the empty id); otherwise the rows with that id go and
        the request is cleared. The dialog then closes itself through
        `DismissRemove`, see `ConfirmRemove`. */
    method RemoveRow()
      modifies this
      ensures old(confirmRemoveId).None? || old(confirmRemoveId) == Some("") ==>
        draftRows == old(draftRows) && emitted == old(emitted) && confirmRemoveId == old(confirmRemoveId)
      ensures old(confirmRemoveId).Some? && old(confirmRemoveId) != Some("") ==>
        && draftRows == RowsWithout(old(draftRows), old(confirmRemoveId).value)
        && emitted == old(emitted) + [draftRows]
        && confirmRemoveId.None?
      ensures rowHeights == old(rowHeights)
    {
      if confirmRemoveId.None? || confirmRemoveId.value == "" {
        return;
      }
      var next := RowsWithout(draftRows, confirmRemoveId.value);
      emitted := emitted + [next];
      draftRows := next;
      confirmRemoveId := None;
    }

    /** The dialog's `onOpenChange` called with false (cancel, backdrop, or
        the close that follows a confirm): the removal request is dropped. */
    method DismissRemove()
      modifies this
      ensures confirmRemoveId.None?
      ensures draftRows == old(draftRows) && rowHeights == old(rowHeights) && emitted == old(emitted)
    {
      confirmRemoveId := None;
    }

    /** A drag of the row's resizer from `startHeight` by `translation`. */
    method DragRowHeight(id: string, startHeight: int, translation: int)
      modifies this
      ensures rowHeights == old(rowHeights)[id := ClampRowHeight(startHeight, translation)]
      ensures MIN_ROW_HEIGHT <= RowHeight(id) <= MAX_ROW_HEIGHT
      ensures draftRows == old(draftRows) && confirmRemoveId == old(confirmRemoveId) && emitted == old(emitted)
    {
      rowHeights := rowHeights[id := ClampRowHeight(startHeight, translation)];
    }
  }

  /** Confirming the removal dialog: `removeRow` runs, then the dialog closes
      itself. The request is always cleared; rows go only under a non-empty
      id. */
  method ConfirmRemove(table: InvTableEditor)
    modifies table
    ensures table.confirmRemoveId.None?
    ensures old(table.confirmRemoveId).None? || old(table.confirmRemoveId) == Some("") ==>
      table.draftRows == old(table.draftRows) && table.emitted == old(table.emitted)
    ensures old(table.confirmRemoveId).Some? && old(table.confirmRemoveId) != Some("") ==>
      && table.draftRows == RowsWithout(old(table.draftRows), old(table.confirmRemoveId).value)
      && table.emitted == old(table.emitted) + [table.draftRows]
    ensures table.rowHeights == old(table.rowHeights)
  {
    table.RemoveRow();
    table.DismissRemove();
  }
}
