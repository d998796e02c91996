/**
  The selection logic of the "change warehouse" dialog of an order: a single
  choice among the warehouses found by the search, seeded from the order's
  current warehouse, resolved to a warehouse record by id, and confirmed with
  the Select button.
 */
module OrderChangeWarehouse {
  import opened Lists

  datatype Warehouse = Warehouse(id: string, name: string)

  datatype OrderLine = OrderLine(id: string, productName: string, quantity: int)

  function WarehouseId(w: Warehouse): string { w.id }

  /** `selectedWarehouseId ?? ""`: the id a selection is looked up by. */
  function LookupKey(selectedId: Option<string>): (key: string)
    ensures selectedId.Some? ==> key == selectedId.value
    ensures selectedId.None? ==> key == ""
  {
    if selectedId.Some? then selectedId.value else ""
  }

  /**
    `selectedWarehouse`: the first warehouse of the current results whose id
    is the selected one. The results are absent until the search answers.
   */
  function ResolveSelection(selectedId: Option<string>, results: Option<seq<Warehouse>>): (r: Option<Warehouse>)
    ensures results.None? ==> r.None?
    ensures results.Some? && r.None? ==>
              forall w :: w in results.value ==> w.id != LookupKey(selectedId)
    ensures r.Some? ==>
              && results.Some?
              && r.value.id == LookupKey(selectedId)
              && exists i :: 0 <= i < |results.value| && results.value[i] == r.value &&
                             forall j :: 0 <= j < i ==> results.value[j].id != r.value.id
  {
    if results.None? then None
    else
      var r := Find(results.value, WarehouseId, LookupKey(selectedId));
      assert r.None? ==> forall w :: w in results.value ==> w.id != LookupKey(selectedId) by {
        if r.None? {
          forall w | w in results.value ensures w.id != LookupKey(selectedId) {
            var k :| 0 <= k < |results.value| && results.value[k] == w;
            assert WarehouseId(results.value[k]) != LookupKey(selectedId);
          }
        }
      }
      r
  }

  /** The Select button is disabled exactly when the selection does not resolve. */
  function SubmitDisabled(selectedId: Option<string>, results: Option<seq<Warehouse>>): (disabled: bool)
    ensures !disabled <==> results.Some? && exists w :: w in results.value && w.id == LookupKey(selectedId)
  {
    ResolveSelection(selectedId, results).None?
  }

  /**
    When no warehouse has the empty id, a selection that was never made
    (`null`, looked up as "") resolves to nothing and keeps Select disabled.
   */
  lemma NoSelectionDisablesSubmit(results: Option<seq<Warehouse>>)
    requires results.Some? ==> forall w :: w in results.value ==> w.id != ""
    ensures SubmitDisabled(None, results)
  {}

  /** Choosing an id that some result carries enables Select, resolving to a warehouse with that id. */
  lemma ChosenIdResolves(id: string, results: seq<Warehouse>, k: int)
    requires 0 <= k < |results| && results[k].id == id
    ensures !SubmitDisabled(Some(id), Some(results))
    ensures ResolveSelection(Some(id), Some(results)).Some?
    ensures ResolveSelection(Some(id), Some(results)).value.id == id
  {}

  /** When the results' ids are distinct, the resolved warehouse is the only one with the id. */
  lemma ResolveUnique(selectedId: Option<string>, results: seq<Warehouse>, k: int)
    requires forall i, j :: 0 <= i < j < |results| ==> results[i].id != results[j].id
    requires 0 <= k < |results| && results[k].id == LookupKey(selectedId)
    ensures ResolveSelection(selectedId, Some(results)) == Some(results[k])
  {}

  // ---------------------------------------------------------------------
  // Per-row annotations

  /** The note under a warehouse's name: which message, if any, is shown. */
  datatype UnavailableNote =
    | NoNote
    | ProductUnavailable(productName: string)
    | MultipleProductsUnavailable(productCount: nat)

  /** What the dialog derives for one warehouse row. */
  datatype WarehouseRow = WarehouseRow(
    warehouse: Warehouse,
    checked: bool,
    note: UnavailableNote,
    isCurrentSelection: bool)

  /** `line => !isLineAvailableInWarehouse(line, warehouse)` */
  function Unavailable(warehouse: Warehouse, isAvailable: (OrderLine, Warehouse) -> bool): (keep: OrderLine -> bool)
    ensures forall line :: keep(line) <==> !isAvailable(line, warehouse)
  {
    (line: OrderLine) => !isAvailable(line, warehouse)
  }

  /**
    `unavailableLines`: the order's lines, in order, that the warehouse cannot
    fulfil. An absent `lines` list behaves as the empty one.
   */
  function UnavailableLines(lines: seq<OrderLine>, warehouse: Warehouse,
                            isAvailable: (OrderLine, Warehouse) -> bool): (r: seq<OrderLine>)
    ensures forall line :: line in r <==> line in lines && !isAvailable(line, warehouse)
  {
    Filter(lines, Unavailable(warehouse, isAvailable))
  }

  /** The unavailable lines keep the order's line order: they map concatenation to concatenation. */
  lemma UnavailableLinesAppend(xs: seq<OrderLine>, ys: seq<OrderLine>, warehouse: Warehouse,
                               isAvailable: (OrderLine, Warehouse) -> bool)
    ensures UnavailableLines(xs + ys, warehouse, isAvailable) ==
            UnavailableLines(xs, warehouse, isAvailable) + UnavailableLines(ys, warehouse, isAvailable)
  {
    FilterAppend(xs, ys, Unavailable(warehouse, isAvailable));
  }

  /** The message choice: none, the one product's name, or the count. */
  function NoteFor(unavailable: seq<OrderLine>): (note: UnavailableNote)
    ensures note == NoNote <==> |unavailable| == 0
    ensures note.ProductUnavailable? <==> |unavailable| == 1
    ensures note.ProductUnavailable? ==> note.productName == unavailable[0].productName
    ensures note.MultipleProductsUnavailable? ==> note.productCount == |unavailable| >= 2
  {
    if |unavailable| == 0 then NoNote
    else if |unavailable| == 1 then ProductUnavailable(unavailable[0].productName)
    else MultipleProductsUnavailable(|unavailable|)
  }

  /**
    One row of the radio group: its radio is checked when its id is the
    selected one, the "current selection" marker shows on the order's current
    warehouse, and the note reports the lines the warehouse cannot fulfil.
   */
  function RowFor(warehouse: Warehouse, selectedId: Option<string>, lines: seq<OrderLine>,
                  currentWarehouse: Option<Warehouse>,
                  isAvailable: (OrderLine, Warehouse) -> bool): (row: WarehouseRow)
    ensures row.warehouse == warehouse
    ensures row.checked <==> selectedId == Some(warehouse.id)
    ensures row.isCurrentSelection <==> currentWarehouse.Some? && currentWarehouse.value.id == warehouse.id
    ensures row.note == NoteFor(UnavailableLines(lines, warehouse, isAvailable))
    ensures row.note == NoNote <==> forall line :: line in lines ==> isAvailable(line, warehouse)
  {
    RowNote(lines, warehouse, isAvailable);
    WarehouseRow(
      warehouse,
      selectedId == Some(warehouse.id),
      NoteFor(UnavailableLines(lines, warehouse, isAvailable)),
      currentWarehouse.Some? && currentWarehouse.value.id == warehouse.id)
  }

  /**
    The rows of the radio group, one per warehouse of the results: the radio
    is checked when its id is the selected one, the "current selection" marker
    shows on the order's current warehouse, and the note says which lines the
    warehouse cannot fulfil.
   */
  function WarehouseRows(results: seq<Warehouse>, selectedId: Option<string>, lines: seq<OrderLine>,
                         currentWarehouse: Option<Warehouse>,
                         isAvailable: (OrderLine, Warehouse) -> bool): (rows: seq<WarehouseRow>)
    ensures |rows| == |results|
    ensures forall i :: 0 <= i < |rows| ==> rows[i].warehouse == results[i]
    ensures forall i :: 0 <= i < |rows| ==> (rows[i].checked <==> selectedId == Some(results[i].id))
    ensures forall i :: 0 <= i < |rows| ==>
              (rows[i].isCurrentSelection <==> currentWarehouse.Some? && currentWarehouse.value.id == results[i].id)
    ensures forall i :: 0 <= i < |rows| ==>
              rows[i].note == NoteFor(UnavailableLines(lines, results[i], isAvailable))
  {
    seq(|results|, i requires 0 <= i < |results| =>
      RowFor(results[i], selectedId, lines, currentWarehouse, isAvailable))
  }

  /**
    The note of a row: none exactly when every line is available there; the
    product's name exactly when one line is unavailable, that line's; the
    count of unavailable lines otherwise.
   */
  lemma RowNote(lines: seq<OrderLine>, warehouse: Warehouse, isAvailable: (OrderLine, Warehouse) -> bool)
    ensures var unavailable := UnavailableLines(lines, warehouse, isAvailable);
            var note := NoteFor(unavailable);
            (note == NoNote <==> forall line :: line in lines ==> isAvailable(line, warehouse)) &&
            (note.ProductUnavailable? <==> |unavailable| == 1) &&
            (note.ProductUnavailable? ==> note.productName == unavailable[0].productName &&
                                          unavailable[0] in lines && !isAvailable(unavailable[0], warehouse)) &&
            (note.MultipleProductsUnavailable? ==> note.productCount == |unavailable| >= 2)
  {
    var unavailable := UnavailableLines(lines, warehouse, isAvailable);
    if |unavailable| > 0 {
      assert unavailable[0] in unavailable;
    }
  }

  /** Only one radio is ever checked when the results' ids are distinct: the choice is single. */
  lemma AtMostOneChecked(results: seq<Warehouse>, selectedId: Option<string>, lines: seq<OrderLine>,
                         currentWarehouse: Option<Warehouse>,
                         isAvailable: (OrderLine, Warehouse) -> bool, i: int, j: int)
    requires forall a, b :: 0 <= a < b < |results| ==> results[a].id != results[b].id
    requires 0 <= i < |results| && 0 <= j < |results|
    requires WarehouseRows(results, selectedId, lines, currentWarehouse, isAvailable)[i].checked
    requires WarehouseRows(results, selectedId, lines, currentWarehouse, isAvailable)[j].checked
    ensures i == j
  {}

  // ---------------------------------------------------------------------
  // The dialog's state

  /** The callbacks `handleSubmit` makes, in the order it makes them. */
  datatype Callback = OnConfirm(warehouse: Option<Warehouse>) | OnClose

  /** The dialog component: its selection state is `selectedWarehouseId`. */
  class WarehouseSelector {
    var selectedWarehouseId: Option<string>

    /** Nothing is selected when the dialog mounts. */
    constructor ()
      ensures selectedWarehouseId == None
    {
      selectedWarehouseId := None;
    }

    /**
      The effect that runs when the `currentWarehouse` prop changes: a
      current warehouse with a non-empty id becomes the selection; otherwise
      the selection stays as it was.
     */
    method OnCurrentWarehouseChange(currentWarehouse: Option<Warehouse>)
      modifies this
      ensures currentWarehouse.Some? && currentWarehouse.value.id != "" ==>
                selectedWarehouseId == Some(currentWarehouse.value.id)
      ensures !(currentWarehouse.Some? && currentWarehouse.value.id != "") ==>
                selectedWarehouseId == old(selectedWarehouseId)
    {
      if currentWarehouse.Some? && currentWarehouse.value.id != "" {
        selectedWarehouseId := Some(currentWarehouse.value.id);
      }
    }

    /** `handleChange`: the radio the user picks replaces the selection. */
    method HandleChange(value: string)
      modifies this
      ensures selectedWarehouseId == Some(value)
    {
      selectedWarehouseId := Some(value);
    }

    /** `selectedWarehouse` for the current results. */
    function SelectedWarehouse(results: Option<seq<Warehouse>>): (r: Option<Warehouse>)
      reads this
      ensures r.Some? ==> results.Some? && r.value in results.value &&
                          r.value.id == LookupKey(selectedWarehouseId)
      ensures r.None? <==> SubmitDisabled(selectedWarehouseId, results)
    {
      ResolveSelection(selectedWarehouseId, results)
    }

    /**
      `handleSubmit`: `onConfirm` with the resolved warehouse, then `onClose`.
      Select is enabled only when the selection resolves, and then the
      confirmed warehouse carries the selected id.
     */
    method HandleSubmit(results: Option<seq<Warehouse>>) returns (calls: seq<Callback>)
      ensures calls == [OnConfirm(SelectedWarehouse(results)), OnClose]
      ensures !SubmitDisabled(selectedWarehouseId, results) ==>
                calls[0].warehouse.Some? && calls[0].warehouse.value.id == LookupKey(selectedWarehouseId) &&
                calls[0].warehouse.value in results.value
    {
      calls := [OnConfirm(SelectedWarehouse(results)), OnClose];
    }
  }

  /**
    The order's current warehouse W1 seeds the selection; the user then picks
    W2, and with no further change of the prop the selection stays W2 and
    Select confirms W2.
   */
  method SeedThenChooseScenario() returns (selected: Option<string>, calls: seq<Callback>)
    ensures selected == Some("W2")
    ensures calls == [OnConfirm(Some(Warehouse("W2", "Second"))), OnClose]
  {
    var w1, w2 := Warehouse("W1", "First"), Warehouse("W2", "Second");
    var dialog := new WarehouseSelector();
    dialog.OnCurrentWarehouseChange(Some(w1));
    assert dialog.selectedWarehouseId == Some("W1");
    dialog.HandleChange("W2");
    selected := dialog.selectedWarehouseId;
    ResolveUnique(selected, [w1, w2], 1);
    calls := dialog.HandleSubmit(Some([w1, w2]));
  }
}
