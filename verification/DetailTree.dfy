/** The cursor of the detail tree: its moves agree with the lines that are drawn, and it stays inside the window. */
module DetailTree {
  import opened Prelude

  /** A protocol layer: the key its collapsed state is remembered by, and how many fields it has. */
  datatype Layer = Layer(key: string, fields: nat)

  /** A line of the tree: the header of a layer, or one of its fields. */
  datatype Row = Header(layer: nat) | Item(layer: nat, field: nat)

  // ----- The lines that are drawn -----

  function Items(layer: nat, count: nat): (rows: seq<Row>)
    ensures |rows| == count && forall j :: 0 <= j < count ==> rows[j] == Item(layer, j)
  {
    seq(count, j requires 0 <= j < count => Item(layer, j))
  }

  /** A layer's header, and its fields if it is expanded. */
  function LayerRows(layers: seq<Layer>, expanded: seq<bool>, i: nat): (rows: seq<Row>)
    requires i < |layers| == |expanded|
  {
    [Header(i)] + if expanded[i] then Items(i, layers[i].fields) else []
  }

  /** The lines of the first `n` layers. */
  function RowsUpTo(layers: seq<Layer>, expanded: seq<bool>, n: nat): (rows: seq<Row>)
    requires n <= |layers| == |expanded|
  {
    if n == 0 then [] else RowsUpTo(layers, expanded, n - 1) + LayerRows(layers, expanded, n - 1)
  }

  predicate Exists(layers: seq<Layer>, expanded: seq<bool>, row: Row)
    requires |layers| == |expanded|
  {
    row.layer < |layers| && (row.Item? ==> expanded[row.layer] && row.field < layers[row.layer].fields)
  }

  /** The number of lines above a row. */
  function LineOf(layers: seq<Layer>, expanded: seq<bool>, row: Row): (line: nat)
    requires |layers| == |expanded| && Exists(layers, expanded, row)
  {
    |RowsUpTo(layers, expanded, row.layer)| + if row.Item? then 1 + row.field else 0
  }

  /** Which rows can be selected, by the fields the program keeps. */
  function RowOf(layer: nat, field: Option<nat>): (row: Row) {
    if field.Some? then Item(layer, field.value) else Header(layer)
  }

  /** Every row that exists is drawn, on the line that is computed for it. */
  lemma {:induction false} DrawnOnItsLine(layers: seq<Layer>, expanded: seq<bool>, n: nat, row: Row)
    requires |layers| == |expanded| && Exists(layers, expanded, row) && row.layer < n <= |layers|
    ensures var rows := RowsUpTo(layers, expanded, n); var line := LineOf(layers, expanded, row);
            line < |rows| && rows[line] == row
  {
    if row.layer < n - 1 { DrawnOnItsLine(layers, expanded, n - 1, row); }
  }

  /** Every line that is drawn shows a row that exists, the one computed to be there. */
  lemma {:induction false} LineShowsItsRow(layers: seq<Layer>, expanded: seq<bool>, n: nat, line: nat)
    requires n <= |layers| == |expanded| && line < |RowsUpTo(layers, expanded, n)|
    ensures var row := RowsUpTo(layers, expanded, n)[line];
            Exists(layers, expanded, row) && row.layer < n && LineOf(layers, expanded, row) == line
  {
    if line < |RowsUpTo(layers, expanded, n - 1)| { LineShowsItsRow(layers, expanded, n - 1, line); }
  }

  /** Lines above a layer depend only on the layers above it. */
  lemma {:induction false} RowsAboveUnchanged(layers: seq<Layer>, a: seq<bool>, b: seq<bool>, n: nat)
    requires |a| == |b| == |layers| && n <= |layers| && a[..n] == b[..n]
    ensures RowsUpTo(layers, a, n) == RowsUpTo(layers, b, n)
  {
    if n > 0 {
      assert a[..n - 1] == a[..n][..n - 1] == b[..n - 1];
      assert a[n - 1] == a[..n][n - 1] == b[n - 1];
      RowsAboveUnchanged(layers, a, b, n - 1);
    }
  }

  class DetailTree {
    var layers: seq<Layer>
    var collapsed: set<string>
    var expanded: seq<bool>
    var layer: Option<nat>
    var field: Option<nat>
    var scroll: nat
    var visibleRows: nat

    /** A selected field lies in an expanded layer and is one of its fields. */
    ghost predicate Valid()
      reads this
    {
      && |expanded| == |layers|
      && (layer.Some? <==> layers != [])
      && (layer.Some? ==> Exists(layers, expanded, RowOf(layer.value, field)))
      && (layer.None? ==> field.None?)
    }

    /** All lines of the tree. */
    ghost function Rows(): (rows: seq<Row>)
      reads this
      requires Valid()
    {
      RowsUpTo(layers, expanded, |layers|)
    }

    /** The selected row. */
    ghost function Selected(): (row: Row)
      reads this
      requires Valid() && layers != []
    {
      RowOf(layer.value, field)
    }

    /** The line that is computed for the selected row. */
    ghost function Line(): (line: nat)
      reads this
      requires Valid() && layers != []
    {
      LineOf(layers, expanded, Selected())
    }

    ghost predicate SelectedIsVisible()
      reads this
      requires Valid()
    {
      layers != [] && visibleRows > 0 ==> scroll <= Line() < scroll + visibleRows
    }

    /** The window, which began at line `before`, has moved by as little as brings the selected row into it. */
    ghost predicate HasScrolledFrom(before: nat)
      reads this
      requires Valid()
    {
      if layers == [] || visibleRows == 0 || before <= Line() < before + visibleRows then scroll == before
      else if Line() < before then scroll == Line()
      else scroll + visibleRows == Line() + 1
    }

    constructor ()
      ensures Valid() && layers == [] && collapsed == {} && visibleRows == 10
    {
      layers, collapsed, expanded, layer, field, scroll, visibleRows := [], {}, [], None, None, 0, 10;
    }

    /** Selecting another packet, or its deep dissection coming in: the remembered layers stay collapsed. */
    method Show(detail: seq<Layer>)
      modifies this
      ensures Valid() && layers == detail && collapsed == old(collapsed) && visibleRows == old(visibleRows)
      ensures forall i :: 0 <= i < |layers| ==> (expanded[i] <==> layers[i].key !in collapsed)
      ensures layers != [] ==> Selected() == Header(0) && scroll == 0 && Line() == 0
    {
      layers := detail;
      var hidden := collapsed;
      expanded := seq(|detail|, i requires 0 <= i < |detail| => detail[i].key !in hidden);
      layer := if layers == [] then None else Some(0);
      field := None;
      scroll := 0;
      EnsureDetailVisible();
    }

    /** Opening another file forgets the detail and what was collapsed. */
    method Forget()
      modifies this
      ensures Valid() && layers == [] && collapsed == {}
      ensures scroll == old(scroll) && visibleRows == old(visibleRows)
    {
      layers, expanded, collapsed, layer, field := [], [], {}, None, None;
    }

    method Resize(rows: nat)
      requires Valid()
      modifies this`visibleRows
      ensures Valid() && visibleRows == rows
    {
      visibleRows := rows;
    }

    /** Counts the lines above the selected row, and scrolls by as little as brings it into the window. */
    method EnsureDetailVisible()
      requires Valid()
      modifies this`scroll
      ensures Valid() && SelectedIsVisible() && HasScrolledFrom(old(scroll))
    {
      if visibleRows == 0 || layer.None? { return; }
      var line := 0;
      var i := 0;
      while i < |layers| && !(i == layer.value && field.None?)
        invariant i <= layer.value && line == |RowsUpTo(layers, expanded, i)|
        decreases |layers| - i
      {
        line := line + 1;
        if expanded[i] {
          if i == layer.value && field.Some? {
            line := line + field.value;
            break;
          }
          line := line + layers[i].fields;
        }
        i := i + 1;
      }
      assert line == Line();
      if line < scroll {
        scroll := line;
      } else if line >= scroll + visibleRows {
        scroll := line - (visibleRows - 1);
      }
    }

    /** Down by one line; on the last line a header stays, and from the last field the cursor goes back to its header. */
    method MoveDown()
      requires Valid()
      modifies this`layer, this`field, this`scroll
      ensures Valid() && Rows() == old(Rows()) && HasScrolledFrom(old(scroll))
      ensures layers != [] ==>
                && SelectedIsVisible()
                && Selected() == if old(Line()) + 1 < |Rows()| then Rows()[old(Line()) + 1] else Header(|layers| - 1)
      ensures layers != [] && old(Line()) + 1 < |Rows()| ==> Line() == old(Line()) + 1
      ensures layers != [] && old(Line()) + 1 >= |Rows()| ==> (Line() == old(Line()) <==> old(field).None?)
    {
      hide RowsUpTo;
      if layers == [] { return; }
      var i := layer.value;
      NextRow(layers, expanded, i, field);
      LastHeader(layers, expanded, RowOf(i, field));
      if field.Some? {
        if field.value + 1 < layers[i].fields {
          field := Some(field.value + 1);
        } else {
          field := None;
          layer := Some(if i + 1 < |layers| then i + 1 else |layers| - 1);
        }
      } else if expanded[i] && layers[i].fields > 0 {
        field := Some(0);
      } else {
        layer := Some(if i + 1 < |layers| then i + 1 else |layers| - 1);
      }
      EnsureDetailVisible();
    }

    /** Up by one line; the first line stays. */
    method MoveUp()
      requires Valid()
      modifies this`layer, this`field, this`scroll
      ensures Valid() && Rows() == old(Rows()) && HasScrolledFrom(old(scroll))
      ensures layers != [] ==>
                && SelectedIsVisible()
                && Line() == (if old(Line()) > 0 then old(Line()) - 1 else 0)
                && Line() < |Rows()| && Selected() == Rows()[Line()]
    {
      hide RowsUpTo;
      if layers == [] { return; }
      var i := layer.value;
      PreviousLine(layers, expanded, i, field);
      if field.Some? {
        field := if field.value > 0 then Some(field.value - 1) else None;
      } else if i > 0 {
        layer := Some(i - 1);
        field := if expanded[i - 1] && layers[i - 1].fields > 0 then Some(layers[i - 1].fields - 1) else None;
      }
      DrawnOnItsLine(layers, expanded, |layers|, Selected());
      EnsureDetailVisible();
    }

    /** Sets and remembers the state of a layer, if there is such a layer. */
    method SetLayerExpanded(i: nat, e: bool)
      requires Valid() && (layer == Some(i) ==> field.None?)
      modifies this`expanded, this`collapsed
      ensures Valid()
      ensures i >= |layers| ==> expanded == old(expanded) && collapsed == old(collapsed)
      ensures i < |layers| ==>
                expanded == old(expanded)[i := e] && collapsed == CollapsedAfter(layers, old(collapsed), i, e)
    {
      if i >= |expanded| { return; }
      expanded := expanded[i := e];
      if e {
        collapsed := collapsed - {layers[i].key};
      } else {
        collapsed := collapsed + {layers[i].key};
      }
    }

    /** On a header: shows the layer's fields, or hides them. The cursor stays on its line. */
    method ToggleExpand()
      requires Valid()
      modifies this`expanded, this`collapsed, this`scroll
      ensures Valid() && SelectedIsVisible() && HasScrolledFrom(old(scroll))
      ensures layers == [] || old(field).Some? ==> expanded == old(expanded) && collapsed == old(collapsed)
      ensures layers != [] && old(field).None? ==>
                var i := layer.value;
                && expanded == old(expanded)[i := !old(expanded)[i]]
                && collapsed == CollapsedAfter(layers, old(collapsed), i, expanded[i])
                && Line() == old(Line())
    {
      if layers == [] { return; }
      if field.None? {
        var i := layer.value;
        RowsAboveUnchanged(layers, expanded, expanded[i := !expanded[i]], i);
        SetLayerExpanded(i, !expanded[i]);
      }
      EnsureDetailVisible();
    }

    /** From a field to its header; on the header of an expanded layer, hides its fields. */
    method GoLeft()
      requires Valid()
      modifies this`expanded, this`collapsed, this`field, this`scroll
      ensures Valid() && SelectedIsVisible() && HasScrolledFrom(old(scroll))
      ensures layers != [] ==> Selected() == Header(old(Selected()).layer)
      ensures layers == [] || old(field).Some? ==> expanded == old(expanded) && collapsed == old(collapsed)
      ensures layers != [] && old(field).None? ==>
                var i := layer.value;
                && expanded == old(expanded)[i := false]
                && collapsed == old(collapsed) + (if old(expanded)[i] then {layers[i].key} else {})
                && Line() == old(Line())
    {
      if layers == [] { return; }
      var i := layer.value;
      if field.Some? {
        field := None;
      } else if expanded[i] {
        RowsAboveUnchanged(layers, expanded, expanded[i := false], i);
        SetLayerExpanded(i, false);
      } else {
        assert expanded == expanded[i := false];
      }
      EnsureDetailVisible();
    }

    /** On a header: shows the layer's fields, and enters them if they are shown already. */
    method GoRight()
      requires Valid()
      modifies this`expanded, this`collapsed, this`field, this`scroll
      ensures Valid() && SelectedIsVisible() && HasScrolledFrom(old(scroll))
      ensures layers == [] || old(field).Some? ==>
                expanded == old(expanded) && collapsed == old(collapsed) && field == old(field)
      ensures layers != [] && old(field).None? ==>
                var i := layer.value;
                if !old(expanded)[i] then
                  && expanded == old(expanded)[i := true] && collapsed == old(collapsed) - {layers[i].key}
                  && Line() == old(Line())
                else
                  && expanded == old(expanded) && collapsed == old(collapsed)
                  && Line() == old(Line()) + if layers[i].fields > 0 then 1 else 0
    {
      if layers == [] { return; }
      var i := layer.value;
      if field.None? {
        if !expanded[i] {
          RowsAboveUnchanged(layers, expanded, expanded[i := true], i);
          SetLayerExpanded(i, true);
        } else if layers[i].fields > 0 {
          field := Some(0);
        }
      }
      EnsureDetailVisible();
    }
  }

  /** A header is above the fields of its layer. */
  lemma LastHeader(layers: seq<Layer>, expanded: seq<bool>, row: Row)
    requires |layers| == |expanded| && Exists(layers, expanded, row)
    ensures LineOf(layers, expanded, Header(row.layer)) <= LineOf(layers, expanded, row)
    ensures LineOf(layers, expanded, Header(row.layer)) == LineOf(layers, expanded, row) <==> row.Header?
  {
    hide RowsUpTo;
  }

  /** The row one line above a row, except above the first header. */
  lemma PreviousLine(layers: seq<Layer>, expanded: seq<bool>, i: nat, field: Option<nat>)
    requires |layers| == |expanded| && Exists(layers, expanded, RowOf(i, field))
    ensures var line := LineOf(layers, expanded, RowOf(i, field));
            if field.Some? then
              var up := RowOf(i, if field.value > 0 then Some(field.value - 1) else None);
              line > 0 && Exists(layers, expanded, up) && LineOf(layers, expanded, up) == line - 1
            else if i > 0 then
              var up := RowOf(i - 1, if expanded[i - 1] && layers[i - 1].fields > 0 then Some(layers[i - 1].fields - 1) else None);
              line > 0 && Exists(layers, expanded, up) && LineOf(layers, expanded, up) == line - 1
            else line == 0
  {}

  /** What is drawn on the line after a row: the next field, else the next header, else nothing. */
  lemma NextRow(layers: seq<Layer>, expanded: seq<bool>, i: nat, field: Option<nat>)
    requires |layers| == |expanded| && Exists(layers, expanded, RowOf(i, field))
    ensures var rows := RowsUpTo(layers, expanded, |layers|);
            var line := LineOf(layers, expanded, RowOf(i, field));
            var next := if field.Some? then field.value + 1 else 0;
            if expanded[i] && next < layers[i].fields then
              line + 1 < |rows| && rows[line + 1] == Item(i, next) && LineOf(layers, expanded, Item(i, next)) == line + 1
            else if i + 1 < |layers| then
              line + 1 < |rows| && rows[line + 1] == Header(i + 1) && LineOf(layers, expanded, Header(i + 1)) == line + 1
            else line + 1 == |rows|
  {
    var next := if field.Some? then field.value + 1 else 0;
    if expanded[i] && next < layers[i].fields {
      DrawnOnItsLine(layers, expanded, |layers|, Item(i, next));
    } else if i + 1 < |layers| {
      DrawnOnItsLine(layers, expanded, |layers|, Header(i + 1));
    }
  }

  // ----- Collapsed layers are remembered -----

  /** Showing the same layers again would show the same lines. */
  predicate Remembered(layers: seq<Layer>, expanded: seq<bool>, collapsed: set<string>)
    requires |layers| == |expanded|
  {
    forall i :: 0 <= i < |layers| ==> (expanded[i] <==> layers[i].key !in collapsed)
  }

  /** The keys remembered after layer `i` has been expanded or collapsed. */
  function CollapsedAfter(layers: seq<Layer>, collapsed: set<string>, i: nat, e: bool): (c: set<string>)
    requires i < |layers|
  {
    collapsed - {layers[i].key} + if e then {} else {layers[i].key}
  }

  /** Toggling a layer keeps what is shown and what is remembered alike exactly if no other layer has its key. */
  lemma ToggleIsRememberedIff(layers: seq<Layer>, expanded: seq<bool>, collapsed: set<string>, i: nat)
    requires i < |layers| == |expanded| && Remembered(layers, expanded, collapsed)
    ensures Remembered(layers, expanded[i := !expanded[i]], CollapsedAfter(layers, collapsed, i, !expanded[i]))
            <==> forall j :: 0 <= j < |layers| && j != i ==> layers[j].key != layers[i].key
  {
    var now, c := expanded[i := !expanded[i]], CollapsedAfter(layers, collapsed, i, !expanded[i]);
    if j :| 0 <= j < |layers| && j != i && layers[j].key == layers[i].key {
      assert now[j] == expanded[j] && (now[j] <==> layers[j].key in c);
    }
  }
}
