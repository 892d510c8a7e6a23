/**
 The layout arithmetic of the model table: how wide the name column is,
 how long the separator line is, and how an over-long size or capability
 list is cut to fit its column. Colours and `%-*s` padding are left to the
 terminal; the cells here are the strings that get padded.
 */
module Table {
  import opened Results
  import opened ByteStrings
  import opened Catalog

  const MinNameWidth: int := 20
  const SizesWidth: int := 30
  const CapabilitiesWidth: int := 30
  const InfoWidth: int := 20
  /** The separator's allowance for the last, unpadded UPDATED column. */
  const UpdatedAllowance: int := 20
  const Dash: byte := 45
  const Ellipsis: Bytes := Ascii("...")
  const ListSeparator: Bytes := Ascii(", ")

  /** The program's width loop, continued from width `w`: whenever a name is
      longer than `w - 3`, the width becomes that name's length plus 3.
      The result is the larger of `w` and the longest name plus 3. */
  function WidenForNames(w: int, models: seq<ModelInfo>): (r: int)
    ensures r >= w
    ensures forall i :: 0 <= i < |models| ==> |models[i].name| + 3 <= r
    ensures r == w || exists i :: 0 <= i < |models| && r == |models[i].name| + 3
    decreases |models|
  {
    if |models| == 0 then w
    else
      var w' := if |models[0].name| > w - 3 then |models[0].name| + 3 else w;
      WidenForNames(w', models[1..])
  }

  /** The name column's width: at least 20, and at least 3 more than every
      name, so a name is always followed by three blanks or more. */
  function NameWidth(models: seq<ModelInfo>): (w: int)
    ensures w >= MinNameWidth
    ensures forall i :: 0 <= i < |models| ==> |models[i].name| + 3 <= w
    ensures w == MinNameWidth || exists i :: 0 <= i < |models| && w == |models[i].name| + 3
  {
    WidenForNames(MinNameWidth, models)
  }

  /** The dashed line under the header: as wide as the name and size columns,
      and in detail mode 70 more for capabilities, downloads and the date. */
  function Separator(nameWidth: nat, showDetails: bool): (r: Bytes)
    ensures |r| == nameWidth + 30 + (if showDetails then 70 else 0)
    ensures forall k :: 0 <= k < |r| ==> r[k] == Dash
  {
    Repeat(Dash, nameWidth + SizesWidth)
      + (if showDetails then Repeat(Dash, CapabilitiesWidth + InfoWidth + UpdatedAllowance) else [])
  }

  /** Fits `s` into a column of `width`: a string longer than `width - 3`
      keeps its first `width - 6` bytes and gains "...". */
  function Truncate(s: Bytes, width: int): (r: Bytes)
    requires width >= 6
    ensures |r| <= width - 3
    ensures |s| <= width - 3 ==> r == s
    ensures |s| > width - 3 ==> |r| == width - 3 && HasPrefix(s, r[..width - 6])
                                && r[width - 6..] == Ellipsis
  {
    if |s| > width - 3 then s[..width - 6] + Ellipsis else s
  }

  /** Cutting a cut string again changes nothing. */
  lemma TruncateIdempotent(s: Bytes, width: int)
    requires width >= 6
    ensures Truncate(Truncate(s, width), width) == Truncate(s, width)
  {
  }

  /** The cell of a size or capability list: the entries joined with ", ",
      cut to the column. */
  function ListCell(entries: seq<Bytes>, width: int): (r: Bytes)
    requires width >= 6
    ensures |r| + 3 <= width
  {
    Truncate(Join(entries, ListSeparator), width)
  }

  /** A list whose joined form fits shows every entry in full; a longer one
      shows exactly 27 bytes, the first 24 of the joined list and "...".
      The capabilities column is as wide as the sizes column, so the same
      holds for capability cells. */
  lemma ListCellShape(entries: seq<Bytes>)
    ensures var joined := Join(entries, ListSeparator);
            var cell := ListCell(entries, SizesWidth);
            && (|entries| == 0 ==> cell == [])
            && (TotalLength(entries) + 2 * (|entries| - 1) <= 27 ==> cell == joined)
            && (TotalLength(entries) + 2 * (|entries| - 1) > 27 ==>
                  |cell| == 27 && cell[..24] == joined[..24] && cell[24..] == Ellipsis)
    ensures ListCell(entries, CapabilitiesWidth) == ListCell(entries, SizesWidth)
  {
  }

  datatype Details = Details(capabilities: Bytes, downloads: Bytes, updated: Bytes)

  /** One printed row: the name, the sizes cell and, in detail mode, the rest. */
  datatype Row = Row(name: Bytes, sizes: Bytes, details: Option<Details>)

  datatype Layout = Layout(nameWidth: int, separator: Bytes, rows: seq<Row>)

  function RowOf(m: ModelInfo, showDetails: bool): Row {
    Row(m.name, ListCell(m.parameters, SizesWidth),
        if showDetails
        then Some(Details(ListCell(m.capabilities, CapabilitiesWidth), m.pullCount, m.updatedAt))
        else None)
  }

  /** The table for `models`: one row per model in order, every name and
      list cell fitting its column with room to spare. The name column is
      the narrowest of width 20 or more that leaves three blanks after
      every name, the separator spans the columns shown, and each list cell
      is the joined list cut to its column. */
  function TableOf(models: seq<ModelInfo>, showDetails: bool): (t: Layout)
    ensures |t.rows| == |models|
    ensures t.nameWidth == NameWidth(models)
    ensures t.separator == Separator(t.nameWidth, showDetails)
    ensures forall i :: 0 <= i < |models| ==>
              && t.rows[i].name == models[i].name
              && |t.rows[i].name| + 3 <= t.nameWidth
              && t.rows[i].sizes == ListCell(models[i].parameters, SizesWidth)
              && t.rows[i].details.Some? == showDetails
    ensures showDetails ==> forall i :: 0 <= i < |models| ==>
              t.rows[i].details == Some(Details(ListCell(models[i].capabilities, CapabilitiesWidth),
                                                models[i].pullCount, models[i].updatedAt))
  {
    var w := NameWidth(models);
    Layout(w, Separator(w, showDetails), seq(|models|, i requires 0 <= i < |models| => RowOf(models[i], showDetails)))
  }
}
