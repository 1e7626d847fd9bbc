/** The table tree: a table holds a head, a body and a foot section, a
    section holds rows, a row holds cells. Every level is a DomTag whose
    content hook casts its children to string. Children are kept in PHP
    ordered arrays, so appending, prepending and writing at an index follow
    PHP's array semantics. */
module TableTree {
  import opened Php
  import opened Results
  import opened Strings
  import opened OrderedMaps
  import opened DomTag

  const CellClass := NamedClass("td", true, Bool(true))
  const RowClass := NamedClass("tr", true, Bool(false))
  const HeadClass := NamedClass("thead", true, Bool(true))
  const BodyClass := NamedClass("tbody", true, Bool(true))
  const FootClass := NamedClass("tfoot", true, Bool(true))
  const TableClass := NamedClass("table", true, Bool(true))

  datatype Cell = Cell(tag: Tag, content: string)
  datatype Row = Row(tag: Tag, cells: OMap<Key, Cell>)
  datatype Section = Section(tag: Tag, rows: OMap<Key, Row>)
  datatype Table = Table(tag: Tag, head: Section, body: Section, foot: Section)

  /** A cell as its view receives it (`$this`): its tag and its content. */
  function CellObject(c: Cell): (d: Datum)
    ensures d.DObject? && d.tag == Some(c.tag)
  {
    DObject(Some(c.tag), [("content", DValue(Str(c.content)))])
  }

  /** A row as its view receives it: its tag and its cells, by key. */
  function RowObject(row: Row): (d: Datum)
    ensures d.DObject? && d.tag == Some(row.tag)
  {
    var cells := seq(|row.cells|, i requires 0 <= i < |row.cells| => (row.cells[i].0, CellObject(row.cells[i].1)));
    DObject(Some(row.tag), [("cells", DArray(cells))])
  }

  /** A section as its view receives it: its tag and its rows, by key. */
  function SectionObject(s: Section): (d: Datum)
    ensures d.DObject? && d.tag == Some(s.tag)
  {
    var rows := seq(|s.rows|, i requires 0 <= i < |s.rows| => (s.rows[i].0, RowObject(s.rows[i].1)));
    DObject(Some(s.tag), [("rows", DArray(rows))])
  }

  /** A table as its view receives it: its tag and its three sections. */
  function TableObject(t: Table): (d: Datum)
    ensures d.DObject? && d.tag == Some(t.tag)
  {
    DObject(Some(t.tag), [("head", SectionObject(t.head)), ("foot", SectionObject(t.foot)), ("body", SectionObject(t.body))])
  }

  /** Which of the table's three sections an operation addresses. */
  datatype Part = HeadPart | BodyPart | FootPart

  /** A fresh tag of a named container class without an explicit template. */
  function NewTag(c: TagClass): (t: Tag)
    requires c.template.None? && !EmptyName(c.tagName) && c.isContainer
    ensures Built(t, c) && t.attributes == [] && t.templateData == []
    ensures t.template == ContainerMarkup(c.tagName.value, AttributesPlaceholder, ContentPlaceholder)
  {
    DefaultTemplates(c);
    Construct(c).value
  }

  // ---------------------------------------------------------------------
  // Cells

  /** `new Cell`: a `td` with the empty string as content. */
  function NewCell(): (c: Cell)
    ensures Built(c.tag, CellClass) && c.tag.attributes == [] && c.content == ""
  {
    Cell(NewTag(CellClass), "")
  }

  /** `Body::newCellInstance`. */
  function NewCellInstance(): (c: Cell)
    ensures forall views :: RenderCell(c, views) == Success("<td></td>")
  {
    var c := NewCell();
    assert forall views :: RenderCell(c, views) == Success("<td></td>") by {
      forall views ensures RenderCell(c, views) == Success("<td></td>") {
        CellRenders(c, views, "");
      }
    }
    c
  }

  /** `setContent(String $content)`: a scalar is converted to its string
      form, null is a TypeError. */
  function SetContent(c: Cell, v: Value): (r: Result<Cell>)
    ensures r.Failure? <==> v == Null
    ensures r.Failure? ==> r.error == TypeError("Cell::setContent")
    ensures r.Success? ==> r.value.tag == c.tag
  {
    if v == Null then Failure(TypeError("Cell::setContent")) else Success(c.(content := ToStr(v)))
  }

  function GetContent(c: Cell): string
  {
    c.content
  }

  /** Reading back the content: the string written, or the string form of
      the scalar written. */
  lemma ContentRoundTrip(c: Cell, v: Value)
    requires v != Null
    ensures GetContent(SetContent(c, v).value) == ToStr(v)
    ensures v.Str? ==> GetContent(SetContent(c, v).value) == v.s
  {
  }

  /** A fresh cell holding the string form of `v`. */
  function CellOf(v: Value): Result<Cell>
  {
    SetContent(NewCell(), v)
  }

  /** Casting a cell to string; its content hook returns the content verbatim. */
  function RenderCell(c: Cell, views: Views): Result<string>
  {
    Render(c.tag, CellObject(c), Success(c.content), views)
  }

  /** A cell renders `<td` + attributes + `>` + content + `</td>`, even when
      the content is empty. */
  lemma CellRenders(c: Cell, views: Views, a: string)
    requires Built(c.tag, CellClass) && AttrPart(c.tag.attributes) == Success(a)
    ensures RenderCell(c, views) == Success(ContainerMarkup("td", ReplaceAll(a, ContentPlaceholder, c.content), c.content))
    ensures a == "" && c.content == "" ==> RenderCell(c, views) == Success("<td></td>")
  {
    BuiltRendersPlain(c.tag, CellClass, CellObject(c), Success(c.content), views);
    DefaultContainerRender(CellClass, c.tag, c.content, a);
    if a == "" && c.content == "" {
      EmptyElement("td");
      assert "<" + "td" + "></" + "td" + ">" == "<td></td>";
    }
  }

  // ---------------------------------------------------------------------
  // Rows

  /** `new Row`: a `tr` without cells that prints nothing when empty. */
  function NewRow(): (r: Row)
    ensures Built(r.tag, RowClass) && r.tag.attributes == [] && r.cells == []
    ensures !ShouldPrint(r.tag.printIfEmpty)
  {
    Row(NewTag(RowClass), [])
  }

  /** `strigifyRowContents`: no cells give `''`, otherwise every cell cast
      to string, joined by newlines. */
  function RowContent(row: Row, views: Views): (r: Result<string>)
    ensures |row.cells| == 0 ==> r == Success("")
    ensures r.Failure? ==> exists i :: 0 <= i < |row.cells| && RenderCell(row.cells[i].1, views) == Failure(r.error)
  {
    if |row.cells| == 0 then Success("")
    else
      var parts :- RenderEach(ValuesOf(row.cells), CellRenderer(views));
      Success(Join("\n", parts))
  }

  function RenderRow(row: Row, views: Views): Result<string>
  {
    Render(row.tag, RowObject(row), RowContent(row, views), views)
  }

  /** The cell renderer a row applies to each of its cells. */
  function CellRenderer(views: Views): Cell -> Result<string>
  {
    c => RenderCell(c, views)
  }

  /** A row without cells renders `''`: its empty content is suppressed. */
  lemma EmptyRowRendersNothing(row: Row, views: Views)
    requires Built(row.tag, RowClass) && row.cells == []
    ensures !HasNullAttribute(row.tag.attributes) ==> RenderRow(row, views) == Success("")
    ensures HasNullAttribute(row.tag.attributes) ==> RenderRow(row, views) == Failure(UnsupportedAttributeType("NULL"))
  {
    BuiltRendersPlain(row.tag, RowClass, RowObject(row), RowContent(row, views), views);
    DefaultTemplates(RowClass);
  }

  /** A row whose cells were all built as cells renders `<tr` + attributes +
      `>` + the cells' renderings joined by newlines + `</tr>`. */
  lemma RowRenders(row: Row, views: Views, a: string, parts: seq<string>)
    requires Built(row.tag, RowClass) && AttrPart(row.tag.attributes) == Success(a)
    requires |row.cells| > 0 && forall i :: 0 <= i < |row.cells| ==> Built(row.cells[i].1.tag, CellClass)
    requires RenderEach(ValuesOf(row.cells), CellRenderer(views)) == Success(parts)
    ensures RenderRow(row, views)
            == Success(ContainerMarkup("tr", ReplaceAll(a, ContentPlaceholder, Join("\n", parts)), Join("\n", parts)))
  {
    var first := row.cells[0].1;
    assert parts[0] == RenderCell(first, views).value;
    var a0 :| AttrPart(first.tag.attributes) == Success(a0);
    CellRenders(first, views, a0);
    JoinFirst("\n", parts);
    var content := Join("\n", parts);
    assert content[0] == '<' by {
      assert content[..|parts[0]|] == parts[0];
      assert parts[0][0] == '<';
    }
    assert !IsEmptyString(content);
    BuiltRendersPlain(row.tag, RowClass, RowObject(row), RowContent(row, views), views);
    DefaultContainerRender(RowClass, row.tag, content, a);
  }

  /** `appendCell`: the cell goes last, under the next integer key. */
  function AppendCell(row: Row, cell: Cell): (r: Row)
    ensures r.tag == row.tag
    ensures ValuesOf(r.cells) == ValuesOf(row.cells) + [cell]
    ensures r.cells[..|row.cells|] == row.cells
  {
    row.(cells := Push(row.cells, cell))
  }

  /** `prependCell`: the cell goes first under key 0; integer keys are
      renumbered, string keys kept. */
  function PrependCell(row: Row, cell: Cell): (r: Row)
    ensures r.tag == row.tag
    ensures ValuesOf(r.cells) == [cell] + ValuesOf(row.cells)
    ensures r.cells[0] == (IntKey(0), cell)
    ensures UniqueKeys(row.cells) ==> UniqueKeys(r.cells)
  {
    var cells := Unshift(row.cells, cell);
    UnshiftValues(row.cells, cell);
    assert UniqueKeys(row.cells) ==> UniqueKeys(cells) by {
      if UniqueKeys(row.cells) { UnshiftUnique(row.cells, cell); }
    }
    row.(cells := cells)
  }

  /** `addIndexedCell`: overwrite in place, or append under a new key. */
  function AddIndexedCell(row: Row, k: Key, cell: Cell): (r: Row)
    ensures r.tag == row.tag
    ensures Get(r.cells, k) == Some(cell)
    ensures forall other :: other != k ==> Get(r.cells, other) == Get(row.cells, other)
    ensures HasKey(row.cells, k) ==> KeysOf(r.cells) == KeysOf(row.cells)
    ensures !HasKey(row.cells, k) ==> r.cells == row.cells + [(k, cell)]
  {
    PutGetAll(row.cells, k, cell);
    PutKeys(row.cells, k, cell);
    row.(cells := Put(row.cells, k, cell))
  }

  /** Appending a cell extends the row's content by a newline and the cell. */
  lemma AppendCellContent(row: Row, cell: Cell, views: Views)
    requires RowContent(row, views).Success? && RenderCell(cell, views).Success?
    ensures |row.cells| == 0 ==> RowContent(AppendCell(row, cell), views) == RenderCell(cell, views)
    ensures |row.cells| > 0 ==>
              RowContent(AppendCell(row, cell), views)
              == Success(RowContent(row, views).value + "\n" + RenderCell(cell, views).value)
  {
    var render := CellRenderer(views);
    var parts := if |row.cells| == 0 then [] else RenderEach(ValuesOf(row.cells), render).value;
    assert RenderEach(ValuesOf(row.cells), render) == Success(parts);
    RenderEachAppend(ValuesOf(row.cells), cell, render);
    JoinAppend("\n", parts, RenderCell(cell, views).value);
  }

  /** Prepending a cell puts it, and a newline when there were cells, in front. */
  lemma PrependCellContent(row: Row, cell: Cell, views: Views)
    requires RowContent(row, views).Success? && RenderCell(cell, views).Success?
    ensures |row.cells| == 0 ==> RowContent(PrependCell(row, cell), views) == RenderCell(cell, views)
    ensures |row.cells| > 0 ==>
              RowContent(PrependCell(row, cell), views)
              == Success(RenderCell(cell, views).value + "\n" + RowContent(row, views).value)
  {
    var render := CellRenderer(views);
    var parts := if |row.cells| == 0 then [] else RenderEach(ValuesOf(row.cells), render).value;
    assert RenderEach(ValuesOf(row.cells), render) == Success(parts);
    RenderEachPrepend(cell, ValuesOf(row.cells), render);
    JoinPrepend("\n", RenderCell(cell, views).value, parts);
  }

  /** `setContentFromArray`: one fresh cell per entry, holding the entry's
      string form, written at the entry's key in order. A null entry is a
      TypeError. */
  function SetContentFromArray(row: Row, data: OMap<Key, Value>): (r: Result<Row>)
    ensures r.Success? <==> forall i :: 0 <= i < |data| ==> data[i].1 != Null
    ensures r.Success? ==> r.value.tag == row.tag
  {
    var cells :- MapValues(data, CellOf);
    Success(row.(cells := PutAll(row.cells, cells)))
  }

  /** After `setContentFromArray`, every key of the data holds a fresh cell
      with that entry's string form; other keys keep their cells. */
  lemma SetContentFromArrayCells(row: Row, data: OMap<Key, Value>, k: Key)
    requires UniqueKeys(data) && SetContentFromArray(row, data).Success?
    ensures HasKey(data, k) ==>
              Get(SetContentFromArray(row, data).value.cells, k) == Some(NewCell().(content := ToStr(Get(data, k).value)))
    ensures !HasKey(data, k) ==> Get(SetContentFromArray(row, data).value.cells, k) == Get(row.cells, k)
  {
    PutAllConvertedGet(row.cells, data, CellOf, k);
  }

  /** Filling a fresh row gives exactly one cell per entry, at the entry's
      key and in the data's order. */
  lemma NewRowFromArray(data: OMap<Key, Value>)
    requires UniqueKeys(data) && forall i :: 0 <= i < |data| ==> data[i].1 != Null
    ensures |SetContentFromArray(NewRow(), data).value.cells| == |data|
    ensures forall i :: 0 <= i < |data| ==>
              SetContentFromArray(NewRow(), data).value.cells[i] == (data[i].0, NewCell().(content := ToStr(data[i].1)))
  {
    var row := NewRow();
    var cells := MapValues(data, CellOf).value;
    MapValuesKeys(data, CellOf);
    PutAllFresh([], cells);
    assert [] + cells == cells;
    assert SetContentFromArray(row, data) == Success(row.(cells := cells));
    forall i | 0 <= i < |data| ensures cells[i] == (data[i].0, NewCell().(content := ToStr(data[i].1))) {
      assert cells[i] == (data[i].0, CellOf(data[i].1).value);
    }
  }

  // ---------------------------------------------------------------------
  // Sections

  predicate IsSectionClass(c: TagClass)
  {
    c == HeadClass || c == BodyClass || c == FootClass
  }

  function NewSection(c: TagClass): (s: Section)
    requires IsSectionClass(c)
    ensures Built(s.tag, c) && s.tag.attributes == [] && s.rows == []
    ensures ShouldPrint(s.tag.printIfEmpty)
  {
    Section(NewTag(c), [])
  }

  /** `strigifyTableSectionContents`: no rows give `''`, otherwise every row
      cast to string, joined by newlines. */
  function SectionContent(s: Section, views: Views): (r: Result<string>)
    ensures |s.rows| == 0 ==> r == Success("")
    ensures r.Failure? ==> exists i :: 0 <= i < |s.rows| && RenderRow(s.rows[i].1, views) == Failure(r.error)
  {
    if |s.rows| == 0 then Success("")
    else
      var parts :- RenderEach(ValuesOf(s.rows), RowRenderer(views));
      Success(Join("\n", parts))
  }

  function RenderSection(s: Section, views: Views): Result<string>
  {
    Render(s.tag, SectionObject(s), SectionContent(s, views), views)
  }

  /** The row renderer a section applies to each of its rows. */
  function RowRenderer(views: Views): Row -> Result<string>
  {
    row => RenderRow(row, views)
  }

  /** A section without rows still prints its opening and closing tags. */
  lemma EmptySectionRenders(s: Section, c: TagClass, views: Views, a: string)
    requires c.template.None? && c.isContainer && c.tagName.Some? && '{' !in c.tagName.value
    requires ShouldPrint(c.printIfEmpty) && Built(s.tag, c) && s.rows == []
    requires AttrPart(s.tag.attributes) == Success(a)
    ensures RenderSection(s, views) == Success(ContainerMarkup(c.tagName.value, ReplaceAll(a, ContentPlaceholder, ""), ""))
    ensures a == "" ==> RenderSection(s, views) == Success("<" + c.tagName.value + "></" + c.tagName.value + ">")
  {
    BuiltRendersPlain(s.tag, c, SectionObject(s), SectionContent(s, views), views);
    DefaultContainerRender(c, s.tag, "", a);
    if a == "" {
      EmptyElement(c.tagName.value);
    }
  }

  /** An empty body prints `<tbody></tbody>`. */
  lemma EmptyBodyRenders(s: Section, views: Views)
    requires Built(s.tag, BodyClass) && s.rows == [] && s.tag.attributes == []
    ensures RenderSection(s, views) == Success("<tbody></tbody>")
  {
    EmptySectionRenders(s, BodyClass, views, "");
    BodyLiteral();
  }

  lemma BodyLiteral()
    ensures "<" + "tbody" + "></" + "tbody" + ">" == "<tbody></tbody>"
  {
  }

  /** An empty head prints `<thead></thead>`. */
  lemma EmptyHeadRenders(s: Section, views: Views)
    requires Built(s.tag, HeadClass) && s.rows == [] && s.tag.attributes == []
    ensures RenderSection(s, views) == Success("<thead></thead>")
  {
    EmptySectionRenders(s, HeadClass, views, "");
    HeadLiteral();
  }

  lemma HeadLiteral()
    ensures "<" + "thead" + "></" + "thead" + ">" == "<thead></thead>"
  {
  }

  /** An empty foot prints `<tfoot></tfoot>`. */
  lemma EmptyFootRenders(s: Section, views: Views)
    requires Built(s.tag, FootClass) && s.rows == [] && s.tag.attributes == []
    ensures RenderSection(s, views) == Success("<tfoot></tfoot>")
  {
    EmptySectionRenders(s, FootClass, views, "");
    FootLiteral();
  }

  lemma FootLiteral()
    ensures "<" + "tfoot" + "></" + "tfoot" + ">" == "<tfoot></tfoot>"
  {
  }

  /** A suppressed row still contributes its separator: when the first row
      renders `''`, the section content starts with a newline. */
  lemma SuppressedRowKeepsSeparator(s: Section, views: Views, parts: seq<string>)
    requires |s.rows| > 1
    requires RenderEach(ValuesOf(s.rows), RowRenderer(views)) == Success(parts)
    requires parts[0] == ""
    ensures SectionContent(s, views) == Success("\n" + Join("\n", parts[1..]))
  {
    assert SectionContent(s, views) == Success(Join("\n", parts));
    JoinEmptyFirst("\n", parts);
  }

  /** `appendRow`. */
  function AppendRow(s: Section, row: Row): (r: Section)
    ensures r.tag == s.tag
    ensures ValuesOf(r.rows) == ValuesOf(s.rows) + [row]
    ensures r.rows[..|s.rows|] == s.rows
  {
    s.(rows := Push(s.rows, row))
  }

  /** `prependRow`. */
  function PrependRow(s: Section, row: Row): (r: Section)
    ensures r.tag == s.tag
    ensures ValuesOf(r.rows) == [row] + ValuesOf(s.rows)
    ensures r.rows[0] == (IntKey(0), row)
    ensures UniqueKeys(s.rows) ==> UniqueKeys(r.rows)
  {
    var rows := Unshift(s.rows, row);
    UnshiftValues(s.rows, row);
    assert UniqueKeys(s.rows) ==> UniqueKeys(rows) by {
      if UniqueKeys(s.rows) { UnshiftUnique(s.rows, row); }
    }
    s.(rows := rows)
  }

  /** `addIndexedRow`, written like `Row::addIndexedCell`. */
  function AddIndexedRow(s: Section, k: Key, row: Row): (r: Section)
    ensures r.tag == s.tag
    ensures Get(r.rows, k) == Some(row)
    ensures forall other :: other != k ==> Get(r.rows, other) == Get(s.rows, other)
    ensures HasKey(s.rows, k) ==> KeysOf(r.rows) == KeysOf(s.rows)
    ensures !HasKey(s.rows, k) ==> r.rows == s.rows + [(k, row)]
  {
    PutGetAll(s.rows, k, row);
    PutKeys(s.rows, k, row);
    s.(rows := Put(s.rows, k, row))
  }

  /** A fresh row filled from one row's data. */
  function RowOf(data: OMap<Key, Value>): Result<Row>
  {
    SetContentFromArray(NewRow(), data)
  }

  /** `buildContentFromArray`, written like `Row::setContentFromArray`: one
      fresh row per entry, filled from the entry's cell data and written at
      the entry's key. */
  function BuildContentFromArray(s: Section, data: OMap<Key, OMap<Key, Value>>): (r: Result<Section>)
    ensures r.Success? <==> forall i :: 0 <= i < |data| ==> RowOf(data[i].1).Success?
    ensures r.Success? ==> r.value.tag == s.tag
  {
    var rows :- MapValues(data, RowOf);
    Success(s.(rows := PutAll(s.rows, rows)))
  }

  /** After `buildContentFromArray`, every key of the data holds the row
      built from that entry; other keys keep their rows. */
  lemma BuildContentFromArrayRows(s: Section, data: OMap<Key, OMap<Key, Value>>, k: Key)
    requires UniqueKeys(data) && BuildContentFromArray(s, data).Success?
    ensures HasKey(data, k) ==>
              Get(BuildContentFromArray(s, data).value.rows, k) == Some(RowOf(Get(data, k).value).value)
    ensures !HasKey(data, k) ==> Get(BuildContentFromArray(s, data).value.rows, k) == Get(s.rows, k)
  {
    PutAllConvertedGet(s.rows, data, RowOf, k);
  }

  // ---------------------------------------------------------------------
  // Tables

  /** The constructor: a `table` with a fresh head, body and foot. */
  function NewTable(): (t: Table)
    ensures Built(t.tag, TableClass) && t.tag.attributes == []
    ensures Built(t.head.tag, HeadClass) && Built(t.body.tag, BodyClass) && Built(t.foot.tag, FootClass)
    ensures t.head.rows == [] && t.body.rows == [] && t.foot.rows == []
  {
    Table(NewTag(TableClass), NewSection(HeadClass), NewSection(BodyClass), NewSection(FootClass))
  }

  function SectionOf(t: Table, p: Part): Section
  {
    match p
    case HeadPart => t.head
    case BodyPart => t.body
    case FootPart => t.foot
  }

  /** `setHead`, `setBody`, `setFoot`: replaces exactly one section. */
  function WithSection(t: Table, p: Part, s: Section): (r: Table)
    ensures SectionOf(r, p) == s
    ensures forall q :: q != p ==> SectionOf(r, q) == SectionOf(t, q)
    ensures r.tag == t.tag
  {
    match p
    case HeadPart => t.(head := s)
    case BodyPart => t.(body := s)
    case FootPart => t.(foot := s)
  }

  /** `appendHeadRow`, `appendBodyRow`, `appendFootRow`. */
  function AppendSectionRow(t: Table, p: Part, row: Row): (r: Table)
    ensures ValuesOf(SectionOf(r, p).rows) == ValuesOf(SectionOf(t, p).rows) + [row]
    ensures forall q :: q != p ==> SectionOf(r, q) == SectionOf(t, q)
    ensures r.tag == t.tag
  {
    WithSection(t, p, AppendRow(SectionOf(t, p), row))
  }

  /** `prependHeadRow`, `prependBodyRow`, `prependFootRow`. */
  function PrependSectionRow(t: Table, p: Part, row: Row): (r: Table)
    ensures ValuesOf(SectionOf(r, p).rows) == [row] + ValuesOf(SectionOf(t, p).rows)
    ensures forall q :: q != p ==> SectionOf(r, q) == SectionOf(t, q)
    ensures r.tag == t.tag
  {
    WithSection(t, p, PrependRow(SectionOf(t, p), row))
  }

  /** The `head`, `body` and `foot` shortcuts: `buildContentFromArray` on
      that section only. */
  function BuildSection(t: Table, p: Part, data: OMap<Key, OMap<Key, Value>>): (r: Result<Table>)
    ensures r.Success? <==> BuildContentFromArray(SectionOf(t, p), data).Success?
    ensures r.Success? ==> SectionOf(r.value, p) == BuildContentFromArray(SectionOf(t, p), data).value
    ensures r.Success? ==> forall q :: q != p ==> SectionOf(r.value, q) == SectionOf(t, q)
    ensures r.Success? ==> r.value.tag == t.tag
  {
    var s :- BuildContentFromArray(SectionOf(t, p), data);
    Success(WithSection(t, p, s))
  }

  /** `strigifyTableContents`: head, body and foot cast to string and
      concatenated without a separator. */
  function TableContent(t: Table, views: Views): (r: Result<string>)
    ensures r.Success? <==> RenderSection(t.head, views).Success? && RenderSection(t.body, views).Success?
                            && RenderSection(t.foot, views).Success?
    ensures r.Success? ==> r.value == RenderSection(t.head, views).value + RenderSection(t.body, views).value
                                      + RenderSection(t.foot, views).value
  {
    var h :- RenderSection(t.head, views);
    var b :- RenderSection(t.body, views);
    var f :- RenderSection(t.foot, views);
    Success(h + b + f)
  }

  function RenderTable(t: Table, views: Views): Result<string>
  {
    Render(t.tag, TableObject(t), TableContent(t, views), views)
  }

  /** A table renders `<table` + attributes + `>` + head, body and foot +
      `</table>`. */
  lemma TableRenders(t: Table, views: Views, a: string, content: string)
    requires Built(t.tag, TableClass) && AttrPart(t.tag.attributes) == Success(a)
    requires TableContent(t, views) == Success(content)
    ensures RenderTable(t, views) == Success(ContainerMarkup("table", ReplaceAll(a, ContentPlaceholder, content), content))
  {
    BuiltRendersPlain(t.tag, TableClass, TableObject(t), TableContent(t, views), views);
    DefaultContainerRender(TableClass, t.tag, content, a);
  }

  /** A fresh table's content is its three empty sections, in order. */
  lemma NewTableContent(views: Views)
    ensures TableContent(NewTable(), views) == Success("<thead></thead>" + "<tbody></tbody>" + "<tfoot></tfoot>")
  {
    var t := NewTable();
    EmptyHeadRenders(t.head, views);
    EmptyBodyRenders(t.body, views);
    EmptyFootRenders(t.foot, views);
  }

  /** A fresh table renders its three empty sections inside `<table>`. */
  lemma NewTableRenders(views: Views)
    ensures RenderTable(NewTable(), views)
            == Success("<table>" + ("<thead></thead>" + "<tbody></tbody>" + "<tfoot></tfoot>") + "</table>")
  {
    var content := "<thead></thead>" + "<tbody></tbody>" + "<tfoot></tfoot>";
    var t := NewTable();
    NewTableContent(views);
    assert AttrPart(t.tag.attributes) == Success("");
    TableRenders(t, views, "", content);
    ReplaceAllShort("", ContentPlaceholder, content);
    PlainContainer("table", content);
    TableLiteral();
  }

  lemma TableLiteral()
    ensures "<" + "table" + ">" == "<table>" && "</" + "table" + ">" == "</table>"
  {
  }

  /** A container without attributes is its opening tag, content and
      closing tag. */
  lemma PlainContainer(n: string, c: string)
    ensures ContainerMarkup(n, "", c) == "<" + n + ">" + c + ("</" + n + ">")
  {
  }
}
