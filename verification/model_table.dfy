/** The table that lists a collection of model entries: every cast to string
    rebuilds the head and the foot from the column labels and the body from
    the entries, then renders like any other table. A column's value is
    resolved from a getter, the raw attribute map or a relation, in that
    order. Entries are abstract records: the methods they answer, their
    attribute map and their relations. */
module ModelCollection {
  import opened Php
  import opened Results
  import opened Strings
  import opened OrderedMaps
  import opened DomTag
  import opened TableTree

  const EmptyPropertyPlaceholder := "-"
  const RelationHookPrefix := "getColumnValueFor"

  /** An entry reached through a relation: its class and the values its
      methods return. */
  datatype Related = Related(className: string, methods: map<string, Value>)

  /** A model entry: its class, the values its methods return, its
      attribute map (`getAttributes()`) and, per relation name, the related
      entries the relation yields. */
  datatype Entry = Entry(
    className: string,
    methods: map<string, Value>,
    attributes: OMap<string, Value>,
    relations: map<string, seq<Related>>)

  /** The table together with its configuration. `showHead` and `showFoot`
      are read but never declared, so they are null unless assigned. */
  datatype CollectionTable = CollectionTable(
    table: Table,
    collection: OMap<Key, Entry>,
    columns: seq<string>,
    headerLabels: OMap<string, Value>,
    showHead: Value,
    showFoot: Value)

  function NewCollectionTable(): CollectionTable
  {
    CollectionTable(NewTable(), [], [], [], Null, Null)
  }

  function SetCollection(t: CollectionTable, collection: OMap<Key, Entry>): CollectionTable
  {
    t.(collection := collection)
  }

  function SetColumns(t: CollectionTable, columns: seq<string>): CollectionTable
  {
    t.(columns := columns)
  }

  function SetHeaders(t: CollectionTable, labels: OMap<string, Value>): CollectionTable
  {
    t.(headerLabels := labels)
  }

  // ---------------------------------------------------------------------
  // Column resolution

  /** The getter names probed for a property, in order. */
  function GetterNames(property: string): (names: seq<string>)
    ensures |names| == 3
    ensures names[0] == "is" + Ucfirst(property)
    ensures names[1] == "has" + Ucfirst(property)
    ensures names[2] == "get" + Ucfirst(property)
  {
    ["is" + Ucfirst(property), "has" + Ucfirst(property), "get" + Ucfirst(property)]
  }

  /** The probe loop: the first name the entry answers is called and its
      result returned, even when it is null; later names are not tried. */
  function Probe(methods: map<string, Value>, names: seq<string>): (r: Value)
    ensures (forall i :: 0 <= i < |names| ==> names[i] !in methods) ==> r == Null
    ensures forall i :: 0 <= i < |names| && names[i] in methods && (forall j :: 0 <= j < i ==> names[j] !in methods) ==>
              r == methods[names[i]]
  {
    if |names| == 0 then Null
    else if names[0] in methods then methods[names[0]]
    else
      var rest := Probe(methods, names[1..]);
      assert forall i :: 1 <= i < |names| ==> names[i] == names[1..][i - 1];
      rest
  }

  /** `loadColumnValueFromEntryUsingPropertyGetter`. */
  function GetterValue(e: Entry, property: string): Value
  {
    Probe(e.methods, GetterNames(property))
  }

  /** The getter probe tries `is`, then `has`, then `get`: the first that
      exists decides, and a property no getter answers gives null. */
  lemma GetterOrder(e: Entry, property: string)
    ensures var n := GetterNames(property);
            && (n[0] in e.methods ==> GetterValue(e, property) == e.methods[n[0]])
            && (n[0] !in e.methods && n[1] in e.methods ==> GetterValue(e, property) == e.methods[n[1]])
            && (n[0] !in e.methods && n[1] !in e.methods && n[2] in e.methods ==>
                  GetterValue(e, property) == e.methods[n[2]])
            && (n[0] !in e.methods && n[1] !in e.methods && n[2] !in e.methods ==>
                  GetterValue(e, property) == Null)
  {
  }

  /** `loadColumnValueFromEntryAccessingPropertyDirectly`: the attribute when
      it is present with a non-null value, otherwise null. */
  function DirectValue(e: Entry, property: string): (r: Value)
    ensures r != Null <==> Get(e.attributes, property).Some? && Get(e.attributes, property).value != Null
    ensures r != Null ==> Get(e.attributes, property) == Some(r)
  {
    match Get(e.attributes, property)
    case Some(v) => v
    case None => Null
  }

  /** `normalizeString`: the class basename, stripped of everything but
      letters, digits and spaces, then studly-cased. */
  function NormalizeString(s: string): (r: string)
    ensures ' ' !in r && '\\' !in r
  {
    var stripped := StripNonWord(ClassBasename(s));
    assert '\\' !in stripped by {
      assert forall i :: 0 <= i < |stripped| ==> IsWordChar(stripped[i]);
    }
    StudlyWordChars(stripped);
    Studly(stripped)
  }

  /** Studly-casing keeps a string free of backslashes. */
  lemma {:induction false} StudlyWordChars(s: string)
    requires '\\' !in s
    ensures '\\' !in Studly(s)
  {
    StudlyFromKeeps(s, true);
  }

  lemma {:induction false} StudlyFromKeeps(s: string, atWordStart: bool)
    requires '\\' !in s
    ensures '\\' !in StudlyFrom(s, atWordStart)
    decreases |s|
  {
    if |s| > 0 {
      assert s[0] in s;
      assert forall i :: 0 <= i < |s| - 1 ==> s[1..][i] == s[i + 1];
      StudlyFromKeeps(s[1..], s[0] == ' ');
    }
  }

  /** The namespace does not matter: only the part after the last backslash
      is normalised. */
  lemma NormalizeQualified(ns: string, name: string)
    requires '\\' !in name
    ensures NormalizeString(ns + "\\" + name) == NormalizeString(name)
  {
    BasenameOfQualified(ns, name);
  }

  lemma {:induction false} BasenameOfQualified(ns: string, name: string)
    requires '\\' !in name
    ensures ClassBasename(ns + "\\" + name) == name
    decreases |name|
  {
    var q := ns + "\\" + name;
    if |name| > 0 {
      var init := name[..|name| - 1];
      assert name[|name| - 1] in name;
      assert q[..|q| - 1] == ns + "\\" + init;
      assert forall c :: c in init ==> c in name;
      BasenameOfQualified(ns, init);
      assert init + [name[|name| - 1]] == name;
    }
  }

  /** A plain class name of letters and digits normalises to itself with
      its first letter upper-cased. */
  lemma NormalizePlainName(name: string)
    requires forall i :: 0 <= i < |name| ==> IsWordChar(name[i]) && name[i] != ' '
    ensures NormalizeString(name) == Ucfirst(name)
  {
    assert '\\' !in name by {
      forall i | 0 <= i < |name| ensures name[i] != '\\' {
        assert IsWordChar(name[i]);
      }
    }
    assert ' ' !in name;
    StudlyOfOneWord(name);
  }

  /** The method a related entry must answer to print itself for `owner`. */
  function HookName(owner: Entry): string
  {
    RelationHookPrefix + NormalizeString(owner.className)
  }

  /** `getRelationPrintableValue`: the hook's result as a string; a null
      result fails the `String` return type, and without the hook the
      fallback fails (it implodes a non-array into a `String` return). */
  function RelationPrintable(related: Related, owner: Entry): (r: Result<string>)
    ensures r.Success? <==> HookName(owner) in related.methods && related.methods[HookName(owner)] != Null
    ensures r.Success? ==> r.value == ToStr(related.methods[HookName(owner)])
    ensures HookName(owner) !in related.methods ==> r == Failure(RelationFallbackBroken)
  {
    var hook := HookName(owner);
    if hook !in related.methods then Failure(RelationFallbackBroken)
    else if related.methods[hook] == Null then Failure(TypeError("getRelationPrintableValue"))
    else Success(ToStr(related.methods[hook]))
  }

  function RelatedPrinter(owner: Entry): Related -> Result<string>
  {
    related => RelationPrintable(related, owner)
  }

  /** `loadColumnValueFromEntryRelation`: the related entries' printable
      values concatenated in order. The relation method must exist. */
  function RelationValue(e: Entry, name: string): (r: Result<Value>)
    ensures name !in e.relations ==> r == Failure(UndefinedRelation(name))
    ensures name in e.relations ==>
              (r.Success? <==> forall i :: 0 <= i < |e.relations[name]| ==> RelationPrintable(e.relations[name][i], e).Success?)
    ensures r.Success? ==> r.value.Str?
    ensures name in e.relations && e.relations[name] == [] ==> r == Success(Str(""))
  {
    if name !in e.relations then Failure(UndefinedRelation(name))
    else
      var parts :- RenderEach(e.relations[name], RelatedPrinter(e));
      Success(Str(Concat(parts)))
  }

  /** The relation value is every related entry's printable value, in order. */
  lemma RelationValueConcatenates(e: Entry, name: string, parts: seq<string>)
    requires name in e.relations
    requires |parts| == |e.relations[name]|
    requires forall i :: 0 <= i < |parts| ==> RelationPrintable(e.relations[name][i], e) == Success(parts[i])
    ensures RelationValue(e, name) == Success(Str(Concat(parts)))
  {
    var r := RenderEach(e.relations[name], RelatedPrinter(e));
    assert r.Success?;
    assert r.value == parts;
  }

  /** `getRowColumnValue`: the first non-null of the getter probe, the raw
      attribute and the relation. */
  function ColumnValue(e: Entry, property: string): (r: Result<Value>)
    ensures GetterValue(e, property) != Null ==> r == Success(GetterValue(e, property))
    ensures GetterValue(e, property) == Null && DirectValue(e, property) != Null ==>
              r == Success(DirectValue(e, property))
    ensures GetterValue(e, property) == Null && DirectValue(e, property) == Null ==>
              r == RelationValue(e, property)
    ensures r.Success? ==> r.value != Null
  {
    var fromGetter := GetterValue(e, property);
    if fromGetter != Null then Success(fromGetter)
    else
      var direct := DirectValue(e, property);
      if direct != Null then Success(direct)
      else RelationValue(e, property)
  }

  /** `getEmptyColumnPlaceholder`: the argument, or `'-'` when it is null. */
  function EmptyColumnPlaceholder(placeholder: Value): (r: Value)
    ensures r != Null
    ensures placeholder != Null ==> r == placeholder
    ensures placeholder == Null ==> r == Str(EmptyPropertyPlaceholder)
  {
    if placeholder != Null then placeholder else Str(EmptyPropertyPlaceholder)
  }

  /** PHP's `??` on values. */
  function Coalesce(v: Value, fallback: Value): Value
  {
    if v != Null then v else fallback
  }

  /** `buildBody` computes `value ?? placeholder` but stores the raw value;
      a resolved value is never null, so the two always agree. */
  lemma PlaceholderNeverApplies(e: Entry, property: string)
    requires ColumnValue(e, property).Success?
    ensures Coalesce(ColumnValue(e, property).value, EmptyColumnPlaceholder(Null)) == ColumnValue(e, property).value
  {
  }

  // ---------------------------------------------------------------------
  // Row data

  /** `$row[$property] = f($property)` for every column in order, starting
      from `acc`; the first failing column aborts. A column named twice is
      written twice under one key. */
  function RowData(acc: OMap<Key, Value>, columns: seq<string>, f: string -> Result<Value>): (r: Result<OMap<Key, Value>>)
    ensures r.Success? <==> forall i :: 0 <= i < |columns| ==> f(columns[i]).Success?
    ensures r.Failure? ==> exists i :: 0 <= i < |columns| && f(columns[i]) == Failure(r.error) &&
                                       forall j :: 0 <= j < i ==> f(columns[j]).Success?
    ensures r.Success? ==> forall k :: Get(r.value, k) ==
                             (if k.StrKey? && k.name in columns then Some(f(k.name).value) else Get(acc, k))
    ensures r.Success? && UniqueKeys(acc) ==> UniqueKeys(r.value)
    decreases |columns|
  {
    if |columns| == 0 then Success(acc)
    else
      var v :- f(columns[0]);
      var r := RowData(Put(acc, StrKey(columns[0]), v), columns[1..], f);
      RowDataStep(acc, columns, f, v, r);
      r
  }

  /** One step of `RowData`: what holds of the tail after writing the first
      column holds of the whole list. */
  lemma RowDataStep(acc: OMap<Key, Value>, columns: seq<string>, f: string -> Result<Value>, v: Value, r: Result<OMap<Key, Value>>)
    requires |columns| > 0 && f(columns[0]) == Success(v)
    requires r.Success? <==> forall i :: 0 <= i < |columns| - 1 ==> f(columns[1..][i]).Success?
    requires r.Failure? ==> exists i :: 0 <= i < |columns| - 1 && f(columns[1..][i]) == Failure(r.error) &&
                                        forall j :: 0 <= j < i ==> f(columns[1..][j]).Success?
    requires r.Success? ==> forall k :: Get(r.value, k) ==
                              (if k.StrKey? && k.name in columns[1..] then Some(f(k.name).value)
                               else Get(Put(acc, StrKey(columns[0]), v), k))
    requires r.Success? && UniqueKeys(Put(acc, StrKey(columns[0]), v)) ==> UniqueKeys(r.value)
    ensures r.Success? <==> forall i :: 0 <= i < |columns| ==> f(columns[i]).Success?
    ensures r.Failure? ==> exists i :: 0 <= i < |columns| && f(columns[i]) == Failure(r.error) &&
                                       forall j :: 0 <= j < i ==> f(columns[j]).Success?
    ensures r.Success? ==> forall k :: Get(r.value, k) ==
                             (if k.StrKey? && k.name in columns then Some(f(k.name).value) else Get(acc, k))
    ensures r.Success? && UniqueKeys(acc) ==> UniqueKeys(r.value)
  {
    PutGetAll(acc, StrKey(columns[0]), v);
    PutUnique2(acc, StrKey(columns[0]), v);
    assert forall i :: 1 <= i < |columns| ==> columns[i] == columns[1..][i - 1];
    assert forall c :: c in columns <==> c == columns[0] || c in columns[1..];
    if r.Failure? {
      var i :| 0 <= i < |columns| - 1 && f(columns[1..][i]) == Failure(r.error) &&
               forall j :: 0 <= j < i ==> f(columns[1..][j]).Success?;
      assert f(columns[i + 1]) == Failure(r.error);
      forall j | 0 <= j < i + 1 ensures f(columns[j]).Success? {
        if j > 0 { assert columns[j] == columns[1..][j - 1]; }
      }
    }
  }

  /** The header label of a column, which must be set. */
  function Label(labels: OMap<string, Value>, column: string): (r: Result<Value>)
    ensures r.Success? <==> Get(labels, column).Some? && Get(labels, column).value != Null
    ensures r.Success? ==> Get(labels, column) == Some(r.value)
    ensures r.Failure? ==> r.error == MissingHeaderLabel(column)
  {
    match Get(labels, column)
    case Some(v) => if v == Null then Failure(MissingHeaderLabel(column)) else Success(v)
    case None => Failure(MissingHeaderLabel(column))
  }

  function LabelOf(labels: OMap<string, Value>): string -> Result<Value>
  {
    column => Label(labels, column)
  }

  function ColumnOf(e: Entry): string -> Result<Value>
  {
    property => ColumnValue(e, property)
  }

  /** The one row of the head and of the foot: each column's label under
      the column's name. */
  function HeaderRow(t: CollectionTable): Result<OMap<Key, Value>>
  {
    RowData([], t.columns, LabelOf(t.headerLabels))
  }

  /** The row of one entry: each column's resolved value under the column's
      name, turned into cells. */
  function EntryRow(e: Entry, columns: seq<string>): Result<Row>
  {
    var data :- RowData([], columns, ColumnOf(e));
    RowOf(data)
  }

  function EntryRowOf(columns: seq<string>): Entry -> Result<Row>
  {
    e => EntryRow(e, columns)
  }

  /** Resolved values are never null, so the cells of an entry's row never
      fail: the row builds exactly when every column resolves. */
  lemma EntryRowBuilds(e: Entry, columns: seq<string>)
    ensures EntryRow(e, columns).Success? <==> forall i :: 0 <= i < |columns| ==> ColumnValue(e, columns[i]).Success?
  {
    var data := RowData([], columns, ColumnOf(e));
    if data.Success? {
      forall i | 0 <= i < |data.value| ensures data.value[i].1 != Null {
        assert HasKey(data.value, data.value[i].0);
        GetIndexOf(data.value, data.value[i].0, i);
      }
    }
  }

  /** The value `Get` reads for a key is the value of some entry with that
      key; with distinct keys, of the entry at hand. */
  lemma GetIndexOf(m: OMap<Key, Value>, k: Key, i: int)
    requires 0 <= i < |m| && m[i].0 == k && UniqueKeys(m)
    ensures Get(m, k) == Some(m[i].1)
  {
  }

  // ---------------------------------------------------------------------
  // Rebuilding

  /** `buildHead`: only when `showHead` is exactly `true`; every column needs
      a label, and the labels become the head's row at key 0. Nothing but the
      head changes. */
  function BuildHead(t: CollectionTable): (r: Result<CollectionTable>)
    ensures t.showHead != Bool(true) ==> r == Success(t)
    ensures t.showHead == Bool(true) ==> (r.Success? <==> HeaderRow(t).Success?)
    ensures r.Success? && t.showHead == Bool(true) ==>
              && BuildContentFromArray(t.table.head, [(IntKey(0), HeaderRow(t).value)]).Success?
              && r.value.table.head == BuildContentFromArray(t.table.head, [(IntKey(0), HeaderRow(t).value)]).value
    ensures r.Success? ==> r.value.table.(head := t.table.head) == t.table
    ensures r.Success? ==> r.value.(table := t.table) == t
  {
    if t.showHead != Bool(true) then Success(t)
    else
      var labels :- HeaderRow(t);
      LabelsBuild(t.table.head, t, labels);
      var head := BuildContentFromArray(t.table.head, [(IntKey(0), labels)]).value;
      Success(t.(table := t.table.(head := head)))
  }

  /** `buildFoot`: the same row as the head, in the foot. */
  function BuildFoot(t: CollectionTable): (r: Result<CollectionTable>)
    ensures t.showFoot != Bool(true) ==> r == Success(t)
    ensures t.showFoot == Bool(true) ==> (r.Success? <==> HeaderRow(t).Success?)
    ensures r.Success? && t.showFoot == Bool(true) ==>
              && BuildContentFromArray(t.table.foot, [(IntKey(0), HeaderRow(t).value)]).Success?
              && r.value.table.foot == BuildContentFromArray(t.table.foot, [(IntKey(0), HeaderRow(t).value)]).value
    ensures r.Success? ==> r.value.table.(foot := t.table.foot) == t.table
    ensures r.Success? ==> r.value.(table := t.table) == t
  {
    if t.showFoot != Bool(true) then Success(t)
    else
      var labels :- HeaderRow(t);
      LabelsBuild(t.table.foot, t, labels);
      var foot := BuildContentFromArray(t.table.foot, [(IntKey(0), labels)]).value;
      Success(t.(table := t.table.(foot := foot)))
  }

  /** A label row never holds null, so its cells always build. */
  lemma LabelRowBuilds(t: CollectionTable, labels: OMap<Key, Value>)
    requires HeaderRow(t) == Success(labels)
    ensures RowOf(labels).Success?
  {
    forall i | 0 <= i < |labels| ensures labels[i].1 != Null {
      assert HasKey(labels, labels[i].0);
      GetIndexOf(labels, labels[i].0, i);
    }
  }

  /** ... and so the head or foot built from it. */
  lemma LabelsBuild(s: Section, t: CollectionTable, labels: OMap<Key, Value>)
    requires HeaderRow(t) == Success(labels)
    ensures BuildContentFromArray(s, [(IntKey(0), labels)]).Success?
  {
    LabelRowBuilds(t, labels);
    assert [(IntKey(0), labels)][0].1 == labels;
  }

  /** `buildBody`: one row per entry, written at the entry's collection
      index (an existing row there is replaced in place). */
  function BuildBody(t: CollectionTable): (r: Result<CollectionTable>)
    ensures r.Success? <==> forall i :: 0 <= i < |t.collection| ==> EntryRow(t.collection[i].1, t.columns).Success?
    ensures r.Success? ==> r.value.(table := t.table) == t
    ensures r.Success? ==> r.value.table.(body := t.table.body) == t.table
    ensures r.Success? ==> r.value.table.body.tag == t.table.body.tag
  {
    var rows :- MapValues(t.collection, EntryRowOf(t.columns));
    Success(t.(table := t.table.(body := t.table.body.(rows := PutAll(t.table.body.rows, rows)))))
  }

  /** `buildContents`: head, then foot, then body. */
  function BuildContents(t: CollectionTable): (r: Result<CollectionTable>)
    ensures r.Success? ==> r.value.(table := t.table) == t
  {
    var withHead :- BuildHead(t);
    var withFoot :- BuildFoot(withHead);
    BuildBody(withFoot)
  }

  /** The table's content hook rebuilds before it concatenates the sections. */
  function Contents(t: CollectionTable, views: Views): Result<string>
  {
    var built :- BuildContents(t);
    TableContent(built.table, views)
  }

  /** An entry as a view receives it among the collection: its attributes.
      Method results and relations are computed on demand and are not data. */
  function EntryObject(e: Entry): Datum
  {
    DObject(None, [("attributes", DArray(seq(|e.attributes|, i requires 0 <= i < |e.attributes| =>
                                               (StrKey(e.attributes[i].0), DValue(e.attributes[i].1)))))])
  }

  /** The table as its view receives it: the sections, then the collection,
      the placeholder, the columns, the header labels and the two flags. */
  function CollectionObject(t: CollectionTable): (d: Datum)
    ensures d.DObject? && d.tag == Some(t.table.tag)
  {
    var entries := seq(|t.collection|, i requires 0 <= i < |t.collection| => (t.collection[i].0, EntryObject(t.collection[i].1)));
    var columns := seq(|t.columns|, i requires 0 <= i < |t.columns| => (IntKey(i), DValue(Str(t.columns[i]))));
    var labels := seq(|t.headerLabels|, i requires 0 <= i < |t.headerLabels| => (StrKey(t.headerLabels[i].0), DValue(t.headerLabels[i].1)));
    DObject(Some(t.table.tag), TableObject(t.table).properties + [
      ("modelCollection", DArray(entries)),
      ("emptyPropertyPlaceholder", DValue(Str(EmptyPropertyPlaceholder))),
      ("modelPropertiesAsColumns", DArray(columns)),
      ("headerLabels", DArray(labels)),
      ("showHead", DValue(t.showHead)),
      ("showFoot", DValue(t.showFoot))])
  }

  /** Casting the table to string. */
  function RenderCollection(t: CollectionTable, views: Views): Result<string>
  {
    Render(t.table.tag, CollectionObject(t), Contents(t, views), views)
  }

  // ---------------------------------------------------------------------
  // Properties of a rebuild

  /** A head or foot requested without a label for some column fails with
      the first such column's name. */
  lemma MissingLabelNamed(t: CollectionTable)
    requires t.showHead == Bool(true) || t.showFoot == Bool(true)
    requires HeaderRow(t).Failure?
    ensures BuildContents(t).Failure?
    ensures exists i :: 0 <= i < |t.columns| && BuildContents(t).error == MissingHeaderLabel(t.columns[i]) &&
              (Get(t.headerLabels, t.columns[i]).None? || Get(t.headerLabels, t.columns[i]).value == Null) &&
              forall j :: 0 <= j < i ==> Label(t.headerLabels, t.columns[j]).Success?
  {
    var i :| 0 <= i < |t.columns| && LabelOf(t.headerLabels)(t.columns[i]) == Failure(HeaderRow(t).error) &&
             forall j :: 0 <= j < i ==> LabelOf(t.headerLabels)(t.columns[j]).Success?;
    if t.showHead == Bool(true) {
      assert BuildHead(t) == Failure(HeaderRow(t).error);
    } else {
      assert BuildHead(t) == Success(t);
      assert BuildFoot(t) == Failure(HeaderRow(t).error);
    }
  }

  /** After a rebuild with a head, the head's row 0 is the row built from
      the labels. */
  lemma HeadRowHoldsLabels(t: CollectionTable)
    requires t.showHead == Bool(true) && BuildContents(t).Success?
    ensures HeaderRow(t).Success? && RowOf(HeaderRow(t).value).Success?
    ensures Get(BuildContents(t).value.table.head.rows, IntKey(0)) == Some(RowOf(HeaderRow(t).value).value)
  {
    var labels := HeaderRow(t).value;
    var data := [(IntKey(0), labels)];
    assert BuildContents(t).value.table.head == BuildHead(t).value.table.head;
    assert Get(data, IntKey(0)) == Some(labels);
    BuildContentFromArrayRows(t.table.head, data, IntKey(0));
  }

  /** The row built from the labels holds, under each column's name, a cell
      with that column's label. */
  lemma LabelCells(t: CollectionTable, column: string)
    requires HeaderRow(t).Success? && column in t.columns
    ensures RowOf(HeaderRow(t).value).Success?
    ensures Get(RowOf(HeaderRow(t).value).value.cells, StrKey(column))
            == Some(NewCell().(content := ToStr(Get(t.headerLabels, column).value)))
  {
    var labels := HeaderRow(t).value;
    LabelRowBuilds(t, labels);
    assert Get(labels, StrKey(column)) == Some(LabelOf(t.headerLabels)(column).value);
    SetContentFromArrayCells(NewRow(), labels, StrKey(column));
  }

  /** After a rebuild, the body row at an entry's index is the row built
      from that entry. */
  lemma BodyRowHoldsEntry(t: CollectionTable, k: Key)
    requires UniqueKeys(t.collection) && HasKey(t.collection, k) && BuildContents(t).Success?
    ensures EntryRow(Get(t.collection, k).value, t.columns).Success?
    ensures Get(BuildContents(t).value.table.body.rows, k) == Some(EntryRow(Get(t.collection, k).value, t.columns).value)
  {
    var f := BuildFoot(BuildHead(t).value).value;
    PutAllConvertedGet(f.table.body.rows, t.collection, EntryRowOf(t.columns), k);
  }

  /** The row built from an entry holds, under each column's name, a cell
      with that column's resolved value. */
  lemma EntryCells(e: Entry, columns: seq<string>, column: string)
    requires EntryRow(e, columns).Success? && column in columns
    ensures ColumnValue(e, column).Success?
    ensures Get(EntryRow(e, columns).value.cells, StrKey(column))
            == Some(NewCell().(content := ToStr(ColumnValue(e, column).value)))
  {
    var data := RowData([], columns, ColumnOf(e)).value;
    assert HasKey(data, StrKey(column));
    SetContentFromArrayCells(NewRow(), data, StrKey(column));
  }

  /** The label row written a second time over the first is the same row. */
  lemma LabelRowFixed(s: Section, labels: OMap<Key, Value>)
    requires BuildContentFromArray(s, [(IntKey(0), labels)]).Success?
    ensures var once := BuildContentFromArray(s, [(IntKey(0), labels)]).value;
            BuildContentFromArray(once, [(IntKey(0), labels)]) == Success(once)
  {
    var data := [(IntKey(0), labels)];
    var conv := MapValues(data, RowOf).value;
    MapValuesKeys(data, RowOf);
    PutAllIdempotent(s.rows, conv);
  }

  /** On a rebuilt table, `buildHead` changes nothing. */
  lemma HeadFixed(t: CollectionTable, built: CollectionTable)
    requires BuildContents(t) == Success(built)
    ensures BuildHead(built) == Success(built)
  {
    if t.showHead == Bool(true) {
      var labels := HeaderRow(t).value;
      assert HeaderRow(built) == HeaderRow(t);
      assert built.table.head == BuildHead(t).value.table.head;
      LabelRowFixed(t.table.head, labels);
    }
  }

  /** On a rebuilt table, `buildFoot` changes nothing. */
  lemma FootFixed(t: CollectionTable, built: CollectionTable)
    requires BuildContents(t) == Success(built)
    ensures BuildFoot(built) == Success(built)
  {
    var withHead := BuildHead(t).value;
    if t.showFoot == Bool(true) {
      var labels := HeaderRow(t).value;
      assert HeaderRow(built) == HeaderRow(t);
      assert built.table.foot == BuildFoot(withHead).value.table.foot;
      LabelRowFixed(withHead.table.foot, labels);
    }
  }

  /** On a rebuilt table, `buildBody` changes nothing. */
  lemma BodyFixed(t: CollectionTable, built: CollectionTable)
    requires UniqueKeys(t.collection) && BuildContents(t) == Success(built)
    ensures BuildBody(built) == Success(built)
  {
    var withFoot := BuildFoot(BuildHead(t).value).value;
    var rows := MapValues(t.collection, EntryRowOf(t.columns)).value;
    MapValuesKeys(t.collection, EntryRowOf(t.columns));
    PutAllIdempotent(withFoot.table.body.rows, rows);
  }

  /** Rebuilding an already rebuilt table changes nothing: the head and
      foot row 0 and every body row are overwritten with themselves. */
  lemma RebuildIdempotent(t: CollectionTable)
    requires UniqueKeys(t.collection) && BuildContents(t).Success?
    ensures BuildContents(BuildContents(t).value) == BuildContents(t)
  {
    var built := BuildContents(t).value;
    HeadFixed(t, built);
    FootFixed(t, built);
    BodyFixed(t, built);
  }

  /** Printed without a view, casting the rebuilt table to string again
      gives the same string: the rebuild a render performs does not change
      what the next render shows. Printed through a view, nothing is rebuilt
      and the view receives the table as it stands. */
  lemma RenderStable(t: CollectionTable, views: Views)
    requires UniqueKeys(t.collection) && BuildContents(t).Success?
    ensures !UsesView(t.table.tag, views) ==>
              RenderCollection(BuildContents(t).value, views) == RenderCollection(t, views)
    ensures UsesView(t.table.tag, views) && views.present(ViewFilePath(t.table.tag).value) ==>
              RenderCollection(t, views)
              == Success(views.render(ViewFilePath(t.table.tag).value, ViewData(t.table.tag, CollectionObject(t))))
  {
    RebuildIdempotent(t);
    var built := BuildContents(t).value;
    var tag := t.table.tag;
    assert built.table.tag == tag;
    assert Contents(built, views) == Contents(t, views);
    if ViewFilePath(tag).Success? {
      var printable := Printable(tag, Contents(t, views));
      ToStringChoice(tag, CollectionObject(built), printable, views);
      ToStringChoice(tag, CollectionObject(t), printable, views);
    }
  }
}
