# laravel-admin markup engine, modelled in Dafny

This project models the core of the laravel-admin package's markup engine:

- **`DomTag`.** The base class of every HTML element. It builds a tag template from a prototype, fills in the attributes and the content, and chooses between a Blade view and plain markup.
- **The table tree.** A `BaseTable` holds head, body and foot sections. Sections hold rows, and rows hold cells.
- **`ModelCollectionTable`.** Builds those sections from a collection of model entries, a list of columns and a map of header labels.
- **The component factory.** An alias → class registry.
- **Forms.** `BaseFormItem`, the form tags (`Text`, `Textarea`, `Select`/`Option`, `RadioButton`/`RadioButtonSet`, the buttons) and `BaseForm`.
- **Support pieces.** The `PresentableModel` configuration checks and the sandbox `Iterable` cursor.

PHP values are modelled by `Php.Value`: null, booleans, integers and strings. PHP's ordered arrays are modelled as sequences of key/value pairs (`OrderedMaps.OMap`), with PHP's own rules for:

- `$a[$k] = $v`: replace the value in place, or append.
- `$a[] = $v`: the next integer key.
- `array_unshift`: integer keys are renumbered.
- `+`: the left operand wins.

Thrown exceptions, `Error`s and `TypeError`s become `Results.Failure` with an error that names the cause. PHP warnings and notices are not failures. Examples of warnings that are not failures:

- `foreach` over `null` runs no iterations.
- An undeclared property reads as `null`.

The Blade view engine is a parameter (`DomTag.Views`). It consists of a predicate that says whether a view exists, a predicate that says whether a view directory exists, and a function that renders a view with its data. The model also takes parameters for a few other things it cannot see:

- whether a class is declared;
- which methods a model entry has.

The modules follow the source's structure:

| module | file | models |
|---|---|---|
| `Results`, `Php`, `Strings`, `OrderedMaps` | results.dfy, php.dfy, strings.dfy, ordered_maps.dfy | PHP values, string casts, `str_replace`/`explode`/`implode`, `ucfirst`, Laravel's `class_basename` and `studly_case`, PHP arrays |
| `DomTag` | domtag.dfy | `src/app/Package/DomTag.php` |
| `TableTree` | table.dfy | `BaseTable`, `TableSection`, `Row`, `Cell`, `Body` |
| `ModelCollection` | model_table.dfy | `ModelCollectionTable` |
| `Registry` | registry.dfy | `ComponentFactoryComponent` |
| `FormItems` | form_items.dfy | `BaseFormItem` and the `BaseFormTags` classes |
| `Forms` | form.dfy | `BaseForm` |
| `Presentable` | presentable.dfy | the `PresentableModel` trait |
| `Iteration` | iterable.dfy | `Sandbox\Iteration\Iterable` |

## Model

| member | source | states |
|---|---|---|
| Php.NatToStringRoundTrip | src/app/Package/Table/Cell/Cell.php:28-33 | the decimal text a non-negative integer is coerced to, when a cell receives it as content, reads back as the same integer |
| Php.NatToString | src/app/Package/Table/Cell/Cell.php:28-33 | an integer's decimal text is made of digits only, is never empty, and has one digit exactly for 0..9 |
| Php.EmptyAgreesWithString | src/app/Package/DomTag.php:407-436 | PHP's `empty()` on a scalar holds exactly when the scalar's string cast is `""` or `"0"`, so testing the content before or after the cast agrees |
| Php.ToStrEmptyOnlyFor | src/app/Package/DomTag.php:472-489 | only `null`, `false` and `""` cast to the empty string, which is what an attribute value prints as |
| Php.LooseEqualsExamples | src/app/Package/DomTag.php:692 | under PHP 7's `==`, `0 == "abc"`, `true == "x"` and `"10" == "1e1"` hold and `null == "0"` does not, so `array_search` can match an entry that is not the class |
| Php.LooseEqualsText | src/app/Package/DomTag.php:692 | against a string that is not numeric, a string is loosely equal exactly when it is identical |
| Php.IntMatchesItsDecimal | src/app/Package/DomTag.php:692 | an integer's decimal text is a numeric string, and the integer loosely equals it |
| Strings.ReplaceAllIsImplodeExplode | src/app/Package/DomTag.php:545-566 | the source's `implode($rep, explode($pat, $s))` is the same as replacing every non-overlapping occurrence of the pattern from left to right |
| Strings.ExplodeJoinRoundTrip | src/app/Package/DomTag.php:545-566 | `implode($pat, explode($pat, $s))` gives back `$s` for every string |
| Strings.Explode | src/app/Package/DomTag.php:407-436 | `explode` with a non-empty delimiter always yields at least one piece |
| Strings.ReplaceAllSelf | src/app/Package/DomTag.php:407-436 | replacing a placeholder by itself leaves a template unchanged |
| Strings.ReplaceAllFree | src/app/Package/DomTag.php:407-436 | text without the placeholder's first character passes through a substitution unchanged |
| Strings.ReplaceAllFreePrefix | src/app/Package/DomTag.php:407-436 | a placeholder-free prefix is copied verbatim and only the rest is substituted |
| Strings.ReplaceAllLeading | src/app/Package/DomTag.php:407-436 | a leading occurrence of the placeholder is replaced and substitution continues after it |
| Strings.ReplaceAllSplit | src/app/Package/DomTag.php:407-436 | a character that cannot be part of the placeholder splits a substitution into two independent ones |
| Strings.JoinAppend | src/app/Package/Table/Row/Row.php:31-44 | adding one more piece to `implode` adds the separator and that piece at the end, and no separator when it is the only piece |
| Strings.JoinPrepend | src/app/Package/Table/TableSection.php:31-43 | adding a piece in front of `implode` adds that piece and a separator at the front |
| Strings.JoinEmptyFirst | src/app/Package/Table/TableSection.php:31-43 | an empty first piece still contributes its separator |
| Strings.ConcatIsJoinEmpty | src/app/Package/Table/Instance/ModelCollectionTable.php:258-273 | `implode('', $parts)` is plain concatenation |
| Strings.ConcatAppend | src/app/Package/Form/BaseForm.php:101-120 | one more child appends exactly its markup |
| Strings.Ucfirst | src/app/Package/Table/Instance/ModelCollectionTable.php:207-227 | `ucfirst` keeps the length, upper-cases the first character and keeps the rest |
| Strings.StripNonWord | src/app/Package/Table/Instance/ModelCollectionTable.php:319-326 | removing everything but letters, digits and spaces leaves only such characters, keeps a string already made of them, and never lengthens |
| Strings.ClassBasename | src/app/Package/Table/Instance/ModelCollectionTable.php:319-326 | the basename is the part of the class name after the last backslash: a backslash-free suffix, directly preceded by a backslash when shorter than the name |
| Strings.StudlyFrom | src/app/Package/Table/Instance/ModelCollectionTable.php:319-326 | studly-casing removes the spaces between words and never lengthens |
| Strings.StudlyOfOneWord | src/app/Package/Table/Instance/ModelCollectionTable.php:319-326 | the studly form of a single word is that word with its first letter upper-cased |
| Strings.CamelCase | src/app/Package/DomTag.php:121 | `camel_case` leaves no spaces, dashes or underscores in the view-data key |
| Strings.CamelCaseOfLowerWord | src/app/Package/DomTag.php:121 | a lower-case word is its own camel case, so `td`, `tr`, `form` and `select` keep their names as view-data keys |
| Strings.CamelCaseOfDashedWords | src/app/Package/DomTag.php:121 | two lower-case words joined by a dash camel-case to the first word followed by the second with its first letter upper-cased |
| OrderedMaps.KeysOf | src/app/Package/Form/BaseForm.php:74-80 | the keys of an array in insertion order |
| OrderedMaps.ValuesOf | src/app/Package/Table/Row/Row.php:31-44 | the values of an array in insertion order, the order in which `array_map` visits them |
| OrderedMaps.Get | src/app/Package/ComponentFactoryComponent.php:62-79 | `$a[$k] ?? null` finds a value exactly when the key is present, and it is the value stored under that key |
| OrderedMaps.IndexOf | src/app/Package/ComponentFactoryComponent.php:62-79 | a key's position is its first occurrence |
| OrderedMaps.Put | src/app/Package/Table/Row/Row.php:82-87 | `$a[$k] = $v` replaces the value in place when the key exists and appends the pair otherwise |
| OrderedMaps.PutHasKey | src/app/Package/Table/Row/Row.php:82-87 | after an assignment, the keys present are the old ones plus the assigned key |
| OrderedMaps.PutKeys | src/app/Package/Form/BaseForm.php:74-80 | an assignment keeps the key order and adds a new key at the end |
| OrderedMaps.PutGet | src/app/Package/Table/Row/Row.php:82-87 | after `$a[$k] = $v`, reading `$k` gives `$v` and every other key reads as before |
| OrderedMaps.PutGetAll | src/app/Package/ComponentFactoryComponent.php:36-41 | the same, for all other keys at once |
| OrderedMaps.PutUnique | src/app/Package/Table/Row/Row.php:82-87 | assignment never duplicates a key |
| OrderedMaps.PutIdempotent | src/app/Package/ComponentFactoryComponent.php:36-41 | repeating the same assignment changes nothing |
| OrderedMaps.PutOverwrite | src/app/Package/ComponentFactoryComponent.php:36-41 | a second assignment to the same key wins, as if the first never happened |
| OrderedMaps.Remove | src/app/Package/DomTag.php:632-640 | `unset($a[$k])` leaves the key absent, changes nothing when it was absent, and never grows the array |
| OrderedMaps.RemoveGet | src/app/Package/DomTag.php:632-640 | `unset` leaves every other key's value alone |
| OrderedMaps.RemoveExact | src/app/Package/DomTag.php:632-640 | `unset` deletes exactly the one pair and keeps the order of the rest |
| OrderedMaps.NextIndex | src/app/Package/Table/Row/Row.php:53-58 | the key `array_push` uses is non-negative and larger than every integer key present |
| OrderedMaps.NextIndexFresh | src/app/Package/Table/Row/Row.php:53-58 | the key `array_push` uses is never already present |
| OrderedMaps.Push | src/app/Package/Table/Row/Row.php:53-58 | `array_push` appends the value at the end under a fresh integer key |
| OrderedMaps.Renumber | src/app/Package/Form/BaseForm.php:129-136 | re-indexing keeps every value and its position, keeps string keys, and numbers the integer keys consecutively from the start value, in order of appearance: the k-th integer key becomes start + k |
| OrderedMaps.RenumberIncreasing | src/app/Package/Form/BaseForm.php:129-136 | re-indexed integer keys strictly increase along the array |
| OrderedMaps.RenumberUnique | src/app/Package/Form/BaseForm.php:129-136 | re-indexing never creates a duplicate key |
| OrderedMaps.Unshift | src/app/Package/Table/Row/Row.php:67-72 | `array_unshift` puts the value first under key 0, keeps the others in order with their string keys, and renumbers their integer keys consecutively from 1 in order of appearance |
| OrderedMaps.UnshiftValues | src/app/Package/Table/Row/Row.php:67-72 | after `array_unshift` the values are the new one followed by the old ones |
| OrderedMaps.UnshiftUnique | src/app/Package/Table/TableSection.php:66-71 | `array_unshift` never creates a duplicate key |
| OrderedMaps.ValuesOfAppend | src/app/Package/Form/BaseForm.php:74-80 | appending a pair appends its value to the values |
| OrderedMaps.Missing | src/app/Package/DomTag.php:250-276 | the entries the right operand of `+` contributes are those whose keys the left one lacks |
| OrderedMaps.MissingGet | src/app/Package/DomTag.php:250-276 | each such key reads as in the right operand |
| OrderedMaps.GetAppend | src/app/Package/DomTag.php:250-276 | a lookup in two joined arrays finds the left one first |
| OrderedMaps.Union | src/app/Package/DomTag.php:250-276 | `$a + $b` starts with all of `$a` and adds only keys `$a` lacks |
| OrderedMaps.UnionGet | src/app/Package/DomTag.php:250-276 | in `$a + $b` the left operand's value wins for a shared key and `$b`'s value shows through otherwise |
| OrderedMaps.MapValues | src/app/Package/Table/Row/Row.php:96-106 | converting every value keeps the keys and order, succeeds exactly when every conversion does, and otherwise fails with the first failing entry's error |
| OrderedMaps.MapEntries | src/app/Package/FormItem/Instance/BaseFormTags/Select.php:66-86 | the same, when the conversion also sees each key |
| OrderedMaps.PutAllGet | src/app/Package/Table/Row/Row.php:96-106 | assigning a list of entries one by one leaves each assigned key with the new value and every other key as it was |
| OrderedMaps.PutExisting | src/app/Package/Table/Row/Row.php:82-87 | assigning a key the value it already holds changes nothing |
| OrderedMaps.PutAllIdempotent | src/app/Package/Table/Row/Row.php:96-106 | assigning the same entries twice equals assigning them once |
| OrderedMaps.PutAllFresh | src/app/Package/Table/Row/Row.php:96-106 | assigning entries whose keys are all new appends them in order |
| OrderedMaps.MapValuesGet | src/app/Package/Table/Row/Row.php:96-106 | a converted array holds, under each key, the conversion of the original value |
| OrderedMaps.MapValuesKeys | src/app/Package/Table/Row/Row.php:96-106 | conversion keeps the keys and their uniqueness |
| OrderedMaps.PutAllConvertedGet | src/app/Package/Table/Row/Row.php:96-106 | assigning converted entries gives each data key its converted value and leaves the other keys alone |
| DomTag.BuildTemplate | src/app/Package/DomTag.php:545-566 | a template that is already set is kept; otherwise a missing or empty tag name fails, and only that fails |
| DomTag.Construct | src/app/Package/DomTag.php:95-98 | a constructed tag carries the built template, no attributes, no view data and no view file, and construction fails exactly when the template cannot be built |
| DomTag.ContainerPrototypeSubstituted | src/app/Package/DomTag.php:575-578 | the container prototype with the tag name filled in is `<name{attributes}>{content}</name>` |
| DomTag.NonContainerPrototypeSubstituted | src/app/Package/DomTag.php:587-590 | the self-closing prototype with the tag name filled in is `<name{attributes}/>` |
| DomTag.DefaultTemplates | src/app/Package/DomTag.php:545-590 | a tag without its own template gets the container or the self-closing prototype, depending on its kind |
| DomTag.Texts | src/app/Package/DomTag.php:499-536 | each item of a list-valued attribute prints as its string cast |
| DomTag.ValueText | src/app/Package/DomTag.php:472-536 | a scalar attribute prints as its string cast, a list prints space-separated, and only `null` is rejected as an unsupported type |
| DomTag.Pairs | src/app/Package/DomTag.php:472-489 | each attribute becomes `name="value"` in order, and the tag fails exactly when some attribute is `null` |
| DomTag.AttributeString | src/app/Package/DomTag.php:472-489 | the attribute string fails exactly when some attribute is `null` |
| DomTag.AttrPart | src/app/Package/DomTag.php:407-436 | no attributes insert nothing; otherwise the attribute string is inserted after one space |
| DomTag.AttributeStringNotEmpty | src/app/Package/DomTag.php:407-436 | the attribute string is empty exactly when there are no attributes, so the source's `empty()` test is a test for "no attributes" |
| DomTag.AttributeStringAppend | src/app/Package/DomTag.php:472-489 | adding a new attribute appends one space-separated `name="value"` pair |
| DomTag.Printable | src/app/Package/DomTag.php:407-451 | an empty template fails; a `null` attribute fails; an element that is neither a container nor forced to fetch content, and is not marked printable when empty, prints nothing; content is only consulted for containers and forced tags |
| DomTag.ContentNotConsulted | src/app/Package/DomTag.php:407-436 | the markup of an element that is not a container and is not forced does not depend on its content at all |
| DomTag.EmptyContentSuppressed | src/app/Package/DomTag.php:407-451 | empty content and a `printIfEmpty` that is not `true` print the empty string |
| DomTag.EmptyElement | src/app/Package/DomTag.php:407-436 | an empty container without attributes prints `<name></name>` |
| DomTag.AttributesFilled | src/app/Package/DomTag.php:407-436 | filling the attributes into a container template changes only the attribute slot |
| DomTag.ContentFilled | src/app/Package/DomTag.php:407-436 | filling the content changes the content slot and any placeholder text inside the attributes, and nothing else |
| DomTag.SelfClosingFilled | src/app/Package/DomTag.php:407-436 | a self-closing template has no content slot, so only its attributes are filled |
| DomTag.DefaultContainerRender | src/app/Package/DomTag.php:407-436 | a default container with printable content renders as `<name attrs>content</name>` |
| DomTag.DefaultNonContainerRender | src/app/Package/DomTag.php:407-451 | a default self-closing element renders as `<name attrs/>` when it may print empty, and as nothing otherwise |
| DomTag.TemplateName | src/app/Package/DomTag.php:336-339 | the view name is the template file name when set, else the tag name, and is missing only when both are |
| DomTag.ViewFilePath | src/app/Package/DomTag.php:324-327 | the view path is the directory, a dot and the view name |
| DomTag.ViewData | src/app/Package/DomTag.php:121-123 | the data a view receives is the tag's template data with the printed object added under the camel-cased tag name, and every other key as before |
| DomTag.ToStringChoice | src/app/Package/DomTag.php:107-126 | stringifying renders the view, with the object in its data, when a file name is set or the directory's view exists; a set file name whose view is missing fails; in every other case it is the built-in rendering |
| DomTag.PlainToString | src/app/Package/DomTag.php:107-126 | a tag with no view configuration prints its plain markup |
| DomTag.FileNameToString | src/app/Package/DomTag.php:107-126 | a tag with a template file name is always handed to the view engine under `directory.fileName`, with the tag itself in the view data under its camel-cased tag name; a view that does not exist fails |
| DomTag.DirectoryToString | src/app/Package/DomTag.php:107-126 | a tag with only a template directory renders the view `directory.tagName`, with itself in the view data, when that view exists, and prints its plain markup otherwise |
| DomTag.SetTemplateDirectory | src/app/Package/DomTag.php:134-141 | setting the directory succeeds exactly when it exists under the views root (`requireExistingResourcePath` throws otherwise), and then changes only the directory |
| DomTag.DirectoryChoosesView | src/app/Package/DomTag.php:107-141 | a freshly built tag given an existing directory prints through the view `directory.tagName` when that view exists, and as before when it does not |
| DomTag.BuiltRendersPlain | src/app/Package/DomTag.php:107-126 | a freshly built tag prints its plain markup |
| DomTag.NamedContainerRenders | src/app/Package/DomTag.php:107-126 | a freshly built default container always prints `<name attrs>content</name>`, even with empty content |
| DomTag.RenderEach | src/app/Package/Table/Row/Row.php:31-44 | rendering children in order succeeds exactly when every child renders, yields one piece per child, and otherwise fails with the first failing child's error |
| DomTag.RenderEachAppend | src/app/Package/Form/BaseForm.php:101-120 | one more child adds its markup at the end |
| DomTag.RenderEachPrepend | src/app/Package/Table/Row/Row.php:67-72 | a child in front adds its markup at the front |
| DomTag.SetTemplateFileName | src/app/Package/DomTag.php:297-302 | only the template file name changes |
| DomTag.AddAttribute | src/app/Package/DomTag.php:600-605 | the attribute is set in place or appended, every other attribute and the rest of the tag are unchanged |
| DomTag.GetAttribute | src/app/Package/DomTag.php:615-623 | a set (non-`null`) attribute is returned, and otherwise the default |
| DomTag.GetAfterAdd | src/app/Package/DomTag.php:600-623 | reading an attribute right after adding it returns the added value, unless that value is `null` |
| DomTag.RemoveAttribute | src/app/Package/DomTag.php:632-640 | a set attribute is removed and the rest stay; an unset attribute leaves the tag unchanged |
| DomTag.ClassList | src/app/Package/DomTag.php:649-659 | an unset class attribute is an empty list; a set class attribute is usable as a list only when it is one |
| DomTag.AddClass | src/app/Package/DomTag.php:649-659 | a class is appended to the class list; a scalar class attribute is left alone, because `array_push` on it is only a warning |
| DomTag.AddClasses | src/app/Package/DomTag.php:668-676 | adding several classes changes only the attributes |
| DomTag.AddClassesAppends | src/app/Package/DomTag.php:668-676 | the classes are appended in the given order |
| DomTag.AddClassesKeepsScalar | src/app/Package/DomTag.php:668-676 | a scalar class attribute absorbs no classes |
| DomTag.FindClass | src/app/Package/DomTag.php:692 | `array_search` finds the first entry that equals the class under PHP's loose `==`, so no earlier entry does, or reports that no entry does |
| DomTag.RemoveClass | src/app/Package/DomTag.php:685-702 | the first entry loosely equal to the class is removed from the list; no match or an unset attribute changes nothing; a scalar class attribute fails exactly when it is a string (unsetting a string offset) and is otherwise left alone; other attributes are untouched |
| DomTag.RemoveWordClass | src/app/Package/DomTag.php:692 | for a list of string classes and a class name that is not numeric, loose matching finds exactly the identical entries |
| DomTag.EmptiedClassRenders | src/app/Package/DomTag.php:685-702 | removing the only class leaves an empty list, which prints as `class=""` |
| DomTag.SetId | src/app/Package/DomTag.php:711-716 | the id reads back as set, and other attributes are unchanged |
| DomTag.GetId | src/app/Package/DomTag.php:725-728 | the id is the `id` attribute when set, and `null` otherwise |
| DomTag.KeyOf | src/app/Package/DomTag.php:250-276 | a scalar can serve as an array key, and an array or an object cannot |
| DomTag.AddTemplateData | src/app/Package/DomTag.php:250-276 | no parameters fail; a single array merges with existing data winning; two parameters assign one key; a string key with one parameter stores `null`; every other shape fails; only the view data ever changes |
| DomTag.PutDatum | src/app/Package/DomTag.php:250-276 | an assignment under a scalar key stores the value, and an array or object key (an illegal offset) changes nothing |
| DomTag.AddTemplateDataMerges | src/app/Package/DomTag.php:250-276 | merging view data keeps every existing key's value and adds the new keys |
| TableTree.NewCell | src/app/Package/Table/Cell/Cell.php:16-19 | a new cell is a bare `td` with empty content |
| TableTree.NewCellInstance | src/app/Package/Table/Body/Body.php:18-21 | a new cell instance prints `<td></td>` |
| TableTree.SetContent | src/app/Package/Table/Cell/Cell.php:28-33 | content `null` is a type error, and otherwise the tag is kept |
| TableTree.ContentRoundTrip | src/app/Package/Table/Cell/Cell.php:28-45 | reading back a cell's content gives the string cast of what was set, and a string exactly |
| TableTree.CellRenders | src/app/Package/Table/Cell/Cell.php:16-19 | a cell prints `<td attrs>content</td>` |
| TableTree.NewRow | src/app/Package/Table/Row/Row.php:18-21 | a new row has no cells and does not print when empty |
| TableTree.RowContent | src/app/Package/Table/Row/Row.php:31-44 | a row without cells has empty content, and a failure comes from one of its cells |
| TableTree.EmptyRowRendersNothing | src/app/Package/Table/Row/Row.php:18-44 | an empty row prints nothing, unless a `null` attribute makes it fail |
| TableTree.RowRenders | src/app/Package/Table/Row/Row.php:18-44 | a non-empty row prints `<tr attrs>` followed by its cells joined by newlines and then `</tr>` |
| TableTree.AppendCell | src/app/Package/Table/Row/Row.php:53-58 | the cell is added after the existing ones, which are kept |
| TableTree.PrependCell | src/app/Package/Table/Row/Row.php:67-72 | the cell becomes the first one under key 0, followed by the others in order |
| TableTree.AddIndexedCell | src/app/Package/Table/Row/Row.php:82-87 | the cell is stored under the given index, replacing any previous one there, and the other cells stay |
| TableTree.AppendCellContent | src/app/Package/Table/Row/Row.php:31-58 | an appended cell's markup ends the row's content, after a newline |
| TableTree.PrependCellContent | src/app/Package/Table/Row/Row.php:31-72 | a prepended cell's markup starts the row's content, before a newline |
| TableTree.SetContentFromArray | src/app/Package/Table/Row/Row.php:96-106 | filling a row succeeds exactly when no value is `null`, and keeps the row's tag |
| TableTree.SetContentFromArrayCells | src/app/Package/Table/Row/Row.php:96-106 | each data key ends up holding a cell with that value's content, and cells under other keys stay |
| TableTree.NewRowFromArray | src/app/Package/Table/Row/Row.php:96-106 | a new row filled from data has one cell per entry, in order, under the same keys |
| TableTree.NewSection | src/app/Package/Table/TableSection.php:18-21 | a new section has no rows and still prints when empty |
| TableTree.SectionContent | src/app/Package/Table/TableSection.php:31-43 | a section without rows has empty content, and a failure comes from one of its rows |
| TableTree.EmptySectionRenders | src/app/Package/Table/TableSection.php:18-43 | an empty section prints `<name attrs></name>` |
| TableTree.EmptyBodyRenders | src/app/Package/Table/BaseTable.php:30-37 | a fresh body prints `<tbody></tbody>` |
| TableTree.EmptyHeadRenders | src/app/Package/Table/BaseTable.php:30-37 | a fresh head prints `<thead></thead>` |
| TableTree.EmptyFootRenders | src/app/Package/Table/BaseTable.php:30-37 | a fresh foot prints `<tfoot></tfoot>` |
| TableTree.SuppressedRowKeepsSeparator | src/app/Package/Table/TableSection.php:31-43 | a row that prints nothing still contributes its newline to the section |
| TableTree.AppendRow | src/app/Package/Table/TableSection.php:52-57 | the row is added after the existing ones, which are kept |
| TableTree.PrependRow | src/app/Package/Table/TableSection.php:66-71 | the row becomes the first one under key 0, followed by the others in order |
| TableTree.AddIndexedRow | src/app/Package/Table/BaseTable.php:237-242 | the row is stored under the given index, replacing any previous one there, and the other rows stay |
| TableTree.BuildContentFromArray | src/app/Package/Table/BaseTable.php:237-242 | building rows from data succeeds exactly when every row builds, and keeps the section's tag |
| TableTree.BuildContentFromArrayRows | src/app/Package/Table/BaseTable.php:237-242 | each data key ends up holding the row built from its data, and rows under other keys stay |
| TableTree.NewTable | src/app/Package/Table/BaseTable.php:30-37 | a new table has empty head, body and foot sections |
| TableTree.WithSection | src/app/Package/Table/BaseTable.php:68-101 | setting one section leaves the other two and the table tag alone |
| TableTree.AppendSectionRow | src/app/Package/Table/BaseTable.php:110-171 | appending a row to one section adds it at that section's end and touches no other section |
| TableTree.PrependSectionRow | src/app/Package/Table/BaseTable.php:124-185 | prepending a row puts it first in that section and touches no other section |
| TableTree.BuildSection | src/app/Package/Table/BaseTable.php:237-242 | building one section from data changes only that section |
| TableTree.TableContent | src/app/Package/Table/BaseTable.php:42-59 | a table's content is its head, body and foot printed in that order without separators, and fails when any of them fails |
| TableTree.TableRenders | src/app/Package/Table/BaseTable.php:42-59 | a table prints `<table attrs>` followed by its content and `</table>` |
| TableTree.NewTableContent | src/app/Package/Table/BaseTable.php:30-59 | a new table's content is an empty head, an empty body and an empty foot |
| TableTree.NewTableRenders | src/app/Package/Table/BaseTable.php:30-59 | a new table prints `<table><thead></thead><tbody></tbody><tfoot></tfoot></table>` |
| ModelCollection.GetterNames | src/app/Package/Table/Instance/ModelCollectionTable.php:207-227 | the getters tried are `is`, `has` and `get` followed by the capitalised property, in that order |
| ModelCollection.Probe | src/app/Package/Table/Instance/ModelCollectionTable.php:207-227 | the first getter the entry has is called, and no getter at all gives `null` |
| ModelCollection.GetterOrder | src/app/Package/Table/Instance/ModelCollectionTable.php:207-227 | an `is` getter shadows `has` and `get`, and a `has` getter shadows `get` |
| ModelCollection.DirectValue | src/app/Package/Table/Instance/ModelCollectionTable.php:237-248 | a direct attribute read gives a value exactly when the attribute is set and not `null` |
| ModelCollection.NormalizeString | src/app/Package/Table/Instance/ModelCollectionTable.php:319-326 | a normalised class name has no spaces and no backslashes |
| ModelCollection.NormalizeQualified | src/app/Package/Table/Instance/ModelCollectionTable.php:319-326 | the namespace of a class does not affect its normalised name |
| ModelCollection.BasenameOfQualified | src/app/Package/Table/Instance/ModelCollectionTable.php:319-326 | the basename of `Ns\Name` is `Name` |
| ModelCollection.NormalizePlainName | src/app/Package/Table/Instance/ModelCollectionTable.php:319-326 | a one-word name of letters and digits normalises to itself with its first letter upper-cased |
| ModelCollection.RelationPrintable | src/app/Package/Table/Instance/ModelCollectionTable.php:283-317 | a related entry prints through its `getColumnValueFor<Owner>` hook; without that hook the fallback fails |
| ModelCollection.RelationValue | src/app/Package/Table/Instance/ModelCollectionTable.php:258-273 | an undefined relation fails, an empty relation gives `""`, and a relation value is always a string |
| ModelCollection.RelationValueConcatenates | src/app/Package/Table/Instance/ModelCollectionTable.php:258-273 | a relation prints as the concatenation of its related entries' printouts, in order |
| ModelCollection.ColumnValue | src/app/Package/Table/Instance/ModelCollectionTable.php:191-197 | a getter's non-`null` value wins, then a direct attribute, then the relation; a column value is never `null` |
| ModelCollection.EmptyColumnPlaceholder | src/app/Package/Table/Instance/ModelCollectionTable.php:176-181 | the placeholder is the configured one, or the default text when none is configured, and never `null` |
| ModelCollection.PlaceholderNeverApplies | src/app/Package/Table/Instance/ModelCollectionTable.php:143-197 | because a column value is never `null`, the empty-column placeholder never replaces it |
| ModelCollection.RowData | src/app/Package/Table/Instance/ModelCollectionTable.php:143-165 | a row's data succeeds exactly when every column's value does, fails with the first failing column's error, and holds each column's value under the column's name |
| ModelCollection.Label | src/app/Package/Table/Instance/ModelCollectionTable.php:81-103 | a column's header label is its configured non-`null` label, and a missing one fails naming the column |
| ModelCollection.EntryRowBuilds | src/app/Package/Table/Instance/ModelCollectionTable.php:143-165 | an entry's row builds exactly when each of its column values does |
| ModelCollection.BuildHead | src/app/Package/Table/Instance/ModelCollectionTable.php:81-103 | without `showHead` nothing changes; with it, the label row is written as row 0 of the head, and only the head changes |
| ModelCollection.BuildFoot | src/app/Package/Table/Instance/ModelCollectionTable.php:112-134 | without `showFoot` nothing changes; with it, the label row is written as row 0 of the foot, and only the foot changes |
| ModelCollection.BuildBody | src/app/Package/Table/Instance/ModelCollectionTable.php:143-165 | the body builds exactly when every entry's row does, and only the body's rows change |
| ModelCollection.BuildContents | src/app/Package/Table/Instance/ModelCollectionTable.php:65-72 | building the contents changes only the table, never the collection, columns or labels |
| ModelCollection.MissingLabelNamed | src/app/Package/Table/Instance/ModelCollectionTable.php:81-134 | with a head or foot shown, a missing label makes the build fail with an error naming the first column that lacks a label |
| ModelCollection.HeadRowHoldsLabels | src/app/Package/Table/Instance/ModelCollectionTable.php:81-103 | after a build with the head shown, head row 0 is the row of labels |
| ModelCollection.LabelCells | src/app/Package/Table/Instance/ModelCollectionTable.php:81-103 | in the label row each column's cell holds that column's label |
| ModelCollection.BodyRowHoldsEntry | src/app/Package/Table/Instance/ModelCollectionTable.php:143-165 | after a build, the body row under an entry's key is the row built from that entry |
| ModelCollection.EntryCells | src/app/Package/Table/Instance/ModelCollectionTable.php:143-197 | in an entry's row each column's cell holds that column's value |
| ModelCollection.LabelRowFixed | src/app/Package/Table/Instance/ModelCollectionTable.php:81-134 | writing the label row a second time changes nothing |
| ModelCollection.HeadFixed | src/app/Package/Table/Instance/ModelCollectionTable.php:81-103 | building the head of a built table changes nothing |
| ModelCollection.FootFixed | src/app/Package/Table/Instance/ModelCollectionTable.php:112-134 | building the foot of a built table changes nothing |
| ModelCollection.BodyFixed | src/app/Package/Table/Instance/ModelCollectionTable.php:143-165 | building the body of a built table changes nothing |
| ModelCollection.RebuildIdempotent | src/app/Package/Table/Instance/ModelCollectionTable.php:48-72 | building the contents again, as every cast to string does, gives the same table |
| ModelCollection.RenderStable | src/app/Package/Table/Instance/ModelCollectionTable.php:48-53 | without a view, printing a table after it was built prints the same markup as printing it the first time; with an existing view, the view receives the table object as configured |
| Registry.Register | src/app/Package/ComponentFactoryComponent.php:21-41 | the alias maps to the class afterwards, other aliases are unchanged, and a new alias is appended |
| Registry.Factory | src/app/Package/ComponentFactoryComponent.php:50-79 | an unregistered alias fails, a registered class that is not declared fails naming it, and otherwise an instance of the registered class is built |
| Registry.FactoryAsWritten | src/app/Package/ComponentFactoryComponent.php:62-79 | the factory succeeds in the same cases, but both failures raise the same class-not-found error for `LAdmin\Package\Exception` |
| Registry.AsWrittenFailuresCoincide | src/app/Package/ComponentFactoryComponent.php:62-79 | an unknown alias and an undeclared class cannot be told apart by the error the code raises, although the messages intend to |
| Registry.RegisterLastWins | src/app/Package/ComponentFactoryComponent.php:36-41 | registering twice under one alias keeps only the second class |
| Registry.RegisterThenFactory | src/app/Package/ComponentFactoryComponent.php:21-79 | right after registration, the factory builds the registered class, or fails naming it when it is not declared |
| Registry.RegisterKeepsOthers | src/app/Package/ComponentFactoryComponent.php:21-79 | registering an alias does not change what the factory does for other aliases |
| Registry.RegisterCommutes | src/app/Package/ComponentFactoryComponent.php:21-79 | registrations under distinct aliases can happen in either order |
| FormItems.StringOf | src/app/Package/FormItem/Instance/BaseFormTags/Textarea.php:26-29 | content that must be a string fails with a type error on `null`, and is otherwise its string form |
| FormItems.SetName | src/app/Package/FormItem/BaseFormItem.php:38-51 | the name reads back as set; `null` stores a `null` attribute; other attributes are unchanged |
| FormItems.NullNameBreaksRendering | src/app/Package/FormItem/BaseFormItem.php:38-43 | after `setName(null)` the element can no longer be printed |
| FormItems.GetRequired | src/app/Package/FormItem/BaseFormItem.php:79-82 | an element is required exactly when its `required` attribute is set to a truthy value |
| FormItems.SetRequired | src/app/Package/FormItem/BaseFormItem.php:61-70 | `required` reads back as set, as `required="required"` or as no attribute at all, and other attributes are unchanged |
| FormItems.SetValueAttribute | src/app/Package/FormItem/Instance/BaseFormTags/Text.php:52-62 | a scalar becomes the `value` attribute; a printable object fails on the unimported `Exception` class |
| FormItems.SetFlag | src/app/Package/FormItem/Instance/BaseFormTags/Option.php:74-83 | a boolean flag is stored as `flag="flag"` when on and removed when off, and other attributes are unchanged |
| FormItems.Typed | src/app/Package/FormItem/Instance/BaseFormTags/Text.php:32-40 | the `type` attribute is forced to the class's type, in place when present, and nothing else changes |
| FormItems.TypedIdempotent | src/app/Package/FormItem/Instance/BaseFormTags/Text.php:32-40 | forcing the type twice equals forcing it once |
| FormItems.NewText | src/app/Package/FormItem/Instance/BaseFormTags/Text.php:14-27 | a text input is a bare self-closing `input` without an alias |
| FormItems.TextRenders | src/app/Package/FormItem/Instance/BaseFormTags/Text.php:32-40 | a text input prints `<input attrs/>` with the type attribute forced |
| FormItems.TextRenderStable | src/app/Package/FormItem/Instance/BaseFormTags/Text.php:32-40 | printing does not depend on whether the type was already forced |
| FormItems.SetTextValue | src/app/Package/FormItem/Instance/BaseFormTags/Text.php:52-62 | a scalar value is stored as the `value` attribute; a printable object fails on the unimported `Exception`; arrays and other objects are outside `Given` |
| FormItems.SetPlaceholder | src/app/Package/FormItem/Instance/BaseFormTags/Text.php:83-100 | the placeholder reads back as set, and other attributes are unchanged |
| FormItems.NewTextarea | src/app/Package/FormItem/Instance/BaseFormTags/Textarea.php:14-21 | a new textarea is a bare container whose value is `null` |
| FormItems.SetTextareaValue | src/app/Package/FormItem/Instance/BaseFormTags/Textarea.php:41-58 | the value reads back as set, and the tag is unchanged |
| FormItems.TextareaRenders | src/app/Package/FormItem/Instance/BaseFormTags/Textarea.php:26-29 | a textarea prints `<textarea attrs>value</textarea>` |
| FormItems.NewOption | src/app/Package/FormItem/Instance/BaseFormTags/Option.php:18-23 | a new option is a bare container without a label |
| FormItems.LabelText | src/app/Package/FormItem/Instance/BaseFormTags/Option.php:118-121 | reading a label that was never set is a type error |
| FormItems.SetOptionLabel | src/app/Package/FormItem/Instance/BaseFormTags/Option.php:104-121 | the label reads back as set; `null` is a type error |
| FormItems.SetOptionValue | src/app/Package/FormItem/Instance/BaseFormTags/Option.php:43-65 | a scalar value is stored as the `value` attribute; a printable object fails on the unimported `Exception`; arrays and other objects are outside `Given` |
| FormItems.SetSelected | src/app/Package/FormItem/Instance/BaseFormTags/Option.php:74-95 | `selected` reads back as set, and other attributes are unchanged |
| FormItems.GetSelected | src/app/Package/FormItem/Instance/BaseFormTags/Option.php:92-95 | an option is selected exactly when its `selected` attribute is truthy |
| FormItems.OptionRenders | src/app/Package/FormItem/Instance/BaseFormTags/Option.php:28-31 | an option prints `<option attrs>label</option>` |
| FormItems.NewSelect | src/app/Package/FormItem/Instance/BaseFormTags/Select.php:14-28 | a new select is a bare container without options |
| FormItems.SetSelectValue | src/app/Package/FormItem/Instance/BaseFormTags/Select.php:110-127 | the value reads back as set, and the tag and options are unchanged |
| FormItems.OptionsText | src/app/Package/FormItem/Instance/BaseFormTags/Select.php:45-57 | no options print nothing; otherwise the options are printed in order and concatenated |
| FormItems.SelectRenders | src/app/Package/FormItem/Instance/BaseFormTags/Select.php:33-36 | a select prints `<select attrs>options</select>` |
| FormItems.SelectValueNotRendered | src/app/Package/FormItem/Instance/BaseFormTags/Select.php:110-115 | without a view, the selected value does not affect the markup; with an existing view, the view receives the select object, whose `value` property is the value set |
| FormItems.SelectEntryLabel | src/app/Package/FormItem/Instance/BaseFormTags/Select.php:66-86 | a raw option's label is its string form, and an `Option` object's label is its markup |
| FormItems.OptionFor | src/app/Package/FormItem/Instance/BaseFormTags/Select.php:66-86 | each raw entry becomes an unselected option whose value is the entry's key and whose label is the entry's text |
| FormItems.SetSelectOptions | src/app/Package/FormItem/Instance/BaseFormTags/Select.php:66-86 | options that already start with an `Option` object are stored as given; otherwise every entry is converted, keys kept, and a failing entry fails the call |
| FormItems.GetSelectOptions | src/app/Package/FormItem/Instance/BaseFormTags/Select.php:95-98 | reading options that were never set is a type error |
| FormItems.ConvertedOptionsRender | src/app/Package/FormItem/Instance/BaseFormTags/Select.php:66-86 | each converted option carries its key as value and its text as label |
| FormItems.NewRadio | src/app/Package/FormItem/Instance/BaseFormTags/RadioButton.php:18-28 | a new radio button uses the labelled radio template and has no label |
| FormItems.RadioAttributesFilled | src/app/Package/FormItem/Instance/BaseFormTags/RadioButton.php:28 | filling the attributes into the radio template changes only the attribute slot |
| FormItems.RadioContentFilled | src/app/Package/FormItem/Instance/BaseFormTags/RadioButton.php:28 | filling the label into the radio template changes the label slot and any placeholder text in the attributes |
| FormItems.RadioRenders | src/app/Package/FormItem/Instance/BaseFormTags/RadioButton.php:28-36 | a radio button prints `<label><input type="radio" attrs /> label</label>` |
| FormItems.SetRadioValue | src/app/Package/FormItem/Instance/BaseFormTags/RadioButton.php:48-70 | a scalar value is stored as the `value` attribute; a printable object fails on the unimported `Exception`; arrays and other objects are outside `Given` |
| FormItems.SetRadioLabel | src/app/Package/FormItem/Instance/BaseFormTags/RadioButton.php:109-126 | the label reads back as set; `null` is a type error |
| FormItems.GetChecked | src/app/Package/FormItem/Instance/BaseFormTags/RadioButton.php:97-100 | a radio button is checked exactly when its `checked` attribute is truthy |
| FormItems.SetChecked | src/app/Package/FormItem/Instance/BaseFormTags/RadioButton.php:79-88 | `checked` reads back as set, and other attributes and the label are unchanged |
| FormItems.NewRadioSet | src/app/Package/FormItem/Instance/BaseFormTags/RadioButtonSet.php:18-42 | a new radio set has no options and a `null` value |
| FormItems.SetRadioSetValue | src/app/Package/FormItem/Instance/BaseFormTags/RadioButtonSet.php:130-147 | the value reads back as set, and the tag and options are unchanged |
| FormItems.RadiosText | src/app/Package/FormItem/Instance/BaseFormTags/RadioButtonSet.php:59-71 | no options print nothing; otherwise the radio buttons are printed in order and concatenated |
| FormItems.RadioSetPrintsOnlyOptions | src/app/Package/FormItem/Instance/BaseFormTags/RadioButtonSet.php:37-50 | a radio set prints only its radio buttons, without a surrounding tag |
| FormItems.NameArgument | src/app/Package/FormItem/Instance/BaseFormTags/RadioButtonSet.php:87-88 | the set's name is passed on as a string or `null`, and a list-valued name is a type error |
| FormItems.RadioEntryLabel | src/app/Package/FormItem/Instance/BaseFormTags/RadioButtonSet.php:89-103 | a raw entry's label is its string form, and a radio button's label is its markup |
| FormItems.RadioFor | src/app/Package/FormItem/Instance/BaseFormTags/RadioButtonSet.php:89-103 | each raw entry becomes an unchecked radio button with the set's name, the entry's key as value and the entry's text as label |
| FormItems.RadioForAsWritten | src/app/Package/FormItem/Instance/BaseFormTags/RadioButtonSet.php:95-97 | as written, an entry whose label equals the set's value fails, because `setChecked` is called on the options array; others are unchecked |
| FormItems.RadioForCorrected | src/app/Package/FormItem/Instance/BaseFormTags/RadioButtonSet.php:89-103 | the intended conversion checks exactly the radio button whose label equals the set's value |
| FormItems.SetRadioOptionsAsWritten | src/app/Package/FormItem/Instance/BaseFormTags/RadioButtonSet.php:80-106 | radio buttons given directly are stored as given, and only the options change |
| FormItems.AsWrittenNeverChecks | src/app/Package/FormItem/Instance/BaseFormTags/RadioButtonSet.php:89-103 | as written, a successful conversion never checks any radio button |
| FormItems.AsWrittenFailsOnMatch | src/app/Package/FormItem/Instance/BaseFormTags/RadioButtonSet.php:95-97 | as written, any raw entry whose label equals the set's value makes the whole call fail |
| FormItems.AsWrittenCounterexample | src/app/Package/FormItem/Instance/BaseFormTags/RadioButtonSet.php:95-97 | value `"a"` with the single option `"x" => "a"` fails as written and succeeds when corrected |
| FormItems.SetRadioOptionsCorrected | src/app/Package/FormItem/Instance/BaseFormTags/RadioButtonSet.php:80-106 | radio buttons given directly are stored; otherwise every entry is converted with keys kept, and exactly the entries matching the value are checked |
| FormItems.GetRadioOptions | src/app/Package/FormItem/Instance/BaseFormTags/RadioButtonSet.php:115-118 | reading options that were never set is a type error |
| FormItems.TypeAttributeOf | src/app/Package/FormItem/Instance/BaseFormTags/Button.php:14 | every button kind has a non-empty type: `button`, `submit` or `reset` |
| FormItems.NewButton | src/app/Package/FormItem/Instance/BaseFormTags/BaseButton.php:14-29 | a new button is a bare container of the given kind whose value is `null` |
| FormItems.SetButtonValue | src/app/Package/FormItem/Instance/BaseFormTags/BaseButton.php:65-82 | the value reads back as set, and the tag and kind are unchanged |
| FormItems.ButtonTyped | src/app/Package/FormItem/Instance/BaseFormTags/BaseButton.php:34-45 | a non-empty type attribute is forced and an empty one is not, and other attributes are unchanged |
| FormItems.ButtonTypeForced | src/app/Package/FormItem/Instance/BaseFormTags/BaseButton.php:34-45 | a `type` the user set is overwritten by the button's kind |
| FormItems.ButtonRenders | src/app/Package/FormItem/Instance/BaseFormTags/BaseButton.php:34-53 | a button prints `<button attrs>value</button>` with its type forced |
| FormItems.ButtonRenderStable | src/app/Package/FormItem/Instance/BaseFormTags/BaseButton.php:34-45 | printing does not depend on whether the type was already forced |
| FormItems.SetAlias | src/app/Package/FormItem/BaseFormItem.php:20-33 | the alias reads back as set, and the tag is unchanged |
| FormItems.AliasNotRendered | src/app/Package/FormItem/BaseFormItem.php:20-25 | without a view, the alias never shows in the markup; with an existing view, the view receives the item object, whose `alias` property is the alias set |
| FormItems.SetItemTemplateDirectory | src/app/Package/DomTag.php:134-141 | setting a form item's directory succeeds exactly when the directory exists under the views root, sets that directory on the item's tag, and keeps the alias |
| FormItems.ItemViewRender | src/app/Package/DomTag.php:107-126 | an item printed through an existing view hands the view its own object, alias and properties included, under its camel-cased tag name |
| Forms.NewForm | src/app/Package/Form/BaseForm.php:15-29 | a new form is a bare `form` container without items |
| Forms.ItemKey | src/app/Package/Form/BaseForm.php:74-92 | an item is keyed by its alias, or by the current number of items when it has none |
| Forms.AddFormItem | src/app/Package/Form/BaseForm.php:74-80 | the item is stored under its key, replacing an item with the same key in place, and other items are unchanged |
| Forms.AddKeepsKeyed | src/app/Package/Form/BaseForm.php:74-92 | keys stay unique; an item without an alias always adds one more item, and integer keys stay below the item count |
| Forms.FormContent | src/app/Package/Form/BaseForm.php:101-120 | the form's content succeeds exactly when every item prints after receiving the form's template directory; without a directory that is every item printing as itself; a directory that does not exist fails; an empty form has empty content |
| Forms.PrintChild | src/app/Package/Form/BaseForm.php:109-114 | without a form directory a child prints as itself, and a form directory that does not exist fails the child |
| Forms.ChildGetsFormDirectory | src/app/Package/Form/BaseForm.php:109-114 | with an existing form directory, each child prints as if its tag carried that directory |
| Forms.FormRenders | src/app/Package/Form/BaseForm.php:34-37 | a form prints `<form attrs>items</form>` |
| Forms.EmptyFormRenders | src/app/Package/Form/BaseForm.php:26-37 | an empty form still prints `<form attrs></form>` |
| Forms.AddedItemRendersLast | src/app/Package/Form/BaseForm.php:74-120 | a newly keyed item's markup is appended at the end of the form's content |
| Forms.SetMethod | src/app/Package/Form/BaseForm.php:46-51 | the `method` attribute reads back as set, and other attributes and the items are unchanged |
| Forms.SetAction | src/app/Package/Form/BaseForm.php:60-65 | the `action` attribute reads back as set, and other attributes and the items are unchanged |
| Forms.IterableElementsAsWritten | src/app/Package/Form/BaseForm.php:129-136 | as written, the result of `array_merge` is discarded and the list is always empty |
| Forms.IterableElements | src/app/Package/Form/BaseForm.php:129-136 | the intended list holds the form's items in order, with aliases kept and integer keys re-indexed consecutively from 0 |
| Forms.IterableElementsUnique | src/app/Package/Form/BaseForm.php:129-136 | the intended list has no duplicate keys |
| Forms.IterableElementsLost | src/app/Package/Form/BaseForm.php:129-136 | a form with items yields an empty list as written but a non-empty list as intended |
| Presentable.RequireColumns | src/app/Package/Model/PresentableModel.php:51-57 | empty or missing columns fail with the columns message, and set columns pass |
| Presentable.RequireHeaders | src/app/Package/Model/PresentableModel.php:68-74 | empty or missing headers fail with the headers message, and set headers pass |
| Presentable.RequireMinimal | src/app/Package/Model/PresentableModel.php:36-40 | the minimal configuration passes exactly when both are set, and columns are checked first |
| Presentable.GetColumns | src/app/Package/Model/PresentableModel.php:109-118 | the configured columns are returned when non-empty, and otherwise the call fails |
| Presentable.GetHeaders | src/app/Package/Model/PresentableModel.php:123-132 | the configured headers are returned when non-empty, and otherwise the call fails |
| Presentable.RequireMinimalMatchesGetters | src/app/Package/Model/PresentableModel.php:36-132 | the minimal configuration passes exactly when both getters succeed |
| Presentable.ShowHead | src/app/Package/Model/PresentableModel.php:93-96 | every presentable model shows a table head |
| Presentable.ShowFoot | src/app/Package/Model/PresentableModel.php:101-104 | every presentable model shows a table foot |
| Presentable.TableQueryModifier | src/app/Package/Model/PresentableModel.php:137-140 | the default query modifier leaves the query it is handed unchanged |
| Iteration.NewCursor | src/app/Sandbox/Iteration/Iterable.php:18-21 | a new cursor has no elements and points at the start |
| Iteration.Attach | src/app/Sandbox/Iteration/Iterable.php:18-21 | an attached element goes at the end, under the next integer key, without moving the cursor |
| Iteration.Rewind | src/app/Sandbox/Iteration/Iterable.php:23-26 | rewinding points at the first element, and an empty cursor is not valid |
| Iteration.Current | src/app/Sandbox/Iteration/Iterable.php:38-41 | the current element, or `false` past the end |
| Iteration.Valid | src/app/Sandbox/Iteration/Iterable.php:28-31 | a cursor is valid exactly when it points at an element that is not `false` |
| Iteration.Next | src/app/Sandbox/Iteration/Iterable.php:33-36 | advancing moves one element forward and stays put past the end |
| Iteration.Key | src/app/Sandbox/Iteration/Iterable.php:43-46 | the current key is the position, or `null` past the end |
| Iteration.FirstFalse | src/app/Sandbox/Iteration/Iterable.php:28-31 | the position of the first `false` element, where iteration stops |
| Iteration.Collect | src/app/Sandbox/Iteration/Iterable.php:23-46 | a `foreach` over the cursor yields the elements before the first `false` with keys 0, 1, …, and all elements when none is `false` |

## Left out

- **The view engine.** Blade views, the filesystem and `existsInViews` are not modelled. The view engine is a parameter: a predicate saying whether a view exists, one saying whether a view directory exists, and a rendering function.
- **`setTemplateData`, `getTempalteData`, `removeTemplateData`, `getLabel`/`setLabel` of `DomTag`, and `isAssociativeArray`.** These are plain accessors that nothing in the core calls. The template data reaches printing through `DomTag.ViewData`. `setTemplateDirectory` is modelled as `DomTag.SetTemplateDirectory`, because `BaseForm` calls it on every item.
- **`generateIdIfNotSet`.** It calls `uniqid`, whose result depends on the clock.
- **Other classes not modelled.** The `Checkbox` form tag, `ModelTable`, the service providers and the facades are outside the core.
- **`Head`, `Foot`, `SimpleFormItem`, `addIndexedRow` and `buildContentFromArray` are not part of this model's sources.**
  - The head and foot sections are assumed to be `thead` and `tfoot` containers.
  - The section methods are assumed to behave like `Row`'s.
- **Integer keys.** PHP's coercion of numeric-string array keys to integers is not modelled. Keys keep the type they are given.
- **Floats, objects and resources.** These are not `Php.Value`s. Attribute values, cell contents and option labels are null, booleans, integers or strings.
- **Method names.** PHP's case-insensitive method lookup is not modelled. Entry methods are matched by exact name.
- **Object identity.** Form tags and table parts are values, so two equal objects cannot be told apart.
  - `ModelCollection.RenderStable` states that a rebuilt table prints the same. It does not state that PHP's `__toString` mutations persist on the same object.
  - `Registry.Factory` returns the class name of the new instance, not a fresh object.
- **The constructor of each class.** It is modelled only as the `New…` function's result.
- **`FormItems.SetValueAttribute`.** Values that print through `__toString` are modelled as a separate `PrintableObject` case that always fails. That case stands for the exception the code raises, not for a value that would print.
- **`ModelCollection.RelationPrintable`.** The fallback iterates over `$relatedEntry` and then implodes the leftover loop variable. Because of that, it is modelled as a failure, not as a value.
- **`ModelCollection.BuildBody`.** When several entries fail, the model fails, but it does not promise which entry's error is reported.
- **`DomTag.AddTemplateData`.** With more than two parameters and a first parameter that is not a string, the model follows the code's final `throw`. A non-scalar key is modelled as leaving the data unchanged, instead of PHP's illegal-offset warning.
- **`Iteration.Collect`.** It models PHP 7's internal array pointer for `reset`/`next`/`current`/`key` on a list with keys 0..n-1.
- **`Strings.StudlyFrom`.** It models Laravel's `studly_case` on letters, digits and spaces, which are the only characters left after `normalizeString` strips the rest. Dashes and underscores, which `studly_case` also treats as separators, are not modelled.
- **`DomTag.ToString`: the view engine's view of an object.** A view receives `$this` as a `DomTag.Datum` snapshot: the tag state and the class's own properties. The class identity and its methods are not part of the snapshot. A printable object inside an item is seen only through its string. A model entry is seen only through its attributes, not its method results or relations.
- **`Forms.FormContent`.** `setTemplateDirectory` stays set on each item after the form is printed, so a later print of the item alone also uses the form's directory. The model's printing returns only the markup and leaves the form value unchanged, so that persistence is not modelled.
- **`DomTag.FindClass`: loose equality.** `Php.LooseEquals` compares numeric strings as exact rational numbers. Double precision and overflow to `INF` are not modelled.
- **`Strings.CamelCase`.** Laravel's `ucwords` also breaks words at tabs and newlines. The model breaks them only at spaces, dashes and underscores. Tag names contain no tabs or newlines.
- **`Presentable.ShowHead`, `Presentable.ShowFoot`, `Presentable.TableQueryModifier`.** These are the trait's default hooks and are constant in the source. Their contracts say no more than that.

## Findings

| source | as written | input that shows it | evidently intended | confidence | as-written member | corrected member |
|---|---|---|---|---|---|---|
| src/app/Package/FormItem/Instance/BaseFormTags/RadioButtonSet.php:97 | `$options->setChecked(true)` is called on the options array, not on the new radio button, so it raises an `Error` | a set whose value is `"a"` given the options `["x" => "a"]` | the radio button whose label equals the set's value is checked | high, not executed | FormItems.SetRadioOptionsAsWritten | FormItems.SetRadioOptionsCorrected |
| src/app/Package/Form/BaseForm.php:133 | `array_merge($elements, $this->formItems)` discards its result, so `getIterableElements` always returns `[]` | any form with one item | the form's items are returned | high, not executed | Forms.IterableElementsAsWritten | Forms.IterableElements |
| src/app/Package/ComponentFactoryComponent.php:68-73 | `Exception` is not imported into the `LAdmin\Package` namespace, so both `throw`s raise "class `LAdmin\Package\Exception` not found" instead of their messages | `factory("unknown")` on an empty registry | an unknown alias and an undeclared class raise distinct, descriptive exceptions | medium, not executed | Registry.FactoryAsWritten | Registry.Factory |
