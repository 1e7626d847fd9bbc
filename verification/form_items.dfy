/** Form items: the name/alias/required accessors every item shares, and the
    concrete tags — text input, textarea, select with its options, radio
    button, radio button set and the three buttons. Each item is a DomTag
    plus the properties its class adds; setters return the updated item. */
module FormItems {
  import opened Php
  import opened Results
  import opened Strings
  import opened OrderedMaps
  import opened DomTag

  /** A value handed to a setter: a scalar or null, or an object implementing
      the printable interface, known by the string it casts to. */
  datatype Given = Plain(v: Value) | PrintableObject(text: string)

  /** `(string) $value`. */
  function GivenText(g: Given): string
  {
    match g
    case Plain(v) => ToStr(v)
    case PrintableObject(s) => s
  }

  /** A value reaching a `string` parameter or return type: null is a
      TypeError, scalars and printable objects are converted. */
  function StringOf(g: Given, context: string): (r: Result<string>)
    ensures r.Failure? <==> g == Plain(Null)
    ensures r.Failure? ==> r.error == TypeError(context)
    ensures r.Success? ==> r.value == GivenText(g)
  {
    if g == Plain(Null) then Failure(TypeError(context)) else Success(GivenText(g))
  }

  /** A given value as a view receives it; a printable object is seen
      through the string it casts to. */
  function GivenDatum(g: Given): Datum
  {
    match g
    case Plain(v) => DValue(v)
    case PrintableObject(text) => DObject(None, [("__toString", DValue(Str(text)))])
  }

  /** A nullable string property as a view receives it. */
  function TextDatum(s: Option<string>): (d: Datum)
    ensures d.DValue? && (d.v == Null <==> s.None?)
  {
    match s
    case None => DValue(Null)
    case Some(x) => DValue(Str(x))
  }

  /** PHP's `(bool)` of an attribute value. */
  predicate Truthy(v: AttrValue)
  {
    match v
    case Scalar(x) => !IsEmpty(x)
    case List(items) => |items| > 0
  }

  /** The value `setValue($key)` receives for an array key. */
  function KeyValue(k: Key): Value
  {
    match k
    case IntKey(n) => Int(n)
    case StrKey(s) => Str(s)
  }

  const NameAttribute := "name"
  const RequiredAttribute := "required"
  const ValueAttribute := "value"
  const TypeAttribute := "type"
  const PlaceholderAttribute := "placeholder"
  const SelectedAttribute := "selected"
  const CheckedAttribute := "checked"

  /** Where the unimported `Exception` of the form tags resolves. */
  const TagsNamespace := "LAdmin\\Package\\FormItem\\Instance\\BaseFormTags"

  // ---------------------------------------------------------------------
  // Accessors shared by every form item

  /** `setName(string $name = null)`: stores the `name` attribute, null
      included. */
  function SetName(t: Tag, name: Option<string>): (r: Tag)
    ensures name.Some? ==> GetName(r) == Scalar(Str(name.value))
    ensures name.None? ==> GetName(r) == Scalar(Null) && HasNullAttribute(r.attributes)
    ensures forall other :: other != NameAttribute ==> Get(r.attributes, other) == Get(t.attributes, other)
    ensures r.(attributes := t.attributes) == t
  {
    var v := if name.Some? then Scalar(Str(name.value)) else Scalar(Null);
    var r := AddAttribute(t, NameAttribute, v);
    assert r.attributes[IndexOf(r.attributes, NameAttribute)].1 == v;
    r
  }

  /** `getName`: the `name` attribute, or null. */
  function GetName(t: Tag): AttrValue
  {
    GetAttribute(t, NameAttribute, Scalar(Null))
  }

  /** A null name stays in the attribute map, and any later rendering of the
      item fails on it. */
  lemma NullNameBreaksRendering(t: Tag, content: Result<string>)
    requires !IsEmptyString(t.template)
    ensures Printable(SetName(t, None), content) == Failure(UnsupportedAttributeType("NULL"))
  {
  }

  /** `(bool) getAttribute('required')`. */
  function GetRequired(t: Tag): (r: bool)
    ensures r <==> IsSet(t, RequiredAttribute) && Truthy(Get(t.attributes, RequiredAttribute).value)
  {
    Truthy(GetAttribute(t, RequiredAttribute, Scalar(Null)))
  }

  /** `setRequired`: `required="required"` when true, no `required`
      attribute when false. */
  function SetRequired(t: Tag, required: bool): (r: Tag)
    ensures GetRequired(r) == required
    ensures required ==> Get(r.attributes, RequiredAttribute) == Some(Scalar(Str(RequiredAttribute)))
    ensures !required ==> !IsSet(r, RequiredAttribute)
    ensures forall other :: other != RequiredAttribute ==> Get(r.attributes, other) == Get(t.attributes, other)
  {
    if required then AddAttribute(t, RequiredAttribute, Scalar(Str(RequiredAttribute)))
    else RemoveAttribute(t, RequiredAttribute)
  }

  /** The `value` attribute as `getValue` reads it. */
  function ValueOf(t: Tag): AttrValue
  {
    GetAttribute(t, ValueAttribute, Scalar(Null))
  }

  /** `setValue` of Text, Option and RadioButton. As written the guard throws
      for exactly the printable objects, and the `Exception` it names is not
      imported, so the throw itself fails to find the class. */
  function SetValueAttribute(t: Tag, g: Given): (r: Result<Tag>)
    ensures g.PrintableObject? ==> r == Failure(ClassNotFound(TagsNamespace + "\\Exception"))
    ensures g.Plain? ==> r.Success? && ValueOf(r.value) == Scalar(g.v)
    ensures r.Success? ==> forall other :: other != ValueAttribute ==> Get(r.value.attributes, other) == Get(t.attributes, other)
    ensures r.Success? ==> r.value.(attributes := t.attributes) == t
  {
    match g
    case PrintableObject(_) => Failure(ClassNotFound(TagsNamespace + "\\Exception"))
    case Plain(v) => Success(AddAttribute(t, ValueAttribute, Scalar(v)))
  }

  /** Setting a flag attribute to its own name (`selected`, `checked`), or
      removing it. */
  function SetFlag(t: Tag, flag: string, on: bool): (r: Tag)
    ensures on ==> Get(r.attributes, flag) == Some(Scalar(Str(flag)))
    ensures !on ==> !IsSet(r, flag)
    ensures forall other :: other != flag ==> Get(r.attributes, other) == Get(t.attributes, other)
    ensures r.(attributes := t.attributes) == t
  {
    if on then AddAttribute(t, flag, Scalar(Str(flag))) else RemoveAttribute(t, flag)
  }

  /** Forcing the `type` attribute: overwritten in place when present,
      appended otherwise. */
  function Typed(t: Tag, typeAttribute: string): (r: Tag)
    ensures GetAttribute(r, TypeAttribute, Scalar(Null)) == Scalar(Str(typeAttribute))
    ensures forall other :: other != TypeAttribute ==> Get(r.attributes, other) == Get(t.attributes, other)
    ensures HasKey(t.attributes, TypeAttribute) ==> KeysOf(r.attributes) == KeysOf(t.attributes)
    ensures r.(attributes := t.attributes) == t
  {
    AddAttribute(t, TypeAttribute, Scalar(Str(typeAttribute)))
  }

  /** Forcing the type a second time changes nothing, so a second render sees
      the tag the first one left. */
  lemma TypedIdempotent(t: Tag, typeAttribute: string)
    ensures Typed(Typed(t, typeAttribute), typeAttribute) == Typed(t, typeAttribute)
  {
    PutIdempotent(t.attributes, TypeAttribute, Scalar(Str(typeAttribute)));
  }

  /** A constructed tag keeps being a tag of its class whatever its attributes. */
  lemma BuiltKeepsClass(t: Tag, c: TagClass, attributes: OMap<string, AttrValue>)
    requires Built(t, c)
    ensures Built(t.(attributes := attributes), c)
  {
  }

  // ---------------------------------------------------------------------
  // Text

  const TextClass := NamedClass("input", false, Bool(true))
  const TextType := "text"

  datatype TextInput = TextInput(tag: Tag, alias: Option<string>)

  function NewText(): (r: TextInput)
    ensures Built(r.tag, TextClass) && r.tag.attributes == [] && r.alias.None?
  {
    TextInput(Construct(TextClass).value, None)
  }

  /** `Text::__toString` (and `render`): forces `type="text"`, then renders the
      tag; a non-container never asks for content. */
  function RenderText(x: TextInput, views: Views): Result<string>
  {
    var typed := x.(tag := Typed(x.tag, TextType));
    Render(typed.tag, TextObject(typed), Failure(MissingContentHook), views)
  }

  /** A text input as its view receives it: its tag and its alias. */
  function TextObject(x: TextInput): (d: Datum)
    ensures d.DObject? && |d.properties| == 1 && d.tag == Some(x.tag) && d.properties[0] == ("alias", TextDatum(x.alias))
  {
    DObject(Some(x.tag), [("alias", TextDatum(x.alias))])
  }

  /** A text input renders as `<input` + attributes + `/>`, `type` included. */
  lemma TextRenders(x: TextInput, views: Views, a: string)
    requires Built(x.tag, TextClass)
    requires AttrPart(Typed(x.tag, TextType).attributes) == Success(a)
    ensures RenderText(x, views) == Success(SelfClosingMarkup("input", ReplaceAll(a, ContentPlaceholder, "")))
  {
    var typed := Typed(x.tag, TextType);
    BuiltKeepsClass(x.tag, TextClass, typed.attributes);
    assert typed == x.tag.(attributes := typed.attributes);
    DefaultNonContainerRender(TextClass, typed, a, Failure(MissingContentHook));
    BuiltRendersPlain(typed, TextClass, TextObject(x.(tag := typed)), Failure(MissingContentHook), views);
  }

  /** Rendering again after a render, which left `type` set, gives the same
      string. */
  lemma TextRenderStable(x: TextInput, views: Views)
    ensures RenderText(x.(tag := Typed(x.tag, TextType)), views) == RenderText(x, views)
  {
    TypedIdempotent(x.tag, TextType);
  }

  function SetTextValue(x: TextInput, g: Given): (r: Result<TextInput>)
    ensures r.Success? <==> g.Plain?
    ensures r.Success? ==> ValueOf(r.value.tag) == Scalar(g.v) && r.value.alias == x.alias
    ensures r.Failure? ==> r.error == ClassNotFound(TagsNamespace + "\\Exception")
  {
    var t :- SetValueAttribute(x.tag, g);
    Success(x.(tag := t))
  }

  /** `setPlaceholder`; `getPlaceholder` reads the attribute back. */
  function SetPlaceholder(x: TextInput, placeholder: string): (r: TextInput)
    ensures GetAttribute(r.tag, PlaceholderAttribute, Scalar(Null)) == Scalar(Str(placeholder))
    ensures forall other :: other != PlaceholderAttribute ==> Get(r.tag.attributes, other) == Get(x.tag.attributes, other)
  {
    x.(tag := AddAttribute(x.tag, PlaceholderAttribute, Scalar(Str(placeholder))))
  }

  // ---------------------------------------------------------------------
  // Textarea

  const TextareaClass := NamedClass("textarea", true, Bool(true))

  /** The value is a property of the item, not an attribute. */
  datatype TextArea = TextArea(tag: Tag, alias: Option<string>, value: Given)

  function NewTextarea(): (r: TextArea)
    ensures Built(r.tag, TextareaClass) && r.tag.attributes == [] && r.value == Plain(Null)
  {
    TextArea(Construct(TextareaClass).value, None, Plain(Null))
  }

  function SetTextareaValue(x: TextArea, v: Given): (r: TextArea)
    ensures r.value == v
    ensures r.tag == x.tag && r.alias == x.alias
  {
    x.(value := v)
  }

  /** `Textarea::__toString`: the value is the content. */
  function RenderTextarea(x: TextArea, views: Views): Result<string>
  {
    Render(x.tag, TextareaObject(x), StringOf(x.value, "Textarea::getContentMarkup"), views)
  }

  /** A textarea as its view receives it: its tag, alias and value. */
  function TextareaObject(x: TextArea): (d: Datum)
    ensures d.DObject? && |d.properties| == 2 && d.tag == Some(x.tag) && d.properties[0] == ("alias", TextDatum(x.alias))
    ensures d.properties[1] == ("value", GivenDatum(x.value))
  {
    DObject(Some(x.tag), [("alias", TextDatum(x.alias)), ("value", GivenDatum(x.value))])
  }

  /** A textarea renders `<textarea` + attributes + `>` + value + `</textarea>`,
      empty value included. */
  lemma TextareaRenders(x: TextArea, views: Views, a: string, c: string)
    requires Built(x.tag, TextareaClass)
    requires AttrPart(x.tag.attributes) == Success(a)
    requires StringOf(x.value, "Textarea::getContentMarkup") == Success(c)
    ensures RenderTextarea(x, views) == Success(ContainerMarkup("textarea", ReplaceAll(a, ContentPlaceholder, c), c))
  {
    DefaultContainerRender(TextareaClass, x.tag, c, a);
    BuiltRendersPlain(x.tag, TextareaClass, TextareaObject(x), Success(c), views);
  }

  // ---------------------------------------------------------------------
  // Option

  const OptionClass := NamedClass("option", true, Bool(true))

  /** An `Option`: its label is a property, null until set. */
  datatype SelectOption = SelectOption(tag: Tag, alias: Option<string>, caption: Option<string>)

  function NewOption(): (r: SelectOption)
    ensures Built(r.tag, OptionClass) && r.tag.attributes == [] && r.caption.None?
  {
    SelectOption(Construct(OptionClass).value, None, None)
  }

  /** A `string` getter over a label that may still be null. */
  function LabelText(caption: Option<string>, context: string): (r: Result<string>)
    ensures caption.Some? ==> r == Success(caption.value)
    ensures caption.None? ==> r == Failure(TypeError(context))
  {
    match caption
    case Some(l) => Success(l)
    case None => Failure(TypeError(context))
  }

  /** `Option::setLabel(string $label)`. */
  function SetOptionLabel(o: SelectOption, caption: Given): (r: Result<SelectOption>)
    ensures r.Success? <==> caption != Plain(Null)
    ensures r.Success? ==> LabelText(r.value.caption, "Option::getLabel") == Success(GivenText(caption))
    ensures r.Success? ==> r.value.tag == o.tag
  {
    var l :- StringOf(caption, "Option::setLabel");
    Success(o.(caption := Some(l)))
  }

  function SetOptionValue(o: SelectOption, g: Given): (r: Result<SelectOption>)
    ensures r.Success? <==> g.Plain?
    ensures r.Success? ==> ValueOf(r.value.tag) == Scalar(g.v) && r.value.caption == o.caption
  {
    var t :- SetValueAttribute(o.tag, g);
    Success(o.(tag := t))
  }

  function SetSelected(o: SelectOption, selected: bool): (r: SelectOption)
    ensures GetSelected(r) == Success(selected)
    ensures forall other :: other != SelectedAttribute ==> Get(r.tag.attributes, other) == Get(o.tag.attributes, other)
  {
    o.(tag := SetFlag(o.tag, SelectedAttribute, selected))
  }

  /** `getSelected(): bool` returns `getAttribute('selected', false)`: a
      scalar is coerced to bool, an array breaks the return type. */
  function GetSelected(o: SelectOption): (r: Result<bool>)
    ensures !IsSet(o.tag, SelectedAttribute) ==> r == Success(false)
    ensures IsSet(o.tag, SelectedAttribute) ==>
              (r.Success? <==> Get(o.tag.attributes, SelectedAttribute).value.Scalar?)
    ensures r.Success? ==> (r.value <==> IsSet(o.tag, SelectedAttribute) && Truthy(Get(o.tag.attributes, SelectedAttribute).value))
  {
    match GetAttribute(o.tag, SelectedAttribute, Scalar(Bool(false)))
    case Scalar(v) => Success(!IsEmpty(v))
    case List(_) => Failure(TypeError("Option::getSelected"))
  }

  /** `Option::__toString`: the label is the content. */
  function RenderOption(o: SelectOption, views: Views): Result<string>
  {
    Render(o.tag, OptionObject(o), LabelText(o.caption, "Option::getContentMarkup"), views)
  }

  /** An option as its view receives it: its tag, alias and label. */
  function OptionObject(o: SelectOption): (d: Datum)
    ensures d.DObject? && |d.properties| == 2 && d.tag == Some(o.tag) && d.properties[0] == ("alias", TextDatum(o.alias))
    ensures d.properties[1] == ("label", TextDatum(o.caption))
  {
    DObject(Some(o.tag), [("alias", TextDatum(o.alias)), ("label", TextDatum(o.caption))])
  }

  /** An option renders `<option` + attributes + `>` + label + `</option>`. */
  lemma OptionRenders(o: SelectOption, views: Views, a: string, caption: string)
    requires Built(o.tag, OptionClass)
    requires AttrPart(o.tag.attributes) == Success(a)
    requires o.caption == Some(caption)
    ensures RenderOption(o, views) == Success(ContainerMarkup("option", ReplaceAll(a, ContentPlaceholder, caption), caption))
  {
    DefaultContainerRender(OptionClass, o.tag, caption, a);
    BuiltRendersPlain(o.tag, OptionClass, OptionObject(o), Success(caption), views);
  }

  // ---------------------------------------------------------------------
  // Select

  const SelectClass := NamedClass("select", true, Bool(true))

  /** An entry of an options array: an `Option` object, or a raw value. */
  datatype SelectEntry = OptionEntry(option: SelectOption) | RawOption(given: Given)

  /** The value is a property; the options are null until set. */
  datatype Select = Select(tag: Tag, alias: Option<string>, value: Given, options: Option<OMap<Key, SelectEntry>>)

  function NewSelect(): (r: Select)
    ensures Built(r.tag, SelectClass) && r.tag.attributes == [] && r.options.None?
  {
    Select(Construct(SelectClass).value, None, Plain(Null), None)
  }

  function SetSelectValue(s: Select, v: Given): (r: Select)
    ensures r.value == v
    ensures r.tag == s.tag && r.options == s.options
  {
    s.(value := v)
  }

  /** `(string) $value` inside `stringifyOptions`. */
  function SelectEntryText(e: SelectEntry, views: Views): Result<string>
  {
    match e
    case OptionEntry(o) => RenderOption(o, views)
    case RawOption(g) => Success(GivenText(g))
  }

  function SelectEntryRenderer(views: Views): SelectEntry -> Result<string>
  {
    e => SelectEntryText(e, views)
  }

  /** `stringifyOptions`: the entries' string forms concatenated in order;
      unset options contribute nothing. */
  function OptionsText(options: Option<OMap<Key, SelectEntry>>, views: Views): (r: Result<string>)
    ensures options.None? ==> r == Success("")
    ensures options.Some? ==>
              (r.Success? <==> forall i :: 0 <= i < |options.value| ==> SelectEntryText(options.value[i].1, views).Success?)
    ensures options.Some? && r.Success? ==>
              exists parts: seq<string> ::
                && |parts| == |options.value|
                && (forall i :: 0 <= i < |parts| ==> parts[i] == SelectEntryText(options.value[i].1, views).value)
                && r.value == Concat(parts)
  {
    match options
    case None => Success("")
    case Some(m) =>
      var parts :- RenderEach(ValuesOf(m), SelectEntryRenderer(views));
      Success(Concat(parts))
  }

  /** `Select::__toString`. */
  function RenderSelect(s: Select, views: Views): Result<string>
  {
    Render(s.tag, SelectObject(s), OptionsText(s.options, views), views)
  }

  /** An options entry as a view receives it. */
  function SelectEntryDatum(e: SelectEntry): Datum
  {
    match e
    case OptionEntry(o) => OptionObject(o)
    case RawOption(g) => GivenDatum(g)
  }

  /** A select as its view receives it: its tag, alias, value and options
      (null until set). */
  function SelectObject(s: Select): (d: Datum)
    ensures d.DObject? && |d.properties| == 3 && d.tag == Some(s.tag) && d.properties[0] == ("alias", TextDatum(s.alias))
    ensures d.properties[1] == ("value", GivenDatum(s.value))
  {
    var options := match s.options
      case None => DValue(Null)
      case Some(m) => DArray(seq(|m|, i requires 0 <= i < |m| => (m[i].0, SelectEntryDatum(m[i].1))));
    DObject(Some(s.tag), [("alias", TextDatum(s.alias)), ("value", GivenDatum(s.value)), ("options", options)])
  }

  /** A select renders `<select` + attributes + `>` + options + `</select>`. */
  lemma SelectRenders(s: Select, views: Views, a: string, c: string)
    requires Built(s.tag, SelectClass)
    requires AttrPart(s.tag.attributes) == Success(a)
    requires OptionsText(s.options, views) == Success(c)
    ensures RenderSelect(s, views) == Success(ContainerMarkup("select", ReplaceAll(a, ContentPlaceholder, c), c))
  {
    DefaultContainerRender(SelectClass, s.tag, c, a);
    BuiltRendersPlain(s.tag, SelectClass, SelectObject(s), Success(c), views);
  }

  /** The select's value never reaches the built-in markup; a view, when
      one is used, receives the select with the new value. */
  lemma SelectValueNotRendered(s: Select, v: Given, views: Views)
    ensures !UsesView(s.tag, views) ==> RenderSelect(SetSelectValue(s, v), views) == RenderSelect(s, views)
    ensures UsesView(s.tag, views) && views.present(ViewFilePath(s.tag).value) ==>
              RenderSelect(SetSelectValue(s, v), views)
              == Success(views.render(ViewFilePath(s.tag).value, ViewData(s.tag, SelectObject(SetSelectValue(s, v)))))
    ensures SelectObject(SetSelectValue(s, v)).properties[1] == ("value", GivenDatum(v))
  {
  }

  /** The argument `setLabel($value)` receives for an entry. */
  function SelectEntryLabel(e: SelectEntry, views: Views): (r: Result<string>)
    ensures e.RawOption? ==> r == StringOf(e.given, "Option::setLabel")
    ensures e.OptionEntry? ==> r == RenderOption(e.option, views)
  {
    match e
    case OptionEntry(o) => RenderOption(o, views)
    case RawOption(g) => StringOf(g, "Option::setLabel")
  }

  /** One loop step of `setOptions`: a new Option with value = key and
      label = the entry. */
  function OptionFor(k: Key, e: SelectEntry, views: Views): (r: Result<SelectOption>)
    ensures r.Success? <==> SelectEntryLabel(e, views).Success?
    ensures r.Success? ==> Built(r.value.tag, OptionClass)
    ensures r.Success? ==> ValueOf(r.value.tag) == Scalar(KeyValue(k))
    ensures r.Success? ==> r.value.caption == Some(SelectEntryLabel(e, views).value)
    ensures r.Success? ==> GetSelected(r.value) == Success(false)
  {
    var o := NewOption();
    var valued := AddAttribute(o.tag, ValueAttribute, Scalar(KeyValue(k)));
    var caption :- SelectEntryLabel(e, views);
    BuiltKeepsClass(o.tag, OptionClass, valued.attributes);
    assert valued == o.tag.(attributes := valued.attributes);
    Success(SelectOption(valued, None, Some(caption)))
  }

  function OptionEntryFor(k: Key, e: SelectEntry, views: Views): Result<SelectEntry>
  {
    var o :- OptionFor(k, e, views);
    Success(OptionEntry(o))
  }

  function OptionMaker(views: Views): (Key, SelectEntry) -> Result<SelectEntry>
  {
    (k, e) => OptionEntryFor(k, e, views)
  }

  /** Whether `setOptions` keeps the array as given: only the first entry is
      inspected. */
  predicate FirstIsOption(options: OMap<Key, SelectEntry>)
  {
    |options| > 0 && options[0].1.OptionEntry?
  }

  /** `Select::setOptions`. */
  function SetSelectOptions(s: Select, options: OMap<Key, SelectEntry>, views: Views): (r: Result<Select>)
    ensures FirstIsOption(options) ==> r == Success(s.(options := Some(options)))
    ensures !FirstIsOption(options) ==>
              (r.Success? <==> forall i :: 0 <= i < |options| ==> SelectEntryLabel(options[i].1, views).Success?)
    ensures r.Success? ==> r.value.(options := s.options) == s && r.value.options.Some?
    ensures !FirstIsOption(options) && r.Success? ==>
              var converted := r.value.options.value;
              && |converted| == |options|
              && forall i :: 0 <= i < |options| ==>
                   && converted[i].0 == options[i].0
                   && converted[i].1.OptionEntry?
                   && Built(converted[i].1.option.tag, OptionClass)
                   && ValueOf(converted[i].1.option.tag) == Scalar(KeyValue(options[i].0))
                   && converted[i].1.option.caption == Some(SelectEntryLabel(options[i].1, views).value)
                   && GetSelected(converted[i].1.option) == Success(false)
  {
    if FirstIsOption(options) then Success(s.(options := Some(options)))
    else
      var converted :- MapEntries(options, OptionMaker(views));
      Success(s.(options := Some(converted)))
  }

  /** `getOptions(): array`: null options break the return type. */
  function GetSelectOptions(s: Select): (r: Result<OMap<Key, SelectEntry>>)
    ensures r.Success? <==> s.options.Some?
    ensures r.Success? ==> Some(r.value) == s.options
  {
    match s.options
    case Some(m) => Success(m)
    case None => Failure(TypeError("Select::getOptions"))
  }

  /** Options built from raw labels render in order, each as an option whose
      value is its key. */
  lemma {:induction false} ConvertedOptionsRender(options: OMap<Key, SelectEntry>, views: Views)
    requires forall i :: 0 <= i < |options| ==> options[i].1.RawOption? && options[i].1.given != Plain(Null)
    requires MapEntries(options, OptionMaker(views)).Success?
    ensures forall i :: 0 <= i < |options| ==>
              var o := MapEntries(options, OptionMaker(views)).value[i].1.option;
              SelectEntryText(OptionEntry(o), views) ==
                Render(o.tag, OptionObject(o), Success(GivenText(options[i].1.given)), views)
  {
    forall i | 0 <= i < |options|
      ensures var o := MapEntries(options, OptionMaker(views)).value[i].1.option;
              SelectEntryText(OptionEntry(o), views) == Render(o.tag, OptionObject(o), Success(GivenText(options[i].1.given)), views)
    {
      var o := OptionFor(options[i].0, options[i].1, views).value;
      assert MapEntries(options, OptionMaker(views)).value[i].1 == OptionEntry(o);
      assert o.caption == Some(GivenText(options[i].1.given));
    }
  }

  // ---------------------------------------------------------------------
  // RadioButton

  const RadioLead := "<label><input type=\"radio\" "
  const RadioTail := "</label>"
  /** The fixed template, nested to the right. */
  const RadioTemplate := RadioLead + ("{attributes}" + (" /> " + ("{content}" + RadioTail)))
  const RadioClass := TagClass(Some("input"), Some(RadioTemplate), true, false, Bool(true))

  datatype RadioButton = RadioButton(tag: Tag, alias: Option<string>, caption: Option<string>)

  function NewRadio(): (r: RadioButton)
    ensures Built(r.tag, RadioClass) && r.tag.attributes == [] && r.caption.None?
    ensures r.tag.template == RadioTemplate
  {
    RadioButton(Construct(RadioClass).value, None, None)
  }

  /** The radio markup with attribute string `a` and label `c`. */
  function RadioMarkup(a: string, c: string): string
  {
    RadioLead + (a + (" /> " + (c + RadioTail)))
  }

  /** The template with its attributes filled in. */
  lemma RadioAttributesFilled(a: string)
    ensures ReplaceAll(RadioTemplate, AttributesPlaceholder, a) == RadioLead + (a + (" /> " + ("{content}" + RadioTail)))
  {
    var pa := AttributesPlaceholder;
    var z := "{content}" + RadioTail;
    var y := " /> " + z;
    calc {
      ReplaceAll(RadioTemplate, pa, a);
      == { ReplaceAllFreePrefix(RadioLead, pa + y, pa, a); }
      RadioLead + ReplaceAll(pa + y, pa, a);
      == { ReplaceAllLeading(y, pa, a); }
      RadioLead + (a + ReplaceAll(y, pa, a));
      == { ReplaceAllFreePrefix(" /> ", z, pa, a); }
      RadioLead + (a + (" /> " + ReplaceAll(z, pa, a)));
      == { ReplaceAllPassWord("{content}", RadioTail, pa, a); ReplaceAllFree(RadioTail, pa, a); }
      RadioLead + (a + (" /> " + z));
    }
  }

  /** Then its content: an occurrence inside the attribute string is filled
      as well. */
  lemma RadioContentFilled(a: string, c: string)
    ensures ReplaceAll(RadioLead + (a + (" /> " + ("{content}" + RadioTail))), ContentPlaceholder, c)
            == RadioMarkup(ReplaceAll(a, ContentPlaceholder, c), c)
  {
    assert '{' !in RadioLead;
    assert '{' !in RadioTail;
    FillBetween(RadioLead, a, RadioTail, c);
  }

  /** Filling `lead + a + " /> {content}" + tail` when neither end can start
      the placeholder. */
  lemma FillBetween(lead: string, a: string, tail: string, c: string)
    requires '{' !in lead && '{' !in tail
    ensures ReplaceAll(lead + (a + (" /> " + ("{content}" + tail))), ContentPlaceholder, c)
            == lead + (ReplaceAll(a, ContentPlaceholder, c) + (" /> " + (c + tail)))
  {
    var pc := ContentPlaceholder;
    var z := "{content}" + tail;
    var w := "/> " + z;
    ReplaceAllFreePrefix(lead, a + (" /> " + z), pc, c);
    assert a + (" /> " + z) == a + [' '] + w;
    ReplaceAllSplit(a, ' ', w, pc, c);
    ReplaceAllFreePrefix("/> ", z, pc, c);
    ReplaceAllLeading(tail, pc, c);
    ReplaceAllFree(tail, pc, c);
    var ra := ReplaceAll(a, pc, c);
    assert ra + [' '] + ("/> " + (c + tail)) == ra + (" /> " + (c + tail));
  }

  /** `RadioButton::__toString`: the label is the content. */
  function RenderRadio(b: RadioButton, views: Views): Result<string>
  {
    Render(b.tag, RadioObject(b), LabelText(b.caption, "RadioButton::getContentMarkup"), views)
  }

  /** A radio button as its view receives it: its tag, alias and label. */
  function RadioObject(b: RadioButton): (d: Datum)
    ensures d.DObject? && |d.properties| == 2 && d.tag == Some(b.tag) && d.properties[0] == ("alias", TextDatum(b.alias))
    ensures d.properties[1] == ("label", TextDatum(b.caption))
  {
    DObject(Some(b.tag), [("alias", TextDatum(b.alias)), ("label", TextDatum(b.caption))])
  }

  /** A radio button renders its fixed template: two spaces precede the first
      attribute, the label follows the input. */
  lemma RadioRenders(b: RadioButton, views: Views, a: string, caption: string)
    requires Built(b.tag, RadioClass)
    requires AttrPart(b.tag.attributes) == Success(a)
    requires b.caption == Some(caption)
    ensures RenderRadio(b, views) == Success(RadioMarkup(ReplaceAll(a, ContentPlaceholder, caption), caption))
  {
    RadioAttributesFilled(a);
    RadioContentFilled(a, caption);
    BuiltRendersPlain(b.tag, RadioClass, RadioObject(b), Success(caption), views);
  }

  function SetRadioValue(b: RadioButton, g: Given): (r: Result<RadioButton>)
    ensures r.Success? <==> g.Plain?
    ensures r.Success? ==> ValueOf(r.value.tag) == Scalar(g.v) && r.value.caption == b.caption
  {
    var t :- SetValueAttribute(b.tag, g);
    Success(b.(tag := t))
  }

  function SetRadioLabel(b: RadioButton, caption: Given): (r: Result<RadioButton>)
    ensures r.Success? <==> caption != Plain(Null)
    ensures r.Success? ==> LabelText(r.value.caption, "RadioButton::getLabel") == Success(GivenText(caption))
    ensures r.Success? ==> r.value.tag == b.tag
  {
    var l :- StringOf(caption, "RadioButton::setLabel");
    Success(b.(caption := Some(l)))
  }

  /** `(bool) getAttribute('checked', false)`. */
  function GetChecked(b: RadioButton): (r: bool)
    ensures r <==> IsSet(b.tag, CheckedAttribute) && Truthy(Get(b.tag.attributes, CheckedAttribute).value)
  {
    Truthy(GetAttribute(b.tag, CheckedAttribute, Scalar(Bool(false))))
  }

  function SetChecked(b: RadioButton, checked: bool): (r: RadioButton)
    ensures GetChecked(r) == checked
    ensures forall other :: other != CheckedAttribute ==> Get(r.tag.attributes, other) == Get(b.tag.attributes, other)
    ensures r.caption == b.caption
  {
    b.(tag := SetFlag(b.tag, CheckedAttribute, checked))
  }

  // ---------------------------------------------------------------------
  // RadioButtonSet

  /** The set overrides `getPrintable`, so its own template, tag name and
      attributes never take part in its output. */
  const RadioSetClass := TagClass(Some("radio-button-set"), Some("{content}"), true, true, Bool(true))

  datatype RadioEntry = RadioEntry(radio: RadioButton) | RawRadio(given: Given)

  datatype RadioButtonSet = RadioButtonSet(tag: Tag, alias: Option<string>, value: Given, options: Option<OMap<Key, RadioEntry>>)

  function NewRadioSet(): (r: RadioButtonSet)
    ensures Built(r.tag, RadioSetClass) && r.options.None? && r.value == Plain(Null)
  {
    RadioButtonSet(Construct(RadioSetClass).value, None, Plain(Null), None)
  }

  function SetRadioSetValue(s: RadioButtonSet, v: Given): (r: RadioButtonSet)
    ensures r.value == v
    ensures r.tag == s.tag && r.options == s.options
  {
    s.(value := v)
  }

  /** `(string) $value` inside `stringifyOptions`. */
  function RadioEntryText(e: RadioEntry, views: Views): Result<string>
  {
    match e
    case RadioEntry(b) => RenderRadio(b, views)
    case RawRadio(g) => Success(GivenText(g))
  }

  function RadioEntryRenderer(views: Views): RadioEntry -> Result<string>
  {
    e => RadioEntryText(e, views)
  }

  /** `stringifyOptions`, which is the set's whole printable form. */
  function RadiosText(options: Option<OMap<Key, RadioEntry>>, views: Views): (r: Result<string>)
    ensures options.None? ==> r == Success("")
    ensures options.Some? ==>
              (r.Success? <==> forall i :: 0 <= i < |options.value| ==> RadioEntryText(options.value[i].1, views).Success?)
    ensures options.Some? && r.Success? ==>
              exists parts: seq<string> ::
                && |parts| == |options.value|
                && (forall i :: 0 <= i < |parts| ==> parts[i] == RadioEntryText(options.value[i].1, views).value)
                && r.value == Concat(parts)
  {
    match options
    case None => Success("")
    case Some(m) =>
      var parts :- RenderEach(ValuesOf(m), RadioEntryRenderer(views));
      Success(Concat(parts))
  }

  /** `RadioButtonSet::__toString`. */
  function RenderRadioSet(s: RadioButtonSet, views: Views): Result<string>
  {
    ToString(s.tag, RadioSetObject(s), RadiosText(s.options, views), views)
  }

  /** A radio entry as a view receives it. */
  function RadioEntryDatum(e: RadioEntry): Datum
  {
    match e
    case RadioEntry(b) => RadioObject(b)
    case RawRadio(g) => GivenDatum(g)
  }

  /** A radio button set as its view receives it: its tag, alias, value and
      options (null until set). */
  function RadioSetObject(s: RadioButtonSet): (d: Datum)
    ensures d.DObject? && |d.properties| == 3 && d.tag == Some(s.tag) && d.properties[0] == ("alias", TextDatum(s.alias))
    ensures d.properties[1] == ("value", GivenDatum(s.value))
  {
    var options := match s.options
      case None => DValue(Null)
      case Some(m) => DArray(seq(|m|, i requires 0 <= i < |m| => (m[i].0, RadioEntryDatum(m[i].1))));
    DObject(Some(s.tag), [("alias", TextDatum(s.alias)), ("value", GivenDatum(s.value)), ("options", options)])
  }

  /** A constructed set prints its radios and nothing else: not its tag, and
      not its attributes, even null ones. */
  lemma RadioSetPrintsOnlyOptions(s: RadioButtonSet, views: Views)
    requires Built(s.tag, RadioSetClass)
    ensures RenderRadioSet(s, views) == RadiosText(s.options, views)
  {
    PlainToString(s.tag, RadioSetObject(s), RadiosText(s.options, views), views);
  }

  /** `setName($name)` receiving the set's `getName()`: null passes, scalars
      are converted, an array breaks the `string` parameter. */
  function NameArgument(name: AttrValue): (r: Result<Option<string>>)
    ensures name == Scalar(Null) ==> r == Success(None)
    ensures name.Scalar? && name.v != Null ==> r == Success(Some(ToStr(name.v)))
    ensures name.List? ==> r == Failure(TypeError("BaseFormItem::setName"))
  {
    match name
    case Scalar(Null) => Success(None)
    case Scalar(v) => Success(Some(ToStr(v)))
    case List(_) => Failure(TypeError("BaseFormItem::setName"))
  }

  /** The name a radio ends up with: the set's name as a string, or null. */
  function PassedName(name: AttrValue): AttrValue
  {
    if name.Scalar? && name.v != Null then Scalar(Str(ToStr(name.v))) else name
  }

  /** The argument `setLabel($value)` receives for an entry. */
  function RadioEntryLabel(e: RadioEntry, views: Views): (r: Result<string>)
    ensures e.RawRadio? ==> r == StringOf(e.given, "RadioButton::setLabel")
    ensures e.RadioEntry? ==> r == RenderRadio(e.radio, views)
  {
    match e
    case RadioEntry(b) => RenderRadio(b, views)
    case RawRadio(g) => StringOf(g, "RadioButton::setLabel")
  }

  /** The part of one loop step both versions share: a new radio with
      value = key, label = the entry and name = the set's name. */
  function RadioFor(name: AttrValue, k: Key, e: RadioEntry, views: Views): (r: Result<RadioButton>)
    ensures r.Success? <==> RadioEntryLabel(e, views).Success? && !name.List?
    ensures r.Success? ==> Built(r.value.tag, RadioClass)
    ensures r.Success? ==> ValueOf(r.value.tag) == Scalar(KeyValue(k))
    ensures r.Success? ==> r.value.caption == Some(RadioEntryLabel(e, views).value)
    ensures r.Success? ==> GetName(r.value.tag) == PassedName(name)
    ensures r.Success? ==> !GetChecked(r.value)
  {
    var b := NewRadio();
    var valued := AddAttribute(b.tag, ValueAttribute, Scalar(KeyValue(k)));
    var caption :- RadioEntryLabel(e, views);
    var n :- NameArgument(name);
    var named := SetName(valued, n);
    BuiltKeepsClass(b.tag, RadioClass, named.attributes);
    assert named == b.tag.(attributes := named.attributes);
    Success(RadioButton(named, None, Some(caption)))
  }

  /** The comparison on line 95: the set's value against the entry as a
      string, i.e. against the label. */
  predicate Matches(current: Given, b: RadioButton)
  {
    b.caption == Some(GivenText(current))
  }

  /** One loop step as written: on a match, `setChecked` is called on the
      options array, which is an engine error. */
  function RadioForAsWritten(name: AttrValue, current: Given, k: Key, e: RadioEntry, views: Views): (r: Result<RadioEntry>)
    ensures r.Success? <==> RadioFor(name, k, e, views).Success? && !Matches(current, RadioFor(name, k, e, views).value)
    ensures r.Success? ==> r.value == RadioEntry(RadioFor(name, k, e, views).value)
  {
    var b :- RadioFor(name, k, e, views);
    if Matches(current, b) then Failure(MemberCallOnArray("setChecked"))
    else Success(RadioEntry(b))
  }

  /** One loop step as intended: the matching radio is checked. */
  function RadioForCorrected(name: AttrValue, current: Given, k: Key, e: RadioEntry, views: Views): (r: Result<RadioEntry>)
    ensures r.Success? <==> RadioFor(name, k, e, views).Success?
    ensures r.Success? ==> r.value.RadioEntry?
    ensures r.Success? ==> r.value.radio.caption == RadioFor(name, k, e, views).value.caption
    ensures r.Success? ==> ValueOf(r.value.radio.tag) == Scalar(KeyValue(k))
    ensures r.Success? ==> GetName(r.value.radio.tag) == PassedName(name)
    ensures r.Success? ==> (GetChecked(r.value.radio) <==> Matches(current, r.value.radio))
  {
    var b :- RadioFor(name, k, e, views);
    if Matches(current, b) then
      var checked := SetChecked(b, true);
      assert Get(checked.tag.attributes, ValueAttribute) == Get(b.tag.attributes, ValueAttribute);
      assert Get(checked.tag.attributes, NameAttribute) == Get(b.tag.attributes, NameAttribute);
      Success(RadioEntry(checked))
    else Success(RadioEntry(b))
  }

  function AsWrittenMaker(name: AttrValue, current: Given, views: Views): (Key, RadioEntry) -> Result<RadioEntry>
  {
    (k, e) => RadioForAsWritten(name, current, k, e, views)
  }

  function CorrectedMaker(name: AttrValue, current: Given, views: Views): (Key, RadioEntry) -> Result<RadioEntry>
  {
    (k, e) => RadioForCorrected(name, current, k, e, views)
  }

  predicate FirstIsRadio(options: OMap<Key, RadioEntry>)
  {
    |options| > 0 && options[0].1.RadioEntry?
  }

  /** `RadioButtonSet::setOptions` as written. */
  function SetRadioOptionsAsWritten(s: RadioButtonSet, options: OMap<Key, RadioEntry>, views: Views): (r: Result<RadioButtonSet>)
    ensures FirstIsRadio(options) ==> r == Success(s.(options := Some(options)))
    ensures r.Success? ==> r.value.(options := s.options) == s && r.value.options.Some?
  {
    if FirstIsRadio(options) then Success(s.(options := Some(options)))
    else
      var converted :- MapEntries(options, AsWrittenMaker(GetName(s.tag), s.value, views));
      Success(s.(options := Some(converted)))
  }

  /** As written, converting raw entries never yields a checked radio: a
      match aborts the whole call instead. */
  lemma AsWrittenNeverChecks(s: RadioButtonSet, options: OMap<Key, RadioEntry>, views: Views)
    requires !FirstIsRadio(options)
    requires SetRadioOptionsAsWritten(s, options, views).Success?
    ensures var converted := SetRadioOptionsAsWritten(s, options, views).value.options.value;
            |converted| == |options| &&
            forall i :: 0 <= i < |converted| ==> converted[i].1.RadioEntry? && !GetChecked(converted[i].1.radio)
  {
    var f := AsWrittenMaker(GetName(s.tag), s.value, views);
    var converted := MapEntries(options, f).value;
    forall i | 0 <= i < |converted|
      ensures converted[i].1.RadioEntry? && !GetChecked(converted[i].1.radio)
    {
      assert converted[i] == (options[i].0, f(options[i].0, options[i].1).value);
    }
  }

  /** The set's value equal to an entry's label makes the as-written call
      fail, whatever comes before it. */
  lemma AsWrittenFailsOnMatch(s: RadioButtonSet, options: OMap<Key, RadioEntry>, views: Views, i: nat)
    requires !FirstIsRadio(options) && i < |options|
    requires options[i].1.RawRadio? && options[i].1.given != Plain(Null)
    requires GivenText(options[i].1.given) == GivenText(s.value)
    requires !GetName(s.tag).List?
    ensures SetRadioOptionsAsWritten(s, options, views).Failure?
  {
    var f := AsWrittenMaker(GetName(s.tag), s.value, views);
    assert f(options[i].0, options[i].1).Failure?;
  }

  /** The smallest case: a set whose value is "a", given one raw option
      labelled "a". */
  lemma AsWrittenCounterexample(views: Views)
    ensures SetRadioOptionsAsWritten(NewRadioSet().(value := Plain(Str("a"))), [(StrKey("x"), RawRadio(Plain(Str("a"))))], views)
            == Failure(MemberCallOnArray("setChecked"))
    ensures SetRadioOptionsCorrected(NewRadioSet().(value := Plain(Str("a"))), [(StrKey("x"), RawRadio(Plain(Str("a"))))], views).Success?
  {
    var s := NewRadioSet().(value := Plain(Str("a")));
    var options := [(StrKey("x"), RawRadio(Plain(Str("a"))))];
    var f := AsWrittenMaker(GetName(s.tag), s.value, views);
    assert f(options[0].0, options[0].1) == Failure(MemberCallOnArray("setChecked"));
  }

  /** `RadioButtonSet::setOptions` with the radio, not the array, checked. */
  function SetRadioOptionsCorrected(s: RadioButtonSet, options: OMap<Key, RadioEntry>, views: Views): (r: Result<RadioButtonSet>)
    ensures FirstIsRadio(options) ==> r == Success(s.(options := Some(options)))
    ensures !FirstIsRadio(options) ==>
              (r.Success? <==> (|options| > 0 ==> !GetName(s.tag).List?) &&
                               forall i :: 0 <= i < |options| ==> RadioEntryLabel(options[i].1, views).Success?)
    ensures r.Success? ==> r.value.(options := s.options) == s && r.value.options.Some?
    ensures !FirstIsRadio(options) && r.Success? ==>
              var converted := r.value.options.value;
              && |converted| == |options|
              && forall i :: 0 <= i < |options| ==>
                   && converted[i].0 == options[i].0
                   && converted[i].1.RadioEntry?
                   && ValueOf(converted[i].1.radio.tag) == Scalar(KeyValue(options[i].0))
                   && converted[i].1.radio.caption == Some(RadioEntryLabel(options[i].1, views).value)
                   && GetName(converted[i].1.radio.tag) == PassedName(GetName(s.tag))
                   && (GetChecked(converted[i].1.radio) <==> RadioEntryLabel(options[i].1, views).value == GivenText(s.value))
  {
    if FirstIsRadio(options) then Success(s.(options := Some(options)))
    else
      var converted :- MapEntries(options, CorrectedMaker(GetName(s.tag), s.value, views));
      Success(s.(options := Some(converted)))
  }

  /** `getOptions(): array`. */
  function GetRadioOptions(s: RadioButtonSet): (r: Result<OMap<Key, RadioEntry>>)
    ensures r.Success? <==> s.options.Some?
    ensures r.Success? ==> Some(r.value) == s.options
  {
    match s.options
    case Some(m) => Success(m)
    case None => Failure(TypeError("RadioButtonSet::getOptions"))
  }

  // ---------------------------------------------------------------------
  // Buttons

  const ButtonClass := NamedClass("button", true, Bool(true))

  /** The three concrete buttons differ only in their `typeAttribute`. */
  datatype ButtonKind = PlainButton | SubmitButton | ResetButton

  function TypeAttributeOf(kind: ButtonKind): (r: string)
    ensures !IsEmptyString(r)
  {
    match kind
    case PlainButton => "button"
    case SubmitButton => "submit"
    case ResetButton => "reset"
  }

  /** The value is a property and the button's content. */
  datatype Button = Button(tag: Tag, alias: Option<string>, kind: ButtonKind, value: Given)

  function NewButton(kind: ButtonKind): (r: Button)
    ensures Built(r.tag, ButtonClass) && r.tag.attributes == [] && r.kind == kind && r.value == Plain(Null)
  {
    Button(Construct(ButtonClass).value, None, kind, Plain(Null))
  }

  function SetButtonValue(b: Button, v: Given): (r: Button)
    ensures r.value == v
    ensures r.tag == b.tag && r.kind == b.kind
  {
    b.(value := v)
  }

  /** The `__toString` step of `BaseButton`: `type` is forced only when the
      class declares a non-empty type. */
  function ButtonTyped(t: Tag, typeAttribute: string): (r: Tag)
    ensures IsEmptyString(typeAttribute) ==> r == t
    ensures !IsEmptyString(typeAttribute) ==> GetAttribute(r, TypeAttribute, Scalar(Null)) == Scalar(Str(typeAttribute))
    ensures forall other :: other != TypeAttribute ==> Get(r.attributes, other) == Get(t.attributes, other)
    ensures r.(attributes := t.attributes) == t
  {
    if IsEmptyString(typeAttribute) then t else Typed(t, typeAttribute)
  }

  /** `BaseButton::__toString` (and `render`). */
  function RenderButton(b: Button, views: Views): Result<string>
  {
    var typed := b.(tag := ButtonTyped(b.tag, TypeAttributeOf(b.kind)));
    Render(typed.tag, ButtonObject(typed), StringOf(b.value, "BaseButton::getContentMarkup"), views)
  }

  /** A button as its view receives it: its tag, alias, type and value. */
  function ButtonObject(b: Button): (d: Datum)
    ensures d.DObject? && |d.properties| == 3 && d.tag == Some(b.tag) && d.properties[0] == ("alias", TextDatum(b.alias))
    ensures d.properties[2] == ("value", GivenDatum(b.value))
  {
    DObject(Some(b.tag), [("alias", TextDatum(b.alias)), ("typeAttribute", DValue(Str(TypeAttributeOf(b.kind)))), ("value", GivenDatum(b.value))])
  }

  /** Whatever `type` a user set, every button renders with its own kind's
      type. */
  lemma ButtonTypeForced(b: Button, userType: AttrValue)
    ensures var t := AddAttribute(b.tag, TypeAttribute, userType);
            GetAttribute(ButtonTyped(t, TypeAttributeOf(b.kind)), TypeAttribute, Scalar(Null))
              == Scalar(Str(TypeAttributeOf(b.kind)))
  {
  }

  /** A button renders `<button` + attributes + `>` + value + `</button>`. */
  lemma ButtonRenders(b: Button, views: Views, a: string, c: string)
    requires Built(b.tag, ButtonClass)
    requires AttrPart(Typed(b.tag, TypeAttributeOf(b.kind)).attributes) == Success(a)
    requires StringOf(b.value, "BaseButton::getContentMarkup") == Success(c)
    ensures RenderButton(b, views) == Success(ContainerMarkup("button", ReplaceAll(a, ContentPlaceholder, c), c))
  {
    var typed := Typed(b.tag, TypeAttributeOf(b.kind));
    assert ButtonTyped(b.tag, TypeAttributeOf(b.kind)) == typed;
    BuiltKeepsClass(b.tag, ButtonClass, typed.attributes);
    assert typed == b.tag.(attributes := typed.attributes);
    NamedContainerRenders("button", typed, ButtonObject(b.(tag := typed)), c, a, views);
  }

  /** Two consecutive renders agree: the first leaves `type` where the second
      writes it again. */
  lemma ButtonRenderStable(b: Button, views: Views)
    ensures RenderButton(b.(tag := ButtonTyped(b.tag, TypeAttributeOf(b.kind))), views) == RenderButton(b, views)
  {
    TypedIdempotent(b.tag, TypeAttributeOf(b.kind));
  }

  // ---------------------------------------------------------------------
  // Any form item

  datatype FormItem =
    | TextField(text: TextInput)
    | TextareaField(textarea: TextArea)
    | SelectField(select: Select)
    | OptionField(option: SelectOption)
    | RadioField(radio: RadioButton)
    | RadioSetField(radioSet: RadioButtonSet)
    | ButtonField(button: Button)

  function TagOf(item: FormItem): Tag
  {
    match item
    case TextField(x) => x.tag
    case TextareaField(x) => x.tag
    case SelectField(x) => x.tag
    case OptionField(x) => x.tag
    case RadioField(x) => x.tag
    case RadioSetField(x) => x.tag
    case ButtonField(x) => x.tag
  }

  /** `getAlias`. */
  function AliasOf(item: FormItem): Option<string>
  {
    match item
    case TextField(x) => x.alias
    case TextareaField(x) => x.alias
    case SelectField(x) => x.alias
    case OptionField(x) => x.alias
    case RadioField(x) => x.alias
    case RadioSetField(x) => x.alias
    case ButtonField(x) => x.alias
  }

  /** `setAlias`: the alias is a property of the item, not an attribute. */
  function SetAlias(item: FormItem, alias: string): (r: FormItem)
    ensures AliasOf(r) == Some(alias)
    ensures TagOf(r) == TagOf(item)
  {
    match item
    case TextField(x) => TextField(x.(alias := Some(alias)))
    case TextareaField(x) => TextareaField(x.(alias := Some(alias)))
    case SelectField(x) => SelectField(x.(alias := Some(alias)))
    case OptionField(x) => OptionField(x.(alias := Some(alias)))
    case RadioField(x) => RadioField(x.(alias := Some(alias)))
    case RadioSetField(x) => RadioSetField(x.(alias := Some(alias)))
    case ButtonField(x) => ButtonField(x.(alias := Some(alias)))
  }

  /** The tag an item is printed with: text inputs and buttons force their
      `type` attribute first. */
  function PrintedTag(item: FormItem): (t: Tag)
    ensures t.(attributes := TagOf(item).attributes) == TagOf(item)
  {
    match item
    case TextField(x) => Typed(x.tag, TextType)
    case ButtonField(x) => ButtonTyped(x.tag, TypeAttributeOf(x.kind))
    case _ => TagOf(item)
  }

  /** The item as its view receives it, at the moment it is printed. */
  function ItemObject(item: FormItem): (d: Datum)
    ensures d.DObject? && |d.properties| > 0 && d.properties[0] == ("alias", TextDatum(AliasOf(item)))
  {
    match item
    case TextField(x) => TextObject(TextInput(PrintedTag(item), x.alias))
    case TextareaField(x) => TextareaObject(x)
    case SelectField(x) => SelectObject(x)
    case OptionField(x) => OptionObject(x)
    case RadioField(x) => RadioObject(x)
    case RadioSetField(x) => RadioSetObject(x)
    case ButtonField(x) => ButtonObject(Button(PrintedTag(item), x.alias, x.kind, x.value))
  }

  /** `setTemplateDirectory` on an item: the directory is checked and set on
      the item's tag; everything else is kept. */
  function SetItemTemplateDirectory(item: FormItem, directory: string, views: Views): (r: Result<FormItem>)
    ensures r.Success? <==> views.folder(directory)
    ensures r.Failure? ==> r.error == MissingViewDirectory
    ensures r.Success? ==> TagOf(r.value) == SetTemplateDirectory(TagOf(item), directory, views).value
    ensures r.Success? ==> AliasOf(r.value) == AliasOf(item)
  {
    var t :- SetTemplateDirectory(TagOf(item), directory, views);
    Success(WithTag(item, t))
  }

  /** The item with its tag replaced. */
  function WithTag(item: FormItem, t: Tag): (r: FormItem)
    ensures TagOf(r) == t && AliasOf(r) == AliasOf(item)
  {
    match item
    case TextField(x) => TextField(x.(tag := t))
    case TextareaField(x) => TextareaField(x.(tag := t))
    case SelectField(x) => SelectField(x.(tag := t))
    case OptionField(x) => OptionField(x.(tag := t))
    case RadioField(x) => RadioField(x.(tag := t))
    case RadioSetField(x) => RadioSetField(x.(tag := t))
    case ButtonField(x) => ButtonField(x.(tag := t))
  }

  /** An item as a view receives it among a form's items: its state as it
      stands, before printing forces any `type`. */
  function ItemState(item: FormItem): (d: Datum)
    ensures d.DObject? && d.tag == Some(TagOf(item))
  {
    match item
    case TextField(x) => TextObject(x)
    case TextareaField(x) => TextareaObject(x)
    case SelectField(x) => SelectObject(x)
    case OptionField(x) => OptionObject(x)
    case RadioField(x) => RadioObject(x)
    case RadioSetField(x) => RadioSetObject(x)
    case ButtonField(x) => ButtonObject(x)
  }

  /** The alias never reaches the built-in markup; a view, when one is used,
      receives the item, alias included. */
  lemma AliasNotRendered(item: FormItem, alias: string, views: Views)
    ensures !UsesView(PrintedTag(item), views) ==> RenderItem(SetAlias(item, alias), views) == RenderItem(item, views)
    ensures UsesView(PrintedTag(item), views) && views.present(ViewFilePath(PrintedTag(item)).value) ==>
              RenderItem(SetAlias(item, alias), views)
              == Success(views.render(ViewFilePath(PrintedTag(item)).value, ViewData(PrintedTag(item), ItemObject(SetAlias(item, alias)))))
    ensures ItemObject(SetAlias(item, alias)).properties[0] == ("alias", DValue(Str(alias)))
  {
    var named := SetAlias(item, alias);
    assert PrintedTag(named) == PrintedTag(item);
    if !UsesView(PrintedTag(item), views) {
      ItemPlainRender(named, views);
      ItemPlainRender(item, views);
      assert StripAlias(named) == StripAlias(item);
    } else if views.present(ViewFilePath(PrintedTag(item)).value) {
      ItemViewRender(named, views);
    }
  }

  /** When the printed tag does not use a view, the item's rendering does not
      depend on the object handed over. */
  lemma ItemPlainRender(item: FormItem, views: Views)
    requires !UsesView(PrintedTag(item), views)
    ensures RenderItem(item, views) == RenderItem(StripAlias(item), views)
  {
    match item
    case TextField(x) =>
    case TextareaField(x) =>
    case SelectField(x) =>
    case OptionField(x) =>
    case RadioField(x) =>
    case RadioSetField(x) =>
    case ButtonField(x) =>
  }

  /** The item with its alias unset. */
  function StripAlias(item: FormItem): (r: FormItem)
    ensures AliasOf(r).None? && TagOf(r) == TagOf(item)
  {
    match item
    case TextField(x) => TextField(x.(alias := None))
    case TextareaField(x) => TextareaField(x.(alias := None))
    case SelectField(x) => SelectField(x.(alias := None))
    case OptionField(x) => OptionField(x.(alias := None))
    case RadioField(x) => RadioField(x.(alias := None))
    case RadioSetField(x) => RadioSetField(x.(alias := None))
    case ButtonField(x) => ButtonField(x.(alias := None))
  }

  /** When the printed tag uses an existing view, the item's rendering is the
      view's output for the item handed over. */
  lemma ItemViewRender(item: FormItem, views: Views)
    requires UsesView(PrintedTag(item), views) && views.present(ViewFilePath(PrintedTag(item)).value)
    ensures RenderItem(item, views)
            == Success(views.render(ViewFilePath(PrintedTag(item)).value, ViewData(PrintedTag(item), ItemObject(item))))
  {
    match item
    case TextField(x) =>
    case TextareaField(x) =>
    case SelectField(x) =>
    case OptionField(x) =>
    case RadioField(x) =>
    case RadioSetField(x) =>
    case ButtonField(x) =>
  }

  /** `(string) $item`. */
  function RenderItem(item: FormItem, views: Views): Result<string>
  {
    match item
    case TextField(x) => RenderText(x, views)
    case TextareaField(x) => RenderTextarea(x, views)
    case SelectField(x) => RenderSelect(x, views)
    case OptionField(x) => RenderOption(x, views)
    case RadioField(x) => RenderRadio(x, views)
    case RadioSetField(x) => RenderRadioSet(x, views)
    case ButtonField(x) => RenderButton(x, views)
  }
}
