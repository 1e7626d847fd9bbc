/** The form: a `form` container whose children are form items keyed by
    alias, or by their position when they have none, and rendered one after
    the other. */
module Forms {
  import opened Php
  import opened Results
  import opened Strings
  import opened OrderedMaps
  import opened DomTag
  import opened FormItems

  const FormClass := NamedClass("form", true, Bool(true))
  const MethodAttribute := "method"
  const ActionAttribute := "action"

  datatype Form = Form(tag: Tag, items: OMap<Key, FormItem>)

  function NewForm(): (r: Form)
    ensures Built(r.tag, FormClass) && r.tag.attributes == [] && r.items == []
  {
    Form(Construct(FormClass).value, [])
  }

  /** `getAlias() ?? autoFormItemAlias()`: the alias, or the current number of
      items. */
  function ItemKey(f: Form, item: FormItem): (k: Key)
    ensures AliasOf(item).Some? ==> k == StrKey(AliasOf(item).value)
    ensures AliasOf(item).None? ==> k == IntKey(|f.items|)
  {
    match AliasOf(item)
    case Some(a) => StrKey(a)
    case None => IntKey(|f.items|)
  }

  /** `addFormItem`: stores the item under its key, replacing an item already
      there in place, appending otherwise. */
  function AddFormItem(f: Form, item: FormItem): (r: Form)
    ensures Get(r.items, ItemKey(f, item)) == Some(item)
    ensures forall other :: other != ItemKey(f, item) ==> Get(r.items, other) == Get(f.items, other)
    ensures HasKey(f.items, ItemKey(f, item)) ==> KeysOf(r.items) == KeysOf(f.items)
    ensures !HasKey(f.items, ItemKey(f, item)) ==> r.items == f.items + [(ItemKey(f, item), item)]
    ensures r.tag == f.tag
  {
    var k := ItemKey(f, item);
    PutGetAll(f.items, k, item);
    PutKeys(f.items, k, item);
    f.(items := Put(f.items, k, item))
  }

  /** The shape every sequence of `addFormItem` calls keeps: distinct keys,
      and integer keys below the item count. */
  ghost predicate Keyed(f: Form)
  {
    && UniqueKeys(f.items)
    && forall i :: 0 <= i < |f.items| && f.items[i].0.IntKey? ==> 0 <= f.items[i].0.n < |f.items|
  }

  /** An item without an alias always gets a fresh key, so the form grows by
      one; an aliased item grows it only when the alias is new. Either way the
      shape is kept. */
  lemma {:induction false} AddKeepsKeyed(f: Form, item: FormItem)
    requires Keyed(f)
    ensures Keyed(AddFormItem(f, item))
    ensures AliasOf(item).None? ==> |AddFormItem(f, item).items| == |f.items| + 1
    ensures AliasOf(item).Some? ==>
              (|AddFormItem(f, item).items| == |f.items| <==> HasKey(f.items, ItemKey(f, item)))
  {
    var k := ItemKey(f, item);
    var r := AddFormItem(f, item);
    PutUnique(f.items, k, item);
    if AliasOf(item).None? {
      assert !HasKey(f.items, k) by {
        forall i | 0 <= i < |f.items| ensures f.items[i].0 != k {
        }
      }
      assert r.items == f.items + [(k, item)];
      forall i | 0 <= i < |r.items| && r.items[i].0.IntKey?
        ensures 0 <= r.items[i].0.n < |r.items|
      {
        if i < |f.items| { assert r.items[i] == f.items[i]; }
      }
    } else if HasKey(f.items, k) {
      assert |r.items| == |f.items| by {
        assert |KeysOf(r.items)| == |KeysOf(f.items)|;
      }
      forall i | 0 <= i < |r.items| && r.items[i].0.IntKey?
        ensures 0 <= r.items[i].0.n < |r.items|
      {
        assert KeysOf(r.items)[i] == KeysOf(f.items)[i];
      }
    } else {
      assert r.items == f.items + [(k, item)];
      forall i | 0 <= i < |r.items| && r.items[i].0.IntKey?
        ensures 0 <= r.items[i].0.n < |r.items|
      {
        assert r.items[i] == f.items[i];
      }
    }
  }

  /** One step of `strigifyChildren`: when the form has a template
      directory, the item is first given it (which fails when the directory
      does not exist), then cast to string. */
  function PrintChild(directory: Option<string>, item: FormItem, views: Views): (r: Result<string>)
    ensures directory.None? ==> r == RenderItem(item, views)
    ensures directory.Some? && !views.folder(directory.value) ==> r == Failure(MissingViewDirectory)
  {
    match directory
    case None => RenderItem(item, views)
    case Some(d) =>
      var directed :- SetItemTemplateDirectory(item, d, views);
      RenderItem(directed, views)
  }

  function ItemRenderer(directory: Option<string>, views: Views): FormItem -> Result<string>
  {
    item => PrintChild(directory, item, views)
  }

  /** `strigifyChildren`: every child's rendering, concatenated in insertion
      order, each child first given the form's template directory. */
  function FormContent(f: Form, views: Views): (r: Result<string>)
    ensures r.Success? <==> forall i :: 0 <= i < |f.items| ==> PrintChild(f.tag.templateDirectory, f.items[i].1, views).Success?
    ensures f.tag.templateDirectory.None? ==>
              (r.Success? <==> forall i :: 0 <= i < |f.items| ==> RenderItem(f.items[i].1, views).Success?)
    ensures |f.items| > 0 && f.tag.templateDirectory.Some? && !views.folder(f.tag.templateDirectory.value) ==>
              r == Failure(MissingViewDirectory)
    ensures |f.items| == 0 ==> r == Success("")
  {
    var parts :- RenderEach(ValuesOf(f.items), ItemRenderer(f.tag.templateDirectory, views));
    Success(Concat(parts))
  }

  /** A form's child is printed as the item carrying the form's template
      directory, and keeps its own directory when the form has none. */
  lemma ChildGetsFormDirectory(f: Form, item: FormItem, views: Views)
    requires f.tag.templateDirectory.Some? && views.folder(f.tag.templateDirectory.value)
    ensures var directed := WithTag(item, TagOf(item).(templateDirectory := f.tag.templateDirectory));
            PrintChild(f.tag.templateDirectory, item, views) == RenderItem(directed, views)
  {
    var d := f.tag.templateDirectory.value;
    var directed := SetItemTemplateDirectory(item, d, views).value;
    assert TagOf(directed) == TagOf(item).(templateDirectory := Some(d));
    assert directed == WithTag(item, TagOf(item).(templateDirectory := Some(d))) by {
      match item
      case TextField(x) =>
      case TextareaField(x) =>
      case SelectField(x) =>
      case OptionField(x) =>
      case RadioField(x) =>
      case RadioSetField(x) =>
      case ButtonField(x) =>
    }
  }

  /** A form as its view receives it: its tag and its items by key. */
  function FormObject(f: Form): (d: Datum)
    ensures d.DObject? && d.tag == Some(f.tag)
  {
    var items := seq(|f.items|, i requires 0 <= i < |f.items| => (f.items[i].0, ItemState(f.items[i].1)));
    DObject(Some(f.tag), [("formItems", DArray(items))])
  }

  /** `(string) $form`. */
  function RenderForm(f: Form, views: Views): Result<string>
  {
    Render(f.tag, FormObject(f), FormContent(f, views), views)
  }

  /** A form renders `<form` + attributes + `>` + children + `</form>`. */
  lemma FormRenders(f: Form, views: Views, a: string, c: string)
    requires Built(f.tag, FormClass)
    requires AttrPart(f.tag.attributes) == Success(a)
    requires FormContent(f, views) == Success(c)
    ensures RenderForm(f, views) == Success(ContainerMarkup("form", ReplaceAll(a, ContentPlaceholder, c), c))
  {
    NamedContainerRenders("form", f.tag, FormObject(f), c, a, views);
  }

  /** A form without items still prints both tags. */
  lemma EmptyFormRenders(f: Form, views: Views, a: string)
    requires Built(f.tag, FormClass) && f.items == []
    requires AttrPart(f.tag.attributes) == Success(a)
    ensures RenderForm(f, views) == Success(ContainerMarkup("form", ReplaceAll(a, ContentPlaceholder, ""), ""))
  {
    FormRenders(f, views, a, "");
  }

  /** Adding an item under a new key appends its rendering to the content. */
  lemma AddedItemRendersLast(f: Form, item: FormItem, views: Views)
    requires !HasKey(f.items, ItemKey(f, item))
    requires FormContent(f, views).Success? && PrintChild(f.tag.templateDirectory, item, views).Success?
    ensures FormContent(AddFormItem(f, item), views) ==
            Success(FormContent(f, views).value + PrintChild(f.tag.templateDirectory, item, views).value)
  {
    var render := ItemRenderer(f.tag.templateDirectory, views);
    var vs := ValuesOf(f.items);
    var parts := RenderEach(vs, render).value;
    var last := PrintChild(f.tag.templateDirectory, item, views).value;
    calc {
      FormContent(AddFormItem(f, item), views);
      == { ValuesOfAppend(f.items, ItemKey(f, item), item); }
      var ps :- RenderEach(vs + [item], render); Success(Concat(ps));
      == { RenderEachAppend(vs, item, render); }
      Success(Concat(parts + [last]));
      == { ConcatAppend(parts, last); }
      Success(Concat(parts) + last);
    }
  }

  /** `setMethod`. */
  function SetMethod(f: Form, m: string): (r: Form)
    ensures GetAttribute(r.tag, MethodAttribute, Scalar(Null)) == Scalar(Str(m))
    ensures forall other :: other != MethodAttribute ==> Get(r.tag.attributes, other) == Get(f.tag.attributes, other)
    ensures r.items == f.items
  {
    f.(tag := AddAttribute(f.tag, MethodAttribute, Scalar(Str(m))))
  }

  /** `setAction`. */
  function SetAction(f: Form, action: string): (r: Form)
    ensures GetAttribute(r.tag, ActionAttribute, Scalar(Null)) == Scalar(Str(action))
    ensures forall other :: other != ActionAttribute ==> Get(r.tag.attributes, other) == Get(f.tag.attributes, other)
    ensures r.items == f.items
  {
    f.(tag := AddAttribute(f.tag, ActionAttribute, Scalar(Str(action))))
  }

  /** `getIterableElements` as written: the result of `array_merge` is
      dropped and the empty array it started from is returned. */
  function IterableElementsAsWritten(f: Form): (r: OMap<Key, FormItem>)
    ensures |r| == 0
  {
    var elements: OMap<Key, FormItem> := [];
    var merged := Renumber(elements + f.items, 0);
    elements
  }

  /** `getIterableElements` as intended: `array_merge([], $formItems)`, the
      items in order with integer keys renumbered from 0 and aliases kept. */
  function IterableElements(f: Form): (r: OMap<Key, FormItem>)
    ensures ValuesOf(r) == ValuesOf(f.items)
    ensures forall i :: 0 <= i < |r| && f.items[i].0.StrKey? ==> r[i].0 == f.items[i].0
    ensures forall i :: 0 <= i < |r| ==> (r[i].0.IntKey? <==> f.items[i].0.IntKey?)
    ensures forall i :: 0 <= i < |r| && f.items[i].0.IntKey? ==> r[i].0 == IntKey(IntKeyCount(f.items[..i]))
  {
    Renumber(f.items, 0)
  }

  /** The renumbered keys stay distinct. */
  lemma IterableElementsUnique(f: Form)
    requires UniqueKeys(f.items)
    ensures UniqueKeys(IterableElements(f))
  {
    RenumberUnique(f.items, 0);
  }

  /** As written, a form with items hands none of them out. */
  lemma IterableElementsLost(f: Form)
    requires |f.items| > 0
    ensures |IterableElementsAsWritten(f)| == 0 < |IterableElements(f)|
  {
  }
}
