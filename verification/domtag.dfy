/** The DOM tag render engine every markup component extends: a template with
    `{attributes}` and `{content}` placeholders, an ordered attribute map,
    the empty-content suppression rule, the class and template-data helpers,
    and the choice between the built-in renderer and an external view. */
module DomTag {
  import opened Php
  import opened Results
  import opened Strings
  import opened OrderedMaps

  /** An attribute value: a scalar (or null), or a list whose entries are
      joined by single spaces when rendered. */
  datatype AttrValue = Scalar(v: Value) | List(items: seq<Value>)

  /** A value handed to a view: a scalar, a (nested) array, or an object.
      An object is seen through its DomTag state, when it is a tag, and its
      own properties by name. */
  datatype Datum =
    | DValue(v: Value)
    | DArray(entries: seq<(Key, Datum)>)
    | DObject(tag: Option<Tag>, properties: seq<(string, Datum)>)

  /** The external view engine: which view paths exist, which dotted paths
      name a directory under the views root, and what a view renders to for
      the data it is given. */
  datatype Views = Views(
    present: string -> bool,
    folder: string -> bool,
    render: (string, OMap<Key, Datum>) -> string)

  /** The per-class defaults a DomTag subclass declares. */
  datatype TagClass = TagClass(
    tagName: Option<string>,
    template: Option<string>,
    isContainer: bool,
    forceContent: bool,
    printIfEmpty: Value)

  /** A constructed tag: its template is always a string once built. */
  datatype Tag = Tag(
    tagName: Option<string>,
    template: string,
    attributes: OMap<string, AttrValue>,
    isContainer: bool,
    forceContent: bool,
    printIfEmpty: Value,
    templateData: OMap<Key, Datum>,
    templateDirectory: Option<string>,
    templateFileName: Option<string>)

  const TagNamePlaceholder := "{tagname}"
  const AttributesPlaceholder := "{attributes}"
  const ContentPlaceholder := "{content}"
  /** `<{tagname}{attributes}>{content}</{tagname}>`, nested to the right. */
  const ContainerPrototype := "<" + ("{tagname}" + ("{attributes}" + (">" + ("{content}" + ("</" + ("{tagname}" + ">"))))))
  /** `<{tagname}{attributes}/>`. */
  const NonContainerPrototype := "<" + ("{tagname}" + ("{attributes}" + "/>"))
  const ClassAttribute := "class"

  /** PHP's `empty()` on an optional string property. */
  predicate EmptyName(n: Option<string>)
  {
    n.None? || IsEmptyString(n.value)
  }

  /** `buildDomTemplate`: an explicit template is kept; otherwise the
      prototype for the container flag gets the tag name substituted. */
  function BuildTemplate(c: TagClass): (r: Result<string>)
    ensures c.template.Some? ==> r == Success(c.template.value)
    ensures c.template.None? ==> (r.Failure? <==> EmptyName(c.tagName))
    ensures r.Failure? ==> r.error == MissingTagName
  {
    if c.template.Some? then Success(c.template.value)
    else if EmptyName(c.tagName) then Failure(MissingTagName)
    else
      var prototype := if c.isContainer then ContainerPrototype else NonContainerPrototype;
      Success(ReplaceAll(prototype, TagNamePlaceholder, c.tagName.value))
  }

  /** The constructor: a tag with the class defaults, no attributes, no
      template data and no view configuration. */
  function Construct(c: TagClass): (r: Result<Tag>)
    ensures r.Success? <==> BuildTemplate(c).Success?
    ensures r.Success? ==> r.value.template == BuildTemplate(c).value
    ensures r.Success? ==> r.value.attributes == [] && r.value.templateData == []
    ensures r.Success? ==> r.value.templateFileName.None? && r.value.templateDirectory.None?
    ensures r.Success? ==> r.value.tagName == c.tagName && r.value.isContainer == c.isContainer
    ensures r.Success? ==> r.value.forceContent == c.forceContent && r.value.printIfEmpty == c.printIfEmpty
  {
    var template :- BuildTemplate(c);
    Success(Tag(c.tagName, template, [], c.isContainer, c.forceContent, c.printIfEmpty, [], None, None))
  }

  /** A tag constructed from class `c` whose attributes and template data may
      have changed since. */
  predicate Built(t: Tag, c: TagClass)
  {
    Construct(c).Success? && t.(attributes := [], templateData := []) == Construct(c).value
  }

  /** A class with only a tag name and the two flags, as most subclasses are. */
  function NamedClass(name: string, isContainer: bool, printIfEmpty: Value): TagClass
  {
    TagClass(Some(name), None, isContainer, false, printIfEmpty)
  }

  /** `<n` + `a` + `>` + `c` + `</n>`: a container element. */
  function ContainerMarkup(n: string, a: string, c: string): string
  {
    "<" + (n + (a + (">" + (c + ("</" + (n + ">"))))))
  }

  /** `<n` + `a` + `/>`: a self-closing element. */
  function SelfClosingMarkup(n: string, a: string): string
  {
    "<" + (n + (a + "/>"))
  }

  lemma ContainerPrototypeSubstituted(n: string)
    ensures ReplaceAll(ContainerPrototype, TagNamePlaceholder, n) == ContainerMarkup(n, AttributesPlaceholder, ContentPlaceholder)
  {
    var e := ">";
    var d := "{tagname}" + e;
    var c := "</" + d;
    var b := "{content}" + c;
    var a := ">" + b;
    var y := "{attributes}" + a;
    var p := TagNamePlaceholder;
    calc {
      ReplaceAll(ContainerPrototype, p, n);
      == { ReplaceAllFreePrefix("<", "{tagname}" + y, p, n); }
      "<" + ReplaceAll("{tagname}" + y, p, n);
      == { ReplaceAllLeading(y, p, n); }
      "<" + (n + ReplaceAll(y, p, n));
      == { ReplaceAllPassWord("{attributes}", a, p, n); }
      "<" + (n + ("{attributes}" + ReplaceAll(a, p, n)));
      == { ReplaceAllFreePrefix(">", b, p, n); }
      "<" + (n + ("{attributes}" + (">" + ReplaceAll(b, p, n))));
      == { ReplaceAllPassWord("{content}", c, p, n); }
      "<" + (n + ("{attributes}" + (">" + ("{content}" + ReplaceAll(c, p, n)))));
      == { ReplaceAllFreePrefix("</", d, p, n); }
      "<" + (n + ("{attributes}" + (">" + ("{content}" + ("</" + ReplaceAll(d, p, n))))));
      == { ReplaceAllLeading(e, p, n); ReplaceAllShort(e, p, n); }
      "<" + (n + ("{attributes}" + (">" + ("{content}" + ("</" + (n + e))))));
    }
  }

  lemma NonContainerPrototypeSubstituted(n: string)
    ensures ReplaceAll(NonContainerPrototype, TagNamePlaceholder, n) == SelfClosingMarkup(n, AttributesPlaceholder)
  {
    var a := "/>";
    var y := "{attributes}" + a;
    ReplaceAllFreePrefix("<", "{tagname}" + y, TagNamePlaceholder, n);
    ReplaceAllLeading(y, TagNamePlaceholder, n);
    ReplaceAllPassWord("{attributes}", a, TagNamePlaceholder, n);
    ReplaceAllShort(a, TagNamePlaceholder, n);
  }

  /** Without an explicit template, a container gets `<T{attributes}>{content}</T>`
      and a non-container `<T{attributes}/>`, for the tag name `T`. */
  lemma DefaultTemplates(c: TagClass)
    requires c.template.None? && !EmptyName(c.tagName)
    ensures c.isContainer ==>
              BuildTemplate(c) == Success(ContainerMarkup(c.tagName.value, AttributesPlaceholder, ContentPlaceholder))
    ensures !c.isContainer ==>
              BuildTemplate(c) == Success(SelfClosingMarkup(c.tagName.value, AttributesPlaceholder))
  {
    ContainerPrototypeSubstituted(c.tagName.value);
    NonContainerPrototypeSubstituted(c.tagName.value);
  }

  // ---------------------------------------------------------------------
  // Attribute serialisation

  /** The string forms of a list's entries, as `implode` converts them. */
  function Texts(items: seq<Value>): (r: seq<string>)
    ensures |r| == |items|
    ensures forall i :: 0 <= i < |items| ==> r[i] == ToStr(items[i])
  {
    if |items| == 0 then [] else [ToStr(items[0])] + Texts(items[1..])
  }

  /** The text an attribute value renders as; null is rejected. */
  function ValueText(v: AttrValue): (r: Result<string>)
    ensures r.Failure? <==> v == Scalar(Null)
    ensures r.Failure? ==> r.error == UnsupportedAttributeType("NULL")
    ensures v.Scalar? && r.Success? ==> r.value == ToStr(v.v)
    ensures v.List? ==> r == Success(Join(" ", Texts(v.items)))
  {
    match v
    case Scalar(Null) => Failure(UnsupportedAttributeType("NULL"))
    case Scalar(x) => Success(ToStr(x))
    case List(items) => Success(Join(" ", Texts(items)))
  }

  /** `name="value"`, without escaping. */
  function Pair(name: string, text: string): string
  {
    name + "=\"" + text + "\""
  }

  predicate HasNullAttribute(attrs: OMap<string, AttrValue>)
  {
    exists i :: 0 <= i < |attrs| && attrs[i].1 == Scalar(Null)
  }

  /** The `name="value"` pairs in insertion order; the first null value aborts. */
  function Pairs(attrs: OMap<string, AttrValue>): (r: Result<seq<string>>)
    ensures r.Failure? <==> HasNullAttribute(attrs)
    ensures r.Failure? ==> r.error == UnsupportedAttributeType("NULL")
    ensures r.Success? ==> |r.value| == |attrs|
    ensures r.Success? ==> forall i :: 0 <= i < |attrs| ==>
              ValueText(attrs[i].1).Success? && r.value[i] == Pair(attrs[i].0, ValueText(attrs[i].1).value)
  {
    if |attrs| == 0 then Success([])
    else
      HasNullTail(attrs);
      var text :- ValueText(attrs[0].1);
      var rest :- Pairs(attrs[1..]);
      var r := [Pair(attrs[0].0, text)] + rest;
      assert forall i :: 1 <= i < |attrs| ==> r[i] == rest[i - 1] && attrs[i] == attrs[1..][i - 1];
      Success(r)
  }

  lemma HasNullTail(attrs: OMap<string, AttrValue>)
    requires |attrs| > 0
    ensures HasNullAttribute(attrs) <==> attrs[0].1 == Scalar(Null) || HasNullAttribute(attrs[1..])
  {
    if HasNullAttribute(attrs) && attrs[0].1 != Scalar(Null) {
      var i :| 0 <= i < |attrs| && attrs[i].1 == Scalar(Null);
      assert attrs[1..][i - 1] == attrs[i];
    }
    if HasNullAttribute(attrs[1..]) {
      var i :| 0 <= i < |attrs| - 1 && attrs[1..][i].1 == Scalar(Null);
      assert attrs[i + 1] == attrs[1..][i];
    }
  }

  /** `replaceDomPropertiesPlaceholders`: the pairs joined by single spaces. */
  function AttributeString(attrs: OMap<string, AttrValue>): (r: Result<string>)
    ensures r.Failure? <==> HasNullAttribute(attrs)
  {
    var pairs :- Pairs(attrs);
    Success(Join(" ", pairs))
  }

  /** What replaces `{attributes}`: the attribute string with one leading
      space, or nothing when it is empty. */
  function AttrPart(attrs: OMap<string, AttrValue>): (r: Result<string>)
    ensures r.Failure? <==> HasNullAttribute(attrs)
    ensures r.Success? && |attrs| == 0 ==> r.value == ""
    ensures r.Success? && |attrs| > 0 ==> r.value == " " + AttributeString(attrs).value
  {
    var s :- AttributeString(attrs);
    AttributeStringNotEmpty(attrs);
    if IsEmptyString(s) then Success("") else Success(" " + s)
  }

  /** A non-empty attribute map never serialises to `""` or `"0"`: every
      pair holds `="`. */
  lemma AttributeStringNotEmpty(attrs: OMap<string, AttrValue>)
    ensures AttributeString(attrs).Success? && |attrs| > 0 ==> !IsEmptyString(AttributeString(attrs).value)
    ensures AttributeString(attrs).Success? && |attrs| == 0 ==> AttributeString(attrs).value == ""
  {
    if AttributeString(attrs).Success? && |attrs| > 0 {
      JoinFirst(" ", Pairs(attrs).value);
      assert |Pairs(attrs).value[0]| >= 3;
    }
  }

  /** `shouldPrintIfNoContentMarkup`: only a boolean `true` prints an empty node. */
  predicate ShouldPrint(printIfEmpty: Value)
  {
    printIfEmpty == Bool(true)
  }

  /** `getPrintable`. `content` is what the class's content hook yields; it is
      consulted only for containers and tags that force content. */
  function Printable(t: Tag, content: Result<string>): (r: Result<string>)
    ensures IsEmptyString(t.template) ==> r == Failure(NoTemplate)
    ensures !IsEmptyString(t.template) && HasNullAttribute(t.attributes) ==>
              r == Failure(UnsupportedAttributeType("NULL"))
    ensures !(t.isContainer || t.forceContent) && !ShouldPrint(t.printIfEmpty) && r.Success? ==>
              r.value == ""
    ensures (t.isContainer || t.forceContent) && content.Failure? && r.Success? ==>
              IsEmptyString(t.template) || HasNullAttribute(t.attributes)
  {
    if IsEmptyString(t.template) then Failure(NoTemplate)
    else
      var attrs :- AttrPart(t.attributes);
      var markup := ReplaceAll(t.template, AttributesPlaceholder, attrs);
      if t.isContainer || t.forceContent then
        var c :- content;
        if IsEmptyString(c) && !ShouldPrint(t.printIfEmpty) then Success("")
        else Success(ReplaceAll(markup, ContentPlaceholder, c))
      else if !ShouldPrint(t.printIfEmpty) then Success("")
      else Success(ReplaceAll(markup, ContentPlaceholder, ""))
  }

  /** The content hook of a non-container that does not force content is
      never consulted. */
  lemma ContentNotConsulted(t: Tag, c1: Result<string>, c2: Result<string>)
    requires !t.isContainer && !t.forceContent
    ensures Printable(t, c1) == Printable(t, c2)
  {
  }

  /** Empty content (`""` or `"0"`) suppresses the whole node unless
      `printIfEmpty` is the boolean `true`. */
  lemma EmptyContentSuppressed(t: Tag, c: string)
    requires !IsEmptyString(t.template) && !HasNullAttribute(t.attributes)
    requires IsEmptyString(c) && !ShouldPrint(t.printIfEmpty)
    ensures Printable(t, Success(c)) == Success("")
  {
  }

  /** With no attributes and no content, a container is its two tags. */
  lemma EmptyElement(n: string)
    ensures ContainerMarkup(n, ReplaceAll("", ContentPlaceholder, ""), "") == "<" + n + "></" + n + ">"
  {
    ReplaceAllShort("", ContentPlaceholder, "");
    assert "<" + (n + ("" + (">" + ("" + ("</" + (n + ">")))))) == "<" + n + "></" + n + ">";
  }

  /** Substituting `{attributes}` into the default container template of a
      tag name without braces. */
  lemma AttributesFilled(n: string, a: string)
    requires '{' !in n
    ensures ReplaceAll(ContainerMarkup(n, AttributesPlaceholder, ContentPlaceholder), AttributesPlaceholder, a)
            == ContainerMarkup(n, a, ContentPlaceholder)
  {
    var p := AttributesPlaceholder;
    var e := n + ">";
    var d := "</" + e;
    var c := "{content}" + d;
    var b := ">" + c;
    ReplaceAllFreePrefix("<", n + (p + b), p, a);
    ReplaceAllFreePrefix(n, p + b, p, a);
    ReplaceAllLeading(b, p, a);
    ReplaceAllFreePrefix(">", c, p, a);
    ReplaceAllPassWord("{content}", d, p, a);
    ReplaceAllFreePrefix("</", e, p, a);
    ReplaceAllFreePrefix(n, ">", p, a);
    ReplaceAllShort(">", p, a);
  }

  /** Substituting `{content}` next: an attribute text mentioning `{content}`
      is substituted as well. */
  lemma ContentFilled(n: string, a: string, c: string)
    requires '{' !in n
    ensures ReplaceAll(ContainerMarkup(n, a, ContentPlaceholder), ContentPlaceholder, c)
            == ContainerMarkup(n, ReplaceAll(a, ContentPlaceholder, c), c)
  {
    var p := ContentPlaceholder;
    var e := n + ">";
    var d := "</" + e;
    var b := p + d;
    var ra := ReplaceAll(a, p, c);
    calc {
      ReplaceAll(ContainerMarkup(n, a, p), p, c);
      == { assert ContainerMarkup(n, a, p) == "<" + (n + (a + (">" + b))); }
      ReplaceAll("<" + (n + (a + (">" + b))), p, c);
      == { ReplaceAllFreePrefix("<", n + (a + (">" + b)), p, c); }
      "<" + ReplaceAll(n + (a + (">" + b)), p, c);
      == { ReplaceAllFreePrefix(n, a + (">" + b), p, c); }
      "<" + (n + ReplaceAll(a + (">" + b), p, c));
      == { assert a + (">" + b) == a + ['>'] + b; ReplaceAllSplit(a, '>', b, p, c); }
      "<" + (n + (ra + ['>'] + ReplaceAll(b, p, c)));
      == { ReplaceAllLeading(d, p, c); }
      "<" + (n + (ra + ['>'] + (c + ReplaceAll(d, p, c))));
      == { ReplaceAllFreePrefix("</", e, p, c); ReplaceAllFreePrefix(n, ">", p, c); ReplaceAllShort(">", p, c); }
      "<" + (n + (ra + ['>'] + (c + d)));
      == { assert ra + ['>'] + (c + d) == ra + (">" + (c + d)); }
      ContainerMarkup(n, ra, c);
    }
  }

  /** Substituting into the default self-closing template; the content of a
      non-container is always empty. */
  lemma SelfClosingFilled(n: string, a: string)
    requires '{' !in n
    ensures ReplaceAll(ReplaceAll(SelfClosingMarkup(n, AttributesPlaceholder), AttributesPlaceholder, a), ContentPlaceholder, "")
            == SelfClosingMarkup(n, ReplaceAll(a, ContentPlaceholder, ""))
  {
    var pa := AttributesPlaceholder;
    var pc := ContentPlaceholder;
    ReplaceAllFreePrefix("<", n + (pa + "/>"), pa, a);
    ReplaceAllFreePrefix(n, pa + "/>", pa, a);
    ReplaceAllLeading("/>", pa, a);
    ReplaceAllShort("/>", pa, a);
    ReplaceAllFreePrefix("<", n + (a + "/>"), pc, "");
    ReplaceAllFreePrefix(n, a + "/>", pc, "");
    assert a + "/>" == a + ['/'] + ">";
    ReplaceAllSplit(a, '/', ">", pc, "");
    ReplaceAllShort(">", pc, "");
    var ra := ReplaceAll(a, pc, "");
    assert ra + ['/'] + ">" == ra + "/>";
  }

  /** A constructed container renders `<T` + attributes + `>` + content + `</T>`;
      an attribute value mentioning `{content}` is substituted as well. */
  lemma DefaultContainerRender(c: TagClass, t: Tag, content: string, a: string)
    requires c.template.None? && c.isContainer && Built(t, c)
    requires '{' !in c.tagName.value
    requires AttrPart(t.attributes) == Success(a)
    requires !IsEmptyString(content) || ShouldPrint(t.printIfEmpty)
    ensures Printable(t, Success(content))
            == Success(ContainerMarkup(c.tagName.value, ReplaceAll(a, ContentPlaceholder, content), content))
  {
    DefaultTemplates(c);
    AttributesFilled(c.tagName.value, a);
    ContentFilled(c.tagName.value, a, content);
  }

  /** A constructed non-container renders `<T` + attributes + `/>` when it
      prints at all, and `''` when `printIfEmpty` is not `true`. */
  lemma DefaultNonContainerRender(c: TagClass, t: Tag, a: string, content: Result<string>)
    requires c.template.None? && !c.isContainer && !c.forceContent && Built(t, c)
    requires '{' !in c.tagName.value
    requires AttrPart(t.attributes) == Success(a)
    ensures ShouldPrint(t.printIfEmpty) ==>
              Printable(t, content) == Success(SelfClosingMarkup(c.tagName.value, ReplaceAll(a, ContentPlaceholder, "")))
    ensures !ShouldPrint(t.printIfEmpty) ==> Printable(t, content) == Success("")
  {
    DefaultTemplates(c);
    SelfClosingFilled(c.tagName.value, a);
  }

  // ---------------------------------------------------------------------
  // Stringification

  /** `getTemplateName`: the template file name, or else the tag name; a tag
      with neither fails the `string` return type. */
  function TemplateName(t: Tag): (r: Result<string>)
    ensures r.Failure? <==> t.templateFileName.None? && t.tagName.None?
    ensures r.Success? && t.templateFileName.Some? ==> r.value == t.templateFileName.value
    ensures r.Success? && t.templateFileName.None? ==> r.value == t.tagName.value
  {
    if t.templateFileName.Some? then Success(t.templateFileName.value)
    else if t.tagName.Some? then Success(t.tagName.value)
    else Failure(TypeError("getTemplateName"))
  }

  /** `getViewFilePath`: directory, a dot, then the template name. */
  function ViewFilePath(t: Tag): (r: Result<string>)
    ensures r.Failure? <==> TemplateName(t).Failure?
    ensures r.Success? ==> r.value == t.templateDirectory.GetOr("") + "." + TemplateName(t).value
  {
    var name :- TemplateName(t);
    Success(t.templateDirectory.GetOr("") + "." + name)
  }

  /** The data a view receives: the tag's template data, with the object
      being printed (`$this`) stored under the camel-cased tag name. */
  function ViewData(t: Tag, self: Datum): (r: OMap<Key, Datum>)
    ensures Get(r, StrKey(CamelCase(t.tagName.GetOr("")))) == Some(self)
    ensures forall k :: k != StrKey(CamelCase(t.tagName.GetOr(""))) ==> Get(r, k) == Get(t.templateData, k)
  {
    var key := StrKey(CamelCase(t.tagName.GetOr("")));
    PutGet(t.templateData, key, self, key);
    assert forall k :: k != key ==> Get(Put(t.templateData, key, self), k) == Get(t.templateData, k) by {
      forall k | k != key ensures Get(Put(t.templateData, key, self), k) == Get(t.templateData, k) {
        PutGet(t.templateData, key, self, k);
      }
    }
    Put(t.templateData, key, self)
  }

  /** Whether `__toString` hands the tag to the view engine: a template file
      name is set, or a directory is set and the view it names exists. */
  predicate UsesView(t: Tag, views: Views)
  {
    ViewFilePath(t).Success? &&
    (!EmptyName(t.templateFileName) || (!EmptyName(t.templateDirectory) && views.present(ViewFilePath(t).value)))
  }

  /** `__toString` of the object `self`, whose DomTag state is `t`: the
      built-in rendering `printable`, unless a template file name is set, or
      a directory is set and the view for it exists. */
  function ToString(t: Tag, self: Datum, printable: Result<string>, views: Views): (r: Result<string>)
  {
    var path :- ViewFilePath(t);
    // A directory without an existing view is dropped before the test.
    var directory := if EmptyName(t.templateFileName) && !views.present(path) then None else t.templateDirectory;
    if EmptyName(directory) && EmptyName(t.templateFileName) then printable
    else if views.present(path) then Success(views.render(path, ViewData(t, self)))
    else Failure(ViewNotFound(path))
  }

  /** Stringifying either renders the view, with the object in its data, or
      is the built-in rendering; which one is decided by `UsesView`. */
  lemma ToStringChoice(t: Tag, self: Datum, printable: Result<string>, views: Views)
    requires ViewFilePath(t).Success?
    ensures UsesView(t, views) && views.present(ViewFilePath(t).value) ==>
              ToString(t, self, printable, views) == Success(views.render(ViewFilePath(t).value, ViewData(t, self)))
    ensures UsesView(t, views) && !views.present(ViewFilePath(t).value) ==>
              ToString(t, self, printable, views) == Failure(ViewNotFound(ViewFilePath(t).value))
    ensures !UsesView(t, views) ==> ToString(t, self, printable, views) == printable
  {
  }

  /** With no template directory and no template file name, stringifying is
      exactly the built-in rendering, provided the tag has a name. */
  lemma PlainToString(t: Tag, self: Datum, printable: Result<string>, views: Views)
    requires EmptyName(t.templateDirectory) && EmptyName(t.templateFileName)
    ensures t.tagName.Some? ==> ToString(t, self, printable, views) == printable
    ensures t.tagName.None? && t.templateFileName.None? ==> ToString(t, self, printable, views).Failure?
  {
  }

  /** Casting a tag to string: `__toString` over the tag's own `getPrintable`,
      whose content hook yields `content`. */
  function Render(t: Tag, self: Datum, content: Result<string>, views: Views): Result<string>
  {
    ToString(t, self, Printable(t, content), views)
  }

  /** A constructed tag carries no view configuration, so casting it to
      string is its built-in rendering whatever views exist. */
  lemma BuiltRendersPlain(t: Tag, c: TagClass, self: Datum, content: Result<string>, views: Views)
    requires Built(t, c) && c.tagName.Some?
    ensures Render(t, self, content, views) == Printable(t, content)
  {
    PlainToString(t, self, Printable(t, content), views);
  }

  /** A container class with only a name renders `<name` + attributes + `>`
      + content + `</name>`, whatever the content. */
  lemma NamedContainerRenders(name: string, t: Tag, self: Datum, content: string, a: string, views: Views)
    requires '{' !in name && Built(t, NamedClass(name, true, Bool(true)))
    requires AttrPart(t.attributes) == Success(a)
    ensures Render(t, self, Success(content), views)
            == Success(ContainerMarkup(name, ReplaceAll(a, ContentPlaceholder, content), content))
  {
    var c := NamedClass(name, true, Bool(true));
    DefaultContainerRender(c, t, content, a);
    BuiltRendersPlain(t, c, self, Success(content), views);
  }

  /** Casting each child to string in order, as `array_map` with a string
      cast does; the first failing child aborts. */
  function RenderEach<T>(children: seq<T>, render: T -> Result<string>): (r: Result<seq<string>>)
    ensures r.Success? <==> forall i :: 0 <= i < |children| ==> render(children[i]).Success?
    ensures r.Success? ==> |r.value| == |children|
    ensures r.Success? ==> forall i :: 0 <= i < |children| ==> r.value[i] == render(children[i]).value
    ensures r.Failure? ==> exists i :: 0 <= i < |children| && render(children[i]) == Failure(r.error) &&
                                       forall j :: 0 <= j < i ==> render(children[j]).Success?
    decreases |children|
  {
    if |children| == 0 then Success([])
    else
      var first :- render(children[0]);
      var rest :- RenderEach(children[1..], render);
      var r := [first] + rest;
      assert forall i :: 1 <= i < |children| ==> r[i] == rest[i - 1] && children[i] == children[1..][i - 1];
      Success(r)
  }

  /** Rendering one more child appends its string. */
  lemma {:induction false} RenderEachAppend<T>(children: seq<T>, last: T, render: T -> Result<string>)
    requires RenderEach(children, render).Success? && render(last).Success?
    ensures RenderEach(children + [last], render) == Success(RenderEach(children, render).value + [render(last).value])
  {
    var all := children + [last];
    assert forall i :: 0 <= i < |all| ==> render(all[i]).Success? by {
      forall i | 0 <= i < |all| ensures render(all[i]).Success? {
        if i < |children| { assert all[i] == children[i]; }
      }
    }
    var r := RenderEach(all, render).value;
    var expected := RenderEach(children, render).value + [render(last).value];
    assert |r| == |expected|;
    forall i | 0 <= i < |r| ensures r[i] == expected[i] {
      if i < |children| { assert all[i] == children[i]; }
    }
    assert r == expected;
  }

  /** Rendering one more child in front prepends its string. */
  lemma RenderEachPrepend<T>(first: T, children: seq<T>, render: T -> Result<string>)
    requires RenderEach(children, render).Success? && render(first).Success?
    ensures RenderEach([first] + children, render) == Success([render(first).value] + RenderEach(children, render).value)
  {
    assert ([first] + children)[1..] == children;
  }

  /** A template file name always sends the tag to the view engine, under
      `directory . '.' . fileName`, with the object in the data; a view that
      does not exist fails. */
  lemma FileNameToString(t: Tag, self: Datum, printable: Result<string>, views: Views)
    requires !EmptyName(t.templateFileName)
    ensures var path := t.templateDirectory.GetOr("") + "." + t.templateFileName.value;
            && (views.present(path) ==> ToString(t, self, printable, views) == Success(views.render(path, ViewData(t, self))))
            && (!views.present(path) ==> ToString(t, self, printable, views) == Failure(ViewNotFound(path)))
  {
  }

  /** With a directory and no file name, an existing view `directory.tagName`
      is rendered with the object in its data, and a missing one falls back
      to the built-in rendering. */
  lemma DirectoryToString(t: Tag, self: Datum, printable: Result<string>, views: Views)
    requires !EmptyName(t.templateDirectory) && t.templateFileName.None? && t.tagName.Some?
    ensures views.present(t.templateDirectory.value + "." + t.tagName.value) ==>
              ToString(t, self, printable, views)
              == Success(views.render(t.templateDirectory.value + "." + t.tagName.value, ViewData(t, self)))
    ensures !views.present(t.templateDirectory.value + "." + t.tagName.value) ==>
              ToString(t, self, printable, views) == printable
  {
  }

  /** `setTemplateDirectory`: the directory must exist under the views root
      (`requireExistingResourcePath`); otherwise an exception is thrown and
      the tag is left as it was. */
  function SetTemplateDirectory(t: Tag, directory: string, views: Views): (r: Result<Tag>)
    ensures r.Success? <==> views.folder(directory)
    ensures r.Failure? ==> r.error == MissingViewDirectory
    ensures r.Success? ==> r.value.templateDirectory == Some(directory)
    ensures r.Success? ==> r.value.(templateDirectory := t.templateDirectory) == t
  {
    if views.folder(directory) then Success(t.(templateDirectory := Some(directory)))
    else Failure(MissingViewDirectory)
  }

  /** A constructed tag given a non-empty directory prints through the view
      `directory.tagName` when it exists, and as before when it does not. */
  lemma DirectoryChoosesView(t: Tag, c: TagClass, directory: string, self: Datum, printable: Result<string>, views: Views)
    requires Built(t, c) && c.tagName.Some? && !IsEmptyString(directory)
    requires SetTemplateDirectory(t, directory, views).Success?
    ensures var d := SetTemplateDirectory(t, directory, views).value;
            var path := directory + "." + c.tagName.value;
            && (views.present(path) ==> ToString(d, self, printable, views) == Success(views.render(path, ViewData(d, self))))
            && (!views.present(path) ==> ToString(d, self, printable, views) == printable)
  {
    var d := SetTemplateDirectory(t, directory, views).value;
    DirectoryToString(d, self, printable, views);
  }

  /** `setTemplateFileName`. */
  function SetTemplateFileName(t: Tag, path: string): (r: Tag)
    ensures r.templateFileName == Some(path)
    ensures r.(templateFileName := t.templateFileName) == t
  {
    t.(templateFileName := Some(path))
  }

  // ---------------------------------------------------------------------
  // Attribute helpers

  /** `addAttribute`: overwrite in place or append at the end. */
  function AddAttribute(t: Tag, name: string, v: AttrValue): (r: Tag)
    ensures r.(attributes := t.attributes) == t
    ensures Get(r.attributes, name) == Some(v)
    ensures forall other :: other != name ==> Get(r.attributes, other) == Get(t.attributes, other)
    ensures HasKey(t.attributes, name) ==> KeysOf(r.attributes) == KeysOf(t.attributes)
    ensures !HasKey(t.attributes, name) ==> r.attributes == t.attributes + [(name, v)]
  {
    PutGetAll(t.attributes, name, v);
    PutKeys(t.attributes, name, v);
    t.(attributes := Put(t.attributes, name, v))
  }

  /** PHP's `isset($attributes[$name])`: present with a non-null value. */
  predicate IsSet(t: Tag, name: string)
  {
    var found := Get(t.attributes, name);
    found.Some? && found.value != Scalar(Null)
  }

  /** `getAttribute`: the stored value, or the default when it is missing or null. */
  function GetAttribute(t: Tag, name: string, default: AttrValue): (r: AttrValue)
    ensures IsSet(t, name) ==> Some(r) == Get(t.attributes, name)
    ensures !IsSet(t, name) ==> r == default
  {
    if IsSet(t, name) then Get(t.attributes, name).value else default
  }

  /** Reading back an attribute: the value written, unless null was written. */
  lemma GetAfterAdd(t: Tag, name: string, v: AttrValue, default: AttrValue)
    ensures v != Scalar(Null) ==> GetAttribute(AddAttribute(t, name, v), name, default) == v
    ensures v == Scalar(Null) ==> GetAttribute(AddAttribute(t, name, v), name, default) == default
  {
  }

  /** `removeAttribute`: deletes the key only when it is set; a null-valued
      attribute stays in place. */
  function RemoveAttribute(t: Tag, name: string): (r: Tag)
    ensures r.(attributes := t.attributes) == t
    ensures IsSet(t, name) ==> !HasKey(r.attributes, name)
    ensures !IsSet(t, name) ==> r == t
    ensures forall other :: other != name ==> Get(r.attributes, other) == Get(t.attributes, other)
  {
    if IsSet(t, name) then
      var r := t.(attributes := Remove(t.attributes, name));
      assert forall other :: other != name ==> Get(r.attributes, other) == Get(t.attributes, other) by {
        forall other | other != name
          ensures Get(r.attributes, other) == Get(t.attributes, other)
        {
          RemoveGet(t.attributes, name, other);
        }
      }
      r
    else t
  }

  /** The entries of the class list, or the empty list when `class` is unset. */
  function ClassList(t: Tag): (r: Option<seq<Value>>)
    ensures !IsSet(t, ClassAttribute) ==> r == Some([])
    ensures IsSet(t, ClassAttribute) ==> (r.Some? <==> Get(t.attributes, ClassAttribute).value.List?)
  {
    if !IsSet(t, ClassAttribute) then Some([])
    else match Get(t.attributes, ClassAttribute).value
      case List(items) => Some(items)
      case Scalar(_) => None
  }

  /** `addClass`: creates the list when `class` is unset, then appends; a
      scalar `class` is left as it is (`array_push` on a non-array only warns). */
  function AddClass(t: Tag, cls: Value): (r: Tag)
    ensures ClassList(t).Some? ==> ClassList(r) == Some(ClassList(t).value + [cls])
    ensures ClassList(t).None? ==> r == t
    ensures forall other :: other != ClassAttribute ==> Get(r.attributes, other) == Get(t.attributes, other)
    ensures r.(attributes := t.attributes) == t
  {
    match ClassList(t)
    case Some(items) => AddAttribute(t, ClassAttribute, List(items + [cls]))
    case None => t
  }

  /** `addClasses`: `addClass` for each entry, in order. */
  function AddClasses(t: Tag, classes: seq<Value>): (r: Tag)
    ensures r.(attributes := t.attributes) == t
    decreases |classes|
  {
    if |classes| == 0 then t else AddClasses(AddClass(t, classes[0]), classes[1..])
  }

  /** Adding several classes appends them all to the class list, in order. */
  lemma {:induction false} AddClassesAppends(t: Tag, items: seq<Value>, classes: seq<Value>)
    requires ClassList(t) == Some(items)
    ensures ClassList(AddClasses(t, classes)) == Some(items + classes)
    decreases |classes|
  {
    if |classes| == 0 {
      assert items + classes == items;
    } else {
      var first := AddClass(t, classes[0]);
      assert AddClasses(t, classes) == AddClasses(first, classes[1..]);
      var items1 := items + [classes[0]];
      assert ClassList(first) == Some(items1);
      AddClassesAppends(first, items1, classes[1..]);
      AppendFirst(items, classes);
    }
  }

  /** A scalar `class` value is left as it is by `addClasses`. */
  lemma {:induction false} AddClassesKeepsScalar(t: Tag, classes: seq<Value>)
    requires ClassList(t).None?
    ensures AddClasses(t, classes) == t
    decreases |classes|
  {
    if |classes| > 0 {
      AddClassesKeepsScalar(AddClass(t, classes[0]), classes[1..]);
    }
  }

  /** Whether some entry of the class list loosely equals `cls`. */
  predicate HasLooseMatch(items: seq<Value>, cls: string)
  {
    exists j :: 0 <= j < |items| && LooseEquals(items[j], cls)
  }

  /** `array_search($cls, $items)`: the first position whose entry loosely
      equals `cls` (PHP's `==`, not `===`). */
  function FindClass(items: seq<Value>, cls: string): (r: Option<nat>)
    ensures r.Some? ==> r.value < |items| && LooseEquals(items[r.value], cls)
    ensures r.Some? ==> forall j :: 0 <= j < r.value ==> !LooseEquals(items[j], cls)
    ensures r.None? ==> forall j :: 0 <= j < |items| ==> !LooseEquals(items[j], cls)
  {
    if |items| == 0 then None
    else if LooseEquals(items[0], cls) then Some(0)
    else match FindClass(items[1..], cls)
      case Some(i) => Some(i + 1)
      case None => None
  }

  /** `removeClass`: drops the first entry loosely equal to `cls` from the
      class list. Unset `class` or no match changes nothing. A scalar
      `class` value makes `array_search` warn and yield null, and the
      following `unset` of an offset fails only on a string. */
  function RemoveClass(t: Tag, cls: string): (r: Result<Tag>)
    ensures !IsSet(t, ClassAttribute) ==> r == Success(t)
    ensures ClassList(t).Some? ==> r.Success?
    ensures ClassList(t).Some? && !HasLooseMatch(ClassList(t).value, cls) ==> r == Success(t)
    ensures ClassList(t).Some? && HasLooseMatch(ClassList(t).value, cls) ==>
              var items := ClassList(t).value;
              exists i :: 0 <= i < |items| && LooseEquals(items[i], cls) && !HasLooseMatch(items[..i], cls) &&
                ClassList(r.value) == Some(items[..i] + items[i + 1..])
    ensures ClassList(t).None? ==>
              (r.Success? <==> !Get(t.attributes, ClassAttribute).value.v.Str?)
    ensures ClassList(t).None? && r.Success? ==> r.value == t
    ensures r.Success? ==> forall other :: other != ClassAttribute ==> Get(r.value.attributes, other) == Get(t.attributes, other)
  {
    if !IsSet(t, ClassAttribute) then Success(t)
    else match Get(t.attributes, ClassAttribute).value
      case List(items) =>
        (match FindClass(items, cls)
         case None => Success(t)
         case Some(i) =>
           assert !HasLooseMatch(items[..i], cls);
           Success(AddAttribute(t, ClassAttribute, List(items[..i] + items[i + 1..]))))
      case Scalar(v) =>
        if v.Str? then Failure(UnsetScalarOffset) else Success(t)
  }

  /** For a class list of plain words and a class name that is not numeric,
      loose matching is identity: the first identical entry is removed. */
  lemma RemoveWordClass(t: Tag, cls: string)
    requires ClassList(t).Some? && !IsNumericString(cls)
    requires forall j :: 0 <= j < |ClassList(t).value| ==> ClassList(t).value[j].Str?
    ensures HasLooseMatch(ClassList(t).value, cls) <==> Str(cls) in ClassList(t).value
  {
    var items := ClassList(t).value;
    if Str(cls) in items {
      var j :| 0 <= j < |items| && items[j] == Str(cls);
      assert LooseEquals(items[j], cls);
    }
    if HasLooseMatch(items, cls) {
      var j :| 0 <= j < |items| && LooseEquals(items[j], cls);
      LooseEqualsText(items[j].s, cls);
    }
  }

  /** An emptied class list still renders as `class=""`. */
  lemma EmptiedClassRenders(t: Tag, cls: string)
    requires ClassList(t) == Some([Str(cls)])
    ensures RemoveClass(t, cls).Success?
    ensures Get(RemoveClass(t, cls).value.attributes, ClassAttribute) == Some(List([]))
    ensures ValueText(List([])) == Success("")
  {
    var items := [Str(cls)];
    assert IsSet(t, ClassAttribute);
    assert Get(t.attributes, ClassAttribute).value == List(items);
    assert LooseEquals(Str(cls), cls);
    assert FindClass(items, cls) == Some(0);
    assert items[..0] + items[1..] == [];
  }

  /** `setId`. */
  function SetId(t: Tag, id: string): (r: Tag)
    ensures GetId(r) == Scalar(Str(id))
    ensures forall other :: other != "id" ==> Get(r.attributes, other) == Get(t.attributes, other)
  {
    AddAttribute(t, "id", Scalar(Str(id)))
  }

  /** `getId`: the `id` attribute, or null. */
  function GetId(t: Tag): (r: AttrValue)
    ensures IsSet(t, "id") ==> Some(r) == Get(t.attributes, "id")
    ensures !IsSet(t, "id") ==> r == Scalar(Null)
  {
    GetAttribute(t, "id", Scalar(Null))
  }

  /** Appending a new attribute to a non-empty map appends its pair to the
      attribute string, after one space. */
  lemma AttributeStringAppend(attrs: OMap<string, AttrValue>, name: string, v: AttrValue)
    requires !HasKey(attrs, name) && !HasNullAttribute(attrs) && v != Scalar(Null)
    ensures !HasNullAttribute(Put(attrs, name, v))
    ensures |attrs| == 0 ==> AttributeString(Put(attrs, name, v)) == Success(Pair(name, ValueText(v).value))
    ensures |attrs| > 0 ==>
              AttributeString(Put(attrs, name, v)) == Success(AttributeString(attrs).value + " " + Pair(name, ValueText(v).value))
  {
    var r := Put(attrs, name, v);
    assert r == attrs + [(name, v)];
    assert !HasNullAttribute(r) by {
      forall i | 0 <= i < |r| ensures r[i].1 != Scalar(Null) {
        if i < |attrs| { assert r[i] == attrs[i]; }
      }
    }
    var ps := Pairs(attrs).value;
    var pr := Pairs(r).value;
    assert pr == ps + [Pair(name, ValueText(v).value)] by {
      forall i | 0 <= i < |pr| ensures pr[i] == (ps + [Pair(name, ValueText(v).value)])[i] {
        if i < |attrs| { assert r[i] == attrs[i]; }
      }
    }
    JoinAppend(" ", ps, Pair(name, ValueText(v).value));
  }

  // ---------------------------------------------------------------------
  // Template data

  /** The array key PHP derives from a value used as an offset; an array or
      an object is an illegal offset (a warning, and no assignment). Numeric
      strings are kept as string keys. */
  function KeyOf(d: Datum): (r: Option<Key>)
    ensures r.None? <==> !d.DValue?
  {
    match d
    case DArray(_) => None
    case DObject(_, _) => None
    case DValue(Null) => Some(StrKey(""))
    case DValue(Bool(b)) => Some(IntKey(if b then 1 else 0))
    case DValue(Int(i)) => Some(IntKey(i))
    case DValue(Str(s)) => Some(StrKey(s))
  }

  /** `addTemplateData(...$params)`. */
  function AddTemplateData(t: Tag, params: seq<Datum>): (r: Result<Tag>)
    ensures |params| == 0 ==> r == Failure(NoTemplateData)
    ensures r.Success? ==> r.value.(templateData := t.templateData) == t
    ensures |params| == 1 && params[0].DArray? ==>
              r == Success(t.(templateData := Union(t.templateData, params[0].entries)))
    ensures |params| == 2 && params[0].DValue? ==>
              r.Success? && Get(r.value.templateData, KeyOf(params[0]).value) == Some(params[1])
    ensures |params| == 2 && !params[0].DValue? ==> r == Success(t)
    ensures |params| == 1 && params[0].DValue? && params[0].v.Str? ==>
              r.Success? && Get(r.value.templateData, StrKey(params[0].v.s)) == Some(DValue(Null))
    ensures (|params| == 1 || |params| > 2) && !(params[0].DArray? && |params| == 1) && !(params[0].DValue? && params[0].v.Str?) ==>
              r == Failure(UnsupportedParameters)
  {
    if |params| == 0 then Failure(NoTemplateData)
    else if params[0].DArray? && |params| == 1 then
      Success(t.(templateData := Union(t.templateData, params[0].entries)))
    else
      var second := if |params| > 1 then params[1] else DValue(Null);
      if |params| == 2 || (params[0].DValue? && params[0].v.Str?) then
        Success(PutDatum(t, params[0], second))
      else Failure(UnsupportedParameters)
  }

  /** `$templateData[$key] = $value`; an array or object offset is illegal
      and only warns, leaving the data as it was. */
  function PutDatum(t: Tag, key: Datum, value: Datum): (r: Tag)
    ensures r.(templateData := t.templateData) == t
    ensures key.DValue? ==> Get(r.templateData, KeyOf(key).value) == Some(value)
    ensures !key.DValue? ==> r == t
  {
    match KeyOf(key)
    case Some(k) =>
      PutGet(t.templateData, k, value, k);
      t.(templateData := Put(t.templateData, k, value))
    case None => t
  }

  /** A single array argument is merged under the existing data: keys already
      present keep their values, new keys read from the argument. */
  lemma AddTemplateDataMerges(t: Tag, data: OMap<Key, Datum>, k: Key)
    ensures AddTemplateData(t, [DArray(data)]).Success?
    ensures HasKey(t.templateData, k) ==>
              Get(AddTemplateData(t, [DArray(data)]).value.templateData, k) == Get(t.templateData, k)
    ensures !HasKey(t.templateData, k) ==>
              Get(AddTemplateData(t, [DArray(data)]).value.templateData, k) == Get(data, k)
  {
    UnionGet(t.templateData, data, k);
  }
}
