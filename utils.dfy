/** The records the widget passes around (arguments, categories, action-menu
    entries) with their defaulting rules, the drag-and-drop identifier scheme,
    the responsive breakpoints, and the decoding of content parameters. */
module Utils {
  import opened Base

  // ---------------------------------------------------------------------
  // Records

  /** An argument (a statement the learner sorts). */
  datatype Argument = Argument(
    id: Option<int>,
    added: bool,
    argumentText: Option<string>,
    editMode: bool,
    prefix: string)

  /** `new ArgumentDataObject({...})`: every field not supplied (or supplied as
      null or undefined) takes its default. */
  function NewArgument(
    id: Option<int> := None,
    added: Option<bool> := None,
    argumentText: Option<string> := None,
    editMode: Option<bool> := None,
    prefix: Option<string> := None): Argument
  {
    Argument(id, added.GetOr(false), argumentText, editMode.GetOr(false), prefix.GetOr("argument"))
  }

  lemma NewArgumentDefaults()
    ensures NewArgument() == Argument(None, false, None, false, "argument")
  {
  }

  /** Each supplied field is kept, whichever of the others are supplied. */
  lemma NewArgumentKeepsSupplied(
    id: Option<int>, added: Option<bool>, text: Option<string>, editMode: Option<bool>, prefix: Option<string>)
    ensures var a := NewArgument(id, added, text, editMode, prefix);
      && a.id == id && a.argumentText == text
      && (added.Some? ==> a.added == added.value)
      && (editMode.Some? ==> a.editMode == editMode.value)
      && (prefix.Some? ==> a.prefix == prefix.value)
  {
  }

  /** A category: a titled bin, or one of the default lists that hold the
      arguments not yet sorted. `connectedArguments` is the ordered list of the
      ids of its arguments. */
  datatype Category = Category(
    id: Option<string>,
    title: Option<string>,
    connectedArguments: seq<int>,
    isArgumentDefaultList: bool,
    theme: string,
    useNoArgumentsPlaceholder: bool,
    prefix: string,
    actionTargetContainer: bool)

  const DefaultTheme := "h5p-category-task-category-default"

  /** `new CategoryDataObject({...})`. */
  function NewCategory(
    id: Option<string> := None,
    title: Option<string> := None,
    connectedArguments: Option<seq<int>> := None,
    isArgumentDefaultList: Option<bool> := None,
    theme: Option<string> := None,
    useNoArgumentsPlaceholder: Option<bool> := None,
    prefix: Option<string> := None,
    actionTargetContainer: Option<bool> := None): Category
  {
    Category(
      id, title, connectedArguments.GetOr([]), isArgumentDefaultList.GetOr(false),
      theme.GetOr(DefaultTheme), useNoArgumentsPlaceholder.GetOr(false),
      prefix.GetOr("category"), actionTargetContainer.GetOr(false))
  }

  lemma NewCategoryDefaults()
    ensures NewCategory() == Category(None, None, [], false, DefaultTheme, false, "category", false)
  {
  }

  /** Each supplied field is kept, whichever of the others are supplied. */
  lemma NewCategoryKeepsSupplied(
    id: Option<string>, title: Option<string>, ids: Option<seq<int>>, isDefault: Option<bool>,
    theme: Option<string>, placeholder: Option<bool>, prefix: Option<string>, target: Option<bool>)
    ensures var c := NewCategory(id, title, ids, isDefault, theme, placeholder, prefix, target);
      && c.id == id && c.title == title
      && (ids.Some? ==> c.connectedArguments == ids.value)
      && (isDefault.Some? ==> c.isArgumentDefaultList == isDefault.value)
      && (theme.Some? ==> c.theme == theme.value)
      && (placeholder.Some? ==> c.useNoArgumentsPlaceholder == placeholder.value)
      && (prefix.Some? ==> c.prefix == prefix.value)
      && (target.Some? ==> c.actionTargetContainer == target.value)
  {
  }

  /** One entry of an argument's action menu. The `onSelect` callback is not
      part of the record here; `actionType` is the source's `type` and `menuLabel` its `label`. */
  datatype ActionMenuItem = ActionMenuItem(
    id: Option<string>,
    title: Option<string>,
    activeCategory: Option<bool>,
    actionType: Option<string>,
    menuLabel: Option<string>)

  /** `new ActionMenuDataObject({...})`: every field defaults to null. */
  function NewActionMenuItem(
    id: Option<string> := None,
    title: Option<string> := None,
    activeCategory: Option<bool> := None,
    actionType: Option<string> := None,
    menuLabel: Option<string> := None): ActionMenuItem
  {
    ActionMenuItem(id, title, activeCategory, actionType, menuLabel)
  }

  lemma NewActionMenuItemDefaults()
    ensures NewActionMenuItem() == ActionMenuItem(None, None, None, None, None)
  {
  }

  // ---------------------------------------------------------------------
  // Drag-and-drop identifiers

  /** `[prefix, id].join('-')`: the identifier dnd-kit knows an element by. */
  function GetDnDId(prefix: string, idText: string): string {
    prefix + "-" + idText
  }

  /** How `join` renders a numeric id: null becomes the empty string. */
  function ArgumentIdText(id: Option<int>): string {
    match id
    case None => ""
    case Some(i) => IntToString(i)
  }

  function CategoryIdText(id: Option<string>): string {
    id.GetOr("")
  }

  function ArgumentDnDId(a: Argument): string {
    GetDnDId(a.prefix, ArgumentIdText(a.id))
  }

  function CategoryDnDId(c: Category): string {
    GetDnDId(c.prefix, CategoryIdText(c.id))
  }

  /** An identifier splits back into its prefix and its id text. */
  lemma GetDnDIdParses(prefix: string, idText: string)
    ensures GetDnDId(prefix, idText)[..|prefix|] == prefix
    ensures GetDnDId(prefix, idText)[|prefix|] == '-'
    ensures GetDnDId(prefix, idText)[|prefix| + 1..] == idText
  {
  }

  /** An argument and a category that keep their default prefixes never share
      an identifier, whatever their ids. */
  lemma DefaultPrefixesNeverCollide(a: Argument, c: Category)
    requires a.prefix == "argument" && c.prefix == "category"
    ensures ArgumentDnDId(a) != CategoryDnDId(c)
  {
    assert ArgumentDnDId(a)[0] == 'a' && CategoryDnDId(c)[0] == 'c';
  }

  /** Under one prefix, two categories have the same identifier exactly when
      their ids render alike. */
  lemma CategoryDnDIdInjective(c: Category, d: Category)
    requires c.prefix == d.prefix
    ensures CategoryDnDId(c) == CategoryDnDId(d) <==> CategoryIdText(c.id) == CategoryIdText(d.id)
  {
    if CategoryDnDId(c) == CategoryDnDId(d) {
      GetDnDIdParses(c.prefix, CategoryIdText(c.id));
      GetDnDIdParses(d.prefix, CategoryIdText(d.id));
    }
  }

  /** Under one prefix, two arguments with ids have the same identifier exactly
      when their ids are equal. */
  lemma ArgumentDnDIdInjective(a: Argument, b: Argument)
    requires a.prefix == b.prefix && a.id.Some? && b.id.Some?
    ensures ArgumentDnDId(a) == ArgumentDnDId(b) <==> a.id == b.id
  {
    if ArgumentDnDId(a) == ArgumentDnDId(b) {
      GetDnDIdParses(a.prefix, ArgumentIdText(a.id));
      GetDnDIdParses(b.prefix, ArgumentIdText(b.id));
      IntToStringInjective(a.id.value, b.id.value);
    }
  }

  // ---------------------------------------------------------------------
  // Breakpoints

  /** The three responsive breakpoints, keyed by the container's width in
      font-size units. */
  datatype Breakpoint = MediumTablet | LargeTablet | Large {
    function ClassName(): string {
      match this
      case MediumTablet => "h5p-medium-tablet-size"
      case LargeTablet => "h5p-large-tablet-size"
      case Large => "h5p-large-size"
    }

    /** `shouldAdd(ratio)`; an undefined ratio fails every comparison. */
    predicate ShouldAdd(ratio: Option<real>) {
      match ratio
      case None => false
      case Some(r) =>
        match this
        case MediumTablet => 22.0 <= r < 40.0
        case LargeTablet => 40.0 <= r < 60.0
        case Large => 60.0 <= r
    }
  }

  /** `breakpoints()`, in its order. */
  function Breakpoints(): seq<Breakpoint> {
    [MediumTablet, LargeTablet, Large]
  }

  /** The ranges are disjoint and cover everything from 22 up: a defined ratio
      below 22 selects no breakpoint, any other defined ratio exactly one. */
  lemma BreakpointsPartition(ratio: Option<real>)
    ensures forall i, j :: 0 <= i < j < |Breakpoints()| ==>
      !(Breakpoints()[i].ShouldAdd(ratio) && Breakpoints()[j].ShouldAdd(ratio))
    ensures ratio.None? || ratio.value < 22.0 ==>
      forall i :: 0 <= i < |Breakpoints()| ==> !Breakpoints()[i].ShouldAdd(ratio)
    ensures ratio.Some? && 22.0 <= ratio.value ==>
      exists i :: 0 <= i < |Breakpoints()| && Breakpoints()[i].ShouldAdd(ratio)
  {
    if ratio.Some? && 22.0 <= ratio.value {
      var r := ratio.value;
      var i := if r < 40.0 then 0 else if r < 60.0 then 1 else 2;
      assert Breakpoints()[i].ShouldAdd(ratio);
    }
  }

  // ---------------------------------------------------------------------
  // Decoding content parameters

  /** `decodeHTML(html)`: the HTML-entity decoder (an external library,
      passed in) is applied to truthy values only. */
  function DecodeHTML(decode: Value -> Value, html: Value): Value {
    if Truthy(html) then decode(html) else html
  }

  /** `escapeHTML(html)`, likewise over the external escaper. */
  function EscapeHTML(escape: Value -> Value, html: Value): Value {
    if Truthy(html) then escape(html) else html
  }

  lemma FalsyPassesThrough(decode: Value -> Value, escape: Value -> Value, html: Value)
    requires !Truthy(html)
    ensures DecodeHTML(decode, html) == html && EscapeHTML(escape, html) == html
  {
  }

  /** Part of `filterResourceList`: a plain object with at least one key. */
  predicate IsNonEmptyPlainObject(v: Value) {
    v.Obj? && |v.props| != 0
  }

  /** `filterResourceList(element)`; `Object.keys` throws on null and
      undefined. */
  function FilterResourceList(element: Value): Result<bool> {
    if Nullish(element) then Err("TypeError: Cannot convert undefined or null to object")
    else Ok(IsNonEmptyPlainObject(element))
  }

  /** `list.filter(filterResourceList)`: the non-empty plain objects of the
      list, in order; it throws if an element is null or undefined. */
  function FilterResources(list: seq<Value>): (r: Result<seq<map<string, Value>>>)
    ensures r.Ok? <==> forall i :: 0 <= i < |list| ==> !Nullish(list[i])
    ensures r.Ok? ==> |r.value| <= |list|
    ensures r.Ok? ==> forall m :: m in r.value ==> |m| != 0 && Obj(m) in list
    ensures r.Ok? ==> forall i :: 0 <= i < |list| && IsNonEmptyPlainObject(list[i]) ==> list[i].props in r.value
  {
    if list == [] then Ok([])
    else
      match FilterResourceList(list[0])
      case Err(e) => Err(e)
      case Ok(keep) =>
        match FilterResources(list[1..])
        case Err(e) =>
          assert exists i :: 1 <= i < |list| && Nullish(list[i]) by {
            var j :| 0 <= j < |list[1..]| && Nullish(list[1..][j]);
            assert list[j + 1] == list[1..][j];
          }
          Err(e)
        case Ok(rest) =>
          assert forall i :: 1 <= i < |list| ==> list[i] == list[1..][i - 1];
          Ok((if keep then [list[0].props] else []) + rest)
  }

  /** `resources?.params.resourceList?.filter(filterResourceList)`: `None` where
      the optional chain yields undefined. It throws when `resources` is
      defined but its `params` is not, and when `resourceList` is defined but
      is not an array. */
  function ResourceListOf(resources: Value): Result<Option<seq<map<string, Value>>>> {
    if Nullish(resources) then Ok(None)
    else
      var params := Prop(resources, "params");
      if Nullish(params) then Err("TypeError: Cannot read properties of undefined (reading 'resourceList')")
      else
        var list := Prop(params, "resourceList");
        if Nullish(list) then Ok(None)
        else if !list.Arr? then Err("TypeError: resourceList.filter is not a function")
        else
          match FilterResources(list.elems)
          case Err(e) => Err(e)
          case Ok(kept) => Ok(Some(kept))
  }

  /** `handleObject(source)`: a non-empty plain object is copied with every
      value decoded; anything else is returned as it is. */
  function HandleObject(decode: Value -> Value, source: Value): Value {
    if Nullish(source) || !IsNonEmptyPlainObject(source) then source
    else Obj(map k | k in source.props :: DecodeHTML(decode, source.props[k]))
  }

  lemma HandleObjectSpec(decode: Value -> Value, source: Value)
    ensures !IsNonEmptyPlainObject(source) ==> HandleObject(decode, source) == source
    ensures IsNonEmptyPlainObject(source) ==>
      var r := HandleObject(decode, source);
      r.Obj? && r.props.Keys == source.props.Keys &&
      forall k :: k in source.props ==> r.props[k] == DecodeHTML(decode, source.props[k])
  {
  }

  /** `{ ...resource, title: decodeHTML(title), introduction: decodeHTML(introduction) }`. */
  function DecodeResource(decode: Value -> Value, resource: map<string, Value>): map<string, Value> {
    resource["title" := DecodeHTML(decode, Get(resource, "title"))]
            ["introduction" := DecodeHTML(decode, Get(resource, "introduction"))]
  }

  /** The assignment `resources.params = {...}` done when some resource
      survives the filter. */
  function SanitizeResources(decode: Value -> Value, resources: Value, kept: seq<map<string, Value>>): Value {
    if resources.Obj? then
      var params := Get(resources.props, "params");
      var own := if params.Obj? then params.props else map[];
      var newParams := own["l10n" := HandleObject(decode, Get(own, "l10n"))]
                          ["resourceList" := Arr(seq(|kept|, i requires 0 <= i < |kept| => Obj(DecodeResource(decode, kept[i]))))];
      Obj(resources.props["params" := Obj(newParams)])
    else resources
  }

  /** The top-level keys `sanitizeParams` always writes. */
  const SanitizedKeys: set<string> :=
    {"argumentsList", "resources", "header", "description", "summary",
     "summaryHeader", "summaryInstruction", "l10n", "resourceReport"}

  /** `argumentsList.map(decodeHTML)` where the parameter is an array. */
  function DecodeArguments(decode: Value -> Value, argumentsList: Value): (r: Value)
    ensures !argumentsList.Arr? ==> r == argumentsList
    ensures argumentsList.Arr? ==>
      r.Arr? && |r.elems| == |argumentsList.elems| &&
      forall i :: 0 <= i < |argumentsList.elems| ==> r.elems[i] == DecodeHTML(decode, argumentsList.elems[i])
  {
    if argumentsList.Arr? then
      Arr(seq(|argumentsList.elems|, i requires 0 <= i < |argumentsList.elems| => DecodeHTML(decode, argumentsList.elems[i])))
    else argumentsList
  }

  /** The value `sanitizeParams` gives `resources`, once the resource check
      has not thrown. */
  function NewResources(decode: Value -> Value, resources: Value, kept: Option<seq<map<string, Value>>>): Value {
    if kept.Some? && |kept.value| > 0 then SanitizeResources(decode, resources, kept.value) else resources
  }

  /** The value `sanitizeParams` writes under the named key `k`. */
  function SanitizedField(decode: Value -> Value, params: map<string, Value>, resources: Value, k: string): Value {
    if k == "argumentsList" then DecodeArguments(decode, Get(params, k))
    else if k == "resources" then resources
    else if k == "l10n" || k == "resourceReport" then HandleObject(decode, Get(params, k))
    else DecodeHTML(decode, Get(params, k))
  }

  /** The keys `sanitizeParams` writes over the spread `...params`. */
  function SanitizedFields(decode: Value -> Value, params: map<string, Value>, resources: Value): map<string, Value> {
    map k | k in SanitizedKeys :: SanitizedField(decode, params, resources, k)
  }

  /** `sanitizeParams(params)`. */
  function SanitizeParams(decode: Value -> Value, params: map<string, Value>): Result<map<string, Value>> {
    var resources := Get(params, "resources");
    match ResourceListOf(resources)
    case Err(e) => Err(e)
    case Ok(kept) => Ok(params + SanitizedFields(decode, params, NewResources(decode, resources, kept)))
  }

  /** `sanitizeParams` fails exactly where the resource check throws; otherwise
      it writes every named key and copies every other key through. */
  lemma SanitizeParamsKeys(decode: Value -> Value, params: map<string, Value>)
    ensures SanitizeParams(decode, params).Err? <==> ResourceListOf(Get(params, "resources")).Err?
    ensures SanitizeParams(decode, params).Ok? ==>
      var r := SanitizeParams(decode, params).value;
      && r.Keys == params.Keys + SanitizedKeys
      && forall k :: k in params && k !in SanitizedKeys ==> r[k] == params[k]
  {
  }

  /** The text fields are decoded, the argument array keeps its length and is
      decoded element by element, and the translation objects go through
      `handleObject`. */
  lemma SanitizeParamsDecodes(decode: Value -> Value, params: map<string, Value>)
    requires SanitizeParams(decode, params).Ok?
    ensures var r := SanitizeParams(decode, params).value;
      && (forall k :: k in {"header", "description", "summary", "summaryHeader", "summaryInstruction"} ==>
            r[k] == DecodeHTML(decode, Get(params, k)))
      && r["l10n"] == HandleObject(decode, Get(params, "l10n"))
      && r["resourceReport"] == HandleObject(decode, Get(params, "resourceReport"))
      && (Get(params, "argumentsList").Arr? ==>
            var xs := Get(params, "argumentsList").elems;
            r["argumentsList"].Arr? && |r["argumentsList"].elems| == |xs| &&
            forall i :: 0 <= i < |xs| ==> r["argumentsList"].elems[i] == DecodeHTML(decode, xs[i]))
      && (!Get(params, "argumentsList").Arr? ==> r["argumentsList"] == Get(params, "argumentsList"))
  {
  }

  /** Where some resource survives, only the `params` entry of the resources
      is replaced, and its resource list holds every surviving resource with
      its title and introduction decoded. */
  lemma SanitizeResourcesSpec(decode: Value -> Value, resources: Value, kept: seq<map<string, Value>>)
    requires resources.Obj?
    ensures var r := SanitizeResources(decode, resources, kept);
      && r.Obj? && r.props.Keys == resources.props.Keys + {"params"}
      && (forall k :: k in resources.props && k != "params" ==> r.props[k] == resources.props[k])
      && r.props["params"].Obj?
      && var own := if Get(resources.props, "params").Obj? then Get(resources.props, "params").props else map[];
         var p := r.props["params"].props;
         && p.Keys == own.Keys + {"l10n", "resourceList"}
         && p["l10n"] == HandleObject(decode, Get(own, "l10n"))
         && (forall k :: k in own && k != "l10n" && k != "resourceList" ==> p[k] == own[k])
         && var list := p["resourceList"];
            list.Arr? && |list.elems| == |kept| &&
            forall i :: 0 <= i < |kept| ==> list.elems[i] == Obj(DecodeResource(decode, kept[i]))
  {
  }

  /** Resources are rewritten exactly when the resource check yields a
      non-empty list, and then they are a plain object. */
  lemma NewResourcesSpec(decode: Value -> Value, params: map<string, Value>)
    requires SanitizeParams(decode, params).Ok?
    ensures var resources := Get(params, "resources");
      var kept := ResourceListOf(resources).value;
      var r := SanitizeParams(decode, params).value["resources"];
      && (kept.None? || kept.value == [] ==> r == resources)
      && (kept.Some? && kept.value != [] ==> resources.Obj? && r == SanitizeResources(decode, resources, kept.value))
  {
  }
}
