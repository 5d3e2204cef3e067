/** The data handed to the export document: the sorted categories with their
    arguments, the still unprocessed argument ids, and the texts and flags
    the document template reads. */
module Export {
  import opened Base
  import opened Utils
  import opened Surface
  import opened SurfaceInvariants

  /** The `userInput` export value: a copy of the surface's categories and
      arguments. */
  datatype UserInput = UserInput(categories: seq<Category>, argumentsList: seq<Argument>)

  /** An exported category: its arguments are looked up (`None` where the
      lookup yields undefined), its other fields are copied, and the first
      two may carry the discussion styling. */
  datatype ExportCategory = ExportCategory(
    id: Option<string>,
    title: Option<string>,
    connectedArguments: seq<Option<Argument>>,
    isArgumentDefaultList: bool,
    theme: string,
    useNoArgumentsPlaceholder: bool,
    prefix: string,
    actionTargetContainer: bool,
    makeDiscussionLimit: Option<bool>,
    cssClass: Option<string>)

  /** `argumentsList[argumentId]` as the source writes it: the id is used as a
      position. */
  function PositionalLookup(args: seq<Argument>, argumentId: int): Option<Argument> {
    if 0 <= argumentId < |args| then Some(args[argumentId]) else None
  }

  /** The argument that has the id, if any: what the lookup is for. */
  function LookupById(args: seq<Argument>, argumentId: int): (r: Option<Argument>)
    ensures r.Some? ==> r.value in args && r.value.id == Some(argumentId)
    ensures r.None? <==> forall i :: 0 <= i < |args| ==> args[i].id != Some(argumentId)
  {
    var k := FindIndex(args, ArgumentIdOf, Some(argumentId));
    if k == -1 then None else Some(args[k])
  }

  /** While every argument still sits at the position of its id (as `init`
      numbers them), the two lookups agree. */
  lemma LookupsAgreeBeforeDeletion(args: seq<Argument>, argumentId: int)
    requires forall i :: 0 <= i < |args| ==> args[i].id == Some(i)
    ensures PositionalLookup(args, argumentId) == LookupById(args, argumentId)
  {
    if 0 <= argumentId < |args| {
      assert args[argumentId].id == Some(argumentId);
    }
  }

  /** Filtering out a key some element has shortens the sequence. */
  lemma {:induction false} RemoveAllShrinks<T, K>(s: seq<T>, key: T -> K, k: K, i: nat)
    requires i < |s| && key(s[i]) == k
    ensures |RemoveAll(s, key, k)| < |s|
  {
    if i > 0 {
      RemoveAllShrinks(s[1..], key, k, i - 1);
    } else {
      RemoveAllLength(s[1..], key, k);
    }
  }

  lemma {:induction false} RemoveAllLength<T, K>(s: seq<T>, key: T -> K, k: K)
    ensures |RemoveAll(s, key, k)| <= |s|
  {
    if s != [] {
      RemoveAllLength(s[1..], key, k);
    }
  }

  /** While the arguments still sit at the positions of their ids, deleting
      any argument but the last one makes the positional lookup miss the
      last argument, which is still there and which the lookup by id finds. */
  lemma PositionalLookupAfterDeletion(s: State, id: int)
    requires forall i :: 0 <= i < |s.argumentsList| ==> s.argumentsList[i].id == Some(i)
    requires 0 <= id < |s.argumentsList| - 1
    ensures var n := |s.argumentsList|;
      var left := ApplyDelete(s, id).argumentsList;
      && s.argumentsList[n - 1] in left
      && PositionalLookup(left, n - 1) == None
      && LookupById(left, n - 1) == Some(s.argumentsList[n - 1])
  {
    LookupAfterRemoval(s.argumentsList, id);
  }

  lemma {:induction false} RemoveAllKeeps<T, K>(s: seq<T>, key: T -> K, k: K, i: nat)
    requires i < |s| && key(s[i]) != k
    ensures s[i] in RemoveAll(s, key, k)
  {
    if i > 0 {
      RemoveAllKeeps(s[1..], key, k, i - 1);
      assert s[1..][i - 1] == s[i];
    }
  }

  /** With ids at their positions, an argument sits at the position of its id. */
  lemma AtPositionOfId(args: seq<Argument>, y: Argument)
    requires forall i :: 0 <= i < |args| ==> args[i].id == Some(i)
    requires y in args
    ensures y.id.Some? && 0 <= y.id.value < |args| && args[y.id.value] == y
  {
    var m :| 0 <= m < |args| && args[m] == y;
    assert args[m].id == Some(m);
  }

  /** The lookup by id finds the one argument that has the id. */
  lemma LookupByIdUnique(args: seq<Argument>, argumentId: int, x: Argument)
    requires x in args && x.id == Some(argumentId)
    requires forall y :: y in args && y.id == Some(argumentId) ==> y == x
    ensures LookupById(args, argumentId) == Some(x)
  {
    var p :| 0 <= p < |args| && args[p] == x;
    assert args[p].id == Some(argumentId);
  }

  lemma LookupAfterRemoval(args: seq<Argument>, id: int)
    requires forall i :: 0 <= i < |args| ==> args[i].id == Some(i)
    requires 0 <= id < |args| - 1
    ensures var n := |args|;
      var left := RemoveAll(args, ArgumentIdOf, Some(id));
      && args[n - 1] in left
      && PositionalLookup(left, n - 1) == None
      && LookupById(left, n - 1) == Some(args[n - 1])
  {
    var n := |args|;
    var last := args[n - 1];
    var left := RemoveAll(args, ArgumentIdOf, Some(id));
    assert ArgumentIdOf(args[id]) == Some(id);
    RemoveAllShrinks(args, ArgumentIdOf, Some(id), id);
    assert ArgumentIdOf(last) == Some(n - 1);
    RemoveAllKeeps(args, ArgumentIdOf, Some(id), n - 1);
    forall y | y in left && y.id == Some(n - 1)
      ensures y == last
    {
      assert y in args;
      AtPositionOfId(args, y);
    }
    LookupByIdUnique(left, n - 1, last);
  }

  /** Deleting the first argument shifts the others down one position: the
      positional lookup of id 1 then yields the argument with id 2, where the
      lookup by id finds the argument with id 1. */
  lemma PositionalLookupShowsWrongArgument(args: seq<Argument>)
    requires forall i :: 0 <= i < |args| ==> args[i].id == Some(i)
    requires |args| >= 3
    ensures var left := RemoveAll(args, ArgumentIdOf, Some(0));
      && PositionalLookup(left, 1) == Some(args[2])
      && LookupById(left, 1) == Some(args[1])
  {
    var rest := args[1..];
    assert forall i :: 0 <= i < |rest| ==> rest[i].id == Some(i + 1);
    RemoveAllAbsent(rest, ArgumentIdOf, Some(0));
    var left := RemoveAll(args, ArgumentIdOf, Some(0));
    assert left == rest;
    assert rest[0] == args[1] && rest[0].id == Some(1);
    forall y | y in rest && y.id == Some(1) ensures y == args[1] {
      var m :| 0 <= m < |rest| && rest[m] == y;
    }
    LookupByIdUnique(rest, 1, args[1]);
  }

  /** Which lookup the export uses: the source's positional one, or the
      lookup by id the rest of the model uses. */
  datatype LookupMode = ByPosition | ById

  function Lookup(mode: LookupMode, args: seq<Argument>, argumentId: int): Option<Argument> {
    match mode
    case ByPosition => PositionalLookup(args, argumentId)
    case ById => LookupById(args, argumentId)
  }

  /** One category in the export: its arguments looked up, without the
      styling. */
  function ExportOne(c: Category, args: seq<Argument>, mode: LookupMode): ExportCategory {
    var ids := c.connectedArguments;
    ExportCategory(c.id, c.title, seq(|ids|, j requires 0 <= j < |ids| => Lookup(mode, args, ids[j])),
                   c.isArgumentDefaultList, c.theme, c.useNoArgumentsPlaceholder, c.prefix, c.actionTargetContainer,
                   None, None)
  }

  /** The styling of the first two categories when `makeDiscussion` is
      exactly `false`. */
  function Style(c: ExportCategory, index: nat, makeDiscussion: Value): ExportCategory {
    if makeDiscussion == Bool(false) && index < 2 then
      c.(makeDiscussionLimit := Some(true), cssClass := Some(if index == 0 then "pro-arguments" else "contra-arguments"))
    else c
  }

  /** The exported categories with the given lookup. */
  function ExportCategoriesWith(input: UserInput, makeDiscussion: Value, mode: LookupMode): seq<ExportCategory> {
    var cs := NonDefault(input.categories);
    seq(|cs|, i requires 0 <= i < |cs| => Style(ExportOne(cs[i], input.argumentsList, mode), i, makeDiscussion))
  }

  /** The exported categories, each entry the argument with the listed id. */
  function ExportCategories(input: UserInput, makeDiscussion: Value): seq<ExportCategory> {
    ExportCategoriesWith(input, makeDiscussion, ById)
  }

  /** The exported categories as the source computes them, by position. */
  function ExportCategoriesAsWritten(input: UserInput, makeDiscussion: Value): seq<ExportCategory> {
    ExportCategoriesWith(input, makeDiscussion, ByPosition)
  }

  /** While every argument sits at the position of its id, the source's
      export and the corrected one are the same. */
  lemma ExportAsWrittenAgrees(input: UserInput, makeDiscussion: Value)
    requires forall i :: 0 <= i < |input.argumentsList| ==> input.argumentsList[i].id == Some(i)
    ensures ExportCategoriesAsWritten(input, makeDiscussion) == ExportCategories(input, makeDiscussion)
  {
    var args := input.argumentsList;
    var cs := NonDefault(input.categories);
    forall i | 0 <= i < |cs|
      ensures ExportOne(cs[i], args, ByPosition) == ExportOne(cs[i], args, ById)
    {
      var ids := cs[i].connectedArguments;
      forall j | 0 <= j < |ids| ensures Lookup(ByPosition, args, ids[j]) == Lookup(ById, args, ids[j]) {
        LookupsAgreeBeforeDeletion(args, ids[j]);
      }
    }
  }

  /** One exported category per non-default category, in order, with its id,
      title and theme; each list entry is the argument with that id. Only
      when `makeDiscussion` is exactly `false` do the first two categories
      get the discussion limit, the first as the pro side and the second
      as the contra side. */
  lemma ExportCategoriesSpec(input: UserInput, makeDiscussion: Value)
    ensures var r := ExportCategories(input, makeDiscussion);
      var cs := NonDefault(input.categories);
      && |r| == |cs|
      && forall i :: 0 <= i < |cs| ==>
           && r[i].id == cs[i].id && r[i].title == cs[i].title && r[i].theme == cs[i].theme
           && !r[i].isArgumentDefaultList && r[i].prefix == cs[i].prefix
           && r[i].useNoArgumentsPlaceholder == cs[i].useNoArgumentsPlaceholder
           && r[i].actionTargetContainer == cs[i].actionTargetContainer
           && |r[i].connectedArguments| == |cs[i].connectedArguments|
           && (forall j :: 0 <= j < |cs[i].connectedArguments| ==>
                 var a := r[i].connectedArguments[j];
                 a.Some? ==> a.value in input.argumentsList && a.value.id == Some(cs[i].connectedArguments[j]))
           && (makeDiscussion == Bool(false) && i == 0 ==>
                 r[i].makeDiscussionLimit == Some(true) && r[i].cssClass == Some("pro-arguments"))
           && (makeDiscussion == Bool(false) && i == 1 ==>
                 r[i].makeDiscussionLimit == Some(true) && r[i].cssClass == Some("contra-arguments"))
           && (makeDiscussion != Bool(false) || i >= 2 ==>
                 r[i].makeDiscussionLimit.None? && r[i].cssClass.None?)
  {
    var cs := NonDefault(input.categories);
    forall i | 0 <= i < |cs|
      ensures !cs[i].isArgumentDefaultList
    {
      NonDefaultMembers(input.categories, cs[i]);
    }
  }

  /** In a valid state every listed id finds its argument. */
  lemma ExportedArgumentsFound(s: State, makeDiscussion: Value, i: nat, j: nat)
    requires Valid(s)
    requires i < |NonDefault(s.categories)| && j < |NonDefault(s.categories)[i].connectedArguments|
    ensures ExportCategories(UserInput(s.categories, s.argumentsList), makeDiscussion)[i].connectedArguments[j].Some?
  {
    var c := NonDefault(s.categories)[i];
    var x := c.connectedArguments[j];
    NonDefaultMembers(s.categories, c);
    assert c in s.categories;
    var k :| 0 <= k < |s.categories| && s.categories[k] == c;
    ExactlyOneCategory(s, x);
    var ids := Ids(s.argumentsList);
    assert x in ids;
    var m :| 0 <= m < |ids| && ids[m] == x;
    assert s.argumentsList[m].id == Some(x);
  }

  /** The default lists, in order. */
  function DefaultLists(categories: seq<Category>): seq<Category> {
    if categories == [] then []
    else (if categories[0].isArgumentDefaultList then [categories[0]] else []) + DefaultLists(categories[1..])
  }

  /** The default lists are exactly the categories marked as such. */
  lemma {:induction false} DefaultListsMembers(categories: seq<Category>, c: Category)
    ensures c in DefaultLists(categories) <==> c in categories && c.isArgumentDefaultList
  {
    if categories != [] {
      DefaultListsMembers(categories[1..], c);
      assert categories == [categories[0]] + categories[1..];
    }
  }

  /** `unprocessedArguments`: the default lists concatenated in order. */
  function UnprocessedArguments(categories: seq<Category>): seq<int> {
    AllConnected(DefaultLists(categories))
  }

  /** The unprocessed ids and the lists of the exported categories together
      are exactly all ids in the categories. */
  lemma {:induction false} UnprocessedAndSortedPartition(categories: seq<Category>)
    ensures multiset(UnprocessedArguments(categories)) + multiset(AllConnected(NonDefault(categories)))
         == multiset(AllConnected(categories))
  {
    if categories != [] {
      var c := categories[0];
      var rest := categories[1..];
      UnprocessedAndSortedPartition(rest);
      if c.isArgumentDefaultList {
        assert DefaultLists(categories) == [c] + DefaultLists(rest);
        assert NonDefault(categories) == NonDefault(rest);
        AllConnectedAppend([c], DefaultLists(rest));
        assert AllConnected([c]) == c.connectedArguments by { assert [c][1..] == []; }
      } else {
        assert NonDefault(categories) == [c] + NonDefault(rest);
        assert DefaultLists(categories) == DefaultLists(rest);
        AllConnectedAppend([c], NonDefault(rest));
        assert AllConnected([c]) == c.connectedArguments by { assert [c][1..] == []; }
      }
    }
  }

  /** In a valid state every argument is either unprocessed or in the list of
      exactly one exported category. */
  lemma ValidExportPartition(s: State)
    requires Valid(s)
    ensures multiset(UnprocessedArguments(s.categories)) + multiset(AllConnected(NonDefault(s.categories)))
         == multiset(Ids(s.argumentsList))
  {
    UnprocessedAndSortedPartition(s.categories);
  }

  /** `v && v.length > 0`: a falsy value is returned as it is, otherwise
      whether its length is positive. Only arrays and strings have a length
      here; any other value's length reads as undefined. */
  function AndLengthPositive(v: Value): (r: Value)
    ensures Truthy(r) <==> (v.Arr? && |v.elems| > 0) || (v.Str? && |v.s| > 0)
    ensures !Truthy(v) ==> r == v
  {
    if !Truthy(v) then v
    else if v.Arr? then Bool(|v.elems| > 0)
    else if v.Str? then Bool(|v.s| > 0)
    else Bool(false)
  }

  /** A field of the export object: a plain value, the list of unprocessed
      ids, or the exported categories. */
  datatype ExportField = Plain(value: Value) | ArgumentIds(ids: seq<int>) | Categories(categories: seq<ExportCategory>)

  /** The keys `getExportObject` computes over the translations. */
  const ComputedKeys: set<string> :=
    {"mainTitle", "description", "summaryHeader", "makeDiscussion", "hasResources", "useSummary",
     "hasSummaryComment", "summaryComment", "resources", "unprocessedArguments", "categories"}

  /** What `getExportObject` reads: the content parameters, the behaviour
      settings, and the `resources`, `summary` and `userInput` export
      values. */
  datatype ExportInput = ExportInput(
    params: map<string, Value>,
    behaviour: map<string, Value>,
    resources: Value,
    summary: Value,
    userInput: UserInput)

  /** The value `getExportObject` writes under the computed key `k`.
      `strip` is the DOM-based `stripHTML`. */
  function ComputedField(input: ExportInput, strip: Value -> Value, k: string): ExportField {
    var description := Get(input.params, "description");
    var provideSummary := Get(input.behaviour, "provideSummary");
    if k == "mainTitle" then Plain(Get(input.params, "header"))
    else if k == "description" then Plain(strip(if description == Undefined then Str("") else description))
    else if k == "summaryHeader" || k == "makeDiscussion" then Plain(Get(input.params, k))
    else if k == "hasResources" then Plain(AndLengthPositive(input.resources))
    else if k == "useSummary" then Plain(if provideSummary == Undefined then Bool(true) else provideSummary)
    else if k == "hasSummaryComment" then Plain(AndLengthPositive(input.summary))
    else if k == "summaryComment" then Plain(input.summary)
    else if k == "resources" then Plain(input.resources)
    else if k == "unprocessedArguments" then ArgumentIds(UnprocessedArguments(input.userInput.categories))
    else Categories(ExportCategories(input.userInput, Get(input.params, "makeDiscussion")))
  }

  /** `getExportObject()`: the translations, overridden by the computed
      fields. */
  function GetExportObject(input: ExportInput, translations: map<string, Value>, strip: Value -> Value): map<string, ExportField> {
    (map k | k in translations :: Plain(translations[k])) + (map k | k in ComputedKeys :: ComputedField(input, strip, k))
  }

  /** The export object has every translation key and every computed key; a
      translation survives only where no computed field has its name. */
  lemma ExportObjectKeys(input: ExportInput, translations: map<string, Value>, strip: Value -> Value)
    ensures var r := GetExportObject(input, translations, strip);
      && r.Keys == translations.Keys + ComputedKeys
      && (forall k :: k in translations && k !in ComputedKeys ==> r[k] == Plain(translations[k]))
      && (forall k :: k in ComputedKeys ==> r[k] == ComputedField(input, strip, k))
  {
  }

  /** The flags: `hasResources` and `hasSummaryComment` are truthy exactly
      when the value is a non-empty array or string; the description falls
      back to the empty string only when absent; `useSummary` defaults to
      true. */
  lemma ExportObjectFlags(input: ExportInput, translations: map<string, Value>, strip: Value -> Value)
    ensures var r := GetExportObject(input, translations, strip);
      && (Truthy(r["hasResources"].value) <==>
            (input.resources.Arr? && |input.resources.elems| > 0) || (input.resources.Str? && |input.resources.s| > 0))
      && (Truthy(r["hasSummaryComment"].value) <==>
            (input.summary.Arr? && |input.summary.elems| > 0) || (input.summary.Str? && |input.summary.s| > 0))
      && (Get(input.params, "description") == Undefined ==> r["description"] == Plain(strip(Str(""))))
      && (Get(input.behaviour, "provideSummary") == Undefined ==> r["useSummary"] == Plain(Bool(true)))
      && r["unprocessedArguments"] == ArgumentIds(UnprocessedArguments(input.userInput.categories))
      && r["categories"] == Categories(ExportCategories(input.userInput, Get(input.params, "makeDiscussion")))
  {
  }
}
