/** The widget's host object: the registries the components use to hand in
    export values and reset handlers, the merged translations and their
    lookup, and the breakpoint bookkeeping. */
module App {
  import opened Base
  import opened Utils

  /** A registered export callback. It is modelled as a function that reads
      no state: calling it always gives the same value. */
  datatype ExportEntry = ExportEntry(key: string, callback: () -> Value)

  /** A registered reset callback, known by its identity; calling it is
      recorded rather than performed. */
  datatype ResetCallback = ResetCallback(id: nat)

  /** `exportValues[key] = callback()` for every entry in registration order:
      the value object `collectExportValues()` returns. */
  function Exported(stack: seq<ExportEntry>): map<string, Value> {
    if stack == [] then map[]
    else
      var last := stack[|stack| - 1];
      Exported(stack[..|stack| - 1])[last.key := last.callback()]
  }

  /** The exported keys are exactly the registered keys. */
  lemma {:induction false} ExportedKeys(stack: seq<ExportEntry>, k: string)
    ensures k in Exported(stack) <==> exists i :: 0 <= i < |stack| && stack[i].key == k
  {
    if stack != [] {
      var n := |stack| - 1;
      ExportedKeys(stack[..n], k);
      if k != stack[n].key && k in Exported(stack) {
        var i :| 0 <= i < n && stack[..n][i].key == k;
        assert stack[i].key == k;
      }
      if k != stack[n].key && exists i :: 0 <= i < |stack| && stack[i].key == k {
        var i :| 0 <= i < |stack| && stack[i].key == k;
        assert stack[..n][i].key == k;
      }
    }
  }

  /** Each key maps to the value of the callback registered last under it. */
  lemma {:induction false} ExportedLastWins(stack: seq<ExportEntry>, i: nat)
    requires i < |stack|
    requires forall j :: i < j < |stack| ==> stack[j].key != stack[i].key
    ensures stack[i].key in Exported(stack) && Exported(stack)[stack[i].key] == stack[i].callback()
  {
    var n := |stack| - 1;
    if i < n {
      assert stack[..n][i] == stack[i];
      ExportedLastWins(stack[..n], i);
    }
  }

  /** `Object.assign({}, defaults, l10n, resourceReport)`: the own properties
      of a source object; null, undefined and every other non-object
      contribute none. */
  function OwnProperties(v: Value): map<string, Value> {
    if v.Obj? then v.props else map[]
  }

  /** The built-in English translations. */
  function DefaultTranslations(): map<string, Value> {
    map[
      "summary" := Str("Summary"),
      "typeYourReasonsForSuchAnswers" := Str("Type your reasons for such answers"),
      "resources" := Str("Resources"),
      "save" := Str("Save"),
      "restart" := Str("Restart"),
      "createDocument" := Str("Create document"),
      "labelSummaryComment" := Str("Summary comment"),
      "labelComment" := Str("Comment"),
      "labelStatement" := Str("Statement"),
      "labelNoComment" := Str("No comment"),
      "labelResources" := Str("Resources"),
      "selectAll" := Str("Select all"),
      "export" := Str("Export"),
      "addArgument" := Str("Add argument"),
      "ifYouContinueAllYourChangesWillBeLost" := Str("All the changes will be lost. Are you sure you wish to continue?"),
      "close" := Str("Close"),
      "drag" := Str("Drag"),
      "feedback" := Str("Feedback"),
      "submitText" := Str("Submit"),
      "submitConfirmedText" := Str("Saved!"),
      "confirm" := Str("Confirm"),
      "continue" := Str("Continue"),
      "cancel" := Str("Cancel"),
      "droparea" := Str("Droparea :num"),
      "emptydroparea" := Str("Empty droparea :index"),
      "draggableItem" := Str("Draggable item :statement"),
      "dropzone" := Str("Dropzone :index"),
      "dropzoneWithValue" := Str("Dropzone :index with value :statement"),
      "noArguments" := Str("No arguments"),
      "moveTo" := Str("Move to"),
      "deleteArgument" := Str("Delete argument"),
      "actionMenuTitle" := Str("Action menu"),
      "actionMenuDescription" := Str("Select the action you want to perform on this argument"),
      "dropArgumentsHere" := Str("Drop arguments here"),
      "dropExistingOrAddNewArgument" := Str("Drop existing or write new arguments")]
  }

  /** The translations: the defaults, overridden by `l10n`, overridden in turn
      by `resourceReport`. */
  function MergeTranslations(l10n: Value, resourceReport: Value): map<string, Value> {
    DefaultTranslations() + OwnProperties(l10n) + OwnProperties(resourceReport)
  }

  /** Every default, `l10n` and `resourceReport` key is present, and each
      key takes its value from the last source that has it; without override
      objects the translations are the defaults. */
  lemma MergeTranslationsSpec(l10n: Value, resourceReport: Value, k: string)
    ensures !l10n.Obj? && !resourceReport.Obj? ==> MergeTranslations(l10n, resourceReport) == DefaultTranslations()
    ensures var t := MergeTranslations(l10n, resourceReport);
      && (k in t <==> k in DefaultTranslations() || k in OwnProperties(l10n) || k in OwnProperties(resourceReport))
      && (k in OwnProperties(resourceReport) ==> t[k] == OwnProperties(resourceReport)[k])
      && (k !in OwnProperties(resourceReport) && k in OwnProperties(l10n) ==> t[k] == OwnProperties(l10n)[k])
      && (k !in OwnProperties(resourceReport) && k !in OwnProperties(l10n) && k in DefaultTranslations() ==>
            t[k] == DefaultTranslations()[k])
  {
  }

  /** `translate(key, vars)` on the given translations. `vars` is `None` for
      null or undefined, otherwise the variables in key order. Each variable
      is substituted into the original translation on its own, and the
      results are joined with commas. A translation that is not a string
      throws once there is a variable. */
  function Translate(translations: map<string, Value>, key: string, vars: Option<seq<(string, string)>>): Result<Value> {
    var translation := Get(translations, key);
    match vars
    case None => Ok(translation)
    case Some(vs) =>
      if vs == [] then Ok(Str(""))
      else if !translation.Str? then Err("TypeError: translation.replace is not a function")
      else Ok(Str(JoinWithCommas(seq(|vs|, i requires 0 <= i < |vs| => ReplaceFirst(translation.s, vs[i].0, vs[i].1)))))
  }

  /** Without variables the translation is returned as it is; with exactly
      one, its first occurrence in the translation is replaced. */
  lemma TranslateSpec(translations: map<string, Value>, key: string, name: string, value: string)
    ensures Translate(translations, key, None) == Ok(Get(translations, key))
    ensures Get(translations, key).Str? ==>
      Translate(translations, key, Some([(name, value)])) == Ok(Str(ReplaceFirst(Get(translations, key).s, name, value)))
  {
  }

  /** Substituting every variable in turn into the translation: what the
      comments and the placeholders with several variables call for. */
  function Substitute(translation: string, vars: seq<(string, string)>): string
    decreases |vars|
  {
    if vars == [] then translation
    else Substitute(ReplaceFirst(translation, vars[0].0, vars[0].1), vars[1..])
  }

  /** `translate` with successive substitution. */
  function TranslateIntended(translations: map<string, Value>, key: string, vars: Option<seq<(string, string)>>): Result<Value> {
    var translation := Get(translations, key);
    match vars
    case None => Ok(translation)
    case Some(vs) =>
      if vs == [] then Ok(translation)
      else if !translation.Str? then Err("TypeError: translation.replace is not a function")
      else Ok(Str(Substitute(translation.s, vs)))
  }

  /** The intended lookup agrees with the source's for one variable, and for
      none it returns the translation where the source returns "". */
  lemma TranslateIntendedAgrees(translations: map<string, Value>, key: string, name: string, value: string)
    ensures TranslateIntended(translations, key, None) == Translate(translations, key, None)
    ensures TranslateIntended(translations, key, Some([(name, value)])) == Translate(translations, key, Some([(name, value)]))
    ensures TranslateIntended(translations, key, Some([])) == Ok(Get(translations, key))
    ensures Translate(translations, key, Some([])) == Ok(Str(""))
  {
    var vs := [(name, value)];
    assert vs[1..] == [];
    var t := Get(translations, key);
    if t.Str? {
      assert Substitute(t.s, vs) == Substitute(ReplaceFirst(t.s, name, value), vs[1..]);
      assert seq(|vs|, i requires 0 <= i < |vs| => ReplaceFirst(t.s, vs[i].0, vs[i].1)) == [ReplaceFirst(t.s, name, value)];
    }
  }

  /** Substituting a list of variables is substituting its first part and
      then its second. */
  lemma {:induction false} SubstituteAppend(t: string, a: seq<(string, string)>, b: seq<(string, string)>)
    ensures Substitute(t, a + b) == Substitute(Substitute(t, a), b)
    decreases |a|
  {
    if a != [] {
      assert (a + b)[0] == a[0] && (a + b)[1..] == a[1..] + b;
      SubstituteAppend(ReplaceFirst(t, a[0].0, a[0].1), a[1..], b);
    } else {
      assert a + b == b;
    }
  }

  /** The shipped text of `dropzoneWithValue`. */
  lemma DefaultDropzoneText()
    ensures Get(MergeTranslations(Undefined, Null), "dropzoneWithValue") == Str("Dropzone :index with value :statement")
  {
    MergeTranslationsSpec(Undefined, Null, "dropzoneWithValue");
  }

  /** The shipped text cut at each of its placeholders. */
  lemma DropzoneTextPieces()
    ensures "Dropzone :index with value :statement" == "Dropzone " + ":index" + " with value :statement"
    ensures "Dropzone :index with value :statement" == "Dropzone :index with value " + ":statement" + ""
  {
  }

  /** The results of the substitutions, read back as single texts. */
  lemma SubstitutedPieces()
    ensures "Dropzone " + "1" + " with value :statement" == "Dropzone 1 with value " + ":statement" + ""
    ensures "Dropzone 1 with value " + "A" + "" == "Dropzone 1 with value A"
  {
  }

  lemma JoinedPieces()
    ensures ("Dropzone " + "1" + " with value :statement") + "," + ("Dropzone :index with value " + "A" + "")
         == "Dropzone 1 with value :statement" + "," + "Dropzone :index with value A"
  {
    assert "Dropzone " + "1" + " with value :statement" == "Dropzone 1 with value :statement";
    assert "Dropzone :index with value " + "A" + "" == "Dropzone :index with value A";
  }

  lemma ReplaceIndex(t: string)
    requires t == "Dropzone " + ":index" + " with value :statement"
    ensures ReplaceFirst(t, ":index", "1") == "Dropzone " + "1" + " with value :statement"
  {
    assert t[0..9] == "Dropzone ";
    NoOccurrenceWithin(t, ":index", 0, 9);
    ReplaceFirstAfter("Dropzone ", ":index", " with value :statement", "1");
  }

  lemma NoStatementBefore(t: string)
    requires t == "Dropzone :index with value " + ":statement" + ""
    ensures forall j :: 0 <= j < 27 ==> !OccursAt(t, ":statement", j)
  {
    assert t[0..9] == "Dropzone " && t[10..27] == "index with value ";
    assert t[9] == ':' && t[10] == 'i';
    NoOccurrenceWithin(t, ":statement", 0, 9);
    NotOccursAt(t, ":statement", 9);
    NoOccurrenceWithin(t, ":statement", 10, 27);
  }

  lemma ReplaceStatement(t: string)
    requires t == "Dropzone :index with value " + ":statement" + ""
    ensures ReplaceFirst(t, ":statement", "A") == "Dropzone :index with value " + "A" + ""
  {
    NoStatementBefore(t);
    ReplaceFirstAfter("Dropzone :index with value ", ":statement", "", "A");
  }

  lemma ReplaceStatementAfterIndex(u: string)
    requires u == "Dropzone 1 with value " + ":statement" + ""
    ensures ReplaceFirst(u, ":statement", "A") == "Dropzone 1 with value " + "A" + ""
  {
    assert u[0..22] == "Dropzone 1 with value ";
    NoOccurrenceWithin(u, ":statement", 0, 22);
    ReplaceFirstAfter("Dropzone 1 with value ", ":statement", "", "A");
  }

  /** With two variables the source yields each single substitution, joined
      by a comma. */
  lemma TranslateWithTwoVariables(translations: map<string, Value>, key: string, a: (string, string), b: (string, string))
    requires Get(translations, key).Str?
    ensures var t := Get(translations, key).s;
      Translate(translations, key, Some([a, b])) == Ok(Str(ReplaceFirst(t, a.0, a.1) + "," + ReplaceFirst(t, b.0, b.1)))
  {
    var t := Get(translations, key).s;
    var vs := [a, b];
    var parts := seq(|vs|, i requires 0 <= i < |vs| => ReplaceFirst(t, vs[i].0, vs[i].1));
    assert parts == [ReplaceFirst(t, a.0, a.1), ReplaceFirst(t, b.0, b.1)];
    assert parts[1..] == [ReplaceFirst(t, b.0, b.1)];
    assert JoinWithCommas(parts) == parts[0] + "," + JoinWithCommas(parts[1..]);
  }

  /** Two variables on the shipped `dropzoneWithValue` text: the source
      returns the two single substitutions joined by a comma ... */
  lemma TranslateTwoVariables(translations: map<string, Value>)
    requires translations == MergeTranslations(Undefined, Null)
    ensures Translate(translations, "dropzoneWithValue", Some([(":index", "1"), (":statement", "A")]))
         == Ok(Str("Dropzone 1 with value :statement" + "," + "Dropzone :index with value A"))
  {
    DefaultDropzoneText();
    DropzoneTextPieces();
    TranslateDropzoneText(translations);
    JoinedPieces();
  }

  lemma TranslateDropzoneText(translations: map<string, Value>)
    requires Get(translations, "dropzoneWithValue") == Str("Dropzone " + ":index" + " with value :statement")
    requires Get(translations, "dropzoneWithValue") == Str("Dropzone :index with value " + ":statement" + "")
    ensures Translate(translations, "dropzoneWithValue", Some([(":index", "1"), (":statement", "A")]))
         == Ok(Str(("Dropzone " + "1" + " with value :statement") + "," + ("Dropzone :index with value " + "A" + "")))
  {
    var t := Get(translations, "dropzoneWithValue").s;
    ReplaceIndex(t);
    ReplaceStatement(t);
    TranslateWithTwoVariables(translations, "dropzoneWithValue", (":index", "1"), (":statement", "A"));
  }

  /** ... where one text with both substituted is meant. */
  lemma TranslateIntendedTwoVariables(translations: map<string, Value>)
    requires translations == MergeTranslations(Undefined, Null)
    ensures TranslateIntended(translations, "dropzoneWithValue", Some([(":index", "1"), (":statement", "A")]))
         == Ok(Str("Dropzone 1 with value A"))
  {
    DefaultDropzoneText();
    DropzoneTextPieces();
    SubstitutedPieces();
    TranslateIntendedDropzoneText(translations);
  }

  lemma TranslateIntendedDropzoneText(translations: map<string, Value>)
    requires Get(translations, "dropzoneWithValue") == Str("Dropzone " + ":index" + " with value :statement")
    ensures TranslateIntended(translations, "dropzoneWithValue", Some([(":index", "1"), (":statement", "A")]))
         == Ok(Str("Dropzone 1 with value " + "A" + ""))
  {
    var t := Get(translations, "dropzoneWithValue").s;
    var u := ReplaceFirst(t, ":index", "1");
    ReplaceIndex(t);
    SubstitutedPieces();
    ReplaceStatementAfterIndex(u);
    var vs := [(":index", "1"), (":statement", "A")];
    assert vs[1..] == [(":statement", "A")] && vs[1..][1..] == [];
    assert Substitute(t, vs) == Substitute(u, vs[1..]);
    assert Substitute(u, vs[1..]) == Substitute(ReplaceFirst(u, ":statement", "A"), vs[1..][1..]);
  }

  /** The class names of the breakpoints whose range holds the ratio, in
      breakpoint order. */
  function ActiveClassNames(bps: seq<Breakpoint>, ratio: Option<real>): seq<string> {
    if bps == [] then []
    else (if bps[0].ShouldAdd(ratio) then [bps[0].ClassName()] else []) + ActiveClassNames(bps[1..], ratio)
  }

  lemma ActiveClassNamesStep(bps: seq<Breakpoint>, i: nat, ratio: Option<real>)
    requires i < |bps|
    ensures ActiveClassNames(bps[i..], ratio)
         == (if bps[i].ShouldAdd(ratio) then [bps[i].ClassName()] else []) + ActiveClassNames(bps[i + 1..], ratio)
  {
    assert bps[i..][1..] == bps[i + 1..];
  }

  /** At most one breakpoint class is active; none below a ratio of 22, and
      exactly the one whose range holds the ratio from 22 up. */
  lemma ActiveClassNamesSpec(ratio: Option<real>)
    ensures var names := ActiveClassNames(Breakpoints(), ratio);
      && |names| <= 1
      && (ratio.None? || ratio.value < 22.0 ==> names == [])
      && (ratio.Some? && 22.0 <= ratio.value < 40.0 ==> names == ["h5p-medium-tablet-size"])
      && (ratio.Some? && 40.0 <= ratio.value < 60.0 ==> names == ["h5p-large-tablet-size"])
      && (ratio.Some? && 60.0 <= ratio.value ==> names == ["h5p-large-size"])
  {
    var bps := Breakpoints();
    assert bps[1..] == [LargeTablet, Large] && bps[1..][1..] == [Large] && bps[1..][1..][1..] == [];
    var m := if MediumTablet.ShouldAdd(ratio) then ["h5p-medium-tablet-size"] else [];
    var l := if LargeTablet.ShouldAdd(ratio) then ["h5p-large-tablet-size"] else [];
    var g := if Large.ShouldAdd(ratio) then ["h5p-large-size"] else [];
    assert ActiveClassNames([Large], ratio) == g;
    assert ActiveClassNames([LargeTablet, Large], ratio) == l + g;
    assert ActiveClassNames(bps, ratio) == m + (l + g);
  }

  /** The host object. Only the fields the modelled operations touch are
      kept: the sanitized parameters, the behaviour settings, the two
      registries, the breakpoint state and the translations. */
  class CategoryTask {
    var params: map<string, Value>
    var behaviour: Value
    var resetStack: seq<ResetCallback>
    var collectExportValuesStack: seq<ExportEntry>
    var activeBreakpoints: seq<string>
    var currentRatio: Option<real>
    var translations: map<string, Value>

    /** The constructor once `sanitizeParams` has succeeded. */
    constructor(sanitized: map<string, Value>)
      ensures params == sanitized
      ensures behaviour == (if Truthy(Get(sanitized, "behaviour")) then Get(sanitized, "behaviour") else Obj(map[]))
      ensures resetStack == [] && collectExportValuesStack == [] && activeBreakpoints == []
      ensures currentRatio.None?
      ensures translations == MergeTranslations(Get(sanitized, "l10n"), Get(sanitized, "resourceReport"))
    {
      params := sanitized;
      var b := Get(sanitized, "behaviour");
      behaviour := if Truthy(b) then b else Obj(map[]);
      resetStack := [];
      collectExportValuesStack := [];
      activeBreakpoints := [];
      currentRatio := None;
      translations := MergeTranslations(Get(sanitized, "l10n"), Get(sanitized, "resourceReport"));
    }

    /** `collectExportValues(index, callback)`: with a key, registers the
        callback and returns nothing; without one, returns the collected
        values and registers nothing. */
    method CollectExportValues(index: Option<string>, callback: () -> Value) returns (exportValues: Option<map<string, Value>>)
      modifies this
      ensures index.Some? ==>
        && collectExportValuesStack == old(collectExportValuesStack) + [ExportEntry(index.value, callback)]
        && exportValues.None?
      ensures index.None? ==>
        && collectExportValuesStack == old(collectExportValuesStack)
        && exportValues == Some(Exported(collectExportValuesStack))
      ensures params == old(params) && behaviour == old(behaviour) && resetStack == old(resetStack)
      ensures activeBreakpoints == old(activeBreakpoints) && currentRatio == old(currentRatio)
      ensures translations == old(translations)
    {
      if index.Some? {
        collectExportValuesStack := collectExportValuesStack + [ExportEntry(index.value, callback)];
        exportValues := None;
      } else {
        var values := ExportValues();
        exportValues := Some(values);
      }
    }

    /** The collecting branch: every registered callback is called in
        registration order and its value stored under its key. */
    method ExportValues() returns (values: map<string, Value>)
      ensures values == Exported(collectExportValuesStack)
    {
      var stack := collectExportValuesStack;
      values := map[];
      var i := 0;
      while i < |stack|
        invariant 0 <= i <= |stack|
        invariant values == Exported(stack[..i])
      {
        assert stack[..i + 1][..i] == stack[..i];
        values := values[stack[i].key := stack[i].callback()];
        i := i + 1;
      }
      assert stack[..i] == stack;
    }

    /** `registerReset(callback)`: appends the callback and returns the new
        number of registered callbacks. */
    method RegisterReset(callback: ResetCallback) returns (length: nat)
      modifies this
      ensures resetStack == old(resetStack) + [callback]
      ensures length == |resetStack|
      ensures params == old(params) && behaviour == old(behaviour)
      ensures collectExportValuesStack == old(collectExportValuesStack)
      ensures activeBreakpoints == old(activeBreakpoints) && currentRatio == old(currentRatio)
      ensures translations == old(translations)
    {
      resetStack := resetStack + [callback];
      length := |resetStack|;
    }

    /** `reset()`: the callbacks it calls, in the order it calls them. Each
        registered callback is called once per registration, in
        registration order. */
    method Reset() returns (invoked: seq<ResetCallback>)
      ensures |invoked| == |resetStack|
      ensures forall i :: 0 <= i < |resetStack| ==> invoked[i] == resetStack[i]
    {
      invoked := [];
      var i := 0;
      while i < |resetStack|
        invariant 0 <= i <= |resetStack|
        invariant invoked == resetStack[..i]
      {
        invoked := invoked + [resetStack[i]];
        i := i + 1;
      }
    }

    /** `addBreakPoints(wrapper, ratio)`, without the class-list changes on
        the wrapper element: a ratio equal to the current one changes
        nothing; otherwise the active class names are recomputed in
        breakpoint order and the ratio is stored. */
    method AddBreakPoints(ratio: Option<real>)
      modifies this
      ensures ratio == old(currentRatio) ==>
        activeBreakpoints == old(activeBreakpoints) && currentRatio == old(currentRatio)
      ensures ratio != old(currentRatio) ==>
        activeBreakpoints == ActiveClassNames(Breakpoints(), ratio) && currentRatio == ratio
      ensures params == old(params) && behaviour == old(behaviour) && resetStack == old(resetStack)
      ensures collectExportValuesStack == old(collectExportValuesStack) && translations == old(translations)
    {
      if ratio == currentRatio {
        return;
      }
      activeBreakpoints := [];
      var bps := Breakpoints();
      var i := 0;
      while i < |bps|
        invariant 0 <= i <= |bps|
        invariant activeBreakpoints + ActiveClassNames(bps[i..], ratio) == ActiveClassNames(bps, ratio)
        invariant params == old(params) && behaviour == old(behaviour) && resetStack == old(resetStack)
        invariant collectExportValuesStack == old(collectExportValuesStack) && translations == old(translations)
      {
        ActiveClassNamesStep(bps, i, ratio);
        if bps[i].ShouldAdd(ratio) {
          activeBreakpoints := activeBreakpoints + [bps[i].ClassName()];
        }
        i := i + 1;
      }
      currentRatio := ratio;
    }
  }

  /** Building the host object: the parameters are sanitized first, and the
      constructor throws where sanitizing does. */
  method Create(params: map<string, Value>, decode: Value -> Value) returns (r: Result<CategoryTask>)
    ensures SanitizeParams(decode, params).Err? <==> r.Err?
    ensures r.Ok? ==> fresh(r.value) && r.value.params == SanitizeParams(decode, params).value
  {
    match SanitizeParams(decode, params)
    case Err(e) => r := Err(e);
    case Ok(sanitized) =>
      var task := new CategoryTask(sanitized);
      r := Ok(task);
  }
}
