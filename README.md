# H5P Category Task, modelled in Dafny

The H5P Category Task content type has learners sort statements ("arguments")
into categories. The arguments start in two default lists, `unprocessed-1`
and `unprocessed-2`. From there they can be dragged into titled categories,
moved between categories, edited, deleted and added. Finally they can be
exported as a document.

This project models the logic behind that:

- `Surface`, the surface's state machine: `init`, the reducer
  `stateHeadQuarter` with its six actions and its default case, and the
  per-argument action menu `getDynamicActions`.
- `SurfaceInvariants`, the invariant the reducer keeps. Every argument id
  is unique and lies in exactly one category list. The id counter is at
  least every id in the argument list, and only a reset lowers it, so an
  id once held is not issued again before a reset. The categories'
  drag-and-drop identifiers are distinct.
- `Utils`, the records with their defaulting rules, the drag-and-drop
  identifiers, the responsive breakpoints, and `sanitizeParams`.
- `App`, the host object: the export and reset registries, the merged
  translations and `translate`, and the breakpoint bookkeeping.
- `Export`, the projection `getExportObject`.
- `Upgrades`, the content upgrade to version 1.4.
- `Base`, the JavaScript semantics the rest relies on: values,
  truthiness, `findIndex`, `filter`, `splice` index normalisation,
  `String.prototype.replace` with a string pattern, and `Array.toString`.

JavaScript values are the datatype `Base.Value`. Numbers are reals, and
numeric ids are integers. The host object and the upgraded parameter object
are classes, because the source updates them in place. The reducer state is
a value: the reducer copies the state before every change, so no aliasing
can be observed there. Two in-place updates outside the reducer are
modelled as values; "## Left out" names them.

The numeric ids are unbounded integers. The source's numbers are doubles,
but the ids are counters that stay far below 2^53.

Where the code and its documentation differ, the model follows the code:

- The reducer has exactly six actions. There are no swap or edit-mode
  actions.
- A move splices the argument into the target list at `to.index`.
- Category ids are strings (`unprocessed-1`, `category-0`, …). The type
  comment's `number` does not match them.
- The action menu has no edit entry.
- `deleteArgument` does not recompute `hasRemainingUnprocessedArguments`
  (see `SurfaceInvariants.DeleteKeepsStaleFlag`).
- The action menu's delete entry is offered when `allowAddingOfArguments`
  is `true`, which is also its default.

Two places where the code looks wrong are modelled both as written and as
evidently intended (see "## Findings"). The rest of the model uses the
corrected version: the export looks arguments up by id.

## Model

| member | source | states |
|---|---|---|
| Utils.NewArgumentDefaults | src/components/utils.js:15-29 | a new argument defaults to id null, not added, text null, not in edit mode, prefix `argument` |
| Utils.NewArgumentKeepsSupplied | src/components/utils.js:22-26 | each supplied non-null field is kept, whichever other fields are supplied |
| Utils.NewCategoryDefaults | src/components/utils.js:45-65 | a new category defaults to id and title null, an empty list, not a default list, the default theme, no placeholder, prefix `category`, not a target |
| Utils.NewCategoryKeepsSupplied | src/components/utils.js:55-62 | each supplied non-null field is kept, whichever other fields are supplied |
| Utils.NewActionMenuItemDefaults | src/components/utils.js:78-94 | every field of a new action-menu entry defaults to null |
| Utils.GetDnDIdParses | src/components/utils.js:100-102 | an identifier `prefix-id` determines its prefix and its id text |
| Utils.DefaultPrefixesNeverCollide | src/components/utils.js:100-102 | an argument identifier with the default prefix never equals a category identifier with the default prefix |
| Utils.CategoryDnDIdInjective | src/components/utils.js:100-102 | under one prefix, two categories have the same identifier exactly when their ids render alike |
| Utils.ArgumentDnDIdInjective | src/components/utils.js:100-102 | under one prefix, two arguments with ids have the same identifier exactly when their ids are equal |
| Utils.BreakpointsPartition | src/components/utils.js:216-246 | the three ranges [22,40), [40,60) and [60,∞) are disjoint; no breakpoint applies below 22 or to an undefined ratio, and exactly one applies from 22 up |
| Utils.FalsyPassesThrough | src/components/utils.js:130-140 | `decodeHTML` and `escapeHTML` return a falsy input unchanged |
| Utils.FilterResources | src/components/utils.js:153-154 | filtering succeeds exactly when no element is null or undefined; it keeps exactly the non-empty plain objects, and only elements of the list |
| Utils.HandleObjectSpec | src/components/utils.js:155-164 | a nullish, empty or non-plain value is returned unchanged; otherwise the result has the same keys, each value decoded |
| Utils.DecodeArguments | src/components/utils.js:178-180 | an array of arguments keeps its length and is decoded element by element; a non-array is kept as it is |
| Utils.SanitizeParamsKeys | src/components/utils.js:152-211 | sanitizing fails exactly when the resource check throws; it writes every named key and copies every other key through |
| Utils.SanitizeParamsDecodes | src/components/utils.js:199-210 | the text fields are decoded, the argument list is decoded element-wise, and `l10n` and `resourceReport` go through `handleObject` |
| Utils.SanitizeResourcesSpec | src/components/utils.js:182-197 | rewriting the resources replaces only their `params`: its `l10n` goes through `handleObject`, its list holds the kept resources with title and introduction decoded, and every other key of the old `params` is kept |
| Utils.NewResourcesSpec | src/components/utils.js:182-197 | the resources are rewritten exactly when the filtered resource list is non-empty |
| Surface.Init | src/components/Surface/Surface.js:65-135 | the push-by-push construction of the initial state yields exactly the initial state |
| Surface.ParityIdsMembers | src/components/Surface/Surface.js:102-104 | filtering by parity keeps exactly the ids of that parity |
| Surface.ParityIdsOfInitialIds | src/components/Surface/Surface.js:97-116 | the even ids of 0..n-1 are 0, 2, 4, …, and the odd ids are 1, 3, 5, …, both ascending |
| Surface.InitArguments | src/components/Surface/Surface.js:86-93 | n texts give arguments with ids 0..n-1 in list order and fresh-argument defaults; the counter is n-1; the flag is n > 0; no drop is active |
| Surface.InitShuffleKeepsTexts | src/components/Surface/Surface.js:82-84 | a shuffle keeps the configured texts, each as often as configured |
| Surface.InitCategories | src/components/Surface/Surface.js:95-127 | with arguments there are exactly two default lists, first the even ids and then the odd ids; without arguments there are none; then one category per title with id `category-i`, an empty list, the container theme and the placeholder |
| Surface.MoveArgument | src/components/Surface/Surface.js:144-175 | the splice-then-walk implementation of `move` yields the specified move |
| Surface.MoveKeeps | src/components/Surface/Surface.js:157-174 | a move keeps the arguments, the counter and every list other than the source's and the target's; it clears every target flag and the drop flag; the unprocessed flag says whether a default list is non-empty |
| Surface.MoveSource | src/components/Surface/Surface.js:150-155 | the source list loses exactly the element at the normalised `from.index`, the rest keeping its order |
| Surface.MoveTarget | src/components/Surface/Surface.js:159-161 | the target gets the moved id at the normalised `to.index`, or at the end when the index is past the end |
| Surface.MoveWithinList | src/components/Surface/Surface.js:150-162 | a move within one list reorders it with the same multiset of ids |
| Surface.MoveToUnknownTargetDropsArgument | src/components/Surface/Surface.js:157-162 | a move to an identifier no category has takes the argument out of its list and puts it nowhere |
| Surface.EditSpec | src/components/Surface/Surface.js:176-194 | edit sets the text and clears edit mode on the first matching argument only; it leaves the categories alone; an absent id changes nothing |
| Surface.DeleteSpec | src/components/Surface/Surface.js:195-215 | after a delete, no list and no argument has the id; every other id and argument keeps its count; the counter and the flags are unchanged |
| Surface.DeleteKeepsOrder | src/components/Surface/Surface.js:199-208 | deleting keeps the order of what remains |
| Surface.DeleteAbsent | src/components/Surface/Surface.js:195-215 | deleting an id nobody has changes nothing |
| Surface.AddSpec | src/components/Surface/Surface.js:216-245 | add appends an argument with id `idCounter + 1` that is added and in edit mode, appends its id to the end of the first category with the given id, and advances the counter; an unknown category changes nothing |
| Surface.SetTargetContainerSpec | src/components/Surface/Surface.js:249-260 | exactly the categories with the given id become targets; a drop is active; no list changes |
| Surface.ReduceDefaultAndReset | src/components/Surface/Surface.js:246-248 | reset yields the initial state whatever state it replaces; an unrecognised action changes nothing (Surface.js:261-262) |
| Surface.NonDefaultMembers | src/components/Surface/Surface.js:378-379 | the menu targets are exactly the categories that are not default lists |
| Surface.NonDefaultAppend | src/components/Surface/Surface.js:378-379 | the menu targets keep the categories' order |
| Surface.DynamicActionsSpec | src/components/Surface/Surface.js:377-408 | one `category` entry per non-default category, in order, active exactly when its list holds the argument's id; then one `delete` entry exactly when adding arguments is allowed |
| SurfaceInvariants.ExactlyOneCategory | src/components/Surface/Surface.js:142-264 | in a valid state every argument id is in exactly one category list, and no list holds any other id |
| SurfaceInvariants.AddedIdIsFresh | src/components/Surface/Surface.js:220 | in a valid state no present argument has the id `addArgument` issues |
| SurfaceInvariants.CounterNeverDecreases | src/components/Surface/Surface.js:142-264 | every action but a reset keeps the id counter or raises it by one (Surface.js:220, :243) |
| SurfaceInvariants.RunCounterNeverDecreases | src/components/Surface/Surface.js:142-264 | along steps without a reset the id counter never decreases |
| SurfaceInvariants.NoIdReissued | src/components/Surface/Surface.js:216-245 | an id held in a valid state is never issued by an add after steps without a reset, even once it has been deleted |
| SurfaceInvariants.InitValid | src/components/Surface/Surface.js:65-135 | the initial state is valid |
| SurfaceInvariants.MovePreservesValid | src/components/Surface/Surface.js:144-175 | a move to an existing container keeps the state valid |
| SurfaceInvariants.EditPreservesValid | src/components/Surface/Surface.js:176-194 | an edit keeps the state valid |
| SurfaceInvariants.DeletePreservesValid | src/components/Surface/Surface.js:195-215 | a delete keeps the state valid |
| SurfaceInvariants.AddPreservesValid | src/components/Surface/Surface.js:216-245 | an add keeps the state valid |
| SurfaceInvariants.SetTargetContainerPreservesValid | src/components/Surface/Surface.js:249-260 | a target change keeps the state valid |
| SurfaceInvariants.ReducePreservesValid | src/components/Surface/Surface.js:142-264 | every admissible action keeps the state valid |
| SurfaceInvariants.ReachableStatesAreValid | src/components/Surface/Surface.js:267 | every state reached from the initial one by admissible actions is valid |
| SurfaceInvariants.FlagAccuracy | src/components/Surface/Surface.js:128-174 | the unprocessed flag is accurate after init, after every move and after a reset, and edits, target changes and adds to a category that is not a default list keep it accurate |
| SurfaceInvariants.DeleteKeepsStaleFlag | src/components/Surface/Surface.js:195-215 | deleting the only argument empties both default lists but leaves the unprocessed flag set |
| App.ExportedKeys | src/app.js:90-94 | the collected values have exactly the registered keys |
| App.ExportedLastWins | src/app.js:90-94 | each key holds the value of the callback registered last under it |
| App.CategoryTask.CollectExportValues | src/app.js:86-95 | with a key, exactly one entry is appended and nothing is returned; without one, the collected values are returned and nothing is registered |
| App.CategoryTask.ExportValues | src/app.js:91-93 | the walk over the registry yields the collected values |
| App.CategoryTask.RegisterReset | src/app.js:97 | the callback is appended and the new length is returned |
| App.CategoryTask.Reset | src/app.js:114-116 | every registered reset callback is called once per registration, in registration order |
| App.MergeTranslationsSpec | src/app.js:30-66 | the translations are the defaults, overridden by `l10n`, overridden in turn by `resourceReport`; without override objects they are the defaults |
| App.TranslateSpec | src/app.js:161-170 | without variables the translation is returned as it is; with one, its first occurrence is replaced |
| App.TranslateWithTwoVariables | src/app.js:163-167 | with two variables the result is the two single substitutions joined by a comma |
| App.TranslateTwoVariables | src/app.js:161-170 | on the shipped `dropzoneWithValue` text (app.js:58) both variables give `Dropzone 1 with value :statement,Dropzone :index with value A` |
| App.TranslateIntendedAgrees | src/app.js:161-170 | successive substitution agrees with the source for none and for one variable; for an empty variable object it keeps the translation where the source gives "" |
| App.SubstituteAppend | src/app.js:164-167 | substituting a list of variables is substituting its first part and then the rest |
| App.TranslateIntendedTwoVariables | src/app.js:161-170 | on the shipped `dropzoneWithValue` text, successive substitution gives `Dropzone 1 with value A` |
| App.ActiveClassNamesSpec | src/app.js:129-137 | at most one breakpoint class is active: none below 22 or for an undefined ratio, otherwise the one whose range holds the ratio |
| App.CategoryTask.AddBreakPoints | src/app.js:124-139 | a ratio equal to the current one changes nothing; otherwise the active class names are recomputed in breakpoint order and the ratio is stored |
| App.CategoryTask.constructor | src/app.js:19-30 | the host object starts with the sanitized parameters, the behaviour or an empty object, empty registries, no breakpoints and the merged translations |
| App.Create | src/app.js:19 | building the host object fails exactly when sanitizing throws |
| Export.LookupById | src/components/Export/Export.js:41 | a found argument has the id and is in the list; nothing is found exactly when no argument has the id |
| Export.LookupsAgreeBeforeDeletion | src/components/Export/Export.js:41 | while every argument sits at the position of its id, positional lookup and lookup by id agree |
| Export.PositionalLookupAfterDeletion | src/components/Export/Export.js:41 | after a delete of any argument but the last, positional lookup misses the last argument, which is still present |
| Export.PositionalLookupShowsWrongArgument | src/components/Export/Export.js:41 | after the first of three or more arguments is deleted, positional lookup of id 1 yields the argument with id 2, where lookup by id finds the one with id 1 |
| Export.ExportAsWrittenAgrees | src/components/Export/Export.js:37-53 | while every argument sits at the position of its id, the export as written (positional lookup) equals the corrected export |
| Export.ExportCategoriesSpec | src/components/Export/Export.js:37-53 | one exported category per non-default category, in order, with its fields copied and each id replaced by the argument with that id; the discussion styling goes on the first two exactly when `makeDiscussion === false` |
| Export.ExportedArgumentsFound | src/components/Export/Export.js:41 | in a valid state every exported entry finds its argument |
| Export.DefaultListsMembers | src/components/Export/Export.js:65-66 | the lists gathered as unprocessed are exactly the default lists |
| Export.UnprocessedAndSortedPartition | src/components/Export/Export.js:38-39 | the unprocessed ids and the exported categories' lists together hold exactly the ids of all categories |
| Export.ValidExportPartition | src/components/Export/Export.js:65-68 | in a valid state every argument is either unprocessed or in exactly one exported category |
| Export.AndLengthPositive | src/components/Export/Export.js:60-62 | `v && v.length > 0` is truthy exactly for a non-empty array or string, and is a falsy `v` itself |
| Export.ExportObjectKeys | src/components/Export/Export.js:55-70 | the export object has the translation keys and the computed keys, and the computed fields override same-named translations |
| Export.ExportObjectFlags | src/components/Export/Export.js:17-26 | the resources and summary flags are truthy exactly for non-empty values; the description defaults to "" and `useSummary` to true only when absent |
| Upgrades.Upgraded | upgrades.js:18-21 | `mode` is `discussion` when `makeDiscussion` was truthy and `category` otherwise; `makeDiscussion` is gone; every other key is unchanged |
| Upgrades.UpgradeTwice | upgrades.js:19-20 | a second upgrade finds no flag and sets the mode to `category` |
| Upgrades.UpgradeTo14 | upgrades.js:16-24 | present parameters are upgraded in place; `finished` is called exactly once, with a null error, the same parameters and the same extras |

## Left out

- The rendering components (`Main`, `Category`, `Argument`, `ActionMenu`, the drag-and-drop wrappers, the footer, the summary) are React markup. They are not modelled.
- `handleDragEnd` in `Surface.js` is not modelled. It is a dnd-kit callback that reads variables it never defines.
- `startMoving`, `moveStepByStep` and `scroll` are not modelled: they are DOM geometry, animation frames and tween curves. So the `onSelect` closures of the menu entries are not modelled either; an entry is its data (`id`, `title`, `type`, `activeCategory`).
- The random shuffle of `init` is the parameter `shuffled`, because `Math.random` cannot be modelled. `Surface.IsShuffleOf` states that it is a permutation. A reset takes a new `shuffled`.
- `Surface.MoveArgument` requires that the source container exists and that `from.index` selects an element of its list. Otherwise the source throws, or inserts `undefined` into the target.
- `SurfaceInvariants.ReducePreservesValid` additionally requires a move's target container to exist. A move to an unknown container loses the argument (`Surface.MoveToUnknownTargetDropsArgument`).
- `SurfaceInvariants.FlagAccuracy` excludes deletes, and adds to a default list. A delete does not update the flag (`SurfaceInvariants.DeleteKeepsStaleFlag`). Adding is only offered on titled categories (`src/components/Surface/Surface.js:468-485`).
- The reducer's argument ids are integers in the model. The type comment calls them strings, but the callers pass the numeric ids; ids of other types are not represented.
- `debounce` is not modelled, because it depends on timers.
- `stripHTML` is the parameter `strip` of `Export.GetExportObject`, because it depends on the DOM.
- `getRatio` is not modelled, because it depends on the DOM and on `parseFloat`. The ratio is a parameter of `App.CategoryTask.AddBreakPoints`.
- The `he` library's `decode` and `escape` are parameters.
- The class-list changes on the wrapper element, `attach`, `resize`, `getRect`, `createRoot` and the event dispatcher are not modelled: they are host and DOM plumbing.
- The export page, the Mustache templating, the focus trap and the xAPI events of `Export.js` are not modelled: they are host plumbing.
- The React context lookup is not modelled. `getExportObject` takes the parameters, behaviour settings, translations and collected values as arguments.
- Registered callbacks are modelled as pure functions. An export callback is `() -> Value`, and a reset callback is an identity whose calls are recorded. The state a callback reads or changes is outside the model.
- Components re-register their callbacks on every render; in the model each registration is one call.
- `App.OwnProperties` treats every non-object as contributing nothing to `Object.assign`. A string `l10n` would in fact contribute its characters under index keys.
- `App.Translate` treats the variable names as plain strings. `String.prototype.replace` would give `$` patterns in the replacement a special meaning.
- `App.Translate` models variable values as strings, and non-string values are not represented.
- `Upgrades.UpgradeTo14` models the parameters as an object or null. Assigning to a truthy primitive is not represented.
- Export.ExportCategoriesSpec: states the corrected export, whose entries are the arguments with the listed id. The source looks them up by position (`Export.js:41`); that export is `Export.ExportCategoriesAsWritten`. The two agree until an argument other than the last is deleted (`Export.ExportAsWrittenAgrees`, `Export.PositionalLookupShowsWrongArgument`).
- Utils.SanitizeParams: returns a new parameter map. The source also assigns the rewritten `resources.params` into the caller's own object (`utils.js:183`), so the `params` handed to the constructor is changed too. That aliasing is not modelled.
- The shuffle in `init` sorts `argumentsList` of the content parameters in place (`Surface.js:83`). The model only produces the shuffled order; the change to the shared parameters is not modelled.
- Export.AndLengthPositive: only arrays and strings have a length. An object with a `length` key reads as undefined here, although JavaScript would read that key.
- `Utils.FilterResources` and `Utils.ResourceListOf` do not distinguish plain objects from other objects (`element.constructor === Object`). Every `Obj` value counts as plain.
- The JavaScript number semantics of the breakpoint comparisons (NaN, infinities) are not modelled. A ratio is a real or undefined.

## Findings

| source | as written | input that shows it | evidently intended | confidence | as-written member | corrected member |
|---|---|---|---|---|---|---|
| src/app.js:163-168 | each variable is substituted into the original translation on its own, and the results are joined with commas; an empty variable object yields "" | `translate('dropzoneWithValue', {':index': 1, ':statement': 'A'})` on the shipped text `Dropzone :index with value :statement` gives `Dropzone 1 with value :statement,Dropzone :index with value A` | one text with every variable substituted in turn (`Dropzone 1 with value A`), and the translation itself for an empty object | medium (the surface passes one variable at most), not executed | App.Translate (App.TranslateTwoVariables) | App.TranslateIntended (App.TranslateIntendedTwoVariables, App.TranslateIntendedAgrees, App.SubstituteAppend) |
| src/components/Export/Export.js:41 | the exported category lists look an argument up by position, `argumentsList[argumentId]` | two arguments, the first deleted and the second sorted into a category: position 1 is past the end of the remaining list, so the export shows an undefined entry; with three arguments, id 1 shows the argument with id 2 | look the argument up by its id | high, not executed | Export.PositionalLookup, Export.ExportCategoriesAsWritten (Export.PositionalLookupAfterDeletion, Export.PositionalLookupShowsWrongArgument) | Export.LookupById (Export.LookupsAgreeBeforeDeletion, Export.ExportAsWrittenAgrees, Export.ExportedArgumentsFound), used by Export.ExportCategories |
