/** The categorisation state machine of the Category Task surface: the initial state
    built from the content parameters, the reducer that applies the six
    actions, and the per-argument action menu. */
module Surface {
  import opened Base
  import opened Utils

  /** The surface's state. */
  datatype State = State(
    categories: seq<Category>,
    argumentsList: seq<Argument>,
    idCounter: int,
    hasRemainingUnprocessedArguments: bool,
    actionDropActive: bool)

  /** One end of a move: a drag-and-drop container identifier and a position
      in its list. */
  datatype Position = Position(droppableId: string, index: int)

  /** The reducer's actions; an action of any other type is `Unrecognised`. */
  datatype Action =
    | Move(from: Position, to: Position)
    | EditArgument(id: int, argumentText: string)
    | DeleteArgument(id: int)
    | AddArgument(categoryId: string)
    | Reset
    | SetTargetContainer(container: string)
    | Unrecognised(actionType: string)

  /** What `init` reads from the content parameters and behaviour settings:
      `argumentsList` and `categoriesList` (absent lists read as empty) and
      the raw `randomizeArguments` setting. */
  datatype Config = Config(argumentsList: seq<string>, categoriesList: seq<string>, randomizeArguments: Value)

  /** `randomizeArguments` defaults to `true` and is compared with `=== true`. */
  predicate Shuffles(config: Config) {
    FlagDefaultTrue(config.randomizeArguments)
  }

  /** The order `init` numbers the argument texts in: when shuffling, the
      order the random sort left them in (`shuffled`), otherwise the
      configured order. */
  function ArgumentOrder(config: Config, shuffled: seq<string>): seq<string> {
    if Shuffles(config) then shuffled else config.argumentsList
  }

  /** `shuffled` is an order the random sort can produce: a permutation. */
  predicate IsShuffleOf(shuffled: seq<string>, texts: seq<string>) {
    multiset(shuffled) == multiset(texts)
  }

  // ---------------------------------------------------------------------
  // Named keys for findIndex and filter

  function ArgumentIdOf(a: Argument): Option<int> { a.id }

  function CategoryIdOf(c: Category): Option<string> { c.id }

  function IdKey(x: int): int { x }

  function SomeId(x: int): Option<int> { Some(x) }

  // ---------------------------------------------------------------------
  // init

  /** The arguments `init` creates: the i-th text gets id i. */
  function InitialArguments(texts: seq<string>): seq<Argument> {
    seq(|texts|, i requires 0 <= i < |texts| => NewArgument(id := Some(i), argumentText := Some(texts[i])))
  }

  /** The ids of those arguments, in list order. */
  function InitialIds(n: nat): seq<int> {
    seq(n, i requires 0 <= i < n => i)
  }

  /** `ids.filter((id) => id % 2 === parity)`. The ids here are never
      negative, so Dafny's remainder agrees with JavaScript's. */
  function ParityIds(ids: seq<int>, parity: int): seq<int> {
    if ids == [] then []
    else
      var last := ids[|ids| - 1];
      ParityIds(ids[..|ids| - 1], parity) + (if last % 2 == parity then [last] else [])
  }

  /** Filtering by parity keeps exactly the ids of that parity. */
  lemma {:induction false} ParityIdsMembers(ids: seq<int>, parity: int, x: int)
    ensures x in ParityIds(ids, parity) <==> x in ids && x % 2 == parity
  {
    if ids != [] {
      var init := ids[..|ids| - 1];
      ParityIdsMembers(init, parity, x);
      assert ids == init + [ids[|ids| - 1]];
    }
  }

  /** One of the two default lists holding the arguments not yet sorted. */
  function DefaultList(id: string, ids: seq<int>): Category {
    NewCategory(id := Some(id), isArgumentDefaultList := Some(true), connectedArguments := Some(ids))
  }

  const ContainerTheme := "h5p-category-task-category-container"

  /** The category made from the title at position `index`. */
  function TitledCategory(index: nat, title: string): Category {
    NewCategory(id := Some("category-" + NatToString(index)), theme := Some(ContainerTheme),
                useNoArgumentsPlaceholder := Some(true), title := Some(title))
  }

  /** The default lists `init` pushes when there are arguments. */
  function InitialDefaultLists(n: nat): seq<Category> {
    if n > 0 then
      [DefaultList("unprocessed-1", ParityIds(InitialIds(n), 0)),
       DefaultList("unprocessed-2", ParityIds(InitialIds(n), 1))]
    else []
  }

  /** `init()`. */
  function InitState(config: Config, shuffled: seq<string>): State {
    var args := InitialArguments(ArgumentOrder(config, shuffled));
    var titles := config.categoriesList;
    State(
      InitialDefaultLists(|args|) + seq(|titles|, i requires 0 <= i < |titles| => TitledCategory(i, titles[i])),
      args, |args| - 1, |args| > 0, false)
  }

  /** `init()` as the source writes it: the categories array is filled by
      pushes, the titled categories one per title. */
  method Init(config: Config, shuffled: seq<string>) returns (s: State)
    ensures s == InitState(config, shuffled)
  {
    var args := InitialArguments(ArgumentOrder(config, shuffled));
    var categories: seq<Category> := [];
    if |args| > 0 {
      categories := categories + [DefaultList("unprocessed-1", ParityIds(InitialIds(|args|), 0))];
      categories := categories + [DefaultList("unprocessed-2", ParityIds(InitialIds(|args|), 1))];
    }
    var defaults := categories;
    var titles := config.categoriesList;
    var index := 0;
    while index < |titles|
      invariant 0 <= index <= |titles|
      invariant |categories| == |defaults| + index
      invariant categories[..|defaults|] == defaults
      invariant forall j :: 0 <= j < index ==> categories[|defaults| + j] == TitledCategory(j, titles[j])
    {
      categories := categories + [TitledCategory(index, titles[index])];
      index := index + 1;
    }
    s := State(categories, args, |args| - 1, |args| > 0, false);
  }

  /** The ids of `0..n-1` with the given parity, in ascending order: the even
      ids are 0, 2, 4, ... and the odd ids 1, 3, 5, .... */
  lemma {:induction false} ParityIdsOfInitialIds(n: nat, parity: nat)
    requires parity < 2
    ensures ParityIds(InitialIds(n), parity) == seq((n + 1 - parity) / 2, k requires k >= 0 => 2 * k + parity)
  {
    if n > 0 {
      assert InitialIds(n)[..n - 1] == InitialIds(n - 1);
      ParityIdsOfInitialIds(n - 1, parity);
    }
  }

  /** `init` numbers the arguments 0..n-1 in the order it works with, with
      the defaults of a fresh argument; the counter is n-1, the flag
      says whether there are arguments, and no drop is active. */
  lemma InitArguments(config: Config, shuffled: seq<string>)
    ensures var s := InitState(config, shuffled);
      var texts := ArgumentOrder(config, shuffled);
      && |s.argumentsList| == |texts|
      && (forall i :: 0 <= i < |texts| ==>
            s.argumentsList[i] == Argument(Some(i), false, Some(texts[i]), false, "argument"))
      && s.idCounter == |texts| - 1
      && (s.hasRemainingUnprocessedArguments <==> |texts| > 0)
      && !s.actionDropActive
  {
  }

  /** When shuffling with a permutation, the argument texts are the
      configured ones, each as often as configured. */
  lemma InitShuffleKeepsTexts(config: Config, shuffled: seq<string>)
    requires IsShuffleOf(shuffled, config.argumentsList)
    ensures multiset(ArgumentOrder(config, shuffled)) == multiset(config.argumentsList)
  {
  }

  /** With arguments, `init` creates exactly two default lists, first
      `unprocessed-1` with the even ids and then `unprocessed-2` with the odd
      ids, both ascending; without arguments there are none. After them
      comes one titled category per title, in order, with id `category-i`
      and an empty list. */
  lemma InitCategories(config: Config, shuffled: seq<string>)
    ensures var s := InitState(config, shuffled);
      var n := |ArgumentOrder(config, shuffled)|;
      var d := if n > 0 then 2 else 0;
      var titles := config.categoriesList;
      && |s.categories| == d + |titles|
      && (n > 0 ==>
            && s.categories[0] == Category(Some("unprocessed-1"), None,
                 seq((n + 1) / 2, k requires k >= 0 => 2 * k), true, DefaultTheme, false, "category", false)
            && s.categories[1] == Category(Some("unprocessed-2"), None,
                 seq(n / 2, k requires k >= 0 => 2 * k + 1), true, DefaultTheme, false, "category", false))
      && (forall j :: 0 <= j < |titles| ==>
            s.categories[d + j] == Category(Some("category-" + NatToString(j)), Some(titles[j]), [],
                                            false, ContainerTheme, true, "category", false))
  {
    var n := |ArgumentOrder(config, shuffled)|;
    if n > 0 {
      ParityIdsOfInitialIds(n, 0);
      ParityIdsOfInitialIds(n, 1);
    }
  }

  // ---------------------------------------------------------------------
  // move

  /** `findIndex((category) => getDnDId(category) === from.droppableId)`. */
  function SourceIndex(s: State, from: Position): int {
    FindIndex(s.categories, CategoryDnDId, from.droppableId)
  }

  /** The move is defined: the source container exists and `from.index`
      selects an element of its list. The source throws on a missing
      container and inserts `undefined` for an index outside the list. */
  predicate CanMove(s: State, from: Position) {
    var k := SourceIndex(s, from);
    0 <= k && SpliceStart(|s.categories[k].connectedArguments|, from.index) < |s.categories[k].connectedArguments|
  }

  /** The id the move takes out of the source list. */
  function MovedId(s: State, from: Position): int
    requires CanMove(s, from)
  {
    var l := s.categories[SourceIndex(s, from)].connectedArguments;
    l[SpliceStart(|l|, from.index)]
  }

  /** The categories once the moved id has been spliced out of the source. */
  function AfterRemoval(s: State, from: Position): seq<Category>
    requires CanMove(s, from)
  {
    var k := SourceIndex(s, from);
    var l := s.categories[k].connectedArguments;
    s.categories[k := s.categories[k].(connectedArguments := RemoveAt(l, SpliceStart(|l|, from.index)))]
  }

  /** The per-category step of the move: the target flag is cleared, and a
      category whose identifier is `to.droppableId` gets the moved id
      spliced in at `to.index`. */
  function Place(c: Category, to: Position, moved: int): Category {
    var l := c.connectedArguments;
    if CategoryDnDId(c) == to.droppableId then
      c.(actionTargetContainer := false, connectedArguments := InsertAt(l, SpliceStart(|l|, to.index), moved))
    else c.(actionTargetContainer := false)
  }

  /** Some default list still holds an argument. */
  predicate HasRemaining(categories: seq<Category>) {
    exists i :: 0 <= i < |categories| && categories[i].isArgumentDefaultList && |categories[i].connectedArguments| > 0
  }

  /** The `move` case. */
  function ApplyMove(s: State, from: Position, to: Position): State
    requires CanMove(s, from)
  {
    var removed := AfterRemoval(s, from);
    var moved := MovedId(s, from);
    var placed := seq(|removed|, i requires 0 <= i < |removed| => Place(removed[i], to, moved));
    s.(categories := placed, hasRemainingUnprocessedArguments := HasRemaining(placed), actionDropActive := false)
  }

  /** The `move` case as the source writes it: one splice out of the source,
      then a walk over every category. */
  method MoveArgument(s: State, from: Position, to: Position) returns (r: State)
    requires CanMove(s, from)
    ensures r == ApplyMove(s, from, to)
  {
    var k := FindIndex(s.categories, CategoryDnDId, from.droppableId);
    var source := s.categories[k].connectedArguments;
    var at := SpliceStart(|source|, from.index);
    var moved := source[at];
    var categories := s.categories[k := s.categories[k].(connectedArguments := RemoveAt(source, at))];
    assert k == SourceIndex(s, from) && moved == MovedId(s, from) && categories == AfterRemoval(s, from);
    var i := 0;
    while i < |categories|
      invariant 0 <= i <= |categories| == |s.categories|
      invariant forall j :: 0 <= j < i ==> categories[j] == Place(AfterRemoval(s, from)[j], to, moved)
      invariant forall j :: i <= j < |categories| ==> categories[j] == AfterRemoval(s, from)[j]
    {
      categories := categories[i := Place(categories[i], to, moved)];
      i := i + 1;
    }
    assert categories == ApplyMove(s, from, to).categories;
    r := s.(categories := categories, hasRemainingUnprocessedArguments := HasRemaining(categories),
            actionDropActive := false);
  }

  /** What a move keeps: the arguments, the counter, every category's
      fields other than its list, and the list of every category that is
      neither the source nor a target. Every target flag is cleared, no drop
      is active, and the unprocessed flag says whether a default list is
      non-empty. */
  lemma MoveKeeps(s: State, from: Position, to: Position)
    requires CanMove(s, from)
    ensures var r := ApplyMove(s, from, to);
      var k := SourceIndex(s, from);
      && r.argumentsList == s.argumentsList && r.idCounter == s.idCounter
      && !r.actionDropActive
      && (r.hasRemainingUnprocessedArguments <==>
            exists i :: 0 <= i < |r.categories| && r.categories[i].isArgumentDefaultList && r.categories[i].connectedArguments != [])
      && |r.categories| == |s.categories|
      && forall i :: 0 <= i < |s.categories| ==>
           && !r.categories[i].actionTargetContainer
           && r.categories[i] == s.categories[i].(actionTargetContainer := false,
                                                 connectedArguments := r.categories[i].connectedArguments)
           && (i != k && CategoryDnDId(s.categories[i]) != to.droppableId ==>
                 r.categories[i].connectedArguments == s.categories[i].connectedArguments)
  {
  }

  /** The source list loses exactly the element at the (normalised)
      `from.index`, the rest keeping its order, when it is not also a
      target. */
  lemma MoveSource(s: State, from: Position, to: Position)
    requires CanMove(s, from)
    requires CategoryDnDId(s.categories[SourceIndex(s, from)]) != to.droppableId
    ensures var k := SourceIndex(s, from);
      var l := s.categories[k].connectedArguments;
      var at := SpliceStart(|l|, from.index);
      var r := ApplyMove(s, from, to).categories[k].connectedArguments;
      && l[at] == MovedId(s, from)
      && r == l[..at] + l[at + 1..]
      && multiset(r) + multiset{MovedId(s, from)} == multiset(l)
  {
  }

  /** A target other than the source gets the moved id at the (normalised)
      `to.index`, the elements before it staying put and the ones after it
      shifting by one; an index past the end appends. */
  lemma MoveTarget(s: State, from: Position, to: Position, i: nat)
    requires CanMove(s, from)
    requires i < |s.categories| && i != SourceIndex(s, from)
    requires CategoryDnDId(s.categories[i]) == to.droppableId
    ensures var l := s.categories[i].connectedArguments;
      var at := SpliceStart(|l|, to.index);
      var r := ApplyMove(s, from, to).categories[i].connectedArguments;
      && r == l[..at] + [MovedId(s, from)] + l[at..]
      && (to.index >= |l| ==> r == l + [MovedId(s, from)])
  {
    var l := s.categories[i].connectedArguments;
    assert l == l[..SpliceStart(|l|, to.index)] + l[SpliceStart(|l|, to.index)..];
  }

  /** Moving within one list reorders it: the same ids, each as often as
      before, with the moved id now at the (normalised) `to.index`. */
  lemma MoveWithinList(s: State, from: Position, to: Position)
    requires CanMove(s, from)
    requires CategoryDnDId(s.categories[SourceIndex(s, from)]) == to.droppableId
    ensures var k := SourceIndex(s, from);
      var l := s.categories[k].connectedArguments;
      var r := ApplyMove(s, from, to).categories[k].connectedArguments;
      && |r| == |l| && multiset(r) == multiset(l)
      && r[SpliceStart(|l| - 1, to.index)] == MovedId(s, from)
  {
  }

  /** A move whose target identifier names no category takes the argument
      out of its list and puts it nowhere. */
  lemma MoveToUnknownTargetDropsArgument(s: State, from: Position, to: Position)
    requires CanMove(s, from)
    requires forall i :: 0 <= i < |s.categories| ==> CategoryDnDId(s.categories[i]) != to.droppableId
    ensures var r := ApplyMove(s, from, to);
      var k := SourceIndex(s, from);
      && (forall i :: 0 <= i < |s.categories| && i != k ==>
            r.categories[i].connectedArguments == s.categories[i].connectedArguments)
      && multiset(r.categories[k].connectedArguments) + multiset{MovedId(s, from)}
         == multiset(s.categories[k].connectedArguments)
  {
  }

  // ---------------------------------------------------------------------
  // editArgument, deleteArgument, addArgument, setTargetContainer

  /** The `editArgument` case: the first argument with the id gets the new
      text and leaves edit mode. */
  function ApplyEdit(s: State, id: int, text: string): State {
    var k := FindIndex(s.argumentsList, ArgumentIdOf, Some(id));
    if k == -1 then s
    else s.(argumentsList := s.argumentsList[k := s.argumentsList[k].(argumentText := Some(text), editMode := false)])
  }

  /** An absent id changes nothing. Otherwise exactly one argument changes,
      the first with that id: it gets the text and leaves edit mode, keeping
      its id, prefix and added flag. Nothing but the arguments changes. */
  lemma EditSpec(s: State, id: int, text: string)
    ensures var r := ApplyEdit(s, id, text);
      && ((forall i :: 0 <= i < |s.argumentsList| ==> s.argumentsList[i].id != Some(id)) ==> r == s)
      && r.(argumentsList := s.argumentsList) == s
      && |r.argumentsList| == |s.argumentsList|
      && forall i :: 0 <= i < |s.argumentsList| ==>
           if s.argumentsList[i].id == Some(id) && (forall j :: 0 <= j < i ==> s.argumentsList[j].id != Some(id))
           then r.argumentsList[i] == s.argumentsList[i].(argumentText := Some(text), editMode := false)
           else r.argumentsList[i] == s.argumentsList[i]
  {
  }

  /** The `deleteArgument` case: the id is filtered out of every category
      list and out of the arguments. */
  function ApplyDelete(s: State, id: int): State {
    s.(categories := WithoutId(s.categories, id),
       argumentsList := RemoveAll(s.argumentsList, ArgumentIdOf, Some(id)))
  }

  /** Every category with the id filtered out of its list. */
  function WithoutId(cs: seq<Category>, id: int): seq<Category> {
    seq(|cs|, i requires 0 <= i < |cs| => cs[i].(connectedArguments := RemoveAll(cs[i].connectedArguments, IdKey, id)))
  }

  /** After a delete the id is in no list and no argument has it; every other
      id and argument is kept as often as before; the categories keep their
      other fields; the counter and both flags are kept. */
  lemma DeleteSpec(s: State, id: int)
    ensures var r := ApplyDelete(s, id);
      && r.idCounter == s.idCounter
      && r.hasRemainingUnprocessedArguments == s.hasRemainingUnprocessedArguments
      && r.actionDropActive == s.actionDropActive
      && (forall a :: a in r.argumentsList ==> a.id != Some(id))
      && (forall a: Argument :: a.id != Some(id) ==> multiset(r.argumentsList)[a] == multiset(s.argumentsList)[a])
      && |r.categories| == |s.categories|
      && forall i :: 0 <= i < |s.categories| ==>
           && id !in r.categories[i].connectedArguments
           && r.categories[i] == s.categories[i].(connectedArguments := r.categories[i].connectedArguments)
           && forall x :: x != id ==>
                multiset(r.categories[i].connectedArguments)[x] == multiset(s.categories[i].connectedArguments)[x]
  {
    var r := ApplyDelete(s, id);
    forall a: Argument | a.id != Some(id)
      ensures multiset(r.argumentsList)[a] == multiset(s.argumentsList)[a]
    {
      RemoveAllCount(s.argumentsList, ArgumentIdOf, Some(id), a);
    }
    forall i, x | 0 <= i < |s.categories| && x != id
      ensures multiset(r.categories[i].connectedArguments)[x] == multiset(s.categories[i].connectedArguments)[x]
    {
      RemoveAllCount(s.categories[i].connectedArguments, IdKey, id, x);
    }
  }

  /** Deleting keeps the order of what remains: deleting from two lists
      laid end to end is deleting from each. */
  lemma DeleteKeepsOrder(a: seq<int>, b: seq<int>, args: seq<Argument>, more: seq<Argument>, id: int)
    ensures RemoveAll(a + b, IdKey, id) == RemoveAll(a, IdKey, id) + RemoveAll(b, IdKey, id)
    ensures RemoveAll(args + more, ArgumentIdOf, Some(id)) == RemoveAll(args, ArgumentIdOf, Some(id)) + RemoveAll(more, ArgumentIdOf, Some(id))
  {
    RemoveAllAppend(a, b, IdKey, id);
    RemoveAllAppend(args, more, ArgumentIdOf, Some(id));
  }

  /** Deleting an id nobody has changes nothing. */
  lemma DeleteAbsent(s: State, id: int)
    requires forall a :: a in s.argumentsList ==> a.id != Some(id)
    requires forall i :: 0 <= i < |s.categories| ==> id !in s.categories[i].connectedArguments
    ensures ApplyDelete(s, id) == s
  {
    RemoveAllAbsent(s.argumentsList, ArgumentIdOf, Some(id));
    forall i | 0 <= i < |s.categories|
      ensures RemoveAll(s.categories[i].connectedArguments, IdKey, id) == s.categories[i].connectedArguments
    {
      RemoveAllAbsent(s.categories[i].connectedArguments, IdKey, id);
    }
  }

  /** The argument `addArgument` creates. */
  function AddedArgument(id: int): Argument {
    NewArgument(id := Some(id), added := Some(true), editMode := Some(true))
  }

  /** The `addArgument` case: a fresh argument with the next id is appended,
      and its id is appended to the first category with the given id. */
  function ApplyAdd(s: State, categoryId: string): State {
    var k := FindIndex(s.categories, CategoryIdOf, Some(categoryId));
    if k == -1 then s
    else
      var newId := s.idCounter + 1;
      s.(argumentsList := s.argumentsList + [AddedArgument(newId)],
         categories := s.categories[k := s.categories[k].(connectedArguments := s.categories[k].connectedArguments + [newId])],
         idCounter := newId)
  }

  /** An unknown category changes nothing. Otherwise the new argument has id
      `idCounter + 1`, no text, and is marked added and in edit mode; it is
      appended to the arguments and its id to the end of the first category
      with that id; the counter becomes the new id; nothing else changes. */
  lemma AddSpec(s: State, categoryId: string)
    ensures var r := ApplyAdd(s, categoryId);
      var k := FindIndex(s.categories, CategoryIdOf, Some(categoryId));
      && ((forall i :: 0 <= i < |s.categories| ==> s.categories[i].id != Some(categoryId)) ==> r == s)
      && (k != -1 ==>
            && s.categories[k].id == Some(categoryId)
            && r.argumentsList == s.argumentsList + [Argument(Some(s.idCounter + 1), true, None, true, "argument")]
            && r.categories[k].connectedArguments == s.categories[k].connectedArguments + [s.idCounter + 1]
            && r.idCounter == s.idCounter + 1
            && |r.categories| == |s.categories|
            && (forall i :: 0 <= i < |s.categories| && i != k ==> r.categories[i] == s.categories[i])
            && r.categories[k].(connectedArguments := s.categories[k].connectedArguments) == s.categories[k]
            && r.hasRemainingUnprocessedArguments == s.hasRemainingUnprocessedArguments
            && r.actionDropActive == s.actionDropActive)
  {
  }

  /** The `setTargetContainer` case. */
  function ApplySetTargetContainer(s: State, container: string): State {
    var cs := s.categories;
    s.(categories := seq(|cs|, i requires 0 <= i < |cs| => cs[i].(actionTargetContainer := cs[i].id == Some(container))),
       actionDropActive := true)
  }

  /** Exactly the categories with the given id become the target, a drop is
      active, and no list and no argument changes. */
  lemma SetTargetContainerSpec(s: State, container: string)
    ensures var r := ApplySetTargetContainer(s, container);
      && r.actionDropActive
      && r.argumentsList == s.argumentsList && r.idCounter == s.idCounter
      && r.hasRemainingUnprocessedArguments == s.hasRemainingUnprocessedArguments
      && |r.categories| == |s.categories|
      && forall i :: 0 <= i < |s.categories| ==>
           && (r.categories[i].actionTargetContainer <==> s.categories[i].id == Some(container))
           && r.categories[i].connectedArguments == s.categories[i].connectedArguments
           && r.categories[i] == s.categories[i].(actionTargetContainer := r.categories[i].actionTargetContainer)
  {
  }

  // ---------------------------------------------------------------------
  // The reducer

  /** The action can be applied: only a move has a precondition. */
  predicate Applicable(s: State, action: Action) {
    action.Move? ==> CanMove(s, action.from)
  }

  /** `stateHeadQuarter(state, action)`. A reset runs `init` again, which
      shuffles anew: `shuffled` is that new order. */
  function Reduce(config: Config, shuffled: seq<string>, s: State, action: Action): State
    requires Applicable(s, action)
  {
    match action
    case Move(from, to) => ApplyMove(s, from, to)
    case EditArgument(id, text) => ApplyEdit(s, id, text)
    case DeleteArgument(id) => ApplyDelete(s, id)
    case AddArgument(categoryId) => ApplyAdd(s, categoryId)
    case Reset => InitState(config, shuffled)
    case SetTargetContainer(container) => ApplySetTargetContainer(s, container)
    case Unrecognised(_) => s
  }

  /** An unrecognised action leaves the state as it is, and a reset does not
      depend on the state it replaces; without shuffling it is always the
      initial state. */
  lemma ReduceDefaultAndReset(config: Config, shuffled: seq<string>, s: State, t: State, actionType: string)
    ensures Reduce(config, shuffled, s, Unrecognised(actionType)) == s
    ensures Reduce(config, shuffled, s, Reset) == Reduce(config, shuffled, t, Reset)
    ensures !Shuffles(config) ==> Reduce(config, shuffled, s, Reset) == InitState(config, [])
  {
  }

  // ---------------------------------------------------------------------
  // The action menu

  /** The categories the learner sorts into: those that are not default
      lists, in order. */
  function NonDefault(categories: seq<Category>): seq<Category> {
    if categories == [] then []
    else (if categories[0].isArgumentDefaultList then [] else [categories[0]]) + NonDefault(categories[1..])
  }

  /** The menu targets are exactly the categories that are not default
      lists. */
  lemma {:induction false} NonDefaultMembers(categories: seq<Category>, c: Category)
    ensures c in NonDefault(categories) <==> c in categories && !c.isArgumentDefaultList
  {
    if categories != [] {
      NonDefaultMembers(categories[1..], c);
      assert categories == [categories[0]] + categories[1..];
    }
  }

  /** The action-menu entry offering to move an argument to a category. */
  function CategoryAction(c: Category, argument: Argument): ActionMenuItem {
    NewActionMenuItem(id := c.id, title := c.title, actionType := Some("category"),
                      activeCategory := Some(FindIndex(c.connectedArguments, SomeId, argument.id) != -1))
  }

  /** `getDynamicActions(argument)`. `allowAddingOfArguments` is the raw
      behaviour setting and `deleteTitle` the translation of
      `deleteArgument`. */
  function GetDynamicActions(s: State, argument: Argument, allowAddingOfArguments: Value, deleteTitle: Option<string>): seq<ActionMenuItem> {
    var targets := NonDefault(s.categories);
    var moves := seq(|targets|, i requires 0 <= i < |targets| => CategoryAction(targets[i], argument));
    if FlagDefaultTrue(allowAddingOfArguments) then
      moves + [NewActionMenuItem(actionType := Some("delete"), title := deleteTitle)]
    else moves
  }

  /** One `category` entry per non-default category, in category order, with
      that category's id and title, marked active exactly when the
      category's list holds the argument's id; then a `delete` entry exactly
      when adding arguments is allowed. */
  lemma DynamicActionsSpec(s: State, argument: Argument, allow: Value, deleteTitle: Option<string>)
    ensures var r := GetDynamicActions(s, argument, allow, deleteTitle);
      var targets := NonDefault(s.categories);
      && |r| == |targets| + (if FlagDefaultTrue(allow) then 1 else 0)
      && (forall i :: 0 <= i < |targets| ==>
            && r[i].actionType == Some("category")
            && r[i].id == targets[i].id && r[i].title == targets[i].title
            && r[i].activeCategory == Some(argument.id.Some? && argument.id.value in targets[i].connectedArguments))
      && (FlagDefaultTrue(allow) ==>
            r[|targets|] == ActionMenuItem(None, deleteTitle, None, Some("delete"), None))
  {
    var targets := NonDefault(s.categories);
    forall i | 0 <= i < |targets|
      ensures CategoryAction(targets[i], argument).activeCategory
              == Some(argument.id.Some? && argument.id.value in targets[i].connectedArguments)
    {
      var l := targets[i].connectedArguments;
      if argument.id.Some? && argument.id.value in l {
        var j :| 0 <= j < |l| && l[j] == argument.id.value;
        assert SomeId(l[j]) == argument.id;
      }
    }
  }

  /** The non-default categories keep their order: a category before another
      in the state comes before it among the menu's targets. */
  lemma {:induction false} NonDefaultAppend(a: seq<Category>, b: seq<Category>)
    ensures NonDefault(a + b) == NonDefault(a) + NonDefault(b)
  {
    if a != [] {
      var h := if a[0].isArgumentDefaultList then [] else [a[0]];
      assert (a + b)[0] == a[0] && (a + b)[1..] == a[1..] + b;
      assert NonDefault(a + b) == h + NonDefault(a[1..] + b);
      assert NonDefault(a) == h + NonDefault(a[1..]);
      NonDefaultAppend(a[1..], b);
    } else {
      assert a + b == b;
    }
  }
}
