/** What the surface's reducer keeps true: every argument has a unique id, the
    category lists hold every argument id exactly once between them, the id
    counter is at least every issued id, and the drag-and-drop identifiers of
    the categories are distinct. */
module SurfaceInvariants {
  import opened Base
  import opened Utils
  import opened Surface

  /** All category lists laid end to end, in category order. */
  function AllConnected(cs: seq<Category>): seq<int> {
    if cs == [] then [] else cs[0].connectedArguments + AllConnected(cs[1..])
  }

  predicate HasIds(args: seq<Argument>) {
    forall i :: 0 <= i < |args| ==> args[i].id.Some?
  }

  /** The argument ids, in list order. */
  function Ids(args: seq<Argument>): seq<int>
    requires HasIds(args)
  {
    seq(|args|, i requires 0 <= i < |args| => args[i].id.value)
  }

  function DnDIds(cs: seq<Category>): seq<string> {
    seq(|cs|, i requires 0 <= i < |cs| => CategoryDnDId(cs[i]))
  }

  predicate Valid(s: State) {
    && HasIds(s.argumentsList)
    && Distinct(Ids(s.argumentsList))
    && multiset(AllConnected(s.categories)) == multiset(Ids(s.argumentsList))
    && (forall i :: 0 <= i < |s.argumentsList| ==> s.argumentsList[i].id.value <= s.idCounter)
    && Distinct(DnDIds(s.categories))
  }

  // ---------------------------------------------------------------------
  // Facts about the concatenated lists

  lemma {:induction false} AllConnectedAppend(a: seq<Category>, b: seq<Category>)
    ensures AllConnected(a + b) == AllConnected(a) + AllConnected(b)
  {
    if a != [] {
      assert (a + b)[0] == a[0] && (a + b)[1..] == a[1..] + b;
      AllConnectedAppend(a[1..], b);
    } else {
      assert a + b == b;
    }
  }

  /** Only the lists matter. */
  lemma {:induction false} AllConnectedSameLists(a: seq<Category>, b: seq<Category>)
    requires |a| == |b|
    requires forall i :: 0 <= i < |a| ==> a[i].connectedArguments == b[i].connectedArguments
    ensures AllConnected(a) == AllConnected(b)
  {
    if a != [] {
      AllConnectedSameLists(a[1..], b[1..]);
    }
  }

  lemma {:induction false} AllConnectedOfEmptyLists(cs: seq<Category>)
    requires forall i :: 0 <= i < |cs| ==> cs[i].connectedArguments == []
    ensures AllConnected(cs) == []
  {
    if cs != [] {
      AllConnectedOfEmptyLists(cs[1..]);
    }
  }

  /** Replacing one category exchanges its list's ids for the new list's. */
  lemma {:induction false} AllConnectedUpdate(cs: seq<Category>, i: nat, c: Category)
    requires i < |cs|
    ensures multiset(AllConnected(cs[i := c])) + multiset(cs[i].connectedArguments)
         == multiset(AllConnected(cs)) + multiset(c.connectedArguments)
  {
    if i == 0 {
      assert cs[i := c][1..] == cs[1..];
    } else {
      var tail := cs[1..];
      var updated := cs[i := c];
      assert updated[0] == cs[0] && updated[1..] == tail[i - 1 := c] && tail[i - 1] == cs[i];
      AllConnectedUpdate(tail, i - 1, c);
      var h := cs[0].connectedArguments;
      assert multiset(AllConnected(updated)) == multiset(h) + multiset(AllConnected(tail[i - 1 := c]));
      assert multiset(AllConnected(cs)) == multiset(h) + multiset(AllConnected(tail));
      calc {
        multiset(AllConnected(updated)) + multiset(cs[i].connectedArguments);
        multiset(h) + (multiset(AllConnected(tail[i - 1 := c])) + multiset(tail[i - 1].connectedArguments));
        multiset(h) + (multiset(AllConnected(tail)) + multiset(c.connectedArguments));
        multiset(AllConnected(cs)) + multiset(c.connectedArguments);
      }
    }
  }

  /** An id occurring once in the concatenation sits in exactly one list. */
  lemma {:induction false} OnceMeansOneCategory(cs: seq<Category>, x: int)
    requires multiset(AllConnected(cs))[x] == 1
    ensures exists i :: 0 <= i < |cs| && x in cs[i].connectedArguments
    ensures forall i, j :: 0 <= i < j < |cs| && x in cs[i].connectedArguments ==> x !in cs[j].connectedArguments
  {
    if cs != [] {
      var head := cs[0].connectedArguments;
      assert multiset(AllConnected(cs)) == multiset(head) + multiset(AllConnected(cs[1..]));
      if x in head {
        assert multiset(AllConnected(cs[1..]))[x] == 0;
        forall j | 1 <= j < |cs| ensures x !in cs[j].connectedArguments {
          NotInAll(cs[1..], x, j - 1);
        }
      } else {
        OnceMeansOneCategory(cs[1..], x);
        var i :| 0 <= i < |cs[1..]| && x in cs[1..][i].connectedArguments;
        assert x in cs[i + 1].connectedArguments;
        forall i, j | 0 <= i < j < |cs| && x in cs[i].connectedArguments
          ensures x !in cs[j].connectedArguments
        {
          assert cs[i] == cs[1..][i - 1] && cs[j] == cs[1..][j - 1];
        }
      }
    }
  }

  /** An id absent from the concatenation is in no list. */
  lemma {:induction false} NotInAll(cs: seq<Category>, x: int, j: nat)
    requires multiset(AllConnected(cs))[x] == 0 && j < |cs|
    ensures x !in cs[j].connectedArguments
  {
    assert multiset(AllConnected(cs)) == multiset(cs[0].connectedArguments) + multiset(AllConnected(cs[1..]));
    if j > 0 {
      NotInAll(cs[1..], x, j - 1);
    }
  }

  // ---------------------------------------------------------------------
  // The invariant's consequences

  /** In a valid state every argument id is in exactly one category, and only
      argument ids are in the categories. */
  lemma ExactlyOneCategory(s: State, x: int)
    requires Valid(s)
    ensures x in Ids(s.argumentsList) ==>
      && (exists i :: 0 <= i < |s.categories| && x in s.categories[i].connectedArguments)
      && forall i, j :: 0 <= i < j < |s.categories| && x in s.categories[i].connectedArguments ==>
           x !in s.categories[j].connectedArguments
    ensures x !in Ids(s.argumentsList) ==>
      forall i :: 0 <= i < |s.categories| ==> x !in s.categories[i].connectedArguments
  {
    var ids := Ids(s.argumentsList);
    if x in ids {
      var k :| 0 <= k < |ids| && ids[k] == x;
      assert ids == ids[..k] + [x] + ids[k + 1..];
      assert x !in ids[..k] && x !in ids[k + 1..];
      assert multiset(ids)[x] == 1;
      OnceMeansOneCategory(s.categories, x);
    } else {
      forall i | 0 <= i < |s.categories| ensures x !in s.categories[i].connectedArguments {
        NotInAll(s.categories, x, i);
      }
    }
  }

  /** In a valid state the argument `addArgument` creates has an id no
      argument has. */
  lemma AddedIdIsFresh(s: State)
    requires Valid(s)
    ensures s.idCounter + 1 !in Ids(s.argumentsList)
  {
  }

  // ---------------------------------------------------------------------
  // init

  lemma ParityIdsSnoc(init: seq<int>, last: int, parity: int)
    ensures ParityIds(init + [last], parity) == ParityIds(init, parity) + (if last % 2 == parity then [last] else [])
  {
    assert (init + [last])[..|init|] == init;
  }

  lemma MultisetSnocSplit(e: seq<int>, o: seq<int>, init: seq<int>, x: int)
    requires multiset(e) + multiset(o) == multiset(init)
    ensures multiset(e + [x]) + multiset(o) == multiset(init + [x])
    ensures multiset(e) + multiset(o + [x]) == multiset(init + [x])
  {
    assert multiset(e + [x]) == multiset(e) + multiset{x};
    assert multiset(o + [x]) == multiset(o) + multiset{x};
    assert multiset(init + [x]) == multiset(init) + multiset{x};
  }

  lemma ParitySplitSnoc(init: seq<int>, last: int)
    requires multiset(ParityIds(init, 0)) + multiset(ParityIds(init, 1)) == multiset(init)
    ensures multiset(ParityIds(init + [last], 0)) + multiset(ParityIds(init + [last], 1)) == multiset(init + [last])
  {
    ParityIdsSnoc(init, last, 0);
    ParityIdsSnoc(init, last, 1);
    MultisetSnocSplit(ParityIds(init, 0), ParityIds(init, 1), init, last);
    if last % 2 == 0 {
      assert ParityIds(init + [last], 1) == ParityIds(init, 1) + [];
    } else {
      assert ParityIds(init + [last], 0) == ParityIds(init, 0) + [];
    }
  }

  lemma {:induction false} ParitySplit(ids: seq<int>)
    ensures multiset(ParityIds(ids, 0)) + multiset(ParityIds(ids, 1)) == multiset(ids)
  {
    if ids != [] {
      var init := ids[..|ids| - 1];
      var last := ids[|ids| - 1];
      ParitySplit(init);
      ParitySplitSnoc(init, last);
      assert ids == init + [last];
    }
  }

  /** The id text of the i-th category `init` creates, `d` being the number
      of default lists. */
  function InitIdText(d: nat, i: nat): string {
    if i < d then (if i == 0 then "unprocessed-1" else "unprocessed-2") else "category-" + NatToString(i - d)
  }

  lemma InitIdTextOf(config: Config, shuffled: seq<string>, i: nat)
    requires i < |InitState(config, shuffled).categories|
    ensures var c := InitState(config, shuffled).categories[i];
      c.prefix == "category" && CategoryIdText(c.id) == InitIdText(if |ArgumentOrder(config, shuffled)| > 0 then 2 else 0, i)
  {
    var n := |ArgumentOrder(config, shuffled)|;
    var titles := config.categoriesList;
    var defaults := InitialDefaultLists(n);
    var titled := seq(|titles|, k requires 0 <= k < |titles| => TitledCategory(k, titles[k]));
    assert |InitialArguments(ArgumentOrder(config, shuffled))| == n;
    assert InitState(config, shuffled).categories == defaults + titled;
    if i >= |defaults| {
      assert (defaults + titled)[i] == titled[i - |defaults|];
    }
  }

  lemma InitIdTextsDistinct(d: nat, i: nat, j: nat)
    requires d <= 2 && i < j
    ensures InitIdText(d, i) != InitIdText(d, j)
  {
    var ti, tj := InitIdText(d, i), InitIdText(d, j);
    if j < d {
      assert ti[12] != tj[12];
    } else if i < d {
      assert ti[0] == 'u' && tj[0] == 'c';
    } else if ti == tj {
      assert ti[9..] == NatToString(i - d) && tj[9..] == NatToString(j - d);
      NatToStringInjective(i - d, j - d);
    }
  }

  /** The category identifiers `init` creates are pairwise distinct. */
  lemma InitDnDIdsDistinct(config: Config, shuffled: seq<string>)
    ensures Distinct(DnDIds(InitState(config, shuffled).categories))
  {
    var cs := InitState(config, shuffled).categories;
    var d := if |ArgumentOrder(config, shuffled)| > 0 then 2 else 0;
    forall i, j | 0 <= i < j < |cs| ensures CategoryDnDId(cs[i]) != CategoryDnDId(cs[j]) {
      InitIdTextOf(config, shuffled, i);
      InitIdTextOf(config, shuffled, j);
      InitIdTextsDistinct(d, i, j);
      CategoryDnDIdInjective(cs[i], cs[j]);
    }
  }

  /** The initial lists hold the ids 0..n-1 between them. */
  lemma InitConnected(config: Config, shuffled: seq<string>)
    ensures multiset(AllConnected(InitState(config, shuffled).categories))
         == multiset(InitialIds(|ArgumentOrder(config, shuffled)|))
  {
    var n := |ArgumentOrder(config, shuffled)|;
    var titles := config.categoriesList;
    var defaults := InitialDefaultLists(n);
    var titled := seq(|titles|, i requires 0 <= i < |titles| => TitledCategory(i, titles[i]));
    assert InitState(config, shuffled).categories == defaults + titled;
    AllConnectedAppend(defaults, titled);
    AllConnectedOfEmptyLists(titled);
    if n > 0 {
      var even, odd := ParityIds(InitialIds(n), 0), ParityIds(InitialIds(n), 1);
      assert defaults[1..] == [defaults[1]] && defaults[1..][1..] == [];
      assert AllConnected(defaults) == even + odd;
      ParitySplit(InitialIds(n));
    }
  }

  /** The initial state is valid, whatever order the shuffle produced. */
  lemma InitValid(config: Config, shuffled: seq<string>)
    ensures Valid(InitState(config, shuffled))
  {
    var s := InitState(config, shuffled);
    assert Ids(s.argumentsList) == InitialIds(|ArgumentOrder(config, shuffled)|);
    InitConnected(config, shuffled);
    InitDnDIdsDistinct(config, shuffled);
  }

  lemma MultisetCancel(a: multiset<int>, c: multiset<int>, b: multiset<int>)
    requires a + b == c + b
    ensures a == c
  {
    assert forall x :: (a + b)[x] == a[x] + b[x] && (c + b)[x] == c[x] + b[x];
  }

  // ---------------------------------------------------------------------
  // The actions

  /** Taking the moved id out of the source list leaves the other ids. */
  lemma MoveRemoval(s: State, from: Position)
    requires CanMove(s, from)
    ensures multiset(AllConnected(AfterRemoval(s, from))) + multiset{MovedId(s, from)} == multiset(AllConnected(s.categories))
  {
    var cs := s.categories;
    var k := SourceIndex(s, from);
    var l := cs[k].connectedArguments;
    var rest := RemoveAt(l, SpliceStart(|l|, from.index));
    var cs1 := AfterRemoval(s, from);
    AllConnectedUpdate(cs, k, cs1[k]);
    MultisetCancel(multiset(AllConnected(cs1)) + multiset{MovedId(s, from)}, multiset(AllConnected(cs)), multiset(rest));
  }

  /** With distinct identifiers, a container identifier names one category. */
  lemma UniqueTarget(cs: seq<Category>, t: nat, i: nat)
    requires Distinct(DnDIds(cs)) && t < |cs| && i < |cs| && i != t
    ensures CategoryDnDId(cs[i]) != CategoryDnDId(cs[t])
  {
    if i < t { assert DnDIds(cs)[i] != DnDIds(cs)[t]; } else { assert DnDIds(cs)[t] != DnDIds(cs)[i]; }
  }

  /** Inserting the moved id into the one target restores the ids. */
  lemma MoveInsertion(s: State, from: Position, to: Position, t: nat)
    requires CanMove(s, from) && Distinct(DnDIds(s.categories))
    requires t < |s.categories| && CategoryDnDId(s.categories[t]) == to.droppableId
    ensures multiset(AllConnected(ApplyMove(s, from, to).categories))
         == multiset(AllConnected(AfterRemoval(s, from))) + multiset{MovedId(s, from)}
  {
    var cs1 := AfterRemoval(s, from);
    var moved := MovedId(s, from);
    var r := ApplyMove(s, from, to);
    var lt := cs1[t].connectedArguments;
    var c' := cs1[t].(connectedArguments := InsertAt(lt, SpliceStart(|lt|, to.index), moved));
    forall i | 0 <= i < |cs1| && i != t ensures CategoryDnDId(cs1[i]) != to.droppableId {
      UniqueTarget(s.categories, t, i);
    }
    AllConnectedSameLists(r.categories, cs1[t := c']);
    AllConnectedUpdate(cs1, t, c');
    MultisetCancel(multiset(AllConnected(r.categories)), multiset(AllConnected(cs1)) + multiset{moved}, multiset(lt));
  }

  /** A move into an existing container keeps the state valid: the moved id
      leaves one list and enters exactly one. */
  lemma MovePreservesValid(s: State, from: Position, to: Position)
    requires Valid(s) && CanMove(s, from)
    requires exists t :: 0 <= t < |s.categories| && CategoryDnDId(s.categories[t]) == to.droppableId
    ensures Valid(ApplyMove(s, from, to))
  {
    var r := ApplyMove(s, from, to);
    var t :| 0 <= t < |s.categories| && CategoryDnDId(s.categories[t]) == to.droppableId;
    MoveRemoval(s, from);
    MoveInsertion(s, from, to, t);
    MoveKeepsIdentifiers(s, from, to);
  }

  /** A move changes only lists and target flags, never an identifier. */
  lemma MoveKeepsIdentifiers(s: State, from: Position, to: Position)
    requires CanMove(s, from)
    ensures DnDIds(ApplyMove(s, from, to).categories) == DnDIds(s.categories)
  {
    var cs1 := AfterRemoval(s, from);
    var r := ApplyMove(s, from, to);
    forall i | 0 <= i < |s.categories|
      ensures CategoryDnDId(r.categories[i]) == CategoryDnDId(s.categories[i])
    {
      assert cs1[i].id == s.categories[i].id && cs1[i].prefix == s.categories[i].prefix;
    }
  }

  lemma EditPreservesValid(s: State, id: int, text: string)
    requires Valid(s)
    ensures Valid(ApplyEdit(s, id, text))
  {
    var r := ApplyEdit(s, id, text);
    EditSpec(s, id, text);
    assert Ids(r.argumentsList) == Ids(s.argumentsList);
  }

  lemma IdsAppend(a: seq<Argument>, b: seq<Argument>)
    requires HasIds(a) && HasIds(b)
    ensures HasIds(a + b) && Ids(a + b) == Ids(a) + Ids(b)
  {
    assert forall i :: 0 <= i < |a| ==> (a + b)[i] == a[i];
    assert forall i :: |a| <= i < |a + b| ==> (a + b)[i] == b[i - |a|];
  }

  lemma {:induction false} IdsRemoveAll(args: seq<Argument>, id: int)
    requires HasIds(args)
    ensures HasIds(RemoveAll(args, ArgumentIdOf, Some(id)))
    ensures Ids(RemoveAll(args, ArgumentIdOf, Some(id))) == RemoveAll(Ids(args), IdKey, id)
  {
    if args != [] {
      var tail := args[1..];
      assert HasIds(tail);
      IdsRemoveAll(tail, id);
      var rest := RemoveAll(tail, ArgumentIdOf, Some(id));
      var h := if ArgumentIdOf(args[0]) == Some(id) then [] else [args[0]];
      var hi := if args[0].id.value == id then [] else [args[0].id.value];
      assert Ids(args)[0] == args[0].id.value && Ids(args)[1..] == Ids(tail);
      assert RemoveAll(args, ArgumentIdOf, Some(id)) == h + rest;
      assert RemoveAll(Ids(args), IdKey, id) == hi + RemoveAll(Ids(tail), IdKey, id);
      assert HasIds(h) && Ids(h) == hi;
      IdsAppend(h, rest);
    }
  }

  lemma {:induction false} AllConnectedWithoutId(cs: seq<Category>, id: int, x: int)
    ensures multiset(AllConnected(WithoutId(cs, id)))[x] == if x == id then 0 else multiset(AllConnected(cs))[x]
  {
    if cs != [] {
      assert WithoutId(cs, id)[1..] == WithoutId(cs[1..], id);
      AllConnectedWithoutId(cs[1..], id, x);
      RemoveAllCount(cs[0].connectedArguments, IdKey, id, x);
    }
  }

  /** Deleting keeps the state valid: the id goes from the arguments and from
      the lists alike. */
  lemma DeletePreservesValid(s: State, id: int)
    requires Valid(s)
    ensures Valid(ApplyDelete(s, id))
  {
    var r := ApplyDelete(s, id);
    IdsRemoveAll(s.argumentsList, id);
    RemoveAllDistinct(Ids(s.argumentsList), IdKey, id);
    forall x ensures multiset(AllConnected(r.categories))[x] == multiset(Ids(r.argumentsList))[x] {
      AllConnectedWithoutId(s.categories, id, x);
      RemoveAllCount(Ids(s.argumentsList), IdKey, id, x);
    }
    forall i | 0 <= i < |r.argumentsList| ensures r.argumentsList[i].id.value <= r.idCounter {
      assert r.argumentsList[i] in s.argumentsList;
    }
    assert DnDIds(r.categories) == DnDIds(s.categories);
  }

  /** Appending a fresh element keeps a sequence free of duplicates. */
  lemma DistinctAppendFresh(s: seq<int>, x: int)
    requires Distinct(s) && x !in s
    ensures Distinct(s + [x])
  {
    assert forall i :: 0 <= i < |s| ==> (s + [x])[i] == s[i];
  }

  /** Appending the added argument to valid arguments keeps their ids
      distinct and adds its id once. */
  lemma AddedArguments(s: State)
    requires Valid(s)
    ensures var args := s.argumentsList + [AddedArgument(s.idCounter + 1)];
      && HasIds(args) && Distinct(Ids(args))
      && multiset(Ids(args)) == multiset(Ids(s.argumentsList)) + multiset{s.idCounter + 1}
      && forall i :: 0 <= i < |args| ==> args[i].id.value <= s.idCounter + 1
  {
    var newId := s.idCounter + 1;
    var added := [AddedArgument(newId)];
    assert HasIds(added) && Ids(added) == [newId];
    IdsAppend(s.argumentsList, added);
    AddedIdIsFresh(s);
    DistinctAppendFresh(Ids(s.argumentsList), newId);
  }

  /** Appending an id to one list adds it once to the concatenated lists. */
  lemma AddedToList(cs: seq<Category>, k: nat, newId: int)
    requires k < |cs|
    ensures var r := cs[k := cs[k].(connectedArguments := cs[k].connectedArguments + [newId])];
      && multiset(AllConnected(r)) == multiset(AllConnected(cs)) + multiset{newId}
      && DnDIds(r) == DnDIds(cs)
  {
    var c := cs[k].(connectedArguments := cs[k].connectedArguments + [newId]);
    var r := cs[k := c];
    AllConnectedUpdate(cs, k, c);
    var old_k := multiset(cs[k].connectedArguments);
    assert multiset(c.connectedArguments) == old_k + multiset{newId};
    assert multiset(AllConnected(r)) + old_k == (multiset(AllConnected(cs)) + multiset{newId}) + old_k;
    MultisetCancel(multiset(AllConnected(r)), multiset(AllConnected(cs)) + multiset{newId}, old_k);
    assert forall i :: 0 <= i < |cs| ==> CategoryDnDId(r[i]) == CategoryDnDId(cs[i]);
  }

  /** Adding keeps the state valid: the new id is fresh and enters exactly
      one list. */
  lemma AddPreservesValid(s: State, categoryId: string)
    requires Valid(s)
    ensures Valid(ApplyAdd(s, categoryId))
  {
    var k := FindIndex(s.categories, CategoryIdOf, Some(categoryId));
    if k != -1 {
      AddedArguments(s);
      AddedToList(s.categories, k, s.idCounter + 1);
    }
  }

  lemma SetTargetContainerPreservesValid(s: State, container: string)
    requires Valid(s)
    ensures Valid(ApplySetTargetContainer(s, container))
  {
    var r := ApplySetTargetContainer(s, container);
    AllConnectedSameLists(r.categories, s.categories);
    assert DnDIds(r.categories) == DnDIds(s.categories);
  }

  // ---------------------------------------------------------------------
  // The reducer

  /** An action a valid state can take: a move needs its source to resolve
      and its target container to exist. */
  predicate Admissible(s: State, action: Action) {
    && Applicable(s, action)
    && (action.Move? ==>
          exists t :: 0 <= t < |s.categories| && CategoryDnDId(s.categories[t]) == action.to.droppableId)
  }

  lemma ReducePreservesValid(config: Config, shuffled: seq<string>, s: State, action: Action)
    requires Valid(s) && Admissible(s, action)
    ensures Valid(Reduce(config, shuffled, s, action))
  {
    match action
    case Move(from, to) => MovePreservesValid(s, from, to);
    case EditArgument(id, text) => EditPreservesValid(s, id, text);
    case DeleteArgument(id) => DeletePreservesValid(s, id);
    case AddArgument(categoryId) => AddPreservesValid(s, categoryId);
    case Reset => InitValid(config, shuffled);
    case SetTargetContainer(container) => SetTargetContainerPreservesValid(s, container);
    case Unrecognised(_) =>
  }

  /** One dispatched action together with the order a reset would shuffle
      the arguments into. */
  datatype Step = Step(action: Action, shuffled: seq<string>)

  /** Dispatching the steps in turn; `None` once a step is not admissible. */
  function Run(config: Config, s: State, steps: seq<Step>): Option<State>
    decreases |steps|
  {
    if steps == [] then Some(s)
    else if !Admissible(s, steps[0].action) then None
    else Run(config, Reduce(config, steps[0].shuffled, s, steps[0].action), steps[1..])
  }

  lemma {:induction false} RunPreservesValid(config: Config, s: State, steps: seq<Step>)
    requires Valid(s)
    ensures Run(config, s, steps).Some? ==> Valid(Run(config, s, steps).value)
    decreases |steps|
  {
    if steps != [] && Admissible(s, steps[0].action) {
      ReducePreservesValid(config, steps[0].shuffled, s, steps[0].action);
      RunPreservesValid(config, Reduce(config, steps[0].shuffled, s, steps[0].action), steps[1..]);
    }
  }

  /** Every state the surface reaches from its initial state is valid. */
  /** Only a reset can lower the id counter; every other action keeps it or
      raises it by one. */
  lemma CounterNeverDecreases(config: Config, shuffled: seq<string>, s: State, action: Action)
    requires Applicable(s, action) && !action.Reset?
    ensures var r := Reduce(config, shuffled, s, action);
      r.idCounter == s.idCounter || r.idCounter == s.idCounter + 1
  {
  }

  /** Along steps without a reset the counter never decreases, so an add
      after them issues an id above every id issued before them. */
  lemma {:induction false} RunCounterNeverDecreases(config: Config, s: State, steps: seq<Step>)
    requires forall i :: 0 <= i < |steps| ==> !steps[i].action.Reset?
    ensures Run(config, s, steps).Some? ==> Run(config, s, steps).value.idCounter >= s.idCounter
    decreases |steps|
  {
    if steps != [] && Admissible(s, steps[0].action) {
      var next := Reduce(config, steps[0].shuffled, s, steps[0].action);
      CounterNeverDecreases(config, steps[0].shuffled, s, steps[0].action);
      assert forall i :: 0 <= i < |steps[1..]| ==> steps[1..][i] == steps[i + 1];
      RunCounterNeverDecreases(config, next, steps[1..]);
    }
  }

  /** An id held by some argument of a valid state is never issued again by
      an add after steps without a reset, even once that argument has been
      deleted. */
  lemma NoIdReissued(config: Config, s: State, steps: seq<Step>, x: int)
    requires Valid(s) && x in Ids(s.argumentsList)
    requires forall i :: 0 <= i < |steps| ==> !steps[i].action.Reset?
    requires Run(config, s, steps).Some?
    ensures Run(config, s, steps).value.idCounter + 1 != x
  {
    RunCounterNeverDecreases(config, s, steps);
    var k :| 0 <= k < |Ids(s.argumentsList)| && Ids(s.argumentsList)[k] == x;
    assert s.argumentsList[k].id.value <= s.idCounter;
  }

  lemma ReachableStatesAreValid(config: Config, shuffled: seq<string>, steps: seq<Step>)
    ensures var r := Run(config, InitState(config, shuffled), steps);
      r.Some? ==> Valid(r.value)
  {
    InitValid(config, shuffled);
    RunPreservesValid(config, InitState(config, shuffled), steps);
  }

  // ---------------------------------------------------------------------
  // The unprocessed flag

  /** `hasRemainingUnprocessedArguments` says whether a default list holds an
      argument. */
  predicate FlagAccurate(s: State) {
    s.hasRemainingUnprocessedArguments <==> HasRemaining(s.categories)
  }

  /** The flag is accurate initially and after every move, and edits,
      target changes and adds to a category that is not a default list (the
      only ones that offer adding) keep it accurate. */
  lemma FlagAccuracy(config: Config, shuffled: seq<string>, s: State, action: Action)
    requires Applicable(s, action)
    requires FlagAccurate(s) || action.Move? || action.Reset?
    requires !action.DeleteArgument?
    requires action.AddArgument? ==>
      var k := FindIndex(s.categories, CategoryIdOf, Some(action.categoryId));
      k == -1 || !s.categories[k].isArgumentDefaultList
    ensures FlagAccurate(Reduce(config, shuffled, s, action))
  {
    match action
    case Reset =>
      var t := InitState(config, shuffled);
      InitCategories(config, shuffled);
      if |ArgumentOrder(config, shuffled)| > 0 {
        assert t.categories[0].isArgumentDefaultList && t.categories[0].connectedArguments[0] == 0;
      }
    case AddArgument(categoryId) =>
      var r := Reduce(config, shuffled, s, action);
      var k := FindIndex(s.categories, CategoryIdOf, Some(categoryId));
      if k != -1 {
        if HasRemaining(r.categories) {
          var i :| 0 <= i < |r.categories| && r.categories[i].isArgumentDefaultList && |r.categories[i].connectedArguments| > 0;
          assert s.categories[i] == r.categories[i];
        }
        if HasRemaining(s.categories) {
          var i :| 0 <= i < |s.categories| && s.categories[i].isArgumentDefaultList && |s.categories[i].connectedArguments| > 0;
          assert i != k && s.categories[i] == r.categories[i];
        }
      }
    case SetTargetContainer(container) =>
      var r := Reduce(config, shuffled, s, action);
      if HasRemaining(s.categories) {
        var i :| 0 <= i < |s.categories| && s.categories[i].isArgumentDefaultList && |s.categories[i].connectedArguments| > 0;
        assert r.categories[i].isArgumentDefaultList && |r.categories[i].connectedArguments| > 0;
      }
    case _ =>
  }

  /** A one-argument task starts with the argument in the first default
      list, the second default list empty, and the flag set. */
  lemma InitOneArgument()
    ensures var s := InitState(Config(["a"], [], Bool(false)), []);
      && s.categories == [DefaultList("unprocessed-1", [0]), DefaultList("unprocessed-2", [])]
      && s.hasRemainingUnprocessedArguments
  {
    var config := Config(["a"], [], Bool(false));
    assert ArgumentOrder(config, []) == ["a"];
    assert InitialIds(1) == [0];
    assert ParityIds([0], 0) == [0] && ParityIds([0], 1) == [] by {
      assert [0][..0] == [];
    }
    assert InitState(config, []).categories == InitialDefaultLists(1);
  }

  /** A delete does not recompute the flag: deleting the only argument of a
      one-argument task empties both default lists and leaves the flag set. */
  lemma DeleteKeepsStaleFlag()
    ensures var s := InitState(Config(["a"], [], Bool(false)), []);
      var r := ApplyDelete(s, 0);
      && FlagAccurate(s) && r.hasRemainingUnprocessedArguments
      && |r.categories| == 2 && r.categories[0].isArgumentDefaultList && r.categories[1].isArgumentDefaultList
      && r.categories[0].connectedArguments == [] && r.categories[1].connectedArguments == []
      && !FlagAccurate(r)
  {
    var s := InitState(Config(["a"], [], Bool(false)), []);
    InitOneArgument();
    var cs := s.categories;
    assert cs[0].isArgumentDefaultList && cs[0].connectedArguments == [0];
    assert cs[1].isArgumentDefaultList && cs[1].connectedArguments == [];
    assert HasRemaining(cs);
    var rs := WithoutId(cs, 0);
    assert RemoveAll([0], IdKey, 0) == [];
    assert rs[0].connectedArguments == [] && rs[1].connectedArguments == [];
  }
}
