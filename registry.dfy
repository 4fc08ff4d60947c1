/** The model-version registry of the model manager: per model type, the registered versions
    newest first, the version that serves traffic, and the contents of the active-version
    marker file. Artifacts, metadata files and directories are not modelled; a version is its
    type, id, creation date and the metrics read for it. */
module Registry {
  import opened Common
  import opened Sorting
  import opened Metrics

  /** One registered version. `metadataMetrics` is the `metrics` entry of its metadata file,
      when that entry exists; `metrics` is the content of its metrics file. */
  datatype ModelVersion = ModelVersion(
    modelType: string,
    version: string,
    createdAt: int,
    metadataMetrics: Option<map<string, real>>,
    metrics: map<string, real>)

  /** A metric as `get_accuracy` and `get_f1_score` read it: from the metadata's metrics when
      the metadata has any, else from the metrics file, defaulting to 0. */
  function MetricValue(v: ModelVersion, name: string): (r: real)
    ensures r != 0.0 ==>
      || (v.metadataMetrics.Some? && name in v.metadataMetrics.value && r == v.metadataMetrics.value[name])
      || (v.metadataMetrics.None? && name in v.metrics && r == v.metrics[name])
  {
    match v.metadataMetrics
    case Some(m) => if name in m then m[name] else 0.0
    case None => if name in v.metrics then v.metrics[name] else 0.0
  }

  function Accuracy(v: ModelVersion): real { MetricValue(v, "accuracy") }

  function F1Score(v: ModelVersion): real { MetricValue(v, "f1_score") }

  /** Once the metadata carries a metrics entry, the metrics file is never consulted,
      even for a metric the metadata lacks. */
  lemma MetadataShadowsMetricsFile(v: ModelVersion, file: map<string, real>, name: string)
    requires v.metadataMetrics.Some?
    ensures MetricValue(v.(metrics := file), name) == MetricValue(v, name)
    ensures name !in v.metadataMetrics.value ==> MetricValue(v, name) == 0.0
  {
  }

  /** Sort keys: the registry keeps versions newest first; the performance history is oldest first. */
  function NewestFirstKey(v: ModelVersion): real { -(v.createdAt as real) }

  function CreatedAtKey(v: ModelVersion): real { v.createdAt as real }

  predicate NewestFirst(s: seq<ModelVersion>) { Ascending(s, NewestFirstKey) }

  /** Position of the first version with the given id, as a loop with `break` finds it. */
  function FirstIndex(s: seq<ModelVersion>, version: string): (r: Option<nat>)
    ensures r.Some? ==> r.value < |s| && s[r.value].version == version
    ensures r.Some? ==> forall j :: 0 <= j < r.value ==> s[j].version != version
    ensures r.None? ==> forall j :: 0 <= j < |s| ==> s[j].version != version
  {
    if |s| == 0 then None
    else if s[0].version == version then Some(0)
    else match FirstIndex(s[1..], version)
      case None => None
      case Some(k) => Some(k + 1)
  }

  /** Position of the last version with the given id, as a loop without `break` leaves it. */
  function LastIndex(s: seq<ModelVersion>, version: string): (r: Option<nat>)
    ensures r.Some? ==> r.value < |s| && s[r.value].version == version
    ensures r.Some? ==> forall j :: r.value < j < |s| ==> s[j].version != version
    ensures r.None? ==> forall j :: 0 <= j < |s| ==> s[j].version != version
  {
    if |s| == 0 then None
    else if s[|s| - 1].version == version then Some(|s| - 1)
    else LastIndex(s[..|s| - 1], version)
  }

  /** The loop that `set_active_version`, `delete_version` and `determine_active_versions`
      use to find a version by id. */
  method FindFirst(s: seq<ModelVersion>, version: string) returns (k: Option<nat>)
    ensures k == FirstIndex(s, version)
  {
    var i := 0;
    while i < |s|
      invariant 0 <= i <= |s|
      invariant forall j :: 0 <= j < i ==> s[j].version != version
    {
      if s[i].version == version {
        return Some(i);
      }
      i := i + 1;
    }
    return None;
  }

  function RemoveAt(s: seq<ModelVersion>, i: nat): seq<ModelVersion>
    requires i < |s|
  {
    s[..i] + s[i + 1..]
  }

  lemma RemoveAtKeeps(s: seq<ModelVersion>, i: nat, e: ModelVersion)
    requires i < |s| && e in s && e != s[i]
    ensures e in RemoveAt(s, i)
  {
    var j :| 0 <= j < |s| && s[j] == e;
    if j < i {
      assert RemoveAt(s, i)[j] == e;
    } else {
      assert RemoveAt(s, i)[j - 1] == e;
    }
  }

  lemma RemoveAtSorted(s: seq<ModelVersion>, i: nat)
    requires i < |s| && NewestFirst(s)
    ensures NewestFirst(RemoveAt(s, i))
  {
    var r := RemoveAt(s, i);
    forall a, b | 0 <= a < b < |r| ensures NewestFirstKey(r[a]) <= NewestFirstKey(r[b]) {
      var a' := if a < i then a else a + 1;
      var b' := if b < i then b else b + 1;
      assert r[a] == s[a'] && r[b] == s[b'];
    }
  }

  lemma RemoveAtElement(s: seq<ModelVersion>, i: nat, e: ModelVersion)
    requires i < |s| && e in RemoveAt(s, i)
    ensures e in s
  {
    var j :| 0 <= j < |RemoveAt(s, i)| && RemoveAt(s, i)[j] == e;
    if j < i { assert s[j] == e; } else { assert s[j + 1] == e; }
  }

  /** Inserting a version of type `t` into a newest-first list of type `t` keeps both
      properties and loses no version. */
  lemma InsertKeepsGroup(before: seq<ModelVersion>, mv: ModelVersion, t: string)
    requires NewestFirst(before) && mv.modelType == t
    requires forall v :: v in before ==> v.modelType == t
    ensures NewestFirst(InsertAsc(before, mv, NewestFirstKey))
    ensures forall v :: v in InsertAsc(before, mv, NewestFirstKey) ==> v.modelType == t
    ensures forall v :: v in before ==> v in InsertAsc(before, mv, NewestFirstKey)
  {
    var after := InsertAsc(before, mv, NewestFirstKey);
    InsertAscSorted(before, mv, NewestFirstKey);
    forall v | v in after ensures v.modelType == t {
      ElementOfInsert(after, before, mv, v);
    }
    forall v | v in before ensures v in after {
      assert v in multiset(after);
    }
  }

  /** The registry invariant on values: the key order lists each type once, every list is
      sorted newest first and holds versions of its own type, and every active version is a
      registered version of its type. */
  ghost predicate Grouping(versions: map<string, seq<ModelVersion>>, typeOrder: seq<string>) {
    && (forall t :: t in versions <==> t in typeOrder)
    && (forall i, j :: 0 <= i < j < |typeOrder| ==> typeOrder[i] != typeOrder[j])
    && (forall t :: t in versions ==> NewestFirst(versions[t]))
    && (forall t, v :: t in versions && v in versions[t] ==> v.modelType == t)
  }

  ghost predicate ActiveRegistered(versions: map<string, seq<ModelVersion>>, active: map<string, ModelVersion>) {
    forall t :: t in active ==> t in versions && active[t] in versions[t]
  }

  lemma RegisterKeepsInvariant(versions: map<string, seq<ModelVersion>>, typeOrder: seq<string>,
                               active: map<string, ModelVersion>, mv: ModelVersion,
                               versions': map<string, seq<ModelVersion>>, typeOrder': seq<string>)
    requires Grouping(versions, typeOrder) && ActiveRegistered(versions, active)
    requires var t := mv.modelType;
      var before := if t in versions then versions[t] else [];
      versions' == versions[t := InsertAsc(before, mv, NewestFirstKey)]
    requires typeOrder' == if mv.modelType in versions then typeOrder else typeOrder + [mv.modelType]
    ensures Grouping(versions', typeOrder') && ActiveRegistered(versions', active)
  {
    var t := mv.modelType;
    var before := if t in versions then versions[t] else [];
    var after := InsertAsc(before, mv, NewestFirstKey);
    InsertKeepsGroup(before, mv, t);
    RegisterKeepsOrder(versions, typeOrder, t, after);
    UpdateKeepsGroups(versions, t, after, versions[t := after]);
    UpdateKeepsActive(versions, active, t, after);
  }

  /** Replacing one group by a well-formed group keeps every group well formed. */
  lemma UpdateKeepsGroups(versions: map<string, seq<ModelVersion>>, t: string, group: seq<ModelVersion>,
                          updated: map<string, seq<ModelVersion>>)
    requires updated == versions[t := group]
    requires forall u :: u in versions ==> NewestFirst(versions[u])
    requires forall u, v :: u in versions && v in versions[u] ==> v.modelType == u
    requires NewestFirst(group) && forall v :: v in group ==> v.modelType == t
    ensures forall u :: u in updated ==> NewestFirst(updated[u])
    ensures forall u, v :: u in updated && v in updated[u] ==> v.modelType == u
  {
  }

  /** A group that keeps all of its old versions keeps every active version registered. */
  lemma UpdateKeepsActive(versions: map<string, seq<ModelVersion>>, active: map<string, ModelVersion>,
                          t: string, group: seq<ModelVersion>)
    requires ActiveRegistered(versions, active)
    requires t in versions ==> forall v :: v in versions[t] ==> v in group
    ensures ActiveRegistered(versions[t := group], active)
  {
  }

  /** The key order gains the registered type exactly when the type is new. */
  lemma RegisterKeepsOrder(versions: map<string, seq<ModelVersion>>, typeOrder: seq<string>, t: string, group: seq<ModelVersion>)
    requires forall u :: u in versions <==> u in typeOrder
    requires forall i, j :: 0 <= i < j < |typeOrder| ==> typeOrder[i] != typeOrder[j]
    ensures var typeOrder' := if t in versions then typeOrder else typeOrder + [t];
      && (forall u :: u in versions[t := group] <==> u in typeOrder')
      && (forall i, j :: 0 <= i < j < |typeOrder'| ==> typeOrder'[i] != typeOrder'[j])
  {
  }

  lemma DeleteKeepsInvariant(versions: map<string, seq<ModelVersion>>, typeOrder: seq<string>,
                             active: map<string, ModelVersion>, t: string, k: nat,
                             versions': map<string, seq<ModelVersion>>)
    requires Grouping(versions, typeOrder) && ActiveRegistered(versions, active)
    requires t in versions && k < |versions[t]|
    requires t in active ==> active[t] != versions[t][k]
    requires versions' == versions[t := RemoveAt(versions[t], k)]
    ensures Grouping(versions', typeOrder) && ActiveRegistered(versions', active)
  {
    var s := versions[t];
    RemoveAtSorted(s, k);
    forall v | v in RemoveAt(s, k) ensures v.modelType == t {
      RemoveAtElement(s, k, v);
    }
    if t in active {
      RemoveAtKeeps(s, k, active[t]);
    }
  }

  /** The active version that `active_versions.get(model_type)` yields. */
  function ActiveFor(active: map<string, ModelVersion>, modelType: string): Option<ModelVersion> {
    if modelType in active then Some(active[modelType]) else None
  }

  function PointerOf(pointers: map<string, string>, modelType: string): Option<string> {
    if modelType in pointers then Some(pointers[modelType]) else None
  }

  /** The marker file names a version that exists under the type. */
  predicate HasValidPointer(versions: map<string, seq<ModelVersion>>, pointers: map<string, string>, t: string) {
    t in versions && t in pointers && FirstIndex(versions[t], pointers[t]).Some?
  }

  /** The version `determine_active_versions` settles on for one type: the first version
      whose id the marker names, else the newest, else none. */
  function Resolve(s: seq<ModelVersion>, pointer: Option<string>): (r: Option<ModelVersion>)
    ensures r.None? <==> |s| == 0
    ensures r.Some? ==> r.value in s
  {
    if pointer.Some? && FirstIndex(s, pointer.value).Some? then Some(s[FirstIndex(s, pointer.value).value])
    else if |s| > 0 then Some(s[0])
    else None
  }

  /** The whole active map after `determine_active_versions`: every type with at least one
      version has an active version, and it is one of that type's versions. */
  function ResolveAll(versions: map<string, seq<ModelVersion>>, pointers: map<string, string>): (r: map<string, ModelVersion>)
    ensures forall t :: t in r <==> t in versions && |versions[t]| > 0
    ensures forall t :: t in r ==> r[t] in versions[t]
  {
    map t | t in versions && |versions[t]| > 0 :: Resolve(versions[t], PointerOf(pointers, t)).value
  }

  /** After the marker loop has seen every type outside `pending`. */
  ghost predicate ExplicitChosen(versions: map<string, seq<ModelVersion>>, pointers: map<string, string>,
                                 chosen: map<string, ModelVersion>, pending: set<string>) {
    && (forall t :: t in chosen <==> t !in pending && HasValidPointer(versions, pointers, t))
    && (forall t :: t in chosen ==> chosen[t] == Resolve(versions[t], PointerOf(pointers, t)).value)
  }

  lemma ExplicitStep(versions: map<string, seq<ModelVersion>>, pointers: map<string, string>,
                     chosen: map<string, ModelVersion>, pending: set<string>, t: string)
    requires ExplicitChosen(versions, pointers, chosen, pending) && t in pending && t in pointers
    ensures t in versions && FirstIndex(versions[t], pointers[t]).Some? ==>
      ExplicitChosen(versions, pointers, chosen[t := versions[t][FirstIndex(versions[t], pointers[t]).value]], pending - {t})
    ensures !(t in versions && FirstIndex(versions[t], pointers[t]).Some?) ==>
      ExplicitChosen(versions, pointers, chosen, pending - {t})
  {
  }

  /** After the default loop has seen every type outside `rest`. */
  ghost predicate DefaultChosen(versions: map<string, seq<ModelVersion>>, pointers: map<string, string>,
                                chosen: map<string, ModelVersion>, rest: set<string>) {
    && (forall t :: t in chosen <==> t in versions && (HasValidPointer(versions, pointers, t) || (t !in rest && |versions[t]| > 0)))
    && (forall t :: t in chosen ==> chosen[t] == Resolve(versions[t], PointerOf(pointers, t)).value)
  }

  lemma ExplicitToDefault(versions: map<string, seq<ModelVersion>>, pointers: map<string, string>,
                          chosen: map<string, ModelVersion>)
    requires ExplicitChosen(versions, pointers, chosen, {})
    ensures DefaultChosen(versions, pointers, chosen, versions.Keys)
  {
  }

  lemma DefaultStep(versions: map<string, seq<ModelVersion>>, pointers: map<string, string>,
                    chosen: map<string, ModelVersion>, rest: set<string>, t: string)
    requires DefaultChosen(versions, pointers, chosen, rest) && t in rest && t in versions
    ensures t !in chosen && |versions[t]| > 0 ==>
      DefaultChosen(versions, pointers, chosen[t := versions[t][0]], rest - {t})
    ensures !(t !in chosen && |versions[t]| > 0) ==>
      DefaultChosen(versions, pointers, chosen, rest - {t})
  {
  }

  lemma DefaultDone(versions: map<string, seq<ModelVersion>>, pointers: map<string, string>,
                    chosen: map<string, ModelVersion>)
    requires DefaultChosen(versions, pointers, chosen, {})
    ensures chosen == ResolveAll(versions, pointers)
  {
    var all := ResolveAll(versions, pointers);
    assert chosen.Keys == all.Keys;
  }

  /** Without a valid explicit pointer, the active version is the head of the list,
      which is the newest version of the type. */
  lemma DefaultIsNewest(versions: map<string, seq<ModelVersion>>, pointers: map<string, string>, t: string)
    requires t in versions && |versions[t]| > 0 && NewestFirst(versions[t])
    requires !HasValidPointer(versions, pointers, t)
    ensures t in ResolveAll(versions, pointers)
    ensures ResolveAll(versions, pointers)[t] == versions[t][0]
    ensures forall v :: v in versions[t] ==> v.createdAt <= ResolveAll(versions, pointers)[t].createdAt
  {
    var s := versions[t];
    forall v | v in s ensures v.createdAt <= s[0].createdAt {
      var j :| 0 <= j < |s| && s[j] == v;
      if j > 0 { assert NewestFirstKey(s[0]) <= NewestFirstKey(s[j]); }
    }
  }

  /** With a valid explicit pointer, the active version is the first version with that id. */
  lemma ExplicitPointerWins(versions: map<string, seq<ModelVersion>>, pointers: map<string, string>, t: string)
    requires HasValidPointer(versions, pointers, t)
    ensures t in ResolveAll(versions, pointers)
    ensures ResolveAll(versions, pointers)[t].version == pointers[t]
    ensures ResolveAll(versions, pointers)[t] == versions[t][FirstIndex(versions[t], pointers[t]).value]
  {
  }

  /** The versions of `found` with the given type, in the order they were found. */
  function OfType(found: seq<ModelVersion>, t: string): (r: seq<ModelVersion>)
    ensures forall v :: v in r ==> v in found && v.modelType == t
  {
    if |found| == 0 then []
    else OfType(found[..|found| - 1], t) + (if found[|found| - 1].modelType == t then [found[|found| - 1]] else [])
  }

  /** The model types of the found versions. */
  function TypesIn(found: seq<ModelVersion>): (ts: set<string>)
    ensures forall v :: v in found ==> v.modelType in ts
  {
    if |found| == 0 then {}
    else
      assert found == found[..|found| - 1] + [found[|found| - 1]];
      TypesIn(found[..|found| - 1]) + {found[|found| - 1].modelType}
  }

  lemma {:induction false} OfTypeAbsent(found: seq<ModelVersion>, t: string)
    requires t !in TypesIn(found)
    ensures OfType(found, t) == []
  {
    if |found| > 0 {
      OfTypeAbsent(found[..|found| - 1], t);
    }
  }

  /** Model types in order of first appearance: the key order of the grouping dictionary. */
  function TypeOrder(found: seq<ModelVersion>): (o: seq<string>)
    ensures forall t :: t in o <==> t in TypesIn(found)
    ensures forall i, j :: 0 <= i < j < |o| ==> o[i] != o[j]
  {
    if |found| == 0 then []
    else
      var init := found[..|found| - 1];
      var last := found[|found| - 1];
      var o := TypeOrder(init);
      if last.modelType in o then o else o + [last.modelType]
  }

  /** `groups` holds, per type of `found`, the versions of that type in the order found. */
  ghost predicate GroupsOf(groups: map<string, seq<ModelVersion>>, found: seq<ModelVersion>) {
    groups.Keys == TypesIn(found) && forall t :: t in groups ==> groups[t] == OfType(found, t)
  }

  function AddToGroup(groups: map<string, seq<ModelVersion>>, v: ModelVersion): map<string, seq<ModelVersion>> {
    groups[v.modelType := (if v.modelType in groups then groups[v.modelType] else []) + [v]]
  }

  /** The grouping dictionary after the found versions were appended one by one. */
  function Groups(found: seq<ModelVersion>): map<string, seq<ModelVersion>> {
    if |found| == 0 then map[] else AddToGroup(Groups(found[..|found| - 1]), found[|found| - 1])
  }

  /** Appending the last found version keeps the dictionary grouped by type, and adds its
      type to the key order exactly when the type is new. */
  lemma GroupStep(found: seq<ModelVersion>)
    requires |found| > 0
    requires GroupsOf(Groups(found[..|found| - 1]), found[..|found| - 1])
    ensures GroupsOf(Groups(found), found)
    ensures var init, last := found[..|found| - 1], found[|found| - 1];
      TypeOrder(found) == if last.modelType in Groups(init) then TypeOrder(init) else TypeOrder(init) + [last.modelType]
  {
    GroupStepKeys(found);
    forall t | t in Groups(found) ensures Groups(found)[t] == OfType(found, t) {
      GroupStepValue(found, t);
    }
  }

  lemma GroupStepKeys(found: seq<ModelVersion>)
    requires |found| > 0
    requires Groups(found[..|found| - 1]).Keys == TypesIn(found[..|found| - 1])
    ensures Groups(found).Keys == TypesIn(found)
  {
  }

  lemma GroupStepValue(found: seq<ModelVersion>, t: string)
    requires |found| > 0
    requires GroupsOf(Groups(found[..|found| - 1]), found[..|found| - 1])
    requires t in Groups(found)
    ensures Groups(found)[t] == OfType(found, t)
  {
    var init, last := found[..|found| - 1], found[|found| - 1];
    if t == last.modelType && t !in Groups(init) {
      OfTypeAbsent(init, t);
    }
  }

  lemma {:induction false} GroupsAreByType(found: seq<ModelVersion>)
    ensures GroupsOf(Groups(found), found)
  {
    if |found| > 0 {
      GroupsAreByType(found[..|found| - 1]);
      GroupStep(found);
    }
  }

  /** One iteration of the grouping loop, on the dictionary and on its key order. */
  lemma GroupingLoopStep(found: seq<ModelVersion>, i: nat)
    requires i < |found|
    ensures Groups(found[..i + 1]) == AddToGroup(Groups(found[..i]), found[i])
    ensures TypeOrder(found[..i + 1]) ==
      if found[i].modelType in Groups(found[..i]) then TypeOrder(found[..i]) else TypeOrder(found[..i]) + [found[i].modelType]
  {
    var pre := found[..i + 1];
    assert pre[..|pre| - 1] == found[..i] && pre[|pre| - 1] == found[i];
    GroupsAreByType(found[..i]);
    GroupStep(pre);
  }

  /** The types outside `rest` have their group sorted; those in `rest` still wait. */
  ghost predicate SortedExcept(sorted: map<string, seq<ModelVersion>>, found: seq<ModelVersion>, rest: set<string>) {
    && rest <= sorted.Keys
    && sorted.Keys == TypesIn(found)
    && forall t :: t in sorted ==> sorted[t] == Expected(found, rest, t)
  }

  /** What the entry for `t` holds while the groups in `rest` are still unsorted. */
  ghost function Expected(found: seq<ModelVersion>, rest: set<string>, t: string): seq<ModelVersion> {
    if t in rest then OfType(found, t) else SortAsc(OfType(found, t), NewestFirstKey)
  }

  lemma SortStep(sorted: map<string, seq<ModelVersion>>, found: seq<ModelVersion>, rest: set<string>, t: string)
    requires SortedExcept(sorted, found, rest) && t in rest
    ensures SortedExcept(sorted[t := SortAsc(sorted[t], NewestFirstKey)], found, rest - {t})
  {
    var sorted' := sorted[t := SortAsc(sorted[t], NewestFirstKey)];
    assert sorted'.Keys == sorted.Keys;
    forall u | u in sorted' ensures sorted'[u] == Expected(found, rest - {t}, u) {
      if u == t {
        assert sorted[t] == Expected(found, rest, t) == OfType(found, t);
      } else {
        assert sorted'[u] == sorted[u] == Expected(found, rest, u);
        assert (u in rest - {t}) == (u in rest);
      }
    }
  }

  lemma SortedExceptNothing(sorted: map<string, seq<ModelVersion>>, found: seq<ModelVersion>)
    requires SortedExcept(sorted, found, {})
    ensures sorted == Grouped(found)
  {
  }

  /** `load_model_versions`: versions grouped by type, each group sorted newest first. */
  function Grouped(found: seq<ModelVersion>): (g: map<string, seq<ModelVersion>>)
    ensures g.Keys == TypesIn(found)
  {
    map t | t in TypesIn(found) :: SortAsc(OfType(found, t), NewestFirstKey)
  }

  lemma GroupedWellFormed(found: seq<ModelVersion>, t: string)
    requires t in Grouped(found)
    ensures NewestFirst(Grouped(found)[t])
    ensures forall v :: v in Grouped(found)[t] ==> v.modelType == t
  {
    var group := SortAsc(OfType(found, t), NewestFirstKey);
    assert Grouped(found)[t] == group;
    SortAscSorted(OfType(found, t), NewestFirstKey);
    forall v | v in group ensures v.modelType == t {
      SortedElement(OfType(found, t), NewestFirstKey, v);
    }
  }

  lemma GroupedInvariant(found: seq<ModelVersion>)
    ensures Grouping(Grouped(found), TypeOrder(found))
  {
    forall t | t in Grouped(found) ensures NewestFirst(Grouped(found)[t]) && forall v :: v in Grouped(found)[t] ==> v.modelType == t {
      GroupedWellFormed(found, t);
    }
  }

  /** Scenario: two versions of "sim", the later one registered second, no marker:
      the later one becomes active. */
  lemma DefaultActiveScenario(v1: ModelVersion, v2: ModelVersion)
    requires v1.modelType == "sim" && v2.modelType == "sim"
    requires v1.createdAt < v2.createdAt
    ensures var versions := Grouped([v1, v2]);
      "sim" in ResolveAll(versions, map[]) && ResolveAll(versions, map[])["sim"] == v2
  {
    ScenarioGrouped(v1, v2);
    var versions := Grouped([v1, v2]);
    assert Resolve(versions["sim"], PointerOf(map[], "sim")) == Some(v2);
  }

  lemma ScenarioGrouped(v1: ModelVersion, v2: ModelVersion)
    requires v1.modelType == "sim" && v2.modelType == "sim"
    requires v1.createdAt < v2.createdAt
    ensures Grouped([v1, v2]).Keys == {"sim"}
    ensures Grouped([v1, v2])["sim"] == [v2, v1]
  {
    ScenarioTypes(v1, v2);
    ScenarioOfType(v1, v2);
    ScenarioSorted(v1, v2);
  }

  lemma ScenarioTypes(v1: ModelVersion, v2: ModelVersion)
    requires v1.modelType == "sim" && v2.modelType == "sim"
    ensures TypesIn([v1, v2]) == {"sim"}
  {
    assert [v1, v2][..1] == [v1];
    assert [v1][..0] == [];
    assert TypesIn([v1]) == {"sim"};
  }

  lemma ScenarioOfType(v1: ModelVersion, v2: ModelVersion)
    requires v1.modelType == "sim" && v2.modelType == "sim"
    ensures OfType([v1, v2], "sim") == [v1, v2]
  {
    assert [v1, v2][..1] == [v1];
    assert [v1][..0] == [];
    assert OfType([v1], "sim") == [v1];
  }

  lemma ScenarioSorted(v1: ModelVersion, v2: ModelVersion)
    requires v1.createdAt < v2.createdAt
    ensures SortAsc([v1, v2], NewestFirstKey) == [v2, v1]
  {
    assert [v1, v2][..1] == [v1];
    assert [v1][..0] == [];
    assert SortAsc([v1], NewestFirstKey) == [v1];
    assert PrefixAtMost([v1], NewestFirstKey(v2), NewestFirstKey) == 0;
    assert InsertAsc([v1], v2, NewestFirstKey) == [v2, v1];
  }

  /** One row of `list_versions`: the version and whether it is the active one. */
  datatype Listed = Listed(version: ModelVersion, isActive: bool)

  function ListingOf(s: seq<ModelVersion>, current: Option<ModelVersion>): (r: seq<Listed>)
    ensures |r| == |s|
    ensures forall i :: 0 <= i < |s| ==> r[i].version == s[i] && (r[i].isActive <==> current == Some(s[i]))
  {
    if |s| == 0 then []
    else ListingOf(s[..|s| - 1], current) + [Listed(s[|s| - 1], current == Some(s[|s| - 1]))]
  }

  function ListingAll(order: seq<string>, versions: map<string, seq<ModelVersion>>, active: map<string, ModelVersion>): seq<Listed>
    requires forall t :: t in order ==> t in versions
  {
    if |order| == 0 then []
    else
      var t := order[|order| - 1];
      ListingAll(order[..|order| - 1], versions, active) + ListingOf(versions[t], ActiveFor(active, t))
  }

  /** A type with an active version has that version flagged in its listing, and only it. */
  lemma ListingFlagsActive(s: seq<ModelVersion>, current: Option<ModelVersion>)
    requires current.Some? ==> current.value in s
    ensures (exists i :: 0 <= i < |s| && ListingOf(s, current)[i].isActive) <==> current.Some?
    ensures forall i :: 0 <= i < |s| && ListingOf(s, current)[i].isActive ==> Some(s[i]) == current
  {
    if current.Some? {
      var i :| 0 <= i < |s| && s[i] == current.value;
      assert ListingOf(s, current)[i].isActive;
    }
  }

  /** One point of `get_model_performance_history`. */
  datatype DataPoint = DataPoint(version: string, createdAt: int, accuracy: real, f1Score: real)

  function PointOf(v: ModelVersion): DataPoint {
    DataPoint(v.version, v.createdAt, Accuracy(v), F1Score(v))
  }

  /** The points of the versions that have metrics, in the given order. */
  function HistoryOf(s: seq<ModelVersion>): (h: seq<DataPoint>)
    ensures |h| <= |s|
  {
    if |s| == 0 then []
    else HistoryOf(s[..|s| - 1]) + (if |s[|s| - 1].metrics| > 0 then [PointOf(s[|s| - 1])] else [])
  }

  /** The history holds a point for exactly the versions that have metrics. */
  lemma {:induction false} HistoryContents(s: seq<ModelVersion>)
    ensures forall p :: p in HistoryOf(s) ==> exists v :: v in s && |v.metrics| > 0 && p == PointOf(v)
    ensures forall v :: v in s && |v.metrics| > 0 ==> PointOf(v) in HistoryOf(s)
  {
    if |s| > 0 {
      var init := s[..|s| - 1];
      assert s == init + [s[|s| - 1]];
      HistoryContents(init);
    }
  }

  /** Taken over versions sorted by creation date, the history is in chronological order. */
  lemma {:induction false} HistoryChronological(s: seq<ModelVersion>)
    requires Ascending(s, CreatedAtKey)
    ensures forall i, j :: 0 <= i < j < |HistoryOf(s)| ==> HistoryOf(s)[i].createdAt <= HistoryOf(s)[j].createdAt
  {
    if |s| > 0 {
      var init := s[..|s| - 1];
      var last := s[|s| - 1];
      assert Ascending(init, CreatedAtKey);
      HistoryChronological(init);
      HistoryContents(init);
      var h := HistoryOf(init);
      forall i | 0 <= i < |h| ensures h[i].createdAt <= last.createdAt {
        assert h[i] in h;
        var v :| v in init && |v.metrics| > 0 && h[i] == PointOf(v);
        var k :| 0 <= k < |init| && init[k] == v;
        assert CreatedAtKey(s[k]) <= CreatedAtKey(s[|s| - 1]);
      }
    }
  }

  /** The `differences` of `compare_versions` for two found versions. */
  datatype Comparison = Comparison(version1: ModelVersion, version2: ModelVersion, accuracy: Difference, f1Score: Difference)

  function ComparisonOf(a: ModelVersion, b: ModelVersion): Comparison {
    Comparison(a, b, Compare(Accuracy(a), Accuracy(b)), Compare(F1Score(a), F1Score(b)))
  }

  /** `ModelManager`: `model_versions` is `versions` (its key order is `typeOrder`),
      `active_versions` is `active`, and `pointers` is the content of the active-version
      marker file. */
  class ModelManager {
    var versions: map<string, seq<ModelVersion>>
    var typeOrder: seq<string>
    var active: map<string, ModelVersion>
    var pointers: map<string, string>

    ghost predicate WellGrouped()
      reads this
    {
      Grouping(versions, typeOrder)
    }

    ghost predicate Valid()
      reads this
    {
      Grouping(versions, typeOrder) && ActiveRegistered(versions, active)
    }

    /** `__init__` with `load_model_versions`: `found` are the versions whose metadata could
        be read, in directory order; `pointerFile` is the marker file. */
    constructor Load(found: seq<ModelVersion>, pointerFile: map<string, string>)
      ensures Valid()
      ensures versions == Grouped(found) && typeOrder == TypeOrder(found)
      ensures pointers == pointerFile
      ensures active == ResolveAll(versions, pointers)
    {
      var groups, order := GroupByType(found);
      GroupsAreByType(found);
      groups := SortGroups(found, groups);
      versions := groups;
      typeOrder := order;
      pointers := pointerFile;
      active := map[];
      new;
      GroupedInvariant(found);
      DetermineActiveVersions();
    }

    /** The grouping loop of `load_model_versions`: append each found version to its type's list. */
    static method GroupByType(found: seq<ModelVersion>) returns (groups: map<string, seq<ModelVersion>>, order: seq<string>)
      ensures groups == Groups(found)
      ensures order == TypeOrder(found)
    {
      groups := map[];
      order := [];
      var i := 0;
      while i < |found|
        invariant 0 <= i <= |found|
        invariant groups == Groups(found[..i])
        invariant order == TypeOrder(found[..i])
      {
        var v := found[i];
        GroupingLoopStep(found, i);
        if v.modelType !in groups {
          order := order + [v.modelType];
        }
        groups := AddToGroup(groups, v);
        i := i + 1;
      }
      assert found[..|found|] == found;
    }

    /** The sorting loop of `load_model_versions`: each type's list newest first. */
    static method SortGroups(ghost found: seq<ModelVersion>, groups: map<string, seq<ModelVersion>>)
      returns (sorted: map<string, seq<ModelVersion>>)
      requires GroupsOf(groups, found)
      ensures sorted == Grouped(found)
    {
      sorted := groups;
      var rest := groups.Keys;
      while rest != {}
        invariant SortedExcept(sorted, found, rest)
        decreases rest
      {
        var t :| t in rest;
        SortStep(sorted, found, rest, t);
        sorted := sorted[t := SortAsc(sorted[t], NewestFirstKey)];
        rest := rest - {t};
      }
      SortedExceptNothing(sorted, found);
    }

    /** `determine_active_versions`: first the types whose marker names an existing version,
        then every other type with versions gets its newest one. */
    method DetermineActiveVersions()
      requires WellGrouped()
      modifies this`active
      ensures Valid()
      ensures active == ResolveAll(versions, pointers)
    {
      var chosen: map<string, ModelVersion> := map[];
      var pending := pointers.Keys;
      while pending != {}
        invariant pending <= pointers.Keys
        invariant ExplicitChosen(versions, pointers, chosen, pending)
        decreases pending
      {
        var t :| t in pending;
        ExplicitStep(versions, pointers, chosen, pending, t);
        if t in versions {
          var k := FindFirst(versions[t], pointers[t]);
          if k.Some? {
            chosen := chosen[t := versions[t][k.value]];
          }
        }
        pending := pending - {t};
      }
      var rest := versions.Keys;
      ExplicitToDefault(versions, pointers, chosen);
      while rest != {}
        invariant rest <= versions.Keys
        invariant DefaultChosen(versions, pointers, chosen, rest)
        decreases rest
      {
        var t :| t in rest;
        DefaultStep(versions, pointers, chosen, rest, t);
        if t !in chosen && |versions[t]| > 0 {
          chosen := chosen[t := versions[t][0]];
        }
        rest := rest - {t};
      }
      DefaultDone(versions, pointers, chosen);
      active := chosen;
    }

    /** `get_active_version`. */
    function GetActiveVersion(modelType: string): (r: Option<ModelVersion>)
      reads this
      requires Valid()
      ensures r.None? <==> modelType !in active
      ensures r.Some? ==> modelType in versions && r.value in versions[modelType] && r.value.modelType == modelType
    {
      ActiveFor(active, modelType)
    }

    /** `set_active_version`: fails for an unknown type or id; otherwise points the type at
        the first version with that id, in memory and in the marker file. */
    method SetActiveVersion(modelType: string, version: string) returns (ok: bool)
      requires Valid()
      modifies this`active, this`pointers
      ensures Valid()
      ensures ok <==> modelType in versions && FirstIndex(versions[modelType], version).Some?
      ensures ok ==> active == old(active)[modelType := versions[modelType][FirstIndex(versions[modelType], version).value]]
      ensures ok ==> pointers == old(pointers)[modelType := version]
      ensures ok ==> GetActiveVersion(modelType).Some? && GetActiveVersion(modelType).value.version == version
      ensures !ok ==> active == old(active) && pointers == old(pointers)
    {
      if modelType !in versions {
        return false;
      }
      var k := FindFirst(versions[modelType], version);
      if k.None? {
        return false;
      }
      active := active[modelType := versions[modelType][k.value]];
      pointers := pointers[modelType := version];
      return true;
    }

    /** `delete_version`: fails for an unknown type or id and for the active version;
        otherwise removes the first version with that id and keeps the rest in order. */
    method DeleteVersion(modelType: string, version: string) returns (ok: bool)
      requires Valid()
      modifies this`versions
      ensures Valid()
      ensures ok <==> && modelType in old(versions)
                      && FirstIndex(old(versions)[modelType], version).Some?
                      && !(modelType in active && active[modelType].version == version)
      ensures ok ==> versions == old(versions)[modelType := RemoveAt(old(versions)[modelType], FirstIndex(old(versions)[modelType], version).value)]
      ensures !ok ==> versions == old(versions)
    {
      if modelType !in versions {
        return false;
      }
      var s := versions[modelType];
      var k := FindFirst(s, version);
      if k.None? {
        return false;
      }
      if modelType in active && active[modelType].version == version {
        return false;
      }
      ghost var versions0 := versions;
      versions := versions[modelType := RemoveAt(s, k.value)];
      DeleteKeepsInvariant(versions0, typeOrder, active, modelType, k.value, versions);
      return true;
    }

    /** The in-memory part of `register_external_model`: a version with id "v" + the
        formatted clock reading is appended and the type's list sorted again newest first,
        which places it behind every version at least as new. The active map is untouched. */
    method RegisterExternalModel(modelType: string, stamp: string, createdAt: int,
                                 metadataMetrics: Option<map<string, real>>, metrics: map<string, real>)
      returns (mv: ModelVersion)
      requires Valid()
      modifies this`versions, this`typeOrder
      ensures Valid()
      ensures mv == ModelVersion(modelType, "v" + stamp, createdAt, metadataMetrics, metrics)
      ensures var before := if modelType in old(versions) then old(versions)[modelType] else [];
        versions == old(versions)[modelType := InsertAsc(before, mv, NewestFirstKey)]
      ensures typeOrder == if modelType in old(versions) then old(typeOrder) else old(typeOrder) + [modelType]
    {
      mv := ModelVersion(modelType, "v" + stamp, createdAt, metadataMetrics, metrics);
      ghost var versions0, typeOrder0 := versions, typeOrder;
      var before := if modelType in versions then versions[modelType] else [];
      SortAfterAppend(before, mv, NewestFirstKey);
      if modelType !in versions {
        typeOrder := typeOrder + [modelType];
      }
      versions := versions[modelType := SortAsc(before + [mv], NewestFirstKey)];
      RegisterKeepsInvariant(versions0, typeOrder0, active, mv, versions, typeOrder);
    }

    /** `list_versions`: one type's versions in order, or, for no type or an empty name,
        every type's versions in the dictionary's key order. */
    method ListVersions(modelType: Option<string>) returns (r: seq<Listed>)
      requires Valid()
      ensures modelType.Some? && modelType.value != "" ==>
        r == if modelType.value in versions then ListingOf(versions[modelType.value], ActiveFor(active, modelType.value)) else []
      ensures modelType.None? || modelType.value == "" ==> r == ListingAll(typeOrder, versions, active)
    {
      if modelType.Some? && modelType.value != "" {
        var t := modelType.value;
        var s := if t in versions then versions[t] else [];
        r := ListOne(s, ActiveFor(active, t));
      } else {
        r := [];
        var i := 0;
        while i < |typeOrder|
          invariant 0 <= i <= |typeOrder|
          invariant r == ListingAll(typeOrder[..i], versions, active)
        {
          var t := typeOrder[i];
          assert typeOrder[..i + 1][..i] == typeOrder[..i];
          var part := ListOne(versions[t], ActiveFor(active, t));
          r := r + part;
          i := i + 1;
        }
        assert typeOrder[..|typeOrder|] == typeOrder;
      }
    }

    /** The inner loop of `list_versions` over one type's versions. */
    static method ListOne(s: seq<ModelVersion>, current: Option<ModelVersion>) returns (r: seq<Listed>)
      ensures r == ListingOf(s, current)
    {
      r := [];
      var i := 0;
      while i < |s|
        invariant 0 <= i <= |s|
        invariant r == ListingOf(s[..i], current)
      {
        assert s[..i + 1][..i] == s[..i];
        r := r + [Listed(s[i], current == Some(s[i]))];
        i := i + 1;
      }
      assert s[..|s|] == s;
    }

    /** `get_model_performance_history`: the type's versions oldest first (a stable sort of
        the newest-first list), skipping those without metrics. */
    method GetModelPerformanceHistory(modelType: string) returns (history: seq<DataPoint>)
      ensures modelType !in versions ==> history == []
      ensures modelType in versions ==> history == HistoryOf(SortAsc(versions[modelType], CreatedAtKey))
    {
      if modelType !in versions {
        return [];
      }
      var sorted := SortAsc(versions[modelType], CreatedAtKey);
      history := CollectHistory(sorted);
    }

    /** The loop of `get_model_performance_history` over the sorted versions. */
    static method CollectHistory(sorted: seq<ModelVersion>) returns (history: seq<DataPoint>)
      ensures history == HistoryOf(sorted)
    {
      history := [];
      var i := 0;
      while i < |sorted|
        invariant 0 <= i <= |sorted|
        invariant history == HistoryOf(sorted[..i])
      {
        assert sorted[..i + 1][..i] == sorted[..i];
        if |sorted[i].metrics| > 0 {
          history := history + [PointOf(sorted[i])];
        }
        i := i + 1;
      }
      assert sorted[..|sorted|] == sorted;
    }

    /** `compare_versions`: the scan keeps the last version with each id, and because of
        its `elif` a version compared with itself is reported as "version2 not found". */
    method CompareVersions(modelType: string, version1: string, version2: string) returns (r: Result<Comparison>)
      ensures modelType !in versions ==> r == Err(ModelTypeNotFound(modelType))
      ensures modelType in versions ==>
        var s := versions[modelType];
        && (r.Ok? <==> LastIndex(s, version1).Some? && version1 != version2 && LastIndex(s, version2).Some?)
        && (r.Ok? ==> r.value == ComparisonOf(s[LastIndex(s, version1).value], s[LastIndex(s, version2).value]))
        && (r.Err? ==> r.error == if LastIndex(s, version1).None? then VersionNotFound(version1) else VersionNotFound(version2))
    {
      if modelType !in versions {
        return Err(ModelTypeNotFound(modelType));
      }
      var s := versions[modelType];
      var i1: Option<nat> := None;
      var i2: Option<nat> := None;
      var i := 0;
      while i < |s|
        invariant 0 <= i <= |s|
        invariant i1 == LastIndex(s[..i], version1)
        invariant i2 == if version1 == version2 then None else LastIndex(s[..i], version2)
      {
        assert s[..i + 1][..i] == s[..i];
        if s[i].version == version1 {
          i1 := Some(i);
        } else if s[i].version == version2 {
          i2 := Some(i);
        }
        i := i + 1;
      }
      assert s[..|s|] == s;
      if i1.None? {
        return Err(VersionNotFound(version1));
      }
      if i2.None? {
        return Err(VersionNotFound(version2));
      }
      return Ok(ComparisonOf(s[i1.value], s[i2.value]));
    }
  }
}
