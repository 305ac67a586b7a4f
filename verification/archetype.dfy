/**
 * `Archetype` (ecs/entities/archetype.rs): the entities that share one set of component
 * types, one `ComponentsData` column per type, and the query-filter predicates evaluated
 * against its type list. Archetypes are modelled as values: `InsertEntity` and
 * `RemoveEntity` return the updated archetype.
 */
module Archetypes {
  import opened Wrappers
  import opened Ids
  import opened Components
  import opened Seqs

  /** `TypedComponentData`: a component row with its type. */
  datatype TypedComponent<V> = TypedComponent(typeId: TypeId, row: Row<V>)

  /** `RemovedEntity`: the entity moved into the vacated slot, if any, and the removed rows. */
  datatype RemovedEntity<V> = RemovedEntity(swapped: Option<EntityId>, components: seq<TypedComponent<V>>)

  /** `QueryComponentType`: a queried type that is required, or merely optional. */
  datatype QueryComponentType = Normal(typeId: TypeId) | Optional(typeId: TypeId)

  function TypesOf<V>(cs: seq<TypedComponent<V>>): (ts: seq<TypeId>)
    ensures |ts| == |cs| && forall k :: 0 <= k < |cs| ==> ts[k] == cs[k].typeId
  {
    seq(|cs|, k requires 0 <= k < |cs| => cs[k].typeId)
  }

  datatype Archetype<V> = Archetype(
    id: ArchetypeId,
    /** Component types, sorted; type `i` is stored in column `i`. */
    types: seq<TypeId>,
    entityIds: seq<EntityId>,
    columns: seq<Column<V>>)
  {
    ghost predicate Valid() {
      StrictlySorted(types)
      && |columns| == |types|
      && forall k :: 0 <= k < |columns| ==>
        columns[k].typeId == types[k] && columns[k].Aligned() && columns[k].Len() == |entityIds|
    }

    /** `len`: the number of entities. */
    function Len(): nat {
      |entityIds|
    }

    /** `has_entity`: the location names this archetype and the slot holds `e`. */
    predicate HasEntity(e: EntityId, loc: EntityLocation) {
      id == loc.archetypeId && loc.index < |entityIds| && entityIds[loc.index] == e
    }
  }

  /** `try_component_index`: the column of the first type equal to `t`, if any. */
  function TryComponentIndex(types: seq<TypeId>, t: TypeId): (r: Option<nat>)
    ensures r.Some? <==> t in types
    ensures r.Some? ==> r.value < |types| && types[r.value] == t && t !in types[..r.value]
  {
    if types == [] then None
    else if types[0] == t then Some(0)
    else match TryComponentIndex(types[1..], t)
      case None => None
      case Some(i) =>
        assert types[..i + 1] == [types[0]] + types[1..][..i];
        Some(i + 1)
  }

  /** In a duplicate-free type list, the index found for `types[k]` is `k`. */
  lemma IndexOfDistinct(types: seq<TypeId>, k: nat)
    requires Distinct(types) && k < |types|
    ensures TryComponentIndex(types, types[k]) == Some(k)
  {
    var r := TryComponentIndex(types, types[k]).value;
    assert types[r] == types[k];
  }

  /** `component_index`: panics when the type is not in the archetype. */
  function ComponentIndex(types: seq<TypeId>, t: TypeId): (r: Result<nat>)
    ensures r.Ok? <==> t in types
    ensures r.Ok? ==> r.value < |types| && types[r.value] == t
  {
    match TryComponentIndex(types, t)
    case Some(i) => Ok(i)
    case None => Panic("Component type not found in archetype")
  }

  /** `has_type`. */
  predicate HasType(types: seq<TypeId>, t: TypeId)
    ensures HasType(types, t) <==> t in types
  {
    TryComponentIndex(types, t).Some?
  }

  /** `has_types`: every listed type is present. */
  predicate HasTypes(types: seq<TypeId>, ts: seq<TypeId>)
    ensures HasTypes(types, ts) <==> forall t :: t in ts ==> t in types
  {
    forall k :: 0 <= k < |ts| ==> HasType(types, ts[k])
  }

  /** `has_types_all`: the same number of types, each of them present. */
  predicate HasTypesAll(types: seq<TypeId>, ts: seq<TypeId>) {
    |types| == |ts| && HasTypes(types, ts)
  }

  /** `has_types_any`: some listed type is present; false for an empty list. */
  predicate HasTypesAny(types: seq<TypeId>, ts: seq<TypeId>)
    ensures HasTypesAny(types, ts) <==> exists t :: t in ts && t in types
  {
    exists k :: 0 <= k < |ts| && HasType(types, ts[k])
  }

  /** `has_query_types`: optional entries are ignored, every required entry must be present. */
  predicate HasQueryTypes(types: seq<TypeId>, qs: seq<QueryComponentType>)
    ensures HasQueryTypes(types, qs) <==> forall q :: q in qs && q.Normal? ==> q.typeId in types
  {
    forall k :: 0 <= k < |qs| ==> match qs[k]
      case Normal(t) => HasType(types, t)
      case Optional(_) => true
  }

  function Elems<T>(s: seq<T>): set<T> {
    set x | x in s
  }

  lemma {:induction false} DistinctCardinality<T>(s: seq<T>)
    requires Distinct(s)
    ensures |Elems(s)| == |s|
  {
    if s != [] {
      assert Distinct(s[1..]);
      DistinctCardinality(s[1..]);
      assert Elems(s) == Elems(s[1..]) + {s[0]};
    }
  }

  lemma SubsetOfSameSize<T>(b: set<T>, a: set<T>)
    requires b <= a && |b| == |a|
    ensures a == b
  {
    var d := a - b;
    assert a == d + b && d * b == {};
    assert |d| == 0;
  }

  /**
   * On duplicate-free lists, `has_types_all` holds exactly when both lists hold the same
   * set of types.
   */
  lemma HasTypesAllIsSameSet(types: seq<TypeId>, ts: seq<TypeId>)
    requires Distinct(types) && Distinct(ts)
    ensures HasTypesAll(types, ts) <==> Elems(types) == Elems(ts)
  {
    var a, b := Elems(types), Elems(ts);
    DistinctCardinality(types);
    DistinctCardinality(ts);
    if HasTypesAll(types, ts) {
      assert b <= a;
      SubsetOfSameSize(b, a);
    }
    if a == b {
      assert |types| == |ts|;
      forall t | t in ts ensures t in types {
        assert t in b;
      }
    }
  }

  /** The sort key of components ordered by their type id. */
  function ComponentOrder<V>(c: TypedComponent<V>): int {
    c.typeId
  }

  lemma TypesOfConcat<V>(a: seq<TypedComponent<V>>, b: seq<TypedComponent<V>>)
    ensures TypesOf(a + b) == TypesOf(a) + TypesOf(b)
  {
  }

  lemma {:induction false} TypesOfInsert<V>(c: TypedComponent<V>, cs: seq<TypedComponent<V>>)
    ensures TypesOf(InsertByKey(c, cs, ComponentOrder)) == InsertByKey(c.typeId, TypesOf(cs), Identity)
  {
    if cs == [] {
    } else if ComponentOrder(c) <= ComponentOrder(cs[0]) {
      TypesOfConcat([c], cs);
    } else {
      assert cs == [cs[0]] + cs[1..];
      TypesOfConcat([cs[0]], cs[1..]);
      TypesOfInsert(c, cs[1..]);
      TypesOfConcat([cs[0]], InsertByKey(c, cs[1..], ComponentOrder));
    }
  }

  /** Sorting components by type id sorts their type list the same way. */
  lemma {:induction false} TypesOfSort<V>(cs: seq<TypedComponent<V>>)
    ensures TypesOf(SortByKey(cs, ComponentOrder)) == SortByKey(TypesOf(cs), Identity)
  {
    if cs != [] {
      assert cs == [cs[0]] + cs[1..];
      TypesOfConcat([cs[0]], cs[1..]);
      TypesOfSort(cs[1..]);
      TypesOfInsert(cs[0], SortByKey(cs[1..], ComponentOrder));
    }
  }

  /** The row of the component of type `t` in a list of components, if there is one. */
  function FindType<V>(cs: seq<TypedComponent<V>>, t: TypeId): (r: Option<Row<V>>)
    ensures r.Some? <==> t in TypesOf(cs)
    ensures r.Some? ==> TypedComponent(t, r.value) in cs
  {
    if cs == [] then None
    else if cs[0].typeId == t then Some(cs[0].row)
    else
      assert TypesOf(cs) == [cs[0].typeId] + TypesOf(cs[1..]) by {
        assert cs == [cs[0]] + cs[1..];
        TypesOfConcat([cs[0]], cs[1..]);
      }
      FindType(cs[1..], t)
  }

  /** With one component per type, the row found for a component's type is its own. */
  lemma {:induction false} FindTypeDistinct<V>(cs: seq<TypedComponent<V>>, k: nat)
    requires Distinct(TypesOf(cs)) && k < |cs|
    ensures FindType(cs, cs[k].typeId) == Some(cs[k].row)
  {
    if k > 0 {
      assert TypesOf(cs)[0] != TypesOf(cs)[k];
      assert TypesOf(cs[1..]) == TypesOf(cs)[1..];
      assert cs[k] == cs[1..][k - 1];
      FindTypeDistinct(cs[1..], k - 1);
    }
  }

  /** With one component per type, the lookup depends only on the multiset of components. */
  lemma FindTypePermutation<V>(cs: seq<TypedComponent<V>>, ds: seq<TypedComponent<V>>, t: TypeId)
    requires multiset(cs) == multiset(ds)
    requires Distinct(TypesOf(cs)) && Distinct(TypesOf(ds))
    ensures FindType(cs, t) == FindType(ds, t)
  {
    if FindType(cs, t).Some? {
      var c := TypedComponent(t, FindType(cs, t).value);
      assert c in multiset(ds);
      var j :| 0 <= j < |ds| && ds[j] == c;
      FindTypeDistinct(ds, j);
    }
    if FindType(ds, t).Some? {
      var d := TypedComponent(t, FindType(ds, t).value);
      assert d in multiset(cs);
      var j :| 0 <= j < |cs| && cs[j] == d;
      FindTypeDistinct(cs, j);
    }
  }

  /** Appending a component of a new type adds exactly that type's row to the lookup. */
  lemma {:induction false} FindTypeAppend<V>(cs: seq<TypedComponent<V>>, x: TypedComponent<V>, t: TypeId)
    requires x.typeId !in TypesOf(cs)
    ensures FindType(cs + [x], t) == if t == x.typeId then Some(x.row) else FindType(cs, t)
  {
    if cs == [] {
      assert [] + [x] == [x];
    } else {
      assert (cs + [x])[0] == cs[0] && (cs + [x])[1..] == cs[1..] + [x];
      assert TypesOf(cs[1..]) == TypesOf(cs)[1..];
      FindTypeAppend(cs[1..], x, t);
    }
  }

  /** Dropping the component at `i` removes exactly its type from the lookup. */
  lemma FindTypeRemoveAt<V>(cs: seq<TypedComponent<V>>, i: nat, t: TypeId)
    requires Distinct(TypesOf(cs)) && i < |cs|
    ensures Distinct(TypesOf(RemoveAt(cs, i)))
    ensures FindType(RemoveAt(cs, i), t) == if t == cs[i].typeId then None else FindType(cs, t)
  {
    var r := RemoveAt(cs, i);
    assert forall k :: 0 <= k < |r| ==> r[k] == cs[if k < i then k else k + 1];
    assert Distinct(TypesOf(r)) by {
      forall a, b | 0 <= a < b < |r| ensures TypesOf(r)[a] != TypesOf(r)[b] {
        assert TypesOf(r)[a] == TypesOf(cs)[if a < i then a else a + 1];
        assert TypesOf(r)[b] == TypesOf(cs)[if b < i then b else b + 1];
      }
    }
    if t == cs[i].typeId {
      forall k | 0 <= k < |r| ensures TypesOf(r)[k] != t {
        assert TypesOf(r)[k] == TypesOf(cs)[if k < i then k else k + 1];
      }
    } else if FindType(cs, t).Some? {
      var k :| 0 <= k < |cs| && TypesOf(cs)[k] == t;
      FindTypeDistinct(cs, k);
      var k' := if k < i then k else k - 1;
      assert r[k'] == cs[k];
      FindTypeDistinct(r, k');
    } else {
      forall k | 0 <= k < |r| ensures TypesOf(r)[k] != t {
        assert TypesOf(r)[k] == TypesOf(cs)[if k < i then k else k + 1];
      }
    }
  }

  function EmptyColumns<V>(types: seq<TypeId>): (cs: seq<Column<V>>)
    ensures |cs| == |types|
    ensures forall k :: 0 <= k < |cs| ==> cs[k] == Empty(types[k])
  {
    seq(|types|, k requires 0 <= k < |types| => Empty(types[k]))
  }

  /**
   * `new` as written: the types are sorted and one empty column is made per type. The
   * duplicate check compares the length before and after a sort, which never changes it,
   * so duplicate types are accepted.
   */
  function NewAsWritten<V>(id: ArchetypeId, infos: seq<TypeId>): (r: Result<Archetype<V>>)
    ensures r.Ok?
  {
    var sorted := SortByKey(infos, Identity);
    if |sorted| == |infos| then Ok(Archetype(id, sorted, [], EmptyColumns(sorted)))
    else Panic("Duplicate types in archetype")
  }

  /** Two components of one type pass the check and give an archetype with two such columns. */
  lemma NewAsWrittenAcceptsDuplicates<V>(id: ArchetypeId, t: TypeId)
    ensures NewAsWritten<V>(id, [t, t]).Ok?
    ensures NewAsWritten<V>(id, [t, t]).value.types == [t, t]
    ensures !NewAsWritten<V>(id, [t, t]).value.Valid()
  {
    var sorted := SortByKey([t, t], Identity);
    assert multiset(sorted) == multiset{t, t};
    assert sorted[0] in multiset(sorted) && sorted[1] in multiset(sorted);
  }

  /**
   * `new` with the duplicate check it evidently intends: panics on duplicate types;
   * otherwise the types are sorted and type `i` maps to column `i`, one column per type.
   */
  function New<V>(id: ArchetypeId, infos: seq<TypeId>): (r: Result<Archetype<V>>)
    ensures r.Ok? <==> Distinct(infos)
    ensures r.Ok? ==> r.value.Valid() && r.value.id == id && r.value.entityIds == []
    ensures r.Ok? ==> multiset(r.value.types) == multiset(infos)
  {
    var sorted := SortByKey(infos, Identity);
    DistinctPermutation(sorted, infos);
    if !Distinct(sorted) then Panic("Duplicate types in archetype")
    else
      SortedDistinctStrict(sorted);
      Ok(Archetype(id, sorted, [], EmptyColumns(sorted)))
  }

  /**
   * `insert_entity`: appends the id and, for each component, pushes its row onto the
   * column of its type. Callers pass the components sorted by type, one per archetype type.
   */
  method InsertEntity<V>(a: Archetype<V>, e: EntityId, components: seq<TypedComponent<V>>)
    returns (b: Archetype<V>, loc: EntityLocation)
    requires a.Valid() && TypesOf(components) == a.types
    ensures b.Valid() && b.id == a.id && b.types == a.types
    ensures b.entityIds == a.entityIds + [e]
    ensures forall k :: 0 <= k < |a.columns| ==> b.columns[k] == a.columns[k].Insert(components[k].row)
    ensures loc == EntityLocation(a.id, |a.entityIds|) && b.HasEntity(e, loc)
  {
    var columns := a.columns;
    var k := 0;
    while k < |components|
      invariant 0 <= k <= |components| && |columns| == |a.columns|
      invariant forall j :: 0 <= j < k ==> columns[j] == a.columns[j].Insert(components[j].row)
      invariant forall j :: k <= j < |columns| ==> columns[j] == a.columns[j]
    {
      var ci := ComponentIndex(a.types, components[k].typeId).value;
      ColumnOfOwnType(a, k);
      columns := columns[ci := columns[ci].Insert(components[k].row)];
      k := k + 1;
    }
    b := a.(entityIds := a.entityIds + [e], columns := columns);
    InsertedValid(a, b, components);
    loc := EntityLocation(a.id, |b.entityIds| - 1);
  }

  /** In a valid archetype, the column found for type `types[k]` is column `k`. */
  lemma ColumnOfOwnType<V>(a: Archetype<V>, k: nat)
    requires a.Valid() && k < |a.types|
    ensures ComponentIndex(a.types, a.types[k]) == Ok(k)
  {
    assert Distinct(a.types);
    IndexOfDistinct(a.types, k);
  }

  /** Appending one entity and one row per column keeps an archetype valid. */
  lemma InsertedValid<V>(a: Archetype<V>, b: Archetype<V>, components: seq<TypedComponent<V>>)
    requires a.Valid() && |components| == |a.columns|
    requires b.types == a.types && |b.entityIds| == |a.entityIds| + 1 && |b.columns| == |a.columns|
    requires forall k :: 0 <= k < |a.columns| ==> b.columns[k] == a.columns[k].Insert(components[k].row)
    ensures b.Valid()
  {
    forall k | 0 <= k < |b.columns|
      ensures b.columns[k].typeId == b.types[k] && b.columns[k].Aligned() && b.columns[k].Len() == |b.entityIds|
    {
      assert b.columns[k] == a.columns[k].Insert(components[k].row);
    }
  }

  /**
   * `remove_entity`: swap-removes the id and one row from every column. `swapped` is the
   * entity now at the vacated index, or `None` when the removed entity was last.
   * Removing at an index out of range panics in `swap_remove`.
   */
  method RemoveEntity<V>(a: Archetype<V>, loc: EntityLocation)
    returns (r: Result<(Archetype<V>, RemovedEntity<V>)>)
    requires a.Valid()
    ensures r.Ok? <==> loc.index < a.Len()
    ensures r.Ok? ==>
      var (b, removed) := r.value;
      var i, last := loc.index, a.Len() - 1;
      b.Valid() && b.id == a.id && b.types == a.types
      && b.entityIds == SwapRemove(a.entityIds, i)
      && removed.swapped == (if i < last then Some(a.entityIds[last]) else None)
      && (removed.swapped.Some? ==> b.entityIds[i] == removed.swapped.value)
      && |removed.components| == |a.types|
      && (forall k :: 0 <= k < |a.types| ==>
            removed.components[k] == TypedComponent(a.types[k], a.columns[k].Get(i))
            && b.columns[k] == a.columns[k].Remove(i))
  {
    var i := loc.index;
    if i >= |a.entityIds| {
      return Panic("swap_remove index out of bounds");
    }
    var ids := SwapRemove(a.entityIds, i);
    var swapped := if i < |ids| then Some(ids[i]) else None;
    var columns := a.columns;
    var removed: seq<TypedComponent<V>> := [];
    var k := 0;
    while k < |a.columns|
      invariant 0 <= k <= |a.columns| && |columns| == |a.columns| && |removed| == k
      invariant forall j :: 0 <= j < k ==>
        columns[j] == a.columns[j].Remove(i) && removed[j] == TypedComponent(a.types[j], a.columns[j].Get(i))
      invariant forall j :: k <= j < |columns| ==> columns[j] == a.columns[j]
    {
      removed := removed + [TypedComponent(a.types[k], columns[k].Get(i))];
      columns := columns[k := columns[k].Remove(i)];
      k := k + 1;
    }
    r := Ok((a.(entityIds := ids, columns := columns), RemovedEntity(swapped, removed)));
  }

  /**
   * `set_component`: replaces the entity's row in the column of the component's type.
   * Panics when the type is absent or the location is out of range.
   */
  function SetComponent<V>(a: Archetype<V>, loc: EntityLocation, c: TypedComponent<V>): (r: Result<Archetype<V>>)
    requires a.Valid()
    ensures r.Ok? <==> c.typeId in a.types && loc.index < a.Len()
    ensures r.Ok? ==>
      var k := ComponentIndex(a.types, c.typeId).value;
      r.value.Valid() && r.value.entityIds == a.entityIds && r.value.types == a.types
      && r.value.columns == a.columns[k := a.columns[k].Set(loc.index, c.row)]
  {
    match ComponentIndex(a.types, c.typeId)
    case Panic(m) => Panic(m)
    case Ok(k) =>
      if loc.index >= a.Len() then Panic("Entity index out of bounds for archetype")
      else Ok(a.(columns := a.columns[k := a.columns[k].Set(loc.index, c.row)]))
  }

  /**
   * Parsed query filters (`Filters`): `Changed`, `With` and `Without` type lists, whether
   * the filter is empty, its `Or` groups, and the `matches_existence` flag written while
   * an `Or` group is evaluated.
   */
  datatype Filters = Filters(
    changed: seq<TypeId>,
    with: seq<TypeId>,
    without: seq<TypeId>,
    empty: bool,
    or: seq<Filters>,
    matchesExistence: bool)

  /** Whether the `With`/`Without` part of an `Or` group holds. */
  predicate ExistenceMatch(types: seq<TypeId>, g: Filters) {
    (exists t :: t in g.with && t in types) || (exists t :: t in g.without && t !in types)
  }

  /** Whether an `Or` group matches: it is empty, its existence part holds, or a changed type exists. */
  predicate GroupMatches(types: seq<TypeId>, g: Filters) {
    g.empty || ExistenceMatch(types, g) || exists t :: t in g.changed && t in types
  }

  /** An `Or` group after `matches_filters_any` has run on it: a non-empty group records its existence match. */
  function Evaluated(types: seq<TypeId>, g: Filters): Filters {
    if g.empty then g else g.(matchesExistence := ExistenceMatch(types, g))
  }

  /** Every `Or` group before position `k` matches, so `matches_filters` evaluates group `k`. */
  predicate MatchBefore(types: seq<TypeId>, gs: seq<Filters>, k: nat)
    requires k <= |gs|
  {
    forall j :: 0 <= j < k ==> GroupMatches(types, gs[j])
  }

  /**
   * `matches_filters_any`: panics on a nested `Or`; otherwise records whether the
   * existence part holds and reports whether the group matches.
   */
  function MatchesFiltersAny(types: seq<TypeId>, g: Filters): (r: Result<(bool, Filters)>)
    ensures r.Ok? <==> g.or == []
    ensures r.Ok? ==> r.value.0 == GroupMatches(types, g)
    ensures r.Ok? ==> r.value.1 == Evaluated(types, g)
  {
    if g.or != [] then Panic("Nested OR filters are not supported")
    else if g.empty then Ok((true, g))
    else
      var existence := HasTypesAny(types, g.with) || exists k :: 0 <= k < |g.without| && !HasType(types, g.without[k]);
      Ok((existence || HasTypesAny(types, g.changed), g.(matchesExistence := existence)))
  }

  /**
   * The `Or` part of `matches_filters`: the groups are evaluated in order, and evaluation
   * stops at the first group that does not match, leaving later groups untouched. It panics
   * exactly when a group it reaches has a nested `Or`.
   */
  function MatchesOrGroups(types: seq<TypeId>, gs: seq<Filters>): (r: Result<(bool, seq<Filters>)>)
    ensures r.Panic? <==> exists k :: 0 <= k < |gs| && gs[k].or != [] && MatchBefore(types, gs, k)
    ensures r.Ok? ==> |r.value.1| == |gs|
    ensures r.Ok? ==> (r.value.0 <==> MatchBefore(types, gs, |gs|))
    ensures r.Ok? ==> forall k :: 0 <= k < |gs| ==>
      r.value.1[k] == (if MatchBefore(types, gs, k) then Evaluated(types, gs[k]) else gs[k])
    ensures (forall k :: 0 <= k < |gs| ==> gs[k].or == []) ==> r.Ok?
  {
    if gs == [] then Ok((true, []))
    else
      MatchBeforeTail(types, gs);
      match MatchesFiltersAny(types, gs[0])
      case Panic(m) =>
        assert MatchBefore(types, gs, 0);
        Panic(m)
      case Ok((m, g)) =>
        if !m then
          OrGroupsFirstFails(types, gs);
          Ok((false, [g] + gs[1..]))
        else match MatchesOrGroups(types, gs[1..])
          case Panic(m) =>
            var k :| 0 <= k < |gs[1..]| && gs[1..][k].or != [] && MatchBefore(types, gs[1..], k);
            assert gs[k + 1] == gs[1..][k];
            Panic(m)
          case Ok((all, rest)) =>
            OrGroupsFirstMatches(types, gs, rest);
            Ok((all, [g] + rest))
  }

  /** When the first group fails, no later group is reached and all groups but the first are returned as given. */
  lemma OrGroupsFirstFails(types: seq<TypeId>, gs: seq<Filters>)
    requires gs != [] && !GroupMatches(types, gs[0])
    ensures !MatchBefore(types, gs, |gs|)
    ensures forall k :: 0 <= k < |gs| ==>
      ([Evaluated(types, gs[0])] + gs[1..])[k] == (if MatchBefore(types, gs, k) then Evaluated(types, gs[k]) else gs[k])
  {
    assert forall k :: 0 < k <= |gs| ==> !MatchBefore(types, gs, k);
  }

  /** When the first group matches, the result for the whole list is the first group evaluated followed by the result for the rest. */
  lemma OrGroupsFirstMatches(types: seq<TypeId>, gs: seq<Filters>, rest: seq<Filters>)
    requires gs != [] && GroupMatches(types, gs[0]) && |rest| == |gs| - 1
    requires forall k :: 0 <= k < |gs| - 1 ==>
      rest[k] == (if MatchBefore(types, gs[1..], k) then Evaluated(types, gs[1..][k]) else gs[1..][k])
    ensures MatchBefore(types, gs, |gs|) <==> MatchBefore(types, gs[1..], |gs| - 1)
    ensures forall k :: 0 <= k < |gs| ==>
      ([Evaluated(types, gs[0])] + rest)[k] == (if MatchBefore(types, gs, k) then Evaluated(types, gs[k]) else gs[k])
  {
    MatchBeforeTail(types, gs);
    assert forall k :: 0 < k < |gs| ==> gs[k] == gs[1..][k - 1];
  }

  /** Past the first group, "every earlier group matches" is the first group matching and the rest shifted by one. */
  lemma MatchBeforeTail(types: seq<TypeId>, gs: seq<Filters>)
    requires gs != []
    ensures forall k :: 0 < k <= |gs| ==>
      (MatchBefore(types, gs, k) <==> GroupMatches(types, gs[0]) && MatchBefore(types, gs[1..], k - 1))
  {
    forall k | 0 < k <= |gs|
      ensures MatchBefore(types, gs, k) <==> GroupMatches(types, gs[0]) && MatchBefore(types, gs[1..], k - 1)
    {
      if GroupMatches(types, gs[0]) && MatchBefore(types, gs[1..], k - 1) {
        forall j | 0 <= j < k ensures GroupMatches(types, gs[j]) {
          if j > 0 {
            assert gs[j] == gs[1..][j - 1];
          }
        }
      }
      if MatchBefore(types, gs, k) {
        forall j | 0 <= j < k - 1 ensures GroupMatches(types, gs[1..][j]) {
          assert gs[1..][j] == gs[j + 1];
        }
      }
    }
  }

  /**
   * `matches_filters`: empty filters always match; otherwise every `Changed` and `With`
   * type must be present, every `Without` type absent, and every `Or` group must match.
   * It does not look at change ticks.
   */
  function MatchesFilters(types: seq<TypeId>, f: Filters): (r: Result<(bool, Filters)>)
    ensures r.Ok? ==> (r.value.0 <==>
      f.empty
      || ((forall t :: t in f.changed ==> t in types)
          && (forall t :: t in f.with ==> t in types)
          && (forall t :: t in f.without ==> t !in types)
          && (forall k :: 0 <= k < |f.or| ==> GroupMatches(types, f.or[k]))))
    ensures f.empty ==> r == Ok((true, f))
    ensures (forall k :: 0 <= k < |f.or| ==> f.or[k].or == []) ==> r.Ok?
  {
    if f.empty then Ok((true, f))
    else if !(HasTypes(types, f.changed) && HasTypes(types, f.with)
              && forall k :: 0 <= k < |f.without| ==> !HasType(types, f.without[k])) then Ok((false, f))
    else match MatchesOrGroups(types, f.or)
      case Panic(m) => Panic(m)
      case Ok((all, gs)) => Ok((all, f.(or := gs)))
  }

  /** `filter_map(try_component_index)` over a type list: the column of each present type. */
  function PresentIndices(types: seq<TypeId>, ts: seq<TypeId>): (r: seq<nat>)
    ensures forall i :: i in r ==> i < |types| && types[i] in ts
    ensures forall t :: t in ts && t in types ==> TryComponentIndex(types, t).value in r
    ensures |r| == 0 <==> forall t :: t in ts ==> t !in types
    ensures |r| <= |ts|
  {
    if ts == [] then []
    else match TryComponentIndex(types, ts[0])
      case Some(i) => [i] + PresentIndices(types, ts[1..])
      case None =>
        assert forall t :: t in ts ==> t == ts[0] || t in ts[1..];
        PresentIndices(types, ts[1..])
  }

  /** The columns of earlier types come before those of later types. */
  lemma {:induction false} PresentIndicesAppend(types: seq<TypeId>, xs: seq<TypeId>, ys: seq<TypeId>)
    ensures PresentIndices(types, xs + ys) == PresentIndices(types, xs) + PresentIndices(types, ys)
  {
    if xs != [] {
      assert (xs + ys)[0] == xs[0];
      assert (xs + ys)[1..] == xs[1..] + ys;
      PresentIndicesAppend(types, xs[1..], ys);
    } else {
      assert xs + ys == ys;
    }
  }

  /** `map(component_index)` over a type list; panics on the first absent type. */
  function RequiredIndices(types: seq<TypeId>, ts: seq<TypeId>): (r: Result<seq<nat>>)
    ensures r.Ok? <==> forall t :: t in ts ==> t in types
    ensures r.Ok? ==> |r.value| == |ts| && forall k :: 0 <= k < |ts| ==> r.value[k] < |types| && types[r.value[k]] == ts[k]
  {
    if ts == [] then Ok([])
    else match ComponentIndex(types, ts[0])
      case Panic(m) => Panic(m)
      case Ok(i) =>
        match RequiredIndices(types, ts[1..])
        case Panic(m) => Panic(m)
        case Ok(rest) => Ok([i] + rest)
  }

  /** The panic message of `get_changed_filter_indices` for an `Or` group with nothing to check. */
  function OrPanicMessage(g: Filters): string {
    if |g.with| + |g.without| == 0 then "Or<T> filter only contains changed filters, but none of the types are found in archetype"
    else "Or<T> filter doesn't match existence filters, and none of the Changed<T> types are found in archetype"
  }

  /**
   * The per-group part of `get_changed_filter_indices`: groups already matched are skipped,
   * every other group contributes the columns of its present `Changed` types, and the first
   * such group with none panics.
   */
  function OrChangedIndices(types: seq<TypeId>, gs: seq<Filters>): (r: Result<seq<seq<nat>>>)
    ensures r.Ok? <==> forall k :: 0 <= k < |gs| && !gs[k].matchesExistence ==>
      exists t :: t in gs[k].changed && t in types
    ensures r.Ok? ==> forall l :: l in r.value ==> l != [] && forall i :: i in l ==> i < |types|
    ensures r.Ok? ==> |r.value| <= |gs|
  {
    if gs == [] then Ok([])
    else
      match OrChangedIndices(types, gs[1..])
      case Panic(m) =>
        if !gs[0].matchesExistence && PresentIndices(types, gs[0].changed) == [] then
          Panic(OrPanicMessage(gs[0]))
        else
          assert forall k :: 0 < k < |gs| ==> gs[k] == gs[1..][k - 1];
          Panic(m)
      case Ok(rest) =>
        assert forall k :: 0 < k < |gs| ==> gs[k] == gs[1..][k - 1];
        if gs[0].matchesExistence then Ok(rest)
        else
          var l := PresentIndices(types, gs[0].changed);
          if l == [] then Panic(OrPanicMessage(gs[0]))
          else Ok([l] + rest)
  }

  /** The lists built are exactly the present `Changed` columns of the groups whose existence part did not match. */
  lemma {:induction false} OrChangedLists(types: seq<TypeId>, gs: seq<Filters>, l: seq<nat>)
    requires OrChangedIndices(types, gs).Ok?
    ensures l in OrChangedIndices(types, gs).value <==>
      exists k :: 0 <= k < |gs| && !gs[k].matchesExistence && l == PresentIndices(types, gs[k].changed)
  {
    if gs != [] {
      OrChangedLists(types, gs[1..], l);
      assert forall k :: 0 < k < |gs| ==> gs[k] == gs[1..][k - 1];
      if exists k :: 0 <= k < |gs| && !gs[k].matchesExistence && l == PresentIndices(types, gs[k].changed) {
        var k :| 0 <= k < |gs| && !gs[k].matchesExistence && l == PresentIndices(types, gs[k].changed);
        if k > 0 {
          assert gs[1..][k - 1] == gs[k];
        }
      }
    }
  }

  /** An `Or` group whose existence part did not match and none of whose `Changed` types is present. */
  predicate NothingToCheck(types: seq<TypeId>, g: Filters) {
    !g.matchesExistence && PresentIndices(types, g.changed) == []
  }

  /** The first group, in order, that has nothing to check decides the panic and its message. */
  lemma {:induction false} OrChangedPanic(types: seq<TypeId>, gs: seq<Filters>)
    requires OrChangedIndices(types, gs).Panic?
    ensures exists k :: (0 <= k < |gs| && NothingToCheck(types, gs[k])
      && (forall j :: 0 <= j < k ==> !NothingToCheck(types, gs[j]))
      && OrChangedIndices(types, gs).message == OrPanicMessage(gs[k]))
  {
    if NothingToCheck(types, gs[0]) {
      assert 0 < |gs| && NothingToCheck(types, gs[0]);
    } else {
      var tail := gs[1..];
      OrChangedPanic(types, tail);
      var k :| 0 <= k < |tail| && NothingToCheck(types, tail[k])
        && (forall j :: 0 <= j < k ==> !NothingToCheck(types, tail[j]))
        && OrChangedIndices(types, tail).message == OrPanicMessage(tail[k]);
      assert OrChangedIndices(types, gs).message == OrChangedIndices(types, tail).message;
      forall j | 0 <= j < k + 1 ensures !NothingToCheck(types, gs[j]) {
        if j > 0 {
          assert gs[j] == tail[j - 1];
        }
      }
      assert gs[k + 1] == tail[k];
    }
  }

  /**
   * `get_changed_filter_indices`: the column indices of the `Changed` types, then, for each
   * `Or` group whose existence part did not match, the indices of its present `Changed`
   * types. Panics when a `Changed` type is absent or such a group has no present one.
   */
  function GetChangedFilterIndices(types: seq<TypeId>, f: Filters): (r: Result<seq<seq<nat>>>)
    ensures r.Ok? <==> (forall t :: t in f.changed ==> t in types) && OrChangedIndices(types, f.or).Ok?
    ensures r.Ok? ==> |r.value| >= 1 && |r.value[0]| == |f.changed|
    ensures r.Ok? ==> forall k :: 0 <= k < |f.changed| ==>
      r.value[0][k] < |types| && types[r.value[0][k]] == f.changed[k]
    ensures r.Ok? ==> r.value[1..] == OrChangedIndices(types, f.or).value
  {
    match RequiredIndices(types, f.changed)
    case Panic(m) => Panic(m)
    case Ok(base) =>
      match OrChangedIndices(types, f.or)
      case Panic(m) => Panic(m)
      case Ok(rest) => Ok([base] + rest)
  }

  /**
   * `check_changed_fields` for the entity at one row, given which columns changed there
   * since the system last ran: a lone empty index list passes; otherwise every base
   * column must have changed and each later list must contain a changed column.
   */
  predicate CheckChangedFields(indices: seq<seq<nat>>, changed: set<nat>)
    requires |indices| >= 1
  {
    if |indices| == 1 && indices[0] == [] then true
    else AllChanged(indices[0], changed) && EachHasChanged(indices[1..], changed)
  }

  /** Every listed column changed. */
  predicate AllChanged(cols: seq<nat>, changed: set<nat>) {
    forall k :: 0 <= k < |cols| ==> cols[k] in changed
  }

  /** Every list holds a column that changed. */
  predicate EachHasChanged(lists: seq<seq<nat>>, changed: set<nat>) {
    forall l :: 0 <= l < |lists| ==> HasChanged(lists[l], changed)
  }

  /** The list holds a column that changed. */
  predicate HasChanged(cols: seq<nat>, changed: set<nat>) {
    exists k :: 0 <= k < |cols| && cols[k] in changed
  }

  /** The columns whose type is one of the types changed at a row. */
  function ChangedColumns(types: seq<TypeId>, changedTypes: set<TypeId>): set<nat> {
    set i | 0 <= i < |types| && types[i] in changedTypes
  }

  /** The base list holds only changed columns exactly when every `Changed` type changed. */
  lemma BaseChanged(types: seq<TypeId>, f: Filters, base: seq<nat>, changedTypes: set<TypeId>)
    requires |base| == |f.changed|
    requires forall k :: 0 <= k < |f.changed| ==> base[k] < |types| && types[base[k]] == f.changed[k]
    ensures AllChanged(base, ChangedColumns(types, changedTypes)) <==> forall t :: t in f.changed ==> t in changedTypes
  {
    var cols := ChangedColumns(types, changedTypes);
    if forall t :: t in f.changed ==> t in changedTypes {
      forall k | 0 <= k < |base| ensures base[k] in cols {
        assert f.changed[k] in f.changed;
      }
    }
    if AllChanged(base, cols) {
      forall t | t in f.changed ensures t in changedTypes {
        var k :| 0 <= k < |f.changed| && f.changed[k] == t;
        assert base[k] in cols;
      }
    }
  }

  /** Some `Changed` type of the group is present and changed. */
  predicate GroupChangedType(types: seq<TypeId>, g: Filters, changedTypes: set<TypeId>) {
    exists t :: t in g.changed && t in types && t in changedTypes
  }

  /** A present `Changed` type of a group changed exactly when its column list holds a changed column. */
  lemma GroupChanged(types: seq<TypeId>, g: Filters, changedTypes: set<TypeId>)
    ensures HasChanged(PresentIndices(types, g.changed), ChangedColumns(types, changedTypes)) <==>
      GroupChangedType(types, g, changedTypes)
  {
    var l := PresentIndices(types, g.changed);
    var cols := ChangedColumns(types, changedTypes);
    assert GroupChangedType(types, g, changedTypes) ==> HasChanged(l, cols) by {
      if GroupChangedType(types, g, changedTypes) {
        var t :| t in g.changed && t in types && t in changedTypes;
        var i := TryComponentIndex(types, t).value;
        assert i in l;
        var k :| 0 <= k < |l| && l[k] == i;
        assert l[k] in cols;
      }
    }
    assert HasChanged(l, cols) ==> GroupChangedType(types, g, changedTypes) by {
      if HasChanged(l, cols) {
        var k :| 0 <= k < |l| && l[k] in cols;
        assert l[k] in l;
        assert types[l[k]] in g.changed;
      }
    }
  }

  /** Each list built for the `Or` groups holds a changed column exactly when each such group has a present `Changed` type that changed. */
  lemma OrListsChanged(types: seq<TypeId>, gs: seq<Filters>, changedTypes: set<TypeId>)
    requires OrChangedIndices(types, gs).Ok?
    ensures EachHasChanged(OrChangedIndices(types, gs).value, ChangedColumns(types, changedTypes)) <==>
      forall k :: 0 <= k < |gs| && !gs[k].matchesExistence ==> GroupChangedType(types, gs[k], changedTypes)
  {
    var rest := OrChangedIndices(types, gs).value;
    var cols := ChangedColumns(types, changedTypes);
    assert (forall k :: 0 <= k < |gs| && !gs[k].matchesExistence ==> GroupChangedType(types, gs[k], changedTypes))
      ==> EachHasChanged(rest, cols) by {
      if forall k :: 0 <= k < |gs| && !gs[k].matchesExistence ==> GroupChangedType(types, gs[k], changedTypes) {
        forall l | 0 <= l < |rest| ensures HasChanged(rest[l], cols) {
          OrChangedLists(types, gs, rest[l]);
          var g :| 0 <= g < |gs| && !gs[g].matchesExistence && rest[l] == PresentIndices(types, gs[g].changed);
          GroupChanged(types, gs[g], changedTypes);
        }
      }
    }
    assert EachHasChanged(rest, cols)
      ==> forall k :: 0 <= k < |gs| && !gs[k].matchesExistence ==> GroupChangedType(types, gs[k], changedTypes) by {
      if EachHasChanged(rest, cols) {
        forall g | 0 <= g < |gs| && !gs[g].matchesExistence
          ensures GroupChangedType(types, gs[g], changedTypes)
        {
          var l0 := PresentIndices(types, gs[g].changed);
          OrChangedLists(types, gs, l0);
          var l :| 0 <= l < |rest| && rest[l] == l0;
          GroupChanged(types, gs[g], changedTypes);
        }
      }
    }
  }

  /**
   * Checked with the lists `get_changed_filter_indices` builds, `check_changed_fields` holds
   * exactly when every `Changed` type changed and every `Or` group whose existence part did
   * not match has a present `Changed` type that changed.
   */
  lemma ChangedFilterMeaning(types: seq<TypeId>, f: Filters, changedTypes: set<TypeId>)
    requires GetChangedFilterIndices(types, f).Ok?
    ensures CheckChangedFields(GetChangedFilterIndices(types, f).value, ChangedColumns(types, changedTypes)) <==>
      (forall t :: t in f.changed ==> t in changedTypes)
      && forall k :: 0 <= k < |f.or| && !f.or[k].matchesExistence ==> GroupChangedType(types, f.or[k], changedTypes)
  {
    var idx := GetChangedFilterIndices(types, f).value;
    BaseChanged(types, f, idx[0], changedTypes);
    OrListsChanged(types, f.or, changedTypes);
  }
}
