/**
 * `ConflictChecker` (system/conflict.rs): whether two parameters, two parameter lists, two
 * systems or two lists of systems may not run at the same time. A system is seen through
 * its parameter lists: those of its function and those of each run condition.
 */
module Conflict {
  import opened SystemNew

  /** The parameter lists `is_conflicting_with` reads from a system. */
  datatype Access = Access(main: seq<ParamInfo>, conditions: seq<seq<ParamInfo>>)

  /** `ParamInfo::is_conflicting_with`: same type id, and at least one side mutable. */
  predicate ParamConflict(a: ParamInfo, b: ParamInfo) {
    if a.typeInfo.id != b.typeInfo.id then false else a.isMutable || b.isMutable
  }

  /** Parameter conflict is symmetric, and two shared borrows never conflict. */
  lemma ParamConflictFacts(a: ParamInfo, b: ParamInfo)
    ensures ParamConflict(a, b) == ParamConflict(b, a)
    ensures !a.isMutable && !b.isMutable ==> !ParamConflict(a, b)
    ensures ParamConflict(a, b) <==> a.typeInfo.id == b.typeInfo.id && (a.isMutable || b.isMutable)
  {
  }

  /** Some parameter of `xs` conflicts with some parameter of `ys`. */
  predicate ParamsClash(xs: seq<ParamInfo>, ys: seq<ParamInfo>) {
    exists i, j :: 0 <= i < |xs| && 0 <= j < |ys| && ParamConflict(xs[i], ys[j])
  }

  lemma ParamsClashSymmetric(xs: seq<ParamInfo>, ys: seq<ParamInfo>)
    ensures ParamsClash(xs, ys) == ParamsClash(ys, xs)
    ensures xs == [] ==> !ParamsClash(xs, ys) && !ParamsClash(ys, xs)
  {
    if ParamsClash(xs, ys) {
      var i, j :| 0 <= i < |xs| && 0 <= j < |ys| && ParamConflict(xs[i], ys[j]);
      ParamConflictFacts(xs[i], ys[j]);
    }
    if ParamsClash(ys, xs) {
      var j, i :| 0 <= j < |ys| && 0 <= i < |xs| && ParamConflict(ys[j], xs[i]);
      ParamConflictFacts(ys[j], xs[i]);
    }
  }

  /** `&[ParamInfo]::is_conflicting_with`: every pair is tried, stopping at the first conflict. */
  method ParamsConflicting(xs: seq<ParamInfo>, ys: seq<ParamInfo>) returns (r: bool)
    ensures r == ParamsClash(xs, ys)
  {
    var i := 0;
    while i < |xs|
      invariant i <= |xs|
      invariant forall i', j :: 0 <= i' < i && 0 <= j < |ys| ==> !ParamConflict(xs[i'], ys[j])
    {
      var j := 0;
      while j < |ys|
        invariant j <= |ys|
        invariant forall j' :: 0 <= j' < j ==> !ParamConflict(xs[i], ys[j'])
      {
        if ParamConflict(xs[i], ys[j]) {
          return true;
        }
        j := j + 1;
      }
      i := i + 1;
    }
    return false;
  }

  /** Some list of `cs` clashes with `ys`. */
  predicate AnyClashes(cs: seq<seq<ParamInfo>>, ys: seq<ParamInfo>) {
    exists k :: 0 <= k < |cs| && ParamsClash(cs[k], ys)
  }

  /**
   * `System::is_conflicting_with` as written: main vs main, self's conditions vs other's
   * main, and conditions vs conditions. The check of other's conditions against self's main
   * is computed and then discarded, so it never contributes.
   */
  predicate SystemsClashAsWritten(a: Access, b: Access) {
    ParamsClash(a.main, b.main)
    || AnyClashes(a.conditions, b.main)
    || exists k, m :: 0 <= k < |a.conditions| && 0 <= m < |b.conditions| && ParamsClash(a.conditions[k], b.conditions[m])
  }

  /** The discrepancy: a system that writes `T` does not see a conflict with a system whose run condition reads `T`, although the converse check does. */
  lemma AsWrittenIsNotSymmetric(t: TypeInfo)
    ensures
      var writer := Access([ParamInfo(true, t)], []);
      var guarded := Access([], [[ParamInfo(false, t)]]);
      !SystemsClashAsWritten(writer, guarded) && SystemsClashAsWritten(guarded, writer)
  {
    var writer := Access([ParamInfo(true, t)], []);
    var guarded := Access([], [[ParamInfo(false, t)]]);
    assert ParamConflict(guarded.conditions[0][0], writer.main[0]);
    assert ParamsClash(guarded.conditions[0], writer.main);
  }

  /** The conflict relation with the discarded check taken into account. */
  predicate SystemsClash(a: Access, b: Access) {
    SystemsClashAsWritten(a, b) || AnyClashes(b.conditions, a.main)
  }

  /** With all four combinations checked, system conflict is symmetric. */
  lemma SystemsClashSymmetric(a: Access, b: Access)
    ensures SystemsClash(a, b) == SystemsClash(b, a)
  {
    ParamsClashSymmetric(a.main, b.main);
    if exists k, m :: 0 <= k < |a.conditions| && 0 <= m < |b.conditions| && ParamsClash(a.conditions[k], b.conditions[m]) {
      var k, m :| 0 <= k < |a.conditions| && 0 <= m < |b.conditions| && ParamsClash(a.conditions[k], b.conditions[m]);
      ParamsClashSymmetric(a.conditions[k], b.conditions[m]);
    }
    if exists k, m :: 0 <= k < |b.conditions| && 0 <= m < |a.conditions| && ParamsClash(b.conditions[k], a.conditions[m]) {
      var k, m :| 0 <= k < |b.conditions| && 0 <= m < |a.conditions| && ParamsClash(b.conditions[k], a.conditions[m]);
      ParamsClashSymmetric(b.conditions[k], a.conditions[m]);
    }
  }

  /** Whether some list of `cs` conflicts with `ys`, trying them in order. */
  method AnyConflicting(cs: seq<seq<ParamInfo>>, ys: seq<ParamInfo>) returns (r: bool)
    ensures r == AnyClashes(cs, ys)
  {
    var k := 0;
    while k < |cs|
      invariant k <= |cs|
      invariant forall k' :: 0 <= k' < k ==> !ParamsClash(cs[k'], ys)
    {
      r := ParamsConflicting(cs[k], ys);
      if r {
        return;
      }
      k := k + 1;
    }
    return false;
  }

  /** `System::is_conflicting_with` as written, with the result of lines 50-55 dropped. */
  method SystemConflictingAsWritten(a: Access, b: Access) returns (r: bool)
    ensures r == SystemsClashAsWritten(a, b)
  {
    r := ParamsConflicting(a.main, b.main);
    if r {
      return;
    }
    var dropped := AnyConflicting(b.conditions, a.main);
    r := ConditionsConflicting(a, b);
  }

  /** The loop over self's conditions: each against other's main, then against each other condition. */
  method ConditionsConflicting(a: Access, b: Access) returns (r: bool)
    requires !ParamsClash(a.main, b.main)
    ensures r == SystemsClashAsWritten(a, b)
  {
    var k := 0;
    while k < |a.conditions|
      invariant k <= |a.conditions|
      invariant forall k' :: 0 <= k' < k ==> !ParamsClash(a.conditions[k'], b.main)
      invariant forall k', m :: 0 <= k' < k && 0 <= m < |b.conditions| ==> !ParamsClash(a.conditions[k'], b.conditions[m])
    {
      r := ParamsConflicting(a.conditions[k], b.main);
      if r {
        return;
      }
      r := AnyConflicting(b.conditions, a.conditions[k]);
      if r {
        forall m | 0 <= m < |b.conditions| ensures ParamsClash(b.conditions[m], a.conditions[k]) == ParamsClash(a.conditions[k], b.conditions[m]) {
          ParamsClashSymmetric(b.conditions[m], a.conditions[k]);
        }
        return;
      }
      forall m | 0 <= m < |b.conditions| ensures !ParamsClash(a.conditions[k], b.conditions[m]) {
        ParamsClashSymmetric(b.conditions[m], a.conditions[k]);
      }
      k := k + 1;
    }
    return false;
  }

  /** `System::is_conflicting_with` with the other system's conditions checked against this one's function. */
  method SystemConflicting(a: Access, b: Access) returns (r: bool)
    ensures r == SystemsClash(a, b)
  {
    r := ParamsConflicting(a.main, b.main);
    if r {
      return;
    }
    r := AnyConflicting(b.conditions, a.main);
    if r {
      return;
    }
    r := ConditionsConflicting(a, b);
  }

  /**
   * `&[System]::is_conflicting_with`: every pair of systems is tried with the system check as
   * written, stopping at the first conflict.
   */
  method SystemListsConflicting(xs: seq<Access>, ys: seq<Access>) returns (r: bool)
    ensures r <==> exists i, j :: 0 <= i < |xs| && 0 <= j < |ys| && SystemsClashAsWritten(xs[i], ys[j])
  {
    var i := 0;
    while i < |xs|
      invariant i <= |xs|
      invariant forall i', j :: 0 <= i' < i && 0 <= j < |ys| ==> !SystemsClashAsWritten(xs[i'], ys[j])
    {
      var j := 0;
      while j < |ys|
        invariant j <= |ys|
        invariant forall j' :: 0 <= j' < j ==> !SystemsClashAsWritten(xs[i], ys[j'])
      {
        r := SystemConflictingAsWritten(xs[i], ys[j]);
        if r {
          return;
        }
        j := j + 1;
      }
      i := i + 1;
    }
    return false;
  }
}
