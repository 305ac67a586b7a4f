/**
 * Systems (system/system_new.rs): parameter access information, the borrow-conflict check
 * that `build` runs on a system's own parameters, and how running a system and its run
 * conditions advances the world tick and records `last_run`.
 */
module SystemNew {
  import opened Wrappers
  import opened Ids
  import Seqs

  /** `TypeInfo`: a type's name and id. */
  datatype TypeInfo = TypeInfo(name: string, id: TypeId)

  /** `ParamInfo`: one parameter's type and whether it is borrowed mutably. */
  datatype ParamInfo = ParamInfo(isMutable: bool, typeInfo: TypeInfo)

  /**
   * The mutability recorded in `seen` for `id` after scanning `ps`: the access of the first
   * parameter of that type, or `None` if there is none.
   */
  function FirstAccess(ps: seq<ParamInfo>, id: TypeId): Option<bool>
  {
    if ps == [] then None
    else
      var before := FirstAccess(ps[..|ps| - 1], id);
      if before.Some? then before
      else if ps[|ps| - 1].typeInfo.id == id then Some(ps[|ps| - 1].isMutable)
      else None
  }

  /** `FirstAccess` is the access of the earliest parameter with that type id. */
  lemma {:induction false} FirstAccessIsFirst(ps: seq<ParamInfo>, id: TypeId)
    ensures FirstAccess(ps, id).None? <==> forall k :: 0 <= k < |ps| ==> ps[k].typeInfo.id != id
    ensures FirstAccess(ps, id).Some? ==> (
      exists j :: 0 <= j < |ps| && ps[j].typeInfo.id == id && ps[j].isMutable == FirstAccess(ps, id).value
        && forall k :: 0 <= k < j ==> ps[k].typeInfo.id != id)
  {
    if ps != [] {
      var init := ps[..|ps| - 1];
      FirstAccessIsFirst(init, id);
      if FirstAccess(init, id).Some? {
        var j :| 0 <= j < |init| && init[j].typeInfo.id == id && init[j].isMutable == FirstAccess(init, id).value
          && forall k :: 0 <= k < j ==> init[k].typeInfo.id != id;
        assert ps[j] == init[j];
      } else {
        assert forall k :: 0 <= k < |init| ==> ps[k] == init[k];
      }
    }
  }

  /** Parameter `i` repeats an earlier type and either it or the first occurrence is mutable. */
  predicate Clashes(ps: seq<ParamInfo>, i: nat)
    requires i < |ps|
  {
    var first := FirstAccess(ps[..i], ps[i].typeInfo.id);
    first.Some? && (ps[i].isMutable || first.value)
  }

  /** The type of the first clashing parameter at or after `i`. */
  function FirstClashFrom(ps: seq<ParamInfo>, i: nat): (r: Option<TypeInfo>)
    requires i <= |ps|
    decreases |ps| - i
    ensures r.None? <==> forall k :: i <= k < |ps| ==> !Clashes(ps, k)
    ensures r.Some? ==> (
      exists k :: i <= k < |ps| && Clashes(ps, k) && ps[k].typeInfo == r.value
        && forall m :: i <= m < k ==> !Clashes(ps, m))
  {
    if i == |ps| then None
    else if Clashes(ps, i) then Some(ps[i].typeInfo)
    else FirstClashFrom(ps, i + 1)
  }

  /** What `check_borrow_conflicts` should report: the first clashing parameter's type. */
  function BorrowConflict(ps: seq<ParamInfo>): Option<TypeInfo> {
    FirstClashFrom(ps, 0)
  }

  /**
   * `check_borrow_conflicts`: scans the parameters, remembering the access of the first
   * parameter of each type, and stops at the first parameter whose type was already seen
   * where either access is mutable.
   */
  method CheckBorrowConflicts(ps: seq<ParamInfo>) returns (r: Option<TypeInfo>)
    ensures r == BorrowConflict(ps)
  {
    var seen: map<TypeId, bool> := map[];
    var i := 0;
    while i < |ps|
      invariant i <= |ps|
      invariant forall id :: (id in seen) == FirstAccess(ps[..i], id).Some?
      invariant forall id :: id in seen ==> seen[id] == FirstAccess(ps[..i], id).value
      invariant forall k :: 0 <= k < i ==> !Clashes(ps, k)
    {
      var p := ps[i];
      assert ps[..i + 1][..i] == ps[..i];
      if p.typeInfo.id in seen {
        if p.isMutable || seen[p.typeInfo.id] {
          assert Clashes(ps, i);
          return Some(p.typeInfo);
        }
      } else {
        seen := seen[p.typeInfo.id := p.isMutable];
      }
      i := i + 1;
    }
    return None;
  }

  /** A reported type occurs at least twice among the parameters. */
  lemma ConflictOccursTwice(ps: seq<ParamInfo>)
    requires BorrowConflict(ps).Some?
    ensures exists j, k :: 0 <= j < k < |ps| && ps[j].typeInfo.id == ps[k].typeInfo.id == BorrowConflict(ps).value.id
  {
    var k :| 0 <= k < |ps| && Clashes(ps, k) && ps[k].typeInfo == BorrowConflict(ps).value;
    FirstAccessIsFirst(ps[..k], ps[k].typeInfo.id);
    var j :| 0 <= j < k && ps[..k][j].typeInfo.id == ps[k].typeInfo.id;
    assert ps[j] == ps[..k][j];
  }

  /** Parameters of pairwise different types never conflict, however they are borrowed. */
  lemma DistinctTypesNoConflict(ps: seq<ParamInfo>)
    requires forall j, k :: 0 <= j < k < |ps| ==> ps[j].typeInfo.id != ps[k].typeInfo.id
    ensures BorrowConflict(ps) == None
  {
    forall k | 0 <= k < |ps| ensures !Clashes(ps, k) {
      FirstAccessIsFirst(ps[..k], ps[k].typeInfo.id);
    }
  }

  /** Two shared borrows of one type are fine; a mutable one in either position is reported. */
  lemma PairsOfOneType(t: TypeInfo)
    ensures BorrowConflict([ParamInfo(false, t), ParamInfo(false, t)]) == None
    ensures BorrowConflict([ParamInfo(true, t), ParamInfo(false, t)]) == Some(t)
    ensures BorrowConflict([ParamInfo(false, t), ParamInfo(true, t)]) == Some(t)
  {
    var r, w := ParamInfo(false, t), ParamInfo(true, t);
    assert [r, r][..1] == [r] && [w, r][..1] == [w] && [r, w][..1] == [r];
    assert [r][..0] == [] && [w][..0] == [];
    assert FirstAccess([r], t.id) == Some(false) && FirstAccess([w], t.id) == Some(true);
    assert !Clashes([r, r], 0) && !Clashes([r, r], 1);
    assert !Clashes([w, r], 0) && Clashes([w, r], 1);
    assert !Clashes([r, w], 0) && Clashes([r, w], 1);
  }

  /** The parameter lists of a built system function. */
  datatype SystemExec = SystemExec(paramsInfo: seq<ParamInfo>, execInfo: TypeInfo)

  /** `IntoSystem::build`: panics exactly when the parameters have a borrow conflict. */
  method Build(paramsInfo: seq<ParamInfo>, execInfo: TypeInfo) returns (r: Result<SystemExec>)
    ensures r.Panic? <==> BorrowConflict(paramsInfo).Some?
    ensures r.Ok? ==> r.value == SystemExec(paramsInfo, execInfo)
  {
    var conflict := CheckBorrowConflicts(paramsInfo);
    if conflict.Some? {
      return Panic("System function has conflicting parameter accesses");
    }
    return Ok(SystemExec(paramsInfo, execInfo));
  }

  /**
   * A run condition. Its function is foreign code; the model is told the value it returns
   * when run.
   */
  class SystemCondition {
    var lastRun: Tick

    constructor ()
      ensures lastRun == 0
    {
      lastRun := 0;
    }

    /** `run`: increments the world tick, evaluates the condition, records the new tick. */
    method Run(worldTick: Tick, outcome: bool) returns (newTick: Tick, result: bool)
      modifies this
      ensures newTick == worldTick + 1 && lastRun == newTick && result == outcome
    {
      newTick := worldTick + 1;
      result := outcome;
      lastRun := newTick;
    }
  }

  /** How many conditions `all` evaluates: up to and including the first `false`. */
  function Evaluated(outcomes: seq<bool>): (n: nat)
    ensures n <= |outcomes|
    ensures forall i :: 0 <= i < n - 1 ==> outcomes[i]
    ensures n == |outcomes| || (n > 0 && !outcomes[n - 1])
  {
    if outcomes == [] then 0
    else if !outcomes[0] then 1
    else 1 + Evaluated(outcomes[1..])
  }

  class System {
    var lastRun: Tick
    const exec: SystemExec
    const conditions: seq<SystemCondition>

    ghost predicate Valid()
      reads this
    {
      Seqs.Distinct(conditions)
    }

    /**
     * `run`: evaluates the conditions in order, stopping at the first that is false (each
     * evaluated one ticks the world once). If all hold, the world tick is incremented
     * before the system runs, and `last_run` becomes that tick.
     */
    method Run(worldTick: Tick, outcomes: seq<bool>) returns (newTick: Tick, ran: bool)
      requires Valid() && |outcomes| == |conditions|
      modifies this, set c | c in conditions
      ensures ran <==> forall i :: 0 <= i < |outcomes| ==> outcomes[i]
      ensures ran ==> newTick == worldTick + |conditions| + 1 && lastRun == newTick
      ensures !ran ==> newTick == worldTick + Evaluated(outcomes) && lastRun == old(lastRun)
      ensures forall i :: 0 <= i < |conditions| ==>
        conditions[i].lastRun == if i < Evaluated(outcomes) then worldTick + i + 1 else old(conditions[i].lastRun)
    {
      var tick := worldTick;
      var i := 0;
      var all := true;
      while i < |conditions| && all
        invariant 0 <= i <= |conditions|
        invariant all ==> forall k :: 0 <= k < i ==> outcomes[k]
        invariant !all ==> 0 < i && !outcomes[i - 1] && forall k :: 0 <= k < i - 1 ==> outcomes[k]
        invariant tick == worldTick + i
        invariant forall k :: 0 <= k < |conditions| ==>
          conditions[k].lastRun == if k < i then worldTick + k + 1 else old(conditions[k].lastRun)
        invariant lastRun == old(lastRun)
      {
        var ok;
        tick, ok := conditions[i].Run(tick, outcomes[i]);
        all := ok;
        i := i + 1;
      }
      if all {
        tick := tick + 1;
        lastRun := tick;
      }
      newTick := tick;
      ran := all;
    }
  }
}
