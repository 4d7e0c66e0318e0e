/** The `roster` object of main.py's `gatherData`, updated in place: the student table
    `roster[primaryAttr]`, the reverse indices `roster[attr]` of every identifying
    attribute, and the warnings logged. Every method is proved to do what the
    functions of RosterSpec say. */
module Roster {
  import opened Wrappers
  import opened Dicts
  import opened RosterSpec

  /** `Ok` becomes no crash and this state; `Err` becomes that crash. */
  predicate Reports(expected: Result<RosterState, Crash>, crash: Option<Crash>, now: RosterState) {
    match expected
    case Ok(s) => crash.None? && now == s
    case Err(e) => crash == Some(e)
  }

  class Roster {
    const schema: Schema
    const primary: AttrName
    var students: map<Value, Entry>
    var index: Index
    var log: seq<Warning>

    function State(): RosterState
      reads this
    {
      RosterState(students, index, log)
    }

    /** `roster = {k: {} for k in studentAttrDict}`: no student, no index entry. */
    constructor (schema: Schema, primary: AttrName)
      ensures this.schema == schema && this.primary == primary
      ensures State() == EmptyRoster
    {
      this.schema := schema;
      this.primary := primary;
      students := map[];
      index := map[];
      log := [];
    }

    /** One turn of the apply loop of `mergeIntoRoster`, on the entry of `id` (which
        the loop holds as `oldInfo`) and on the index of the item's attribute. */
    method AbsorbItem(id: Value, key: AttrName, val: Value) returns (crash: Option<Crash>)
      requires id in students
      modifies this
      ensures var before := old(students[id]);
        match RosterSpec.ApplyItem(schema, primary, id, before.info, old(index), (key, val))
        case Ok((h, x)) => crash.None? && students == old(students)[id := before.(info := h)]
                           && index == x && log == old(log)
        case Err(e) => crash == Some(e)
    {
      if key == primary {
        return None;
      }
      var entry := students[id];
      var oldInfo := entry.info;
      var flags := FlagsOf(schema, key);
      if flags.onePerStudent {
        if key !in oldInfo {
          oldInfo := oldInfo[key := Single(val)];
        } else if oldInfo[key] != Single(val) {
          return Some(SingletonOverwrite(key));
        }
      } else {
        if key !in oldInfo {
          oldInfo := oldInfo[key := Many({val})];
        } else if oldInfo[key].Many? {
          oldInfo := oldInfo[key := Many(oldInfo[key].values + {val})];
        } else {
          return Some(NotASet(key));
        }
      }
      students := students[id := entry.(info := oldInfo)];
      if flags.identifiesStudent {
        if (key, val) !in index {
          index := index[(key, val) := id];
        } else if index[(key, val)] != id {
          return Some(IndexReassign(key));
        }
      }
      return None;
    }

    /** The apply loop of `mergeIntoRoster` over the record's items, on the entry of `id`. */
    method AbsorbItems(info: Info, id: Value) returns (crash: Option<Crash>)
      requires id in students
      modifies this
      ensures var before := old(students[id]);
        match ApplyItems(schema, primary, id, before.info, old(index), info)
        case Ok((h, x)) => crash.None? && students == old(students)[id := before.(info := h)]
                           && index == x && log == old(log)
        case Err(e) => crash == Some(e)
    {
      ghost var entry := students[id];
      var i := 0;
      while i < |info|
        invariant 0 <= i <= |info|
        invariant id in students && students == old(students)[id := entry.(info := students[id].info)]
        invariant ApplyItems(schema, primary, id, entry.info, old(index), info)
               == ApplyItems(schema, primary, id, students[id].info, index, info[i..])
        invariant log == old(log)
      {
        var (key, val) := info[i];
        assert info[i..][0] == (key, val) && info[i..][1..] == info[i + 1..];
        crash := AbsorbItem(id, key, val);
        if crash.Some? {
          return;
        }
        i := i + 1;
      }
      assert info[i..] == [];
      return None;
    }

    /** `mergeIntoRoster`: check the record, then create the entry if absent and apply
        the record's items one by one to the entry and the indices. */
    method MergeIntoRoster(info: Info, id: Value) returns (crash: Option<Crash>)
      requires KeysKnown(schema, info)
      modifies this
      ensures Reports(Merge(schema, primary, old(State()), info, id), crash, State())
    {
      var verdict := CheckMerge(schema, primary, State(), info, id);
      if verdict.Fail? {
        log := log + [MergeRefused(verdict.error)];
        return None;
      }
      if id !in students {
        students := students[id := Entry(map[], map[])];
      }
      crash := AbsorbItems(info, id);
    }

    /** The grade loop of `gatherData` for one record: every grade is combined with the
        one held for the assignment, a duplicate logged when one was held. */
    method MergeGrades(id: Value, info: Info, grades: Grades) returns (crash: Option<Crash>)
      modifies this
      ensures Reports(RosterSpec.MergeGrades(old(State()), id, info, grades, grades), crash, State())
    {
      var i := 0;
      while i < |grades|
        invariant 0 <= i <= |grades|
        invariant RosterSpec.MergeGrades(old(State()), id, info, grades, grades)
               == RosterSpec.MergeGrades(State(), id, info, grades, grades[i..])
      {
        var (k, v) := grades[i];
        assert grades[i..][0] == (k, v) && grades[i..][1..] == grades[i + 1..];
        ghost var s0 := State();
        if id !in students {
          return Some(MissingEntry(id));
        }
        var e := students[id];
        var previous := if k in e.grades then Some(e.grades[k]) else None;
        if previous.Some? {
          log := log + [DuplicateGrade(previous.value, info, grades)];
        }
        var g := CombineGrade(k, previous, v);
        if g.Err? {
          return Some(g.error);
        }
        students := students[id := e.(grades := e.grades[k := g.value])];
        assert RosterSpec.AddGrade(s0, id, grades[i], info, grades) == Ok(State());
        i := i + 1;
      }
      return None;
    }

    /** One pass of the `while True` loop of `gatherData` (its `for` loop): each
        pending record is resolved, merged and graded, or deferred when it cannot be
        resolved yet. */
    method RunPass(pending: seq<Record>) returns (outcome: Result<(seq<Record>, bool), Crash>)
      requires AllKnown(schema, pending)
      modifies this
      ensures match OnePass(schema, primary, old(State()), pending)
        case Err(e) => outcome == Err(e)
        case Ok(p) => outcome == Ok((p.failed, p.progressed)) && State() == p.roster
    {
      var newDataMerged := false;
      var failedToMerge: seq<Record> := [];
      var j := 0;
      while j < |pending|
        invariant 0 <= j <= |pending|
        invariant OnePass(schema, primary, old(State()), pending)
               == PassFrom(schema, primary, PassState(State(), failedToMerge, newDataMerged), pending[j..])
      {
        var record := pending[j];
        assert record in pending;
        assert pending[j..][0] == record && pending[j..][1..] == pending[j + 1..];
        var sid := GetStudentID(schema, primary, index, record.info);
        if sid.None? {
          failedToMerge := failedToMerge + [record];
        } else {
          newDataMerged := true;
          var crash := MergeIntoRoster(record.info, sid.value);
          if crash.Some? {
            return Err(crash.value);
          }
          crash := MergeGrades(sid.value, record.info, record.grades);
          if crash.Some? {
            return Err(crash.value);
          }
        }
        j := j + 1;
      }
      return Ok((failedToMerge, newDataMerged));
    }

    /** The `could not identify student` warning, once per record left over. */
    method LogUnidentified(failed: seq<Record>)
      modifies this
      ensures State() == old(State()).(log := old(log) + Unidentifiable(failed))
    {
      var k := 0;
      while k < |failed|
        invariant 0 <= k <= |failed|
        invariant State() == old(State()).(log := old(log) + Unidentifiable(failed)[..k])
      {
        log := log + [Unidentified(failed[k].info)];
        k := k + 1;
        assert Unidentifiable(failed)[..k] == Unidentifiable(failed)[..k - 1] + [Unidentified(failed[k - 1].info)];
      }
      assert Unidentifiable(failed)[..k] == Unidentifiable(failed);
    }

    /** The `while True` loop of `gatherData` and the warnings for the records left
        over: passes repeat until one resolves nothing or defers nothing. */
    method GatherData(data: seq<Record>) returns (outcome: Result<seq<Record>, Crash>)
      requires AllKnown(schema, data)
      modifies this
      ensures match Gather(schema, primary, old(State()), data)
        case Err(e) => outcome == Err(e)
        case Ok((s, failed)) => outcome == Ok(failed) && State() == s.(log := s.log + Unidentifiable(failed))
    {
      var pending := data;
      var failedToMerge: seq<Record>;
      while true
        invariant AllKnown(schema, pending)
        invariant Gather(schema, primary, old(State()), data) == Gather(schema, primary, State(), pending)
        decreases |pending|
      {
        var r := RunPass(pending);
        if r.Err? {
          return Err(r.error);
        }
        var newDataMerged: bool;
        failedToMerge, newDataMerged := r.value.0, r.value.1;
        if !newDataMerged || |failedToMerge| == 0 {
          break;
        }
        pending := failedToMerge;
      }
      LogUnidentified(failedToMerge);
      return Ok(failedToMerge);
    }
  }

  /** `gatherData` from the records on: find the primary attribute, start from an empty
      roster, run the loop and return the student table, or the crash that ends the
      run (`roster[None]` when no attribute is primary). */
  method GatherStudents(schema: Schema, data: seq<Record>) returns (outcome: Result<map<Value, Entry>, Crash>)
    requires AllKnown(schema, data)
    ensures match Run(schema, data)
      case Err(e) => outcome == Err(e)
      case Ok((s, _)) => outcome == Ok(s.students)
  {
    var primary := FindPrimaryAttr(schema);
    if primary.None? {
      return Err(NoPrimaryAttr);
    }
    var roster := new Roster(schema, primary.value);
    var r := roster.GatherData(data);
    if r.Err? {
      return Err(r.error);
    }
    return Ok(roster.students);
  }
}
