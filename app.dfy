/** The application shell's list state (App.tsx): the in-memory devotee list, how saving,
    deleting and the completion toggle rewrite it, and the call-log toggle itself. The list
    operations are the `map`/`filter`/spread expressions of the source; the `DevoteeStore`
    class holds the list the way the component's state does and replaces it through them. */
module App {
  import opened Wrappers
  import opened Seqs
  import opened Records

  // ---------------------------------------------------------------- the call log of one devotee

  /** The record is for the occasion `(date, kind)`. */
  predicate IsFor(r: CallRecord, date: string, kind: OccasionType) {
    r.date == date && r.kind == kind
  }

  /** `history.some(h => h.date === date && h.type === type)`. */
  predicate IsCalled(history: seq<CallRecord>, date: string, kind: OccasionType) {
    exists i :: 0 <= i < |history| && IsFor(history[i], date, kind)
  }

  /** The filter test of the toggle: keep records for any other occasion. */
  function IsOther(date: string, kind: OccasionType): CallRecord -> bool {
    (r: CallRecord) => !IsFor(r, date, kind)
  }

  /** The toggle of one call log (App.tsx:69-72): when the occasion is already logged, every
      record for it is removed; otherwise one record for it is appended at the end. */
  function ToggleHistory(history: seq<CallRecord>, date: string, kind: OccasionType, timestamp: string): (r: seq<CallRecord>)
    ensures IsCalled(r, date, kind) <==> !IsCalled(history, date, kind)
    ensures !IsCalled(history, date, kind) ==> r == history + [CallRecord(date, kind, timestamp)]
    ensures IsCalled(history, date, kind) ==> |r| < |history|
  {
    if IsCalled(history, date, kind) then
      var kept := Filter(history, IsOther(date, kind));
      assert |kept| < |history| by { FilterDropsOne(history, IsOther(date, kind)); }
      kept
    else
      var r := history + [CallRecord(date, kind, timestamp)];
      assert IsFor(r[|history|], date, kind);
      r
  }

  /** A filter that rejects some element is shorter than its input. */
  lemma {:induction false} FilterDropsOne<T>(s: seq<T>, keep: T -> bool)
    requires exists i :: 0 <= i < |s| && !keep(s[i])
    ensures |Filter(s, keep)| < |s|
  {
    if keep(s[0]) {
      var i :| 0 <= i < |s| && !keep(s[i]);
      assert s[1..][i - 1] == s[i];
      FilterDropsOne(s[1..], keep);
    }
  }

  /** Removing an occasion deletes every record for it and keeps the others, in order,
      with their multiplicities. */
  lemma ToggleRemovesEveryMatch(history: seq<CallRecord>, date: string, kind: OccasionType, timestamp: string, x: CallRecord)
    requires IsCalled(history, date, kind)
    ensures IsSubsequence(ToggleHistory(history, date, kind, timestamp), history)
    ensures multiset(ToggleHistory(history, date, kind, timestamp))[x]
            == if IsFor(x, date, kind) then 0 else multiset(history)[x]
  {
    FilterIsSubsequence(history, IsOther(date, kind));
    FilterCount(history, IsOther(date, kind), x);
  }

  /** The records for other occasions are exactly the same, in the same order, after a toggle. */
  lemma ToggleKeepsOtherRecords(history: seq<CallRecord>, date: string, kind: OccasionType, timestamp: string)
    ensures Filter(ToggleHistory(history, date, kind, timestamp), IsOther(date, kind))
            == Filter(history, IsOther(date, kind))
  {
    var keep := IsOther(date, kind);
    if IsCalled(history, date, kind) {
      FilterKeepsAll(Filter(history, keep), keep);
    } else {
      var rec := CallRecord(date, kind, timestamp);
      FilterConcat(history, [rec], keep);
      assert Filter([rec], keep) == [];
    }
  }

  /** A toggle never changes whether any other occasion is logged: a Birthday record never
      finishes an Anniversary, and one date's record never finishes another date. */
  lemma ToggleKeepsOtherOccasions(history: seq<CallRecord>, date: string, kind: OccasionType, timestamp: string,
                                  otherDate: string, otherKind: OccasionType)
    requires otherDate != date || otherKind != kind
    ensures IsCalled(ToggleHistory(history, date, kind, timestamp), otherDate, otherKind)
            == IsCalled(history, otherDate, otherKind)
  {
    var r := ToggleHistory(history, date, kind, timestamp);
    var keep := IsOther(date, kind);
    if IsCalled(history, date, kind) {
      if IsCalled(history, otherDate, otherKind) {
        var i :| 0 <= i < |history| && IsFor(history[i], otherDate, otherKind);
        FilterMembership(history, keep, history[i]);
        var j :| 0 <= j < |r| && r[j] == history[i];
        assert IsFor(r[j], otherDate, otherKind);
      }
      if IsCalled(r, otherDate, otherKind) {
        var j :| 0 <= j < |r| && IsFor(r[j], otherDate, otherKind);
        FilterMembership(history, keep, r[j]);
        var i :| 0 <= i < |history| && history[i] == r[j];
        assert IsFor(history[i], otherDate, otherKind);
      }
    } else {
      if IsCalled(r, otherDate, otherKind) {
        var j :| 0 <= j < |r| && IsFor(r[j], otherDate, otherKind);
        assert j < |history|;
        assert r[j] == history[j];
      }
      if IsCalled(history, otherDate, otherKind) {
        var i :| 0 <= i < |history| && IsFor(history[i], otherDate, otherKind);
        assert r[i] == history[i];
      }
    }
  }

  /** From a log without the occasion, toggling twice gives back exactly that log. */
  lemma ToggleTwiceRestores(history: seq<CallRecord>, date: string, kind: OccasionType, t1: string, t2: string)
    requires !IsCalled(history, date, kind)
    ensures ToggleHistory(ToggleHistory(history, date, kind, t1), date, kind, t2) == history
  {
    var keep := IsOther(date, kind);
    var rec := CallRecord(date, kind, t1);
    FilterConcat(history, [rec], keep);
    assert Filter([rec], keep) == [];
    FilterKeepsAll(history, keep);
  }

  /** From a log that already holds the occasion, toggling twice does not restore it: every
      record for the occasion is dropped and one comes back at the end, with the second
      toggle's timestamp. */
  lemma ToggleTwiceFromLoggedMoves(history: seq<CallRecord>, date: string, kind: OccasionType, t1: string, t2: string)
    requires IsCalled(history, date, kind)
    ensures ToggleHistory(ToggleHistory(history, date, kind, t1), date, kind, t2)
            == Filter(history, IsOther(date, kind)) + [CallRecord(date, kind, t2)]
  {
    var once := ToggleHistory(history, date, kind, t1);
    assert once == Filter(history, IsOther(date, kind));
    assert !IsCalled(once, date, kind);
  }

  // ---------------------------------------------------------------- the devotee list

  /** `prev.map(d => d.id === devoteeId ? {...d, callHistory: toggled} : d)` (App.tsx:67-78). */
  function ToggleCallIn(ds: seq<Devotee>, devoteeId: string, kind: OccasionType, date: string, timestamp: string): (r: seq<Devotee>)
    ensures |r| == |ds|
    ensures forall i :: 0 <= i < |ds| && ds[i].id != devoteeId ==> r[i] == ds[i]
    ensures forall i :: 0 <= i < |ds| && ds[i].id == devoteeId ==>
              r[i] == ds[i].(callHistory := ToggleHistory(ds[i].callHistory, date, kind, timestamp))
  {
    if ds == [] then []
    else
      var d := ds[0];
      var head := if d.id == devoteeId then d.(callHistory := ToggleHistory(d.callHistory, date, kind, timestamp)) else d;
      [head] + ToggleCallIn(ds[1..], devoteeId, kind, date, timestamp)
  }

  /** A toggle for an id nobody has changes nothing. */
  lemma ToggleUnknownId(ds: seq<Devotee>, devoteeId: string, kind: OccasionType, date: string, timestamp: string)
    requires forall i :: 0 <= i < |ds| ==> ds[i].id != devoteeId
    ensures ToggleCallIn(ds, devoteeId, kind, date, timestamp) == ds
  {
  }

  /** `prev.map(d => d.id === devotee.id ? devotee : d)` (App.tsx:38). */
  function ReplaceById(ds: seq<Devotee>, devotee: Devotee): (r: seq<Devotee>)
    ensures |r| == |ds|
    ensures forall i :: 0 <= i < |ds| ==> r[i] == if ds[i].id == devotee.id then devotee else ds[i]
  {
    if ds == [] then [] else [if ds[0].id == devotee.id then devotee else ds[0]] + ReplaceById(ds[1..], devotee)
  }

  /** What saving does to the list (App.tsx:36-43): in edit mode the entries with the saved
      record's id are replaced where they stand; otherwise the record goes at the end. */
  function SaveInto(ds: seq<Devotee>, devotee: Devotee, editing: bool): (r: seq<Devotee>)
    ensures editing ==> |r| == |ds|
    ensures editing ==> forall i :: 0 <= i < |ds| && ds[i].id != devotee.id ==> r[i] == ds[i]
    ensures editing ==> forall i :: 0 <= i < |ds| && ds[i].id == devotee.id ==> r[i] == devotee
    ensures !editing ==> |r| == |ds| + 1 && r[..|ds|] == ds && r[|ds|] == devotee
  {
    if editing then ReplaceById(ds, devotee) else ds + [devotee]
  }

  /** The filter test of a delete. */
  function HasOtherId(id: string): Devotee -> bool {
    (d: Devotee) => d.id != id
  }

  /** `prev.filter(d => d.id !== id)` (App.tsx:50). */
  function RemoveById(ds: seq<Devotee>, id: string): (r: seq<Devotee>)
    ensures forall i :: 0 <= i < |r| ==> r[i].id != id
  {
    Filter(ds, HasOtherId(id))
  }

  /** A delete keeps every other devotee, in order, with its multiplicity. */
  lemma RemoveByIdKeepsOthers(ds: seq<Devotee>, id: string, x: Devotee)
    ensures IsSubsequence(RemoveById(ds, id), ds)
    ensures multiset(RemoveById(ds, id))[x] == if x.id == id then 0 else multiset(ds)[x]
  {
    FilterIsSubsequence(ds, HasOtherId(id));
    FilterCount(ds, HasOtherId(id), x);
  }

  /** The application's list state: the devotees on screen and the record being edited. */
  class DevoteeStore {
    var devotees: seq<Devotee>
    var editingDevotee: Option<Devotee>

    /** The list as loaded from storage; nothing is being edited. */
    constructor (loaded: seq<Devotee>)
      ensures devotees == loaded && editingDevotee == None
    {
      devotees := loaded;
      editingDevotee := None;
    }

    /** `handleEdit`: remember the record being edited. */
    method Edit(d: Devotee)
      modifies this
      ensures editingDevotee == Some(d) && devotees == old(devotees)
    {
      editingDevotee := Some(d);
    }

    /** `handleSave`: replace in place when editing (and stop editing), append otherwise. */
    method Save(devotee: Devotee)
      modifies this
      ensures devotees == SaveInto(old(devotees), devotee, old(editingDevotee).Some?)
      ensures editingDevotee == None
    {
      if editingDevotee.Some? {
        devotees := ReplaceById(devotees, devotee);
        editingDevotee := None;
      } else {
        devotees := devotees + [devotee];
      }
    }

    /** `handleDelete`: `confirmed` is the user's answer to the confirmation dialog. */
    method Delete(id: string, confirmed: bool)
      modifies this
      ensures devotees == if confirmed then RemoveById(old(devotees), id) else old(devotees)
      ensures editingDevotee == old(editingDevotee)
    {
      if confirmed {
        devotees := RemoveById(devotees, id);
      }
    }

    /** `handleToggleCall`: `timestamp` is the clock reading `new Date().toISOString()`. */
    method ToggleCall(devoteeId: string, kind: OccasionType, date: string, timestamp: string)
      modifies this
      ensures devotees == ToggleCallIn(old(devotees), devoteeId, kind, date, timestamp)
      ensures editingDevotee == old(editingDevotee)
    {
      devotees := ToggleCallIn(devotees, devoteeId, kind, date, timestamp);
    }
  }
}
