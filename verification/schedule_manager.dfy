/**
 * ScheduleManager.tsx: the add and remove handlers of the prototype's
 * schedule editor. Both hand a new list to `onUpdateSchedules`; the add
 * handler also resets the editor after a successful add.
 */
module ScheduleManager {
  import opened Wrappers
  import opened Clock
  import opened Scheduling

  /** The editor's `newSchedule`; `None` is a field still empty (`""`). */
  datatype Draft = Draft(day: Option<Day>, start: Option<Time>, end: Option<Time>)

  /** The editor's own state: whether the add form is open, and the draft. */
  datatype Editor = Editor(isAdding: bool, draft: Draft)

  const EmptyDraft := Draft(None, None, None)

  /** The three alerts `handleAddSchedule` can raise. */
  datatype AddAlert = FillAllFields | EndNotAfterStart | ConflictsExisting

  /** What `handleAddSchedule` does: an alert (nothing else changes), or a new list and a reset editor. */
  datatype AddOutcome = Alerted(alert: AddAlert) | Updated(schedules: seq<Schedule>, editor: Editor)

  function HandleAddSchedule(schedules: seq<Schedule>, draft: Draft): AddOutcome {
    if draft.day.None? || draft.start.None? || draft.end.None? then Alerted(FillAllFields)
    else
      var cand := Schedule(draft.day.value, draft.start.value, draft.end.value);
      if cand.end.Minutes() <= cand.start.Minutes() then Alerted(EndNotAfterStart)
      else if ConflictsWithSome(schedules, cand) then Alerted(ConflictsExisting)
      else Updated(schedules + [cand], Editor(false, EmptyDraft))
  }

  /** The outcome of an add, in terms of the draft: which alert fires when, and what an accepted add produces. */
  lemma AddOutcomes(schedules: seq<Schedule>, draft: Draft)
    ensures var r := HandleAddSchedule(schedules, draft);
            (r == Alerted(FillAllFields) <==> draft.day.None? || draft.start.None? || draft.end.None?) &&
            (r.Updated? <==> draft.day.Some? && draft.start.Some? && draft.end.Some? &&
                             var cand := Schedule(draft.day.value, draft.start.value, draft.end.value);
                             ValidRange(cand) && !ConflictsWithSome(schedules, cand)) &&
            (r.Updated? ==> r.schedules[..|schedules|] == schedules && |r.schedules| == |schedules| + 1 &&
                            r.schedules[|schedules|] == Schedule(draft.day.value, draft.start.value, draft.end.value) &&
                            r.editor == Editor(false, EmptyDraft))
  {
    var r := HandleAddSchedule(schedules, draft);
    if r.Updated? {
      assert r.schedules[..|schedules|] == schedules;
    }
  }

  /** An accepted add keeps a conflict-free list of valid ranges conflict-free. */
  lemma AddKeepsConflictFree(schedules: seq<Schedule>, draft: Draft)
    requires AllValid(schedules) && ConflictFree(schedules)
    ensures var r := HandleAddSchedule(schedules, draft);
            r.Updated? ==> AllValid(r.schedules) && ConflictFree(r.schedules)
  {
    if HandleAddSchedule(schedules, draft).Updated? {
      AcceptedKeepsConflictFree(schedules, Schedule(draft.day.value, draft.start.value, draft.end.value));
    }
  }

  /** A draft on another day is checked against nothing: with no same-day schedule a valid range is always added. */
  lemma AddOnFreeDay(schedules: seq<Schedule>, d: Day, start: Time, end: Time)
    requires forall i :: 0 <= i < |schedules| ==> schedules[i].day != d
    requires start.Minutes() < end.Minutes()
    ensures HandleAddSchedule(schedules, Draft(Some(d), Some(start), Some(end))).Updated?
  {
    OtherDaysIgnored([], schedules, Schedule(d, start, end));
    assert [] + schedules == schedules;
  }

  /** A range that starts where a same-day schedule ends is not a conflict. */
  lemma BackToBackAccepted(existing: Schedule, end: Time)
    requires ValidRange(existing) && existing.end.Minutes() < end.Minutes()
    ensures HandleAddSchedule([existing], Draft(Some(existing.day), Some(existing.end), Some(end))) ==
            Updated([existing, Schedule(existing.day, existing.end, end)], Editor(false, EmptyDraft))
  {
    var cand := Schedule(existing.day, existing.end, end);
    TouchingAccepted(cand.start.Minutes(), cand.end.Minutes(), existing.start.Minutes(), existing.end.Minutes());
    assert !Conflicts(cand, [existing][0]);
  }

  /** `schedules.filter((_, i) => i !== index)`. */
  function RemoveAt(schedules: seq<Schedule>, index: int): seq<Schedule> {
    if schedules == [] then []
    else
      var n := |schedules| - 1;
      RemoveAt(schedules[..n], index) + (if n != index then [schedules[n]] else [])
  }

  /** Removing index `i` drops exactly that element and keeps the others in order; any other index changes nothing. */
  lemma {:induction false} RemoveAtIsSplice(schedules: seq<Schedule>, index: int)
    ensures 0 <= index < |schedules| ==> RemoveAt(schedules, index) == schedules[..index] + schedules[index + 1..]
    ensures !(0 <= index < |schedules|) ==> RemoveAt(schedules, index) == schedules
  {
    if schedules != [] {
      var n := |schedules| - 1;
      var init := schedules[..n];
      RemoveAtIsSplice(init, index);
      if 0 <= index < n {
        assert init[..index] == schedules[..index];
        assert init[index + 1..] + [schedules[n]] == schedules[index + 1..];
      } else if index == n {
        assert init == schedules[..index];
        assert schedules[index + 1..] == [];
      } else {
        assert init + [schedules[n]] == schedules;
      }
    }
  }

  /** `handleRemoveSchedule(index)`: the list handed to `onUpdateSchedules`. */
  function HandleRemoveSchedule(schedules: seq<Schedule>, index: int): (r: seq<Schedule>)
    ensures 0 <= index < |schedules| ==> |r| == |schedules| - 1
    ensures !(0 <= index < |schedules|) ==> r == schedules
  {
    RemoveAtIsSplice(schedules, index);
    RemoveAt(schedules, index)
  }

  /** Removing a schedule never creates a conflict. */
  lemma RemoveKeepsConflictFree(schedules: seq<Schedule>, index: int)
    requires AllValid(schedules) && ConflictFree(schedules)
    ensures var r := HandleRemoveSchedule(schedules, index);
            AllValid(r) && ConflictFree(r)
  {
    RemoveAtIsSplice(schedules, index);
    var r := HandleRemoveSchedule(schedules, index);
    if 0 <= index < |schedules| {
      assert forall k :: 0 <= k < |r| ==> r[k] == schedules[if k < index then k else k + 1];
    }
  }
}
