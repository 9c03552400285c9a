/**
 * ClassDetailView.tsx: whether the class is in session now, the guards of
 * the "activate scanning" button, and posting an announcement. The
 * `uniqueStudents` count is `Prototype.CountDistinctStudents`.
 *
 * The browser clock is an input: the weekday and the time of day.
 */
module ClassDetailView {
  import opened Wrappers
  import opened Text
  import opened Clock
  import opened Scheduling
  import opened Prototype

  /** `now.getHours() * 60 + now.getMinutes()`: seconds are dropped. */
  function MinuteOfDay(now: ClockTime): (m: nat)
    ensures m < 24 * 60
  {
    now.hour * 60 + now.minute
  }

  /** The callback of `schedules.some(...)` in `checkIfClassIsActive`. */
  predicate InSession(s: Schedule, today: Day, now: ClockTime) {
    s.day == today && s.start.Minutes() <= MinuteOfDay(now) <= s.end.Minutes()
  }

  /** `checkIfClassIsActive()`. */
  predicate IsClassActive(schedules: seq<Schedule>, today: Day, now: ClockTime) {
    exists i :: 0 <= i < |schedules| && InSession(schedules[i], today, now)
  }

  /**
   * At the start of a minute the prototype and the server's
   * `get_active_schedule` agree on whether some schedule is in session.
   */
  lemma ActiveAgreesAtMinuteStart(schedules: seq<Schedule>, today: Day, now: ClockTime)
    requires now.second == 0 && now.micro == 0
    ensures IsClassActive(schedules, today, now) <==> ActiveIndex(schedules, today, now).Some?
  {
    forall i | 0 <= i < |schedules|
      ensures InSession(schedules[i], today, now) <==> Within(schedules[i], today, now)
    {
      assert now.Micros() == MinuteOfDay(now) * 60 * 1000000;
    }
  }

  /**
   * Within the end minute, past its first instant, the prototype still shows
   * the class as in session while the server no longer finds the schedule.
   */
  lemma EndMinuteDiffers(s: Schedule, now: ClockTime)
    requires ValidRange(s)
    requires now.hour == s.end.hour && now.minute == s.end.minute && now.second > 0
    ensures IsClassActive([s], s.day, now)
    ensures ActiveIndex([s], s.day, now).None?
  {
    assert InSession([s][0], s.day, now);
  }

  datatype ActivateAlert = ConfigureSchedulesFirst | NotScheduledNow

  /** What `handleActivateScanning` does: alert, or turn scanning on. */
  datatype ActivateOutcome = Alert(alert: ActivateAlert) | ScanningOn

  function HandleActivateScanning(schedules: seq<Schedule>, today: Day, now: ClockTime): ActivateOutcome {
    if |schedules| == 0 then Alert(ConfigureSchedulesFirst)
    else if !IsClassActive(schedules, today, now) then Alert(NotScheduledNow)
    else ScanningOn
  }

  /**
   * Scanning turns on exactly when a schedule is in session; the
   * empty-list guard only chooses which message is shown.
   */
  lemma ActivationGuards(schedules: seq<Schedule>, today: Day, now: ClockTime)
    ensures HandleActivateScanning(schedules, today, now) == ScanningOn <==> IsClassActive(schedules, today, now)
    ensures HandleActivateScanning(schedules, today, now) == Alert(ConfigureSchedulesFirst) <==> schedules == []
  {
  }

  datatype PostAlert = FillTitleAndContent

  /** The two controlled inputs of the announcement form. */
  datatype PostDraft = PostDraft(title: string, content: string)

  /** What `handlePostAnnouncement` does: an alert (nothing else changes), or the updated class and cleared inputs. */
  datatype PostOutcome = PostAlerted(alert: PostAlert) | Posted(classData: ClassData, draft: PostDraft)

  /**
   * `handlePostAnnouncement()`: a title or content that is blank after
   * `trim()` is refused; otherwise the announcement, with the text as typed,
   * is put first and both inputs are cleared. `id` and `createdAt` come from
   * the clock.
   */
  function HandlePostAnnouncement(c: ClassData, draft: PostDraft, id: string, createdAt: string): PostOutcome {
    if Trim(draft.title, JsTrim) == [] || Trim(draft.content, JsTrim) == [] then PostAlerted(FillTitleAndContent)
    else Posted(c.(announcements := [Announcement(id, draft.title, draft.content, createdAt)] + c.announcements), PostDraft("", ""))
  }

  /**
   * Posting fails exactly when the title or the content is all whitespace;
   * a post puts the new announcement first, keeps the others in order after
   * it, leaves the rest of the class as it was and empties both inputs.
   */
  lemma PostOutcomes(c: ClassData, draft: PostDraft, id: string, createdAt: string)
    ensures var r := HandlePostAnnouncement(c, draft, id, createdAt);
            (r.PostAlerted? <==> AllSpace(draft.title, JsTrim) || AllSpace(draft.content, JsTrim)) &&
            (r.Posted? ==> r.classData.announcements[0] == Announcement(id, draft.title, draft.content, createdAt) &&
                           r.classData.announcements[1..] == c.announcements &&
                           r.classData.(announcements := c.announcements) == c &&
                           r.draft == PostDraft("", ""))
  {
    TrimEmptyIffAllSpace(draft.title, JsTrim);
    TrimEmptyIffAllSpace(draft.content, JsTrim);
    var r := HandlePostAnnouncement(c, draft, id, createdAt);
    if r.Posted? {
      assert r.classData.announcements[1..] == c.announcements;
    }
  }
}
