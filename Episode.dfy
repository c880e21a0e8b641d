/**
 * One podcast episode: its fixed identity (id, kind, title, duration) and its
 * lifecycle (status and scheduled time), which `schedule` and `publish`
 * update in place.
 *
 * The pure functions on `EpisodeData` are the specification; the class
 * `Episode` is the mutable object, and each of its methods is proved to move
 * its `Data()` exactly as the corresponding function says.
 */
module Episodes {
  import opened Wrappers
  import opened Text

  // ---------------------------------------------------------------------------
  // Timestamps
  // ---------------------------------------------------------------------------

  /**
   * A local date-time. Only its total order and its text form matter here;
   * it is represented by an integer and its text form is the decimal numeral.
   */
  type Timestamp = int

  /** The text form of a timestamp (`LocalDateTime.toString`). */
  function TimeText(t: Timestamp): string
  {
    IntToString(t)
  }

  /** Reading a timestamp back from its text form (`LocalDateTime.parse`). */
  function ParseTime(s: string): Option<Timestamp>
  {
    ParseInteger(s)
  }

  /** The two functions above are inverse to each other. */
  lemma ParseTimeText(t: Timestamp)
    ensures ParseTime(TimeText(t)) == Some(t)
  {
    ParseIntegerOfString(t);
  }

  // ---------------------------------------------------------------------------
  // Kind and status
  // ---------------------------------------------------------------------------

  /** The two episode subclasses, which differ only in their type label. */
  datatype Kind = Regular | Bonus

  function LabelOf(k: Kind): string
  {
    match k
    case Regular => "Regular"
    case Bonus => "Bonus"
  }

  /** The lifecycle states; their names are the enumeration constants. */
  datatype Status = Draft | Scheduled | Published

  /** `EpisodeStatus.name()` (and `toString()`). */
  function StatusName(s: Status): (name: string)
    ensures StatusOfName(name) == Some(s)
  {
    match s
    case Draft => "DRAFT"
    case Scheduled => "SCHEDULED"
    case Published => "PUBLISHED"
  }

  /** `EpisodeStatus.valueOf`: exact, case-sensitive match of a constant's name. */
  function StatusOfName(name: string): (r: Option<Status>)
    ensures r.Some? <==> name in {"DRAFT", "SCHEDULED", "PUBLISHED"}
  {
    if name == "DRAFT" then Some(Draft)
    else if name == "SCHEDULED" then Some(Scheduled)
    else if name == "PUBLISHED" then Some(Published)
    else None
  }

  // ---------------------------------------------------------------------------
  // The value of an episode and its lifecycle
  // ---------------------------------------------------------------------------

  /** Everything an episode holds; `time == None` is a null scheduled time. */
  datatype EpisodeData = EpisodeData(
    id: string,
    kind: Kind,
    title: string,
    duration: Int32,
    status: Status,
    time: Option<Timestamp>)

  /** The parts of an episode that never change after construction. */
  predicate SameIdentity(a: EpisodeData, b: EpisodeData)
  {
    a.id == b.id && a.kind == b.kind && a.title == b.title && a.duration == b.duration
  }

  /** A newly constructed episode: DRAFT and not scheduled. */
  function Created(id: string, kind: Kind, title: string, duration: Int32): EpisodeData
  {
    EpisodeData(id, kind, title, duration, Draft, None)
  }

  /** `canPublish(now)`: scheduled, `now` strictly after the time, status SCHEDULED. */
  predicate Publishable(d: EpisodeData, now: Timestamp)
  {
    d.time.Some? && now > d.time.value && d.status == Scheduled
  }

  /** The effect of `schedule(dt)`, from any status. */
  function AfterSchedule(d: EpisodeData, dt: Timestamp): EpisodeData
  {
    d.(time := Some(dt), status := Scheduled)
  }

  /** The effect of `publish(now)`: PUBLISHED when publishable, otherwise nothing. */
  function AfterPublish(d: EpisodeData, now: Timestamp): EpisodeData
  {
    if Publishable(d, now) then d.(status := Published) else d
  }

  /**
   * The display form `[label] title (d min) - STATUS | time`, with
   * "Not scheduled" in place of a missing time.
   */
  function Display(d: EpisodeData): (r: string)
    ensures var head := "[" + LabelOf(d.kind) + "] " + d.title + " (";
      |r| >= |head| && r[..|head|] == head
    ensures var tail := " | " + (if d.time.None? then "Not scheduled" else TimeText(d.time.value));
      |r| >= |tail| && r[|r| - |tail|..] == tail
  {
    var dateText := if d.time.None? then "Not scheduled" else TimeText(d.time.value);
    var head := "[" + LabelOf(d.kind) + "] " + d.title + " (";
    var middle := IntToString(d.duration) + " min) - " + StatusName(d.status) + " | ";
    assert (head + middle + dateText)[..|head|] == head;
    assert (head + middle + dateText)[|head + middle + dateText| - |" | " + dateText|..] == " | " + dateText;
    head + middle + dateText
  }

  /** The lifecycle invariant: exactly the DRAFT episodes are unscheduled. */
  predicate Consistent(d: EpisodeData)
  {
    d.status == Draft <==> d.time.None?
  }

  /**
   * `publish` has an effect exactly when the episode has a scheduled time
   * strictly before `now` and is SCHEDULED; it never touches the time or the
   * identity.
   */
  lemma PublishTakesEffect(d: EpisodeData, now: Timestamp)
    ensures AfterPublish(d, now) != d <==>
      d.time.Some? && d.time.value < now && d.status == Scheduled
    ensures AfterPublish(d, now) != d ==> AfterPublish(d, now).status == Published
    ensures AfterPublish(d, now).time == d.time && SameIdentity(AfterPublish(d, now), d)
  {
  }

  /**
   * A second `publish` at the same time changes nothing, and once PUBLISHED
   * an episode is left alone by `publish` at any time.
   */
  lemma PublishIdempotent(d: EpisodeData, now: Timestamp, later: Timestamp)
    ensures AfterPublish(AfterPublish(d, now), now) == AfterPublish(d, now)
    ensures AfterPublish(d, now).status == Published ==>
      AfterPublish(AfterPublish(d, now), later) == AfterPublish(d, now)
  {
  }

  /** `schedule` re-opens a PUBLISHED episode: it becomes SCHEDULED again. */
  lemma ScheduleReopensPublished(d: EpisodeData, dt: Timestamp)
    requires d.status == Published
    ensures AfterSchedule(d, dt).status == Scheduled && AfterSchedule(d, dt).time == Some(dt)
  {
  }

  // ---------------------------------------------------------------------------
  // Sequences of lifecycle operations
  // ---------------------------------------------------------------------------

  datatype Step = ScheduleStep(dt: Timestamp) | PublishStep(now: Timestamp)

  function Apply(d: EpisodeData, step: Step): EpisodeData
  {
    match step
    case ScheduleStep(dt) => AfterSchedule(d, dt)
    case PublishStep(now) => AfterPublish(d, now)
  }

  /** The episode after the steps, in order. */
  function Run(d: EpisodeData, steps: seq<Step>): EpisodeData
    decreases |steps|
  {
    if steps == [] then d else Run(Apply(d, steps[0]), steps[1..])
  }

  /**
   * No sequence of `schedule` and `publish` calls changes id, kind, title or
   * duration, or breaks the lifecycle invariant.
   */
  lemma {:induction false} RunKeepsIdentityAndConsistency(d: EpisodeData, steps: seq<Step>)
    requires Consistent(d)
    ensures SameIdentity(Run(d, steps), d) && Consistent(Run(d, steps))
    decreases |steps|
  {
    if steps != [] {
      RunKeepsIdentityAndConsistency(Apply(d, steps[0]), steps[1..]);
    }
  }

  /** Once out of DRAFT, an episode never returns to it. */
  lemma {:induction false} NeverBackToDraft(d: EpisodeData, steps: seq<Step>)
    requires d.status != Draft
    ensures Run(d, steps).status != Draft
    decreases |steps|
  {
    if steps != [] {
      NeverBackToDraft(Apply(d, steps[0]), steps[1..]);
    }
  }

  /**
   * An episode created by the constructor stays DRAFT exactly as long as it
   * has not been scheduled: `publish` alone never moves it.
   */
  lemma {:induction false} DraftUntilScheduled(d: EpisodeData, steps: seq<Step>)
    requires d.status == Draft
    ensures Run(d, steps).status == Draft <==> forall k :: 0 <= k < |steps| ==> steps[k].PublishStep?
    decreases |steps|
  {
    if steps != [] {
      match steps[0]
      case ScheduleStep(dt) =>
        NeverBackToDraft(Apply(d, steps[0]), steps[1..]);
      case PublishStep(now) =>
        DraftUntilScheduled(Apply(d, steps[0]), steps[1..]);
        assert forall k :: 1 <= k < |steps| ==> steps[k] == steps[1..][k - 1];
    }
  }

  // ---------------------------------------------------------------------------
  // The mutable episode object
  // ---------------------------------------------------------------------------

  class Episode {
    const id: string
    const kind: Kind
    const title: string
    const durationMinutes: Int32
    var status: Status
    var scheduledDateTime: Option<Timestamp>

    /** The current value of the object. */
    function Data(): EpisodeData
      reads this
    {
      EpisodeData(id, kind, title, durationMinutes, status, scheduledDateTime)
    }

    /** A new episode is DRAFT with no scheduled time. */
    constructor (id: string, kind: Kind, title: string, durationMinutes: Int32)
      ensures this.id == id && this.kind == kind && this.title == title
      ensures this.durationMinutes == durationMinutes
      ensures status == Draft && scheduledDateTime == None
      ensures Data() == Created(id, kind, title, durationMinutes)
    {
      this.id := id;
      this.kind := kind;
      this.title := title;
      this.durationMinutes := durationMinutes;
      status := Draft;
      scheduledDateTime := None;
    }

    /** The protected setter used when restoring a stored episode. */
    method SetStatus(s: Status)
      modifies this
      ensures status == s && scheduledDateTime == old(scheduledDateTime)
    {
      status := s;
    }

    /** The protected setter used when restoring a stored episode. */
    method SetScheduledDateTime(dt: Option<Timestamp>)
      modifies this
      ensures scheduledDateTime == dt && status == old(status)
    {
      scheduledDateTime := dt;
    }

    function TypeLabel(): string
    {
      LabelOf(kind)
    }

    /** Records the time and makes the episode SCHEDULED, whatever its status. */
    method Schedule(dt: Timestamp)
      modifies this
      ensures scheduledDateTime == Some(dt) && status == Scheduled
      ensures Data() == AfterSchedule(old(Data()), dt)
    {
      scheduledDateTime := Some(dt);
      status := Scheduled;
    }

    predicate CanPublish(now: Timestamp)
      reads this
    {
      Publishable(Data(), now)
    }

    /** Makes the episode PUBLISHED if `CanPublish(now)`; otherwise does nothing. */
    method Publish(now: Timestamp)
      modifies this
      ensures old(CanPublish(now)) ==> status == Published
      ensures !old(CanPublish(now)) ==> status == old(status)
      ensures scheduledDateTime == old(scheduledDateTime)
      ensures Data() == AfterPublish(old(Data()), now)
    {
      if CanPublish(now) {
        status := Published;
      }
    }

    function ToString(): string
      reads this
    {
      Display(Data())
    }
  }
}
