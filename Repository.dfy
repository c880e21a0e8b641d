/**
 * The repository that owns the episodes: an insertion-ordered list of episode
 * objects, the factory that appends to it, scheduling with its conflict check,
 * publishing, and saving to and loading from the line format.
 *
 * The file itself is not modelled: a save produces the lines to write, and a
 * load consumes the lines read (`None` when the file does not exist).
 */
module Repository {
  import opened Wrappers
  import opened Text
  import opened Episodes
  import opened Persistence

  /** The three exceptions the repository raises, with their messages. */
  datatype Error =
    | InvalidArgument(message: string)
    | ScheduleConflict(message: string)
    | PersistenceFailure(message: string)

  datatype Result<T> = Ok(value: T) | Err(error: Error)

  function UnknownTypeError(typeLabel: string): Error
  {
    InvalidArgument("Unknown episode type: " + typeLabel)
  }

  function ConflictError(title: string, dt: Timestamp): Error
  {
    ScheduleConflict("Episode '" + title + "' already scheduled at " + TimeText(dt))
  }

  const LoadError: Error := PersistenceFailure("Unexpected error loading episodes")

  class EpisodeRepository {
    var episodes: seq<Episode>

    /** The list never holds the same episode object twice. */
    ghost predicate Valid()
      reads this
    {
      forall i, j :: 0 <= i < j < |episodes| ==> episodes[i] != episodes[j]
    }

    /** The values of the episodes, in list order. */
    function Contents(): (s: seq<EpisodeData>)
      reads this, episodes
      ensures |s| == |episodes|
      ensures forall i :: 0 <= i < |episodes| ==> s[i] == episodes[i].Data()
    {
      var eps := episodes;
      seq(|eps|, i reads eps requires 0 <= i < |eps| => eps[i].Data())
    }

    /** No two distinct episodes of the list share a scheduled time. */
    predicate DistinctTimes()
      reads this, episodes
    {
      forall i, j ::
        (0 <= i < |episodes| && 0 <= j < |episodes| && i != j && episodes[i].scheduledDateTime.Some?) ==>
          episodes[i].scheduledDateTime != episodes[j].scheduledDateTime
    }

    /** No two episodes of the list share an id. */
    predicate UniqueIds()
      reads this
    {
      forall i, j :: 0 <= i < j < |episodes| ==> episodes[i].id != episodes[j].id
    }

    /** Episode `j` of the list is another episode than `ep`, already at `dt`. */
    predicate ConflictsAt(j: int, ep: Episode, dt: Timestamp)
      reads this, episodes
      requires 0 <= j < |episodes|
    {
      episodes[j] != ep && episodes[j].scheduledDateTime == Some(dt)
    }

    /** Some episode of the list other than `ep` is already at `dt`. */
    predicate HasConflict(ep: Episode, dt: Timestamp)
      reads this, episodes
    {
      exists j :: 0 <= j < |episodes| && ConflictsAt(j, ep, dt)
    }

    /**
     * Builds the repository and loads the stored file, if there is one. A
     * failed load is swallowed: whatever was appended before the bad line
     * stays in the list.
     */
    constructor (file: Option<seq<string>>)
      ensures Valid()
      ensures forall k :: 0 <= k < |episodes| ==> fresh(episodes[k])
      ensures file.None? ==> Contents() == []
      ensures file.Some? ==> Contents() == LoadLines(file.value).loaded
    {
      episodes := [];
      new;
      var _ := LoadFromFile(file);
    }

    /**
     * Appends the episodes read from the lines; on a malformed line stops with
     * a persistence error, keeping what was appended before it.
     */
    method LoadFromFile(file: Option<seq<string>>) returns (r: Result<()>)
      requires episodes == []
      modifies this
      ensures Valid()
      ensures forall k :: 0 <= k < |episodes| ==> fresh(episodes[k])
      ensures file.None? ==> r == Ok(()) && episodes == []
      ensures file.Some? ==>
        Contents() == LoadLines(file.value).loaded &&
        r == if LoadLines(file.value).failed then Err(LoadError) else Ok(())
    {
      if file.None? {
        return Ok(());
      }
      var lines := file.value;
      ghost var added: seq<EpisodeData> := [];
      ghost var results := ParseAll(lines);
      var i := 0;
      while i < |lines|
        invariant 0 <= i <= |lines|
        invariant Valid()
        invariant |episodes| == |added|
        invariant forall k :: 0 <= k < |episodes| ==> fresh(episodes[k])
        invariant forall k :: 0 <= k < |added| ==> episodes[k].Data() == added[k]
        invariant LoadLines(lines) == Prepend(added, LoadResults(results[i..]))
      {
        var parsed := ParseLine(lines[i]);
        LoadStep(results, i, added, LoadLines(lines));
        if parsed.Malformed? {
          return Err(LoadError);
        }
        if parsed.Record? {
          var ep := Restore(parsed.data);
          Add(ep);
          added := added + [parsed.data];
        }
        i := i + 1;
      }
      assert results[i..] == [];
      return Ok(());
    }

    /** Appends an episode that is not yet in the list. */
    method Add(ep: Episode)
      requires Valid() && ep !in episodes
      modifies this
      ensures Valid() && episodes == old(episodes) + [ep]
    {
      episodes := episodes + [ep];
    }

    /**
     * Rebuilds a stored episode: constructed as a new DRAFT episode, then given
     * the stored status and time through the setters, without any check.
     */
    static method Restore(d: EpisodeData) returns (ep: Episode)
      ensures fresh(ep) && ep.Data() == d
    {
      ep := new Episode(d.id, d.kind, d.title, d.duration);
      ep.SetStatus(d.status);
      ep.SetScheduledDateTime(d.time);
    }

    /**
     * The factory: a label equal to "Regular" or "Bonus" up to case gives a
     * new DRAFT episode of that kind, appended at the end; any other label is
     * an error and the list is left alone. `id` stands for the fresh random
     * identifier.
     */
    method CreateEpisode(typeLabel: string, title: string, duration: Int32, id: string)
      returns (r: Result<Episode>)
      requires Valid()
      requires forall k :: 0 <= k < |episodes| ==> episodes[k].id != id
      modifies this
      ensures Valid()
      ensures r.Ok? <==> EqualsIgnoreCase(typeLabel, "Regular") || EqualsIgnoreCase(typeLabel, "Bonus")
      ensures r.Err? ==> r.error == UnknownTypeError(typeLabel) && episodes == old(episodes)
      ensures r.Ok? ==>
        fresh(r.value) && episodes == old(episodes) + [r.value] &&
        r.value.Data() == Created(id, if EqualsIgnoreCase(typeLabel, "Regular") then Regular else Bonus,
                                  title, duration)
      ensures Contents()[..old(|episodes|)] == old(Contents())
      ensures old(UniqueIds()) ==> UniqueIds()
      ensures old(DistinctTimes()) ==> DistinctTimes()
    {
      var ep: Episode;
      if EqualsIgnoreCase(typeLabel, "Regular") {
        ep := new Episode(id, Regular, title, duration);
      } else if EqualsIgnoreCase(typeLabel, "Bonus") {
        ep := new Episode(id, Bonus, title, duration);
      } else {
        return Err(UnknownTypeError(typeLabel));
      }
      Add(ep);
      return Ok(ep);
    }

    /**
     * Schedules `ep` at `dt` unless another episode of the list (by identity)
     * is already at exactly `dt`; the error names the first such episode in
     * list order, and then nothing changes.
     */
    method ScheduleEpisode(ep: Episode, dt: Timestamp) returns (r: Result<()>)
      requires Valid()
      modifies ep
      ensures r.Err? <==> old(HasConflict(ep, dt))
      ensures r.Err? ==> unchanged(ep)
      ensures r.Err? ==> (
        exists j :: 0 <= j < |episodes| && ConflictsAt(j, ep, dt) &&
          (forall k :: 0 <= k < j ==> !ConflictsAt(k, ep, dt)) &&
          r.error == ConflictError(episodes[j].title, dt))
      ensures r.Ok? ==> ep.Data() == AfterSchedule(old(ep.Data()), dt)
      ensures episodes == old(episodes)
      ensures forall k :: 0 <= k < |episodes| && episodes[k] != ep ==> episodes[k].Data() == old(episodes[k].Data())
      ensures old(DistinctTimes()) ==> DistinctTimes()
    {
      var i := 0;
      while i < |episodes|
        invariant 0 <= i <= |episodes|
        invariant forall k :: 0 <= k < i ==> !ConflictsAt(k, ep, dt)
      {
        var other := episodes[i];
        if other != ep && other.scheduledDateTime == Some(dt) {
          assert ConflictsAt(i, ep, dt);
          return Err(ConflictError(other.title, dt));
        }
        i := i + 1;
      }
      ep.Schedule(dt);
      if old(DistinctTimes()) {
        forall i, j | 0 <= i < |episodes| && 0 <= j < |episodes| && i != j && episodes[i].scheduledDateTime.Some?
          ensures episodes[i].scheduledDateTime != episodes[j].scheduledDateTime
        {
          if episodes[i] == ep {
            assert episodes[j] != ep by {
              if i < j { assert episodes[i] != episodes[j]; } else { assert episodes[j] != episodes[i]; }
            }
            assert !old(ConflictsAt(j, ep, dt));
          } else if episodes[j] == ep {
            assert !old(ConflictsAt(i, ep, dt));
          } else {
            assert old(episodes[i].scheduledDateTime != episodes[j].scheduledDateTime);
          }
        }
      }
      return Ok(());
    }

    /** Publishes `ep` if it can be published at `now`; otherwise nothing happens. */
    method PublishEpisode(ep: Episode, now: Timestamp)
      modifies ep
      ensures ep.Data() == AfterPublish(old(ep.Data()), now)
      ensures episodes == old(episodes)
      ensures forall k :: 0 <= k < |episodes| && episodes[k] != ep ==> episodes[k].Data() == old(episodes[k].Data())
      ensures old(DistinctTimes()) ==> DistinctTimes()
    {
      ep.Publish(now);
    }

    /** The lines a save writes: one serialised record per episode, in order. */
    method SaveToFile() returns (lines: seq<string>)
      ensures lines == SaveLines(Contents())
    {
      lines := [];
      var i := 0;
      while i < |episodes|
        invariant 0 <= i <= |episodes|
        invariant |lines| == i
        invariant forall k :: 0 <= k < i ==> lines[k] == Serialize(episodes[k].Data())
      {
        lines := lines + [Serialize(episodes[i].Data())];
        i := i + 1;
      }
    }

    /**
     * Re-scheduling an episode of the list at its own current time never
     * conflicts while the times are distinct: the scan skips the episode itself.
     */
    lemma SelfRescheduleNoConflict(ep: Episode)
      requires DistinctTimes() && ep in episodes && ep.scheduledDateTime.Some?
      ensures !HasConflict(ep, ep.scheduledDateTime.value)
    {
    }

    /** Saving and loading again restores every episode's value, in order. */
    lemma SaveLoadRoundTrip()
      requires forall k :: 0 <= k < |episodes| ==> Storable(episodes[k].Data())
      ensures LoadLines(SaveLines(Contents())) == LoadOutcome(Contents(), false)
    {
      LoadSaved(Contents());
    }
  }
}
