# Podcast scheduler: episode lifecycle and repository, in Dafny

This project models the non-UI core of a small podcast scheduling application
and proves properties of that model.

Each **episode** has a fixed id, kind (Regular or Bonus), title and duration.
It also has a three-state lifecycle, DRAFT → SCHEDULED → PUBLISHED, with an
optional scheduled time. `schedule` records a time and makes the episode
SCHEDULED. `publish(now)` makes it PUBLISHED only when it is SCHEDULED and
`now` is strictly after its time; otherwise `publish` silently does nothing.

The **episode repository** owns an insertion-ordered list of episode objects.
It provides:

- a factory that accepts the labels "Regular" and "Bonus" in any case;
- scheduling that refuses a time already held by another episode in the list;
- publishing;
- a line format for saving: `id|label|title|duration|STATUS|time-or-null`;
- a loader that reads that format back.

Files:

- `Wrappers.dfy` (module `Wrappers`): the `Option` type, for a value that
  may be null or a parse that may fail.
- `Text.dfy` (module `Text`): the Java string operations the format relies
  on. These are `String.join`, `String.split` on `|` (trailing empty fields
  dropped; a string without the separator comes back whole), decimal rendering,
  `Integer.parseInt` (optional sign, digits, 32-bit range) and
  `equalsIgnoreCase`. It also proves the split/join and render/parse round trips.
- `Episode.dfy` (module `Episodes`): kind, status, the value `EpisodeData`
  and the pure lifecycle functions that specify the class `Episode`. The
  class's `schedule` and `publish` update `status` and `scheduledDateTime` in
  place. This file also holds the lemmas about sequences of lifecycle calls.
- `Persistence.dfy` (module `Persistence`): serialising one episode, parsing
  one line (skip, malformed, or record), and loading a file's lines. It proves
  the round trip and the skip and abort behaviour.
- `Repository.dfy` (module `Repository`): the class `EpisodeRepository`. Its
  field `episodes` is a `seq<Episode>` of object references, so the
  conflict scan's `other == ep` test is reference equality, as in the source.

How the code behaves, as modelled:

- `schedule` also applies to a PUBLISHED episode and makes it SCHEDULED
  again, so PUBLISHED is not a final state (`ScheduleReopensPublished`).
- A load that hits a malformed line raises a persistence error. The
  constructor catches that error, but the episodes read before the bad line
  were already appended, so they stay in the list. The repository does not
  start empty in that case (`MalformedLineAborts` and the constructor's
  contract).
- The loader restores status and time verbatim. A loaded DRAFT episode may
  carry a time (`LoadIgnoresLifecycle`), and loaded episodes may share a time.
  The distinct-times invariant is therefore only *preserved* by create,
  schedule and publish, never established by loading.

## Model

| member | source | states |
|---|---|---|
| `Episodes.Episode.constructor` | src/main/java/model/Episode.java:26-31 | a new episode keeps the given id, kind, title and duration, is DRAFT and has no scheduled time |
| `Episodes.Episode.SetStatus` | src/main/java/model/Episode.java:34 | the protected setter changes the status only |
| `Episodes.Episode.SetScheduledDateTime` | src/main/java/model/Episode.java:35 | the protected setter changes the scheduled time only |
| `Episodes.Episode.Schedule` | src/main/java/model/Episode.java:49-52 | from any status, the time becomes `dt` and the status SCHEDULED; id, kind, title and duration are constants |
| `Episodes.Episode.Publish` | src/main/java/model/Episode.java:69-73 | the status becomes PUBLISHED exactly when `canPublish(now)` held before; otherwise the episode is unchanged; the time never changes |
| `Episodes.PublishTakesEffect` | src/main/java/model/Episode.java:61-73 | publish changes the episode iff it has a time, `now` is strictly after it, and it is SCHEDULED; the change is to PUBLISHED only; time and identity are kept |
| `Episodes.PublishIdempotent` | src/main/java/model/Episode.java:61-73 | a second publish at the same time is a no-op, and a PUBLISHED episode is left alone by publish at any time |
| `Episodes.ScheduleReopensPublished` | src/main/java/model/Episode.java:49-52 | scheduling a PUBLISHED episode makes it SCHEDULED at the new time |
| `Episodes.RunKeepsIdentityAndConsistency` | src/main/java/model/Episode.java:13-15 | no sequence of schedule/publish calls changes id, kind, title or duration, and each keeps "DRAFT iff unscheduled" |
| `Episodes.NeverBackToDraft` | src/main/java/model/Episode.java:49-73 | once out of DRAFT, no sequence of schedule/publish calls returns an episode to DRAFT |
| `Episodes.DraftUntilScheduled` | src/main/java/model/Episode.java:26-73 | a DRAFT episode stays DRAFT after a sequence of calls iff none of them is schedule; publish alone never moves it |
| `Episodes.Publishable` | src/main/java/model/Episode.java:61-65 | `canPublish(now)`: a time is set, `now` is strictly after it, and the status is SCHEDULED; stated by `PublishTakesEffect` |
| `Episodes.Episode.CanPublish` | src/main/java/model/Episode.java:61-65 | the object's `canPublish`, which is `Publishable` of its current value |
| `Episodes.AfterSchedule` | src/main/java/model/Episode.java:49-52 | the value after `schedule(dt)`: time `dt`, status SCHEDULED, identity kept; stated by `ScheduleReopensPublished` and the run lemmas |
| `Episodes.AfterPublish` | src/main/java/model/Episode.java:69-73 | the value after `publish(now)`: PUBLISHED when publishable, otherwise unchanged; stated by `PublishTakesEffect`, `PublishIdempotent` |
| `Episodes.Created` | src/main/java/model/Episode.java:26-31 | the value of a new episode: DRAFT, no time |
| `Episodes.LabelOf` | src/main/java/model/Episode.java:45 | the type label of each subclass, "Regular" or "Bonus"; read back by `KindOfLabelOf` |
| `Episodes.Episode.TypeLabel` | src/main/java/model/Episode.java:45 | `getTypeLabel()` of the object, which is `LabelOf` of its kind |
| `Episodes.Episode.ToString` | src/main/java/model/Episode.java:90-96 | `toString()` of the object, which is `Display` of its current value |
| `Episodes.Display` | src/main/java/model/Episode.java:90-96 | the display string starts with `[label] title (` and ends with ` \| ` and the time, or "Not scheduled" when there is none |
| `Episodes.StatusName` | src/main/java/model/EpisodeRepository.java:99 | the written status name is read back by `valueOf` as the same status |
| `Episodes.StatusOfName` | src/main/java/model/EpisodeRepository.java:124 | `valueOf` succeeds exactly on DRAFT, SCHEDULED and PUBLISHED, case-sensitively |
| `Episodes.ParseTimeText` | src/main/java/model/EpisodeRepository.java:126-128 | the time's text form parses back to the same time |
| `Text.SplitJoin` | src/main/java/model/EpisodeRepository.java:117 | splitting joined fields gives them back when no field holds the separator and the last is not empty |
| `Text.SplitJoinPrefix` | src/main/java/model/EpisodeRepository.java:117-118 | extra fields after a non-empty field do not disturb the split pieces before it |
| `Text.StripDropsOnlyEmpty` | src/main/java/model/EpisodeRepository.java:117 | `split` drops only trailing empty fields |
| `Text.ParseInt32` | src/main/java/model/EpisodeRepository.java:123 | `parseInt` succeeds only on values within Java `int`, and the value it returns is the one whose decimal rendering is the input with any '+' sign, leading zeros and "-0" normalised away |
| `Text.ParseIntegerNormalized` | src/main/java/model/EpisodeRepository.java:123 | the converse of the rendering round trip: any text read as an integer is that integer's decimal rendering up to a '+' sign, leading zeros and "-0" |
| `Text.StripZerosValue` | src/main/java/model/EpisodeRepository.java:123 | the value of a run of digits renders as that run without its leading zeros (at least one digit kept), so leading zeros do not change what `parseInt` reads |
| `Text.ParseInteger` | src/main/java/model/EpisodeRepository.java:123 | the numeral `parseInt` reads before its range check: an optional sign, then one or more ASCII digits; its properties are `ParseIntegerOfString` and `ParseIntegerNormalized` |
| `Text.IntToString` | src/main/java/model/EpisodeRepository.java:98 | `String.valueOf(int)`: a minus sign for negatives, then the digits without leading zeros; read back by `ParseIntegerOfString` |
| `Text.Join` | src/main/java/model/EpisodeRepository.java:94-101 | `String.join` of the fields with the separator between them; undone by `SplitJoin` |
| `Text.Split` | src/main/java/model/EpisodeRepository.java:117 | `split("\\\|")`: a line without separator comes back whole, otherwise every piece with trailing empty pieces dropped; properties in `SplitJoin`, `SplitJoinPrefix`, `StripDropsOnlyEmpty` |
| `Text.EqualsIgnoreCase` | src/main/java/model/EpisodeRepository.java:42-44 | `equalsIgnoreCase`: same length and, per character, equal, equal upper case, or equal lower case of the upper case; characterised by `EqualsIgnoreCaseIsUpperEqual` |
| `Text.ParseIntegerOfString` | src/main/java/model/EpisodeRepository.java:98 | every rendered integer reads back as itself |
| `Text.ParseInt32OfString` | src/main/java/model/EpisodeRepository.java:123 | every Java `int` duration survives rendering and `parseInt` |
| `Text.EqualsIgnoreCaseIsUpperEqual` | src/main/java/model/EpisodeRepository.java:42-44 | the case-insensitive test is equality after upper-casing every character |
| `Persistence.Serialize` | src/main/java/model/EpisodeRepository.java:93-102 | `serialize`: the six fields joined by `\|`; its properties are `SerializeSplits` and `ParseSerialize` |
| `Persistence.SaveLines` | src/main/java/model/EpisodeRepository.java:82-84 | one serialised line per episode, in list order |
| `Persistence.KindOfLabel` | src/main/java/model/EpisodeRepository.java:130-132 | the subtype chosen on load: Regular when the label equals "Regular" ignoring case, Bonus for any other label; inverted by `KindOfLabelOf` |
| `Persistence.ParseLine` | src/main/java/model/EpisodeRepository.java:117-135 | one turn of the reading loop: fewer than six parts is a skip, a failed `parseInt`, `valueOf` or time parse is a failure, anything else a record; stated by the lemmas below |
| `Persistence.LoadResults` | src/main/java/model/EpisodeRepository.java:115-142 | the reading loop: skips pass, records are appended in order, the first failure ends the load keeping what was appended; stated by `LoadStep`, `LoadResultsConcat` |
| `Persistence.LoadLines` | src/main/java/model/EpisodeRepository.java:107-143 | loading the lines of a file; its properties are `LoadSaved`, `SkippedLineIgnored`, `MalformedLineAborts` |
| `Persistence.SerializeSplits` | src/main/java/model/EpisodeRepository.java:93-102 | a saved line splits into exactly six fields: id, label, title, decimal duration, status name, time or "null" |
| `Persistence.KindOfLabelOf` | src/main/java/model/EpisodeRepository.java:130-132 | the written label reads back as the same kind |
| `Persistence.ParseSerialize` | src/main/java/model/EpisodeRepository.java:117-135 | if id and title hold no `\|`, parsing the saved line restores id, kind, title, duration, status and time |
| `Persistence.LoadSaved` | src/main/java/model/EpisodeRepository.java:107-143 | loading the saved lines of storable episodes restores the list exactly, with no error |
| `Persistence.ShortLineSkipped` | src/main/java/model/EpisodeRepository.java:117-118 | a line of one to five fields is skipped, whatever they hold, the empty line and lines ending in empty fields included |
| `Persistence.TrailingEmptyFieldDropped` | src/main/java/model/EpisodeRepository.java:117-118 | a six-field line whose last field is empty is also skipped, because `split` drops it |
| `Persistence.ExtraFieldsIgnored` | src/main/java/model/EpisodeRepository.java:117-128 | when the sixth field is not empty, fields after it do not change how a line is read |
| `Persistence.ExtraFieldAfterEmptyTime` | src/main/java/model/EpisodeRepository.java:117-128 | when the sixth field is empty, an extra field does matter: `a\|Regular\|t\|30\|DRAFT\|` is skipped, but `a\|Regular\|t\|30\|DRAFT\|\|x` is malformed and fails the load |
| `Persistence.ContentErrors` | src/main/java/model/EpisodeRepository.java:123-128 | a six-field line is malformed iff the duration is not a Java `int`, the status is unknown, or the time is neither "null" nor a time; otherwise it is a record |
| `Persistence.RecordFields` | src/main/java/model/EpisodeRepository.java:120-135 | a record takes id, title, duration, status and time from its fields; the kind is Regular iff the label equals "Regular" ignoring case |
| `Persistence.LoadIgnoresLifecycle` | src/main/java/model/EpisodeRepository.java:130-135 | an unknown label loads as Bonus, and a DRAFT record with a time is accepted as it is |
| `Persistence.LoadStep` | src/main/java/model/EpisodeRepository.java:115-138 | each turn of the reading loop skips the line, stops the load, or appends its record |
| `Persistence.LoadResultsConcat` | src/main/java/model/EpisodeRepository.java:115-138 | loading two runs of lines is loading the first, then (if it did not fail) the second |
| `Persistence.LoadConcat` | src/main/java/model/EpisodeRepository.java:115-138 | the same, for the lines of a file |
| `Persistence.SkippedLineIgnored` | src/main/java/model/EpisodeRepository.java:117-118 | a skipped line changes nothing and loading continues after it |
| `Persistence.MalformedLineAborts` | src/main/java/model/EpisodeRepository.java:123-142 | a malformed line fails the whole load; the records before it are kept and nothing after it is read |
| `Repository.EpisodeRepository.constructor` | src/main/java/model/EpisodeRepository.java:22-29 | the repository holds the records read before any error (none when there is no file), each a new object; a load error is swallowed |
| `Repository.EpisodeRepository.LoadFromFile` | src/main/java/model/EpisodeRepository.java:107-143 | appends new episode objects holding exactly the loaded records, and fails with a persistence error iff the load fails |
| `Repository.EpisodeRepository.Restore` | src/main/java/model/EpisodeRepository.java:130-135 | rebuilds a new episode object holding exactly the stored value |
| `Repository.EpisodeRepository.CreateEpisode` | src/main/java/model/EpisodeRepository.java:37-52 | succeeds iff the label is "Regular" or "Bonus" ignoring case; then appends one new DRAFT episode of that kind with the given title and duration; otherwise fails and leaves the list unchanged; keeps ids unique and times distinct |
| `Repository.EpisodeRepository.ScheduleEpisode` | src/main/java/model/EpisodeRepository.java:57-74 | fails iff another episode of the list (by identity) is at exactly `dt`, naming the first one, and then changes nothing; otherwise schedules `ep` only; preserves distinct times |
| `Repository.EpisodeRepository.SelfRescheduleNoConflict` | src/main/java/model/EpisodeRepository.java:61-66 | with distinct times, scheduling an episode at its own current time never conflicts |
| `Repository.EpisodeRepository.PublishEpisode` | src/main/java/model/EpisodeRepository.java:146-148 | publishes `ep` as `publish` does and changes no other episode; preserves distinct times |
| `Repository.EpisodeRepository.SaveToFile` | src/main/java/model/EpisodeRepository.java:79-90 | the saved lines are the serialised episodes, one per episode, in list order |
| `Repository.EpisodeRepository.SaveLoadRoundTrip` | src/main/java/model/EpisodeRepository.java:82-84 | loading what a save of storable episodes wrote restores every episode's value, in order |

## Left out

- The JavaFX user interface (`PodcastSchedulerApp.java`) is not part of this model.
- The file itself is not modelled: the path `episodes.txt`, `FileWriter`,
  `BufferedReader` and the existence check. A save yields the lines to write,
  and a load takes the lines read, or `None` when the file does not exist.
  So a newline inside a title, which would break a record across two lines
  of the file, is not modelled.
- An I/O failure during a save, and the persistence error it raises, are not
  modelled: a save here cannot fail.
- `UUID.randomUUID()`: the new id is a parameter of `CreateEpisode`, with a
  precondition that no episode in the list already has it.
- `LocalDateTime`: a timestamp is an integer. Its text form is the decimal
  numeral and parsing reads an optional sign and digits. The ISO-8601 format is
  not modelled.
- Character handling outside ASCII: `equalsIgnoreCase` is modelled with the
  ASCII case mappings only (Java would also match, for instance, U+017F with
  `s`). `parseInt` accepts only ASCII digits here, and `%d` is modelled
  without locale-specific digits.
- Null arguments (`schedule(null)`, a null title) are not modelled.
- The constructor's `System.err` message on a failed load is not modelled.
  The error message's wrapped cause is reduced to one fixed persistence error.
- `getEpisodes()`: callers read the field `episodes`. Changes the UI could
  make to the returned list are not modelled.
- Repository.EpisodeRepository.LoadFromFile: requires an empty list, because
  its only caller is the constructor, right after the list is created.
