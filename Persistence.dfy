/**
 * The episode store's line format: one record per line, six fields joined by
 * '|' (id, type label, title, duration, status name, time or "null"), and the
 * reader that turns a file's lines back into episodes.
 */
module Persistence {
  import opened Wrappers
  import opened Text
  import opened Episodes

  const Separator: char := '|'

  /** The sixth field: the time's text form, or the literal "null". */
  function TimeField(t: Option<Timestamp>): string
  {
    match t
    case None => "null"
    case Some(v) => TimeText(v)
  }

  /** The six fields written for an episode, in order. */
  function Fields(d: EpisodeData): seq<string>
  {
    [d.id, LabelOf(d.kind), d.title, IntToString(d.duration), StatusName(d.status), TimeField(d.time)]
  }

  /** `serialize`: the record line of an episode. */
  function Serialize(d: EpisodeData): string
  {
    Join(Fields(d), Separator)
  }

  /** The type is Regular when the label is "Regular" in any case, else Bonus. */
  function KindOfLabel(typeLabel: string): Kind
  {
    if EqualsIgnoreCase(typeLabel, "Regular") then Regular else Bonus
  }

  /** Reads the sixth field: `None` when it is neither "null" nor a time. */
  function ParseTimeField(s: string): Option<Option<Timestamp>>
  {
    if s == "null" then Some(None)
    else match ParseTime(s)
      case Some(t) => Some(Some(t))
      case None => None
  }

  /** What the reader makes of one line. */
  datatype LineResult =
    | Skipped                    // fewer than six fields: ignored
    | Malformed                  // bad duration, status or time: the load fails
    | Record(data: EpisodeData)  // an episode to append

  /** The body of the reading loop, for one line. */
  function ParseLine(line: string): LineResult
  {
    var parts := Split(line, Separator);
    if |parts| < 6 then Skipped
    else
      var duration := ParseInt32(parts[3]);
      var status := StatusOfName(parts[4]);
      var time := ParseTimeField(parts[5]);
      if duration.None? || status.None? || time.None? then Malformed
      else Record(EpisodeData(parts[0], KindOfLabel(parts[1]), parts[2],
                              duration.value, status.value, time.value))
  }

  /**
   * The outcome of reading a file: the episodes appended, in order, and
   * whether the load stopped with an error. On an error the episodes read
   * before the bad line have already been appended and stay.
   */
  datatype LoadOutcome = LoadOutcome(loaded: seq<EpisodeData>, failed: bool)

  /** What the reader makes of each line, in order. */
  function ParseAll(lines: seq<string>): (rs: seq<LineResult>)
    ensures |rs| == |lines|
  {
    seq(|lines|, k requires 0 <= k < |lines| => ParseLine(lines[k]))
  }

  /**
   * The reading loop over the per-line results: skipped lines are passed
   * over, records appended, and the first malformed line ends the load.
   */
  function LoadResults(rs: seq<LineResult>): LoadOutcome
    decreases |rs|
  {
    if rs == [] then LoadOutcome([], false)
    else match rs[0]
      case Skipped => LoadResults(rs[1..])
      case Malformed => LoadOutcome([], true)
      case Record(d) =>
        var rest := LoadResults(rs[1..]);
        LoadOutcome([d] + rest.loaded, rest.failed)
  }

  /** Loading a file's lines. */
  function LoadLines(lines: seq<string>): LoadOutcome
  {
    LoadResults(ParseAll(lines))
  }

  /** The lines a save writes, one per episode in order. */
  function SaveLines(ds: seq<EpisodeData>): (lines: seq<string>)
    ensures |lines| == |ds|
  {
    seq(|ds|, i requires 0 <= i < |ds| => Serialize(ds[i]))
  }

  // ---------------------------------------------------------------------------
  // Properties of the format
  // ---------------------------------------------------------------------------

  /** The only restriction the format puts on an episode: no '|' in id or title. */
  predicate Storable(d: EpisodeData)
  {
    Separator !in d.id && Separator !in d.title
  }

  lemma NumeralHasNoSeparator(i: int)
    ensures Separator !in IntToString(i) && IntToString(i) != []
    ensures IntToString(i) != "null"
  {
    IntToStringChars(i);
    var s := IntToString(i);
    assert s[0] == '-' || IsDigit(s[0]);
  }

  /**
   * A stored record splits into exactly its six fields: id, label, title,
   * duration, status name and time (or "null").
   */
  lemma SerializeSplits(d: EpisodeData)
    requires Storable(d)
    ensures Split(Serialize(d), Separator) == Fields(d)
    ensures |Split(Serialize(d), Separator)| == 6
  {
    var f := Fields(d);
    NumeralHasNoSeparator(d.duration);
    if d.time.Some? {
      NumeralHasNoSeparator(d.time.value);
    }
    assert NoSeparator(f, Separator);
    SplitJoin(f, Separator);
  }

  /** The label written for a kind is read back as that kind. */
  lemma KindOfLabelOf(k: Kind)
    ensures KindOfLabel(LabelOf(k)) == k
  {
    if k == Regular {
      assert EqualsIgnoreCase("Regular", "Regular");
    }
  }

  /**
   * Round trip of one record: reading the line written for a storable episode
   * gives back the same id, kind, title, duration, status and time.
   */
  lemma ParseSerialize(d: EpisodeData)
    requires Storable(d)
    ensures ParseLine(Serialize(d)) == Record(d)
  {
    SerializeSplits(d);
    ParseInt32OfString(d.duration);
    KindOfLabelOf(d.kind);
    if d.time.Some? {
      NumeralHasNoSeparator(d.time.value);
      ParseTimeText(d.time.value);
    }
  }

  /** A reading loop that meets only records appends them all. */
  lemma {:induction false} LoadRecords(ds: seq<EpisodeData>)
    ensures LoadResults(seq(|ds|, k requires 0 <= k < |ds| => Record(ds[k]))) == LoadOutcome(ds, false)
    decreases |ds|
  {
    var rs := seq(|ds|, k requires 0 <= k < |ds| => Record(ds[k]));
    if ds != [] {
      assert rs[1..] == seq(|ds[1..]|, k requires 0 <= k < |ds[1..]| => Record(ds[1..][k]));
      LoadRecords(ds[1..]);
      assert [ds[0]] + ds[1..] == ds;
    }
  }

  /** Round trip of a whole file: loading what a save wrote restores the list. */
  lemma LoadSaved(ds: seq<EpisodeData>)
    requires forall k :: 0 <= k < |ds| ==> Storable(ds[k])
    ensures LoadLines(SaveLines(ds)) == LoadOutcome(ds, false)
  {
    forall k | 0 <= k < |ds|
      ensures ParseAll(SaveLines(ds))[k] == Record(ds[k])
    {
      ParseSerialize(ds[k]);
    }
    assert ParseAll(SaveLines(ds)) == seq(|ds|, k requires 0 <= k < |ds| => Record(ds[k]));
    LoadRecords(ds);
  }

  /** A line of one to five fields, the empty line included, is skipped. */
  lemma ShortLineSkipped(fields: seq<string>)
    requires 0 < |fields| < 6 && NoSeparator(fields, Separator)
    ensures ParseLine(Join(fields, Separator)) == Skipped
  {
    SplitAllJoin(fields, Separator);
    if |fields| == 1 {
      SplitAllFree(fields[0], Separator);
    }
  }

  /**
   * Trailing empty fields do not count: a line of six fields whose last one
   * is empty is skipped.
   */
  lemma TrailingEmptyFieldDropped(fields: seq<string>)
    requires |fields| == 6 && NoSeparator(fields, Separator) && fields[5] == ""
    ensures ParseLine(Join(fields, Separator)) == Skipped
  {
    SplitAllJoin(fields, Separator);
    JoinHasSeparator(fields, Separator);
  }

  /** Fields beyond a non-empty sixth field are ignored. */
  lemma ExtraFieldsIgnored(fields: seq<string>)
    requires |fields| >= 6 && NoSeparator(fields, Separator) && fields[5] != ""
    ensures ParseLine(Join(fields, Separator)) == ParseLine(Join(fields[..6], Separator))
  {
    assert fields[..6] + fields[6..] == fields;
    SplitJoinPrefix(fields[..6], fields[6..], Separator);
    SplitJoin(fields[..6], Separator);
  }

  /**
   * An extra field after an empty sixth one matters: without it the line is
   * skipped (the empty field is dropped), with it the empty time field is read
   * and the whole load fails.
   */
  lemma ExtraFieldAfterEmptyTime()
    ensures ParseLine(Join(["a", "Regular", "t", "30", "DRAFT", ""], Separator)).Skipped?
    ensures ParseLine(Join(["a", "Regular", "t", "30", "DRAFT", "", "x"], Separator)).Malformed?
  {
    var fields := ["a", "Regular", "t", "30", "DRAFT", "", "x"];
    assert NoSeparator(fields, Separator);
    var six := ["a", "Regular", "t", "30", "DRAFT", ""];
    assert NoSeparator(six, Separator);
    TrailingEmptyFieldDropped(six);
    SplitJoin(fields, Separator);
    assert Split(Join(fields, Separator), Separator)[5] == "";
  }

  /**
   * On a line with six fields, a duration that is not a Java `int`, an
   * unknown status name, or a time that is neither "null" nor a time make
   * the line malformed; otherwise it is a record.
   */
  lemma ContentErrors(fields: seq<string>)
    requires |fields| == 6 && NoSeparator(fields, Separator) && fields[5] != ""
    ensures ParseLine(Join(fields, Separator)).Malformed? <==>
      ParseInt32(fields[3]).None? || StatusOfName(fields[4]).None? ||
      (fields[5] != "null" && ParseTime(fields[5]).None?)
    ensures !ParseLine(Join(fields, Separator)).Malformed? ==> ParseLine(Join(fields, Separator)).Record?
  {
    SplitJoin(fields, Separator);
  }

  /**
   * A record takes id, title, duration, status and time verbatim, and the
   * kind from the case-insensitive test of the label against "Regular".
   */
  lemma RecordFields(fields: seq<string>)
    requires |fields| == 6 && NoSeparator(fields, Separator) && fields[5] != ""
    requires ParseLine(Join(fields, Separator)).Record?
    ensures var d := ParseLine(Join(fields, Separator)).data;
      d.id == fields[0] && d.title == fields[2] &&
      (d.kind == Regular <==> EqualsIgnoreCase(fields[1], "Regular")) &&
      Some(d.duration as int) == ParseInteger(fields[3]) &&
      StatusName(d.status) == fields[4] &&
      (d.time.None? <==> fields[5] == "null") &&
      (d.time.Some? ==> Some(d.time.value) == ParseTime(fields[5]))
  {
    SplitJoin(fields, Separator);
  }

  /**
   * The reader checks nothing about the lifecycle: any label but "Regular"
   * (in any case) gives a Bonus episode, and a DRAFT record with a time is
   * accepted as it is.
   */
  lemma LoadIgnoresLifecycle()
    ensures ParseLine(Join(["e1", "Special", "Ep1", "+30", "DRAFT", "7"], Separator))
         == Record(EpisodeData("e1", Bonus, "Ep1", 30, Draft, Some(7)))
    ensures !Consistent(EpisodeData("e1", Bonus, "Ep1", 30, Draft, Some(7)))
  {
    var fields := ["e1", "Special", "Ep1", "+30", "DRAFT", "7"];
    assert NoSeparator(fields, Separator);
    SplitJoin(fields, Separator);
    assert Split(Join(fields, Separator), Separator)[3] == "+30";
    assert "+30"[1..] == "30";
    assert DigitsValue("30") == 30 by {
      assert "30"[..1] == "3";
    }
    assert ParseTime("7") == Some(7);
    assert UpperAscii("Special"[0]) != UpperAscii("Regular"[0]);
    assert LowerAscii(UpperAscii("Special"[0])) != LowerAscii(UpperAscii("Regular"[0]));
  }

  // ---------------------------------------------------------------------------
  // Properties of the reader
  // ---------------------------------------------------------------------------

  /** The outcome of a load after the records `ds` have already been appended. */
  function Prepend(ds: seq<EpisodeData>, o: LoadOutcome): LoadOutcome
  {
    LoadOutcome(ds + o.loaded, o.failed)
  }

  /**
   * One turn of the reading loop: with `added` appended for the lines before
   * `i`, line `i` is skipped, aborts the load, or appends its record.
   */
  lemma LoadStep(rs: seq<LineResult>, i: nat, added: seq<EpisodeData>, outcome: LoadOutcome)
    requires i < |rs| && outcome == Prepend(added, LoadResults(rs[i..]))
    ensures rs[i].Skipped? ==> outcome == Prepend(added, LoadResults(rs[i + 1..]))
    ensures rs[i].Malformed? ==> outcome == LoadOutcome(added, true)
    ensures rs[i].Record? ==> outcome == Prepend(added + [rs[i].data], LoadResults(rs[i + 1..]))
  {
    assert rs[i..][0] == rs[i];
    assert rs[i..][1..] == rs[i + 1..];
    if rs[i].Record? {
      assert added + ([rs[i].data] + LoadResults(rs[i + 1..]).loaded)
          == (added + [rs[i].data]) + LoadResults(rs[i + 1..]).loaded;
    }
  }

  /** Reading two runs of lines one after the other. */
  lemma {:induction false} LoadResultsConcat(a: seq<LineResult>, b: seq<LineResult>)
    ensures LoadResults(a + b) ==
      if LoadResults(a).failed then LoadResults(a)
      else Prepend(LoadResults(a).loaded, LoadResults(b))
    decreases |a|
  {
    if a == [] {
      assert a + b == b;
    } else {
      assert (a + b)[0] == a[0];
      assert (a + b)[1..] == a[1..] + b;
      LoadResultsConcat(a[1..], b);
    }
  }

  /** Reading the lines of two files one after the other. */
  lemma LoadConcat(a: seq<string>, b: seq<string>)
    ensures LoadLines(a + b) ==
      if LoadLines(a).failed then LoadLines(a)
      else Prepend(LoadLines(a).loaded, LoadLines(b))
  {
    assert ParseAll(a + b) == ParseAll(a) + ParseAll(b);
    LoadResultsConcat(ParseAll(a), ParseAll(b));
  }

  /** A skipped line is as if it were absent; loading goes on after it. */
  lemma SkippedLineIgnored(a: seq<string>, line: string, b: seq<string>)
    requires ParseLine(line).Skipped?
    ensures LoadLines(a + [line] + b) == LoadLines(a + b)
  {
    assert a + [line] + b == a + ([line] + b);
    LoadConcat(a, [line] + b);
    LoadConcat([line], b);
    assert ParseAll([line]) == [Skipped];
    assert [Skipped][1..] == [];
    assert LoadLines([line]) == LoadOutcome([], false);
    assert LoadLines([line] + b) == LoadLines(b);
    LoadConcat(a, b);
  }

  /**
   * A malformed line stops the load with an error; the records before it are
   * kept and nothing after it is read.
   */
  lemma MalformedLineAborts(a: seq<string>, line: string, b: seq<string>)
    requires ParseLine(line).Malformed?
    ensures LoadLines(a + [line] + b).failed
    ensures !LoadLines(a).failed ==> LoadLines(a + [line] + b).loaded == LoadLines(a).loaded
  {
    assert a + [line] + b == a + ([line] + b);
    LoadConcat(a, [line] + b);
    LoadConcat([line], b);
    assert ParseAll([line]) == [ParseLine(line)];
  }
}
