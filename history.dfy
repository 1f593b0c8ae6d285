/**
 * Reading the add and delete histories of one path: `commit_created` and
 * `commit_deleted` of src/main.rs. Each history arrives as the normalised
 * lines of `git log --format="%H %aI"`, newest commit first.
 */
module History {
  import opened Wrappers
  import opened Text

  /** A parsed history record: the commit hash and its author date, in seconds since the epoch. */
  datatype Event = Event(hash: string, time: int)

  /** The ways a run stops before it prints a report. */
  datatype Fatal =
    | EndNotAfterStart      // `--end` is not after `--start`: exit status 1
    | NoAddHistory          // `lines[0]` on an empty add history: a panic
    | MissingField          // `expect("two parts")` on a line with fewer than two tokens: a panic
    | BadCreatedTimestamp   // the add date does not parse: a panic

  /** A record line split into its hash and its date text; tokens after the second are ignored. */
  function ParseRecord(line: string): (r: Result<(string, string), Fatal>)
    ensures r.Err? <==> |SplitWhitespace(line)| < 2
    ensures r.Err? ==> r.error == MissingField
    ensures r.Ok? ==> r.value == (SplitWhitespace(line)[0], SplitWhitespace(line)[1])
    ensures r.Ok? ==> IsToken(r.value.0) && IsToken(r.value.1)
  {
    var parts := SplitWhitespace(line);
    if |parts| < 2 then Err(MissingField)
    else
      TokenTrimmed(parts[0]);
      TokenTrimmed(parts[1]);
      Ok((Trim(parts[0]), Trim(parts[1])))
  }

  /** The `.trim()` applied to each token is a no-op: tokens carry no whitespace. */
  lemma TokenTrimmed(t: string)
    requires IsToken(t)
    ensures Trim(t) == t
  {
    TrimTrimmed(t);
  }

  /** The hash and date that git writes as one `%H %aI` line. */
  datatype LogEntry = LogEntry(hash: string, date: string)

  predicate WellFormed(entries: seq<LogEntry>) {
    forall k :: 0 <= k < |entries| ==> IsToken(entries[k].hash) && IsToken(entries[k].date)
  }

  function LogLine(e: LogEntry): string {
    Unwords([e.hash, e.date])
  }

  /** The lines git prints for a history, in the order given (newest first). */
  function Log(entries: seq<LogEntry>): (lines: seq<string>)
    ensures |lines| == |entries|
  {
    if entries == [] then [] else [LogLine(entries[0])] + Log(entries[1..])
  }

  /**
   * A line of two or more space-separated tokens parses to its first two;
   * the tokens after them are ignored.
   */
  lemma ParseUnwords(tokens: seq<string>)
    requires |tokens| >= 2 && forall k :: 0 <= k < |tokens| ==> IsToken(tokens[k])
    ensures ParseRecord(Unwords(tokens)) == Ok((tokens[0], tokens[1]))
  {
    SplitUnwords(tokens);
  }

  /** A line written as `hash date` parses back to that hash and that date. */
  lemma ParseLogLine(e: LogEntry)
    requires IsToken(e.hash) && IsToken(e.date)
    ensures ParseRecord(LogLine(e)) == Ok((e.hash, e.date))
  {
    var parts := [e.hash, e.date];
    assert IsToken(parts[0]) && IsToken(parts[1]);
    ParseUnwords(parts);
  }

  /** A `hash date` line is non-empty and has no whitespace at either end. */
  lemma LogLineTrimmed(e: LogEntry)
    requires IsToken(e.hash) && IsToken(e.date)
    ensures LogLine(e) != [] && Trim(LogLine(e)) == LogLine(e)
  {
    var line := LogLine(e);
    assert [e.hash, e.date][1..] == [e.date];
    assert Unwords([e.date]) == e.date;
    assert line == e.hash + " " + e.date;
    assert line[0] == e.hash[0];
    assert line[|line| - 1] == e.date[|e.date| - 1];
    TrimTrimmed(line);
  }

  /** Git's history lines come through `run_git`'s normalisation unchanged. */
  lemma {:induction false} LogIsNormal(entries: seq<LogEntry>)
    requires WellFormed(entries)
    ensures Normalise(Log(entries)) == Log(entries)
  {
    if entries != [] {
      var lines := Log(entries);
      LogLineTrimmed(entries[0]);
      assert lines[1..] == Log(entries[1..]);
      assert WellFormed(entries[1..]) by {
        forall k | 0 <= k < |entries[1..]|
          ensures IsToken(entries[1..][k].hash) && IsToken(entries[1..][k].date)
        {
          assert entries[1..][k] == entries[k + 1];
        }
      }
      assert Normalise(lines[1..]) == lines[1..] by {
        LogIsNormal(entries[1..]);
      }
      assert lines == [lines[0]] + lines[1..];
    }
  }

  /**
   * `commit_created`: the event of the FIRST add-history line. Git lists
   * the newest commit first, so this is the most recent add of the path,
   * although the function's doc comment calls it the oldest. Every failure
   * is fatal: an empty history (the index `lines[0]`), a missing token, or
   * a date that does not parse.
   */
  function CommitCreated(lines: seq<string>, parseTs: string -> Option<int>): (r: Result<Event, Fatal>)
    ensures lines == [] ==> r == Err(NoAddHistory)
    ensures r.Ok? ==> IsToken(r.value.hash)
    ensures lines != [] && r.Err? ==> r.error == MissingField || r.error == BadCreatedTimestamp
    ensures r.Err? <==>
      lines == [] || ParseRecord(lines[0]).Err? || parseTs(ParseRecord(lines[0]).value.1).None?
    ensures r.Ok? ==>
      && lines != [] && ParseRecord(lines[0]).Ok?
      && var (hash, ts) := ParseRecord(lines[0]).value;
      && parseTs(ts).Some? && r.value == Event(hash, parseTs(ts).value)
  {
    if lines == [] then Err(NoAddHistory)
    else
      match ParseRecord(lines[0])
      case Err(e) => Err(e)
      case Ok((hash, ts)) =>
        match parseTs(ts)
        case None => Err(BadCreatedTimestamp)
        case Some(t) => Ok(Event(hash, t))
  }

  /**
   * `commit_deleted`: the event of the first (newest) delete-history line,
   * or nothing when there is no delete history or its date does not parse.
   * A first line with fewer than two tokens still panics.
   */
  function CommitDeleted(lines: seq<string>, parseTs: string -> Option<int>): (r: Result<Option<Event>, Fatal>)
    ensures r.Err? <==> lines != [] && ParseRecord(lines[0]).Err?
    ensures r.Err? ==> r.error == MissingField
    ensures r == Ok(None) <==>
      lines == [] || (ParseRecord(lines[0]).Ok? && parseTs(ParseRecord(lines[0]).value.1).None?)
    ensures r.Ok? && r.value.Some? ==> IsToken(r.value.value.hash)
    ensures r.Ok? && r.value.Some? ==>
      && lines != [] && ParseRecord(lines[0]).Ok?
      && var (hash, ts) := ParseRecord(lines[0]).value;
      && parseTs(ts).Some? && r.value.value == Event(hash, parseTs(ts).value)
  {
    if lines == [] then Ok(None)
    else
      match ParseRecord(lines[0])
      case Err(e) => Err(e)
      case Ok((hash, ts)) =>
        match parseTs(ts)
        case None => Ok(None)
        case Some(t) => Ok(Some(Event(hash, t)))
  }

  /**
   * On a history as git writes it, `commit_created` reports the newest
   * entry, fails without one, and fails on a date that does not parse.
   */
  lemma CreatedFromLog(entries: seq<LogEntry>, parseTs: string -> Option<int>)
    requires WellFormed(entries)
    ensures CommitCreated(Log(entries), parseTs) ==
      if entries == [] then Err(NoAddHistory)
      else if parseTs(entries[0].date).None? then Err(BadCreatedTimestamp)
      else Ok(Event(entries[0].hash, parseTs(entries[0].date).value))
  {
    if entries != [] {
      ParseLogLine(entries[0]);
    }
  }

  /**
   * On a history as git writes it, `commit_deleted` reports the newest
   * entry, and nothing for an empty history or a date that does not parse.
   */
  lemma DeletedFromLog(entries: seq<LogEntry>, parseTs: string -> Option<int>)
    requires WellFormed(entries)
    ensures CommitDeleted(Log(entries), parseTs) ==
      if entries == [] || parseTs(entries[0].date).None? then Ok(None)
      else Ok(Some(Event(entries[0].hash, parseTs(entries[0].date).value)))
  {
    if entries != [] {
      ParseLogLine(entries[0]);
    }
  }

  /**
   * `commit_created` on a first line of two or more tokens: the first token
   * is the hash, the second the date, and the rest are ignored.
   */
  lemma CreatedFromTokens(lines: seq<string>, tokens: seq<string>, parseTs: string -> Option<int>)
    requires lines != [] && lines[0] == Unwords(tokens)
    requires |tokens| >= 2 && forall k :: 0 <= k < |tokens| ==> IsToken(tokens[k])
    ensures CommitCreated(lines, parseTs) ==
      if parseTs(tokens[1]).None? then Err(BadCreatedTimestamp)
      else Ok(Event(tokens[0], parseTs(tokens[1]).value))
  {
    ParseUnwords(tokens);
  }

  /**
   * `commit_deleted` on a first line of two or more tokens: the first token
   * is the hash, the second the date, and the rest are ignored.
   */
  lemma DeletedFromTokens(lines: seq<string>, tokens: seq<string>, parseTs: string -> Option<int>)
    requires lines != [] && lines[0] == Unwords(tokens)
    requires |tokens| >= 2 && forall k :: 0 <= k < |tokens| ==> IsToken(tokens[k])
    ensures CommitDeleted(lines, parseTs) ==
      if parseTs(tokens[1]).None? then Ok(None)
      else Ok(Some(Event(tokens[0], parseTs(tokens[1]).value)))
  {
    ParseUnwords(tokens);
  }
}
