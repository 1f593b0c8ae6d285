/**
 * Worked examples of the lifetime rule and the summary, with git's output
 * and the date parser fixed to known values.
 */
module Scenarios {
  import opened Wrappers
  import opened Text
  import opened History
  import opened Lifetime
  import opened Report

  const Day := 86400
  const Jan1 := 1704067200   // 2024-01-01T00:00:00Z
  const Feb1 := 1706745600   // 2024-02-01T00:00:00Z
  const Mar1 := 1709251200   // 2024-03-01T00:00:00Z
  const Apr1 := 1711929600   // 2024-04-01T00:00:00Z
  const May1 := 1714521600   // 2024-05-01T00:00:00Z

  /** A date parser that knows two dates and rejects everything else. */
  function ParseFixture(s: string): Option<int> {
    if s == "2024-01-01T00:00:00Z" then Some(Jan1)
    else if s == "2024-03-01T00:00:00Z" then Some(Mar1)
    else None
  }

  const Added := [LogEntry("a1", "2024-01-01T00:00:00Z")]
  const Removed := [LogEntry("b2", "2024-03-01T00:00:00Z")]

  /** `.changeset/foo.md`, added in commit a1 on 1 January 2024 and deleted in b2 on 1 March 2024. */
  function Foo(): Env {
    Env(p => Log(Added), p => Log(Removed), ParseFixture, p => May1)
  }

  lemma FixturesWellFormed()
    ensures WellFormed(Added) && WellFormed(Removed)
  {
    assert IsToken("a1") && IsToken("b2");
    assert IsToken("2024-01-01T00:00:00Z");
    assert IsToken("2024-03-01T00:00:00Z");
  }

  /** Whatever path is asked about, git reports the fixed histories. */
  lemma FooCreated(p: string)
    ensures Resolve(Foo()).created(p) == Ok(Event("a1", Jan1))
  {
    FixturesWellFormed();
    assert Resolve(Foo()).created(p) == CommitCreated(Normalise(Log(Added)), ParseFixture);
    LogIsNormal(Added);
    CreatedFromLog(Added, ParseFixture);
    assert ParseFixture(Added[0].date) == Some(Jan1);
  }

  lemma FooDeleted(p: string)
    ensures Resolve(Foo()).deleted(p) == Ok(Some(Event("b2", Mar1)))
  {
    FixturesWellFormed();
    assert Resolve(Foo()).deleted(p) == CommitDeleted(Normalise(Log(Removed)), ParseFixture);
    LogIsNormal(Removed);
    DeletedFromLog(Removed, ParseFixture);
    assert ParseFixture(Removed[0].date) == Some(Mar1);
  }

  /** Any window sees foo.md's creation in a1 on 1 January, its deletion in b2 on 1 March and the clock at 1 May. */
  lemma FooStep(p: string, w: Window)
    ensures Step(p, Resolve(Foo()), w)
         == Assess(p, Ok(Event("a1", Jan1)), Ok(Some(Event("b2", Mar1))), May1, w)
  {
    FooCreated(p);
    FooDeleted(p);
  }

  /** Deleted after the window's end but not before its start: reported under its file name, 60 days old. */
  lemma DeletedAfterWindowEnd(p: string)
    ensures Step(p, Resolve(Foo()), Window(Jan1, Feb1, 30 * Day))
         == Ok(Some(Changeset(BaseName(p), "a1", Some("b2"), 60 * Day)))
  {
    FooStep(p, Window(Jan1, Feb1, 30 * Day));
    FooKept(p);
  }

  lemma FooKept(p: string)
    ensures Assess(p, Ok(Event("a1", Jan1)), Ok(Some(Event("b2", Mar1))), May1, Window(Jan1, Feb1, 30 * Day))
         == Ok(Some(Changeset(BaseName(p), "a1", Some("b2"), 60 * Day)))
  {
    TruncMinutesUnique(Mar1 - Jan1, 60 * Day);
  }

  /** The same file against a window opening after its deletion: skipped. */
  lemma DeletedBeforeWindowStart(p: string)
    ensures Step(p, Resolve(Foo()), Window(Apr1, May1, 30 * Day)) == Ok(None)
  {
    FooStep(p, Window(Apr1, May1, 30 * Day));
  }

  /**
   * `.changeset/bar.md`: added like foo.md in a1 on 1 January 2024, never
   * deleted; the delete query prints only blank lines, and the clock reads
   * 1 May 2024.
   */
  function Bar(): Env {
    Env(p => Log(Added), p => ["", " \t"], ParseFixture, p => May1)
  }

  lemma BarCreated(p: string)
    ensures Resolve(Bar()).created(p) == Ok(Event("a1", Jan1))
  {
    FixturesWellFormed();
    assert Resolve(Bar()).created(p) == CommitCreated(Normalise(Log(Added)), ParseFixture);
    LogIsNormal(Added);
    CreatedFromLog(Added, ParseFixture);
    assert ParseFixture(Added[0].date) == Some(Jan1);
  }

  /** Blank lines from the delete query mean the file was never deleted. */
  lemma BarDeleted(p: string)
    ensures Resolve(Bar()).deleted(p) == Ok(None)
  {
    var lines := Bar().delLog(p);
    assert lines == ["", " \t"];
    assert Trim(lines[0]) == [] && Trim(lines[1]) == [];
    assert Resolve(Bar()).deleted(p) == Deleted(p, Bar());
  }

  /** Never deleted: the age runs to the clock reading, 121 days, and no removing commit is reported. */
  lemma NeverDeleted(p: string)
    ensures Step(p, Resolve(Bar()), Window(Jan1, Feb1, 30 * Day))
         == Ok(Some(Changeset(BaseName(p), "a1", None, 121 * Day)))
  {
    assert Step(p, Resolve(Bar()), Window(Jan1, Feb1, 30 * Day))
        == Assess(p, Ok(Event("a1", Jan1)), Ok(None), May1, Window(Jan1, Feb1, 30 * Day)) by {
      BarCreated(p);
      BarDeleted(p);
    }
    BarKept(p);
  }

  lemma BarKept(p: string)
    ensures Assess(p, Ok(Event("a1", Jan1)), Ok(None), May1, Window(Jan1, Feb1, 30 * Day))
         == Ok(Some(Changeset(BaseName(p), "a1", None, 121 * Day)))
  {
    TruncMinutesUnique(May1 - Jan1, 121 * Day);
  }

  const Long := Changeset("b.md", "c", None, 90 * Day)
  const Short := Changeset("a.md", "d", None, 45 * Day)

  /** Ages of 90 and 45 days: the longer one sorts first and the mean is 67.5 days, in whole minutes. */
  lemma TwoEntries()
    ensures SortedByAge([Long, Short]) && !SortedByAge([Short, Long])
    ensures MeanMinutes([Long, Short]) == 97200
  {
    assert [Long, Short][..1] == [Long] && [Long][..0] == [];
    assert SumAges([Long]) == 90 * Day;
    assert SumAges([Long, Short]) == SumAges([Long]) + 45 * Day;
    assert !SortedByAge([Short, Long]) by {
      assert [Short, Long][0].age < [Short, Long][1].age;
    }
  }

  /** The in-place sort puts the shorter-lived entry, stored first, behind the longer-lived one. */
  method SortTwo() returns (s: seq<Changeset>)
    ensures s == [Long, Short]
  {
    var a := new Changeset[2];
    a[0], a[1] := Short, Long;
    assert a[..] == [Short, Long];
    SortByAgeDescending(a);
    s := a[..];
    assert |s| == 2 && s[0].age >= s[1].age;
    assert s[0] in multiset([Short, Long]) && s[1] in multiset([Short, Long]);
    assert s == [s[0], s[1]];
    assert multiset{s[0], s[1]} == multiset{Short, Long};
  }
}
