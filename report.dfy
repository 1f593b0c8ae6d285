/**
 * The body of `main` (src/main.rs:106-175) after argument parsing: check
 * the window, visit every distinct changeset path, collect the entries it
 * keeps, sort them by age (longest first) in place, and total their ages
 * for the mean on the summary line.
 */
module Report {
  import opened Wrappers
  import opened Text
  import opened History
  import opened Lifetime

  /** What `main` prints: the entries in order, their count, and the mean age in whole minutes. */
  datatype Summary = Summary(entries: seq<Changeset>, count: nat, meanMinutes: int)

  /** The entries the loop over `paths` collects, in visiting order, or the first fatal error. */
  function Survivors(paths: seq<string>, q: Resolved, w: Window): (r: Result<seq<Changeset>, Fatal>)
    ensures r.Ok? ==> |r.value| <= |paths|
    ensures r.Ok? ==> forall k :: 0 <= k < |r.value| ==> Reportable(r.value[k], w)
  {
    if paths == [] then Ok([])
    else
      match Survivors(paths[..|paths| - 1], q, w)
      case Err(e) => Err(e)
      case Ok(cs) =>
        match Step(paths[|paths| - 1], q, w)
        case Err(e) => Err(e)
        case Ok(None) => Ok(cs)
        case Ok(Some(c)) => Ok(cs + [c])
  }

  /** Visiting one more path: what `Survivors` of a longer prefix is. */
  lemma SurvivorsSnoc(paths: seq<string>, i: nat, q: Resolved, w: Window)
    requires i < |paths|
    ensures Survivors(paths[..i + 1], q, w) ==
      match Survivors(paths[..i], q, w)
      case Err(e) => Err(e)
      case Ok(cs) =>
        match Step(paths[i], q, w)
        case Err(e) => Err(e)
        case Ok(None) => Ok(cs)
        case Ok(Some(c)) => Ok(cs + [c])
  {
    assert paths[..i + 1][..i] == paths[..i];
  }

  /** Once a path fails, the whole run fails with that error. */
  lemma {:induction false} SurvivorsErrExtends(paths: seq<string>, j: nat, q: Resolved, w: Window, e: Fatal)
    requires j <= |paths| && Survivors(paths[..j], q, w) == Err(e)
    ensures Survivors(paths, q, w) == Err(e)
    decreases |paths| - j
  {
    if j == |paths| {
      assert paths[..j] == paths;
    } else {
      SurvivorsSnoc(paths, j, q, w);
      SurvivorsErrExtends(paths, j + 1, q, w, e);
    }
  }

  /** The run succeeds exactly when no path's iteration is fatal. */
  lemma {:induction false} SurvivorsOk(paths: seq<string>, q: Resolved, w: Window)
    ensures Survivors(paths, q, w).Ok? <==> forall k :: 0 <= k < |paths| ==> Step(paths[k], q, w).Ok?
  {
    if paths != [] {
      var init := paths[..|paths| - 1];
      SurvivorsOk(init, q, w);
      assert forall k :: 0 <= k < |init| ==> init[k] == paths[k];
    }
  }

  /** The collected entries are exactly those that some path's iteration contributes. */
  lemma {:induction false} SurvivorsMembers(paths: seq<string>, q: Resolved, w: Window, c: Changeset)
    requires Survivors(paths, q, w).Ok?
    ensures c in Survivors(paths, q, w).value <==>
            exists k :: 0 <= k < |paths| && Step(paths[k], q, w) == Ok(Some(c))
  {
    if paths != [] {
      var init := paths[..|paths| - 1];
      SurvivorsMembers(init, q, w, c);
      assert forall k :: 0 <= k < |init| ==> init[k] == paths[k];
    }
  }

  /** Whether the iteration for `path` pushes an entry. */
  predicate Pushes(path: string, q: Resolved, w: Window) {
    Step(path, q, w).Ok? && Step(path, q, w).value.Some?
  }

  /** The positions of the paths whose iteration pushes an entry. */
  ghost function KeptPositions(paths: seq<string>, q: Resolved, w: Window): set<nat> {
    set k: nat | k < |paths| && Pushes(paths[k], q, w)
  }

  /** A successful run over one more path collects one more entry exactly when that path pushes one. */
  lemma SurvivorsLast(paths: seq<string>, q: Resolved, w: Window)
    requires paths != [] && Survivors(paths, q, w).Ok?
    ensures Survivors(paths[..|paths| - 1], q, w).Ok?
    ensures |Survivors(paths, q, w).value| ==
      |Survivors(paths[..|paths| - 1], q, w).value| + (if Pushes(paths[|paths| - 1], q, w) then 1 else 0)
  {
  }

  /** The kept positions of a longer list: those of its prefix, and the last one if it pushes. */
  lemma KeptPositionsLast(paths: seq<string>, q: Resolved, w: Window)
    requires paths != []
    ensures
      var n := |paths| - 1;
      KeptPositions(paths, q, w) ==
        KeptPositions(paths[..n], q, w) + (if Pushes(paths[n], q, w) then {n} else {})
  {
    var n := |paths| - 1;
    assert forall k :: 0 <= k < n ==> paths[..n][k] == paths[k];
  }

  /** One entry is collected per path whose iteration keeps it, so the count is the number of kept paths. */
  lemma {:induction false} SurvivorsCount(paths: seq<string>, q: Resolved, w: Window)
    requires Survivors(paths, q, w).Ok?
    ensures |Survivors(paths, q, w).value| == |KeptPositions(paths, q, w)|
  {
    if paths == [] {
      assert KeptPositions(paths, q, w) == {};
    } else {
      var n := |paths| - 1;
      SurvivorsLast(paths, q, w);
      SurvivorsCount(paths[..n], q, w);
      KeptPositionsLast(paths, q, w);
      assert n !in KeptPositions(paths[..n], q, w);
    }
  }

  /**
   * What keeping `c` for `path` means: both history queries succeeded, the
   * lifetime reaches into the window, and `c` records the path's file name,
   * the two commits, and the lifetime cut down to whole minutes.
   */
  ghost predicate KeptFor(path: string, q: Resolved, w: Window, c: Changeset) {
    && q.created(path).Ok? && q.deleted(path).Ok?
    && var created, deleted := q.created(path).value, q.deleted(path).value;
    && InWindow(created.time, deleted, w)
    && c.name == BaseName(path)
    && c.added == created.hash
    && c.removed == (if deleted.Some? then Some(deleted.value.hash) else None)
    && c.age == TruncMinutes(Ending(deleted, q.now(path)) - created.time)
  }

  /**
   * Every collected entry belongs to a visited path whose lifetime reaches
   * into the window, and its age is that lifetime truncated to whole
   * minutes: a positive multiple of 60 seconds, at least the threshold.
   */
  lemma SurvivorsKept(paths: seq<string>, q: Resolved, w: Window, c: Changeset)
    requires Survivors(paths, q, w).Ok? && c in Survivors(paths, q, w).value
    ensures exists k :: 0 <= k < |paths| && KeptFor(paths[k], q, w, c)
    ensures Reportable(c, w)
  {
    SurvivorsMembers(paths, q, w, c);
    var k :| 0 <= k < |paths| && Step(paths[k], q, w) == Ok(Some(c));
    var p := paths[k];
    AssessKept(p, q.created(p), q.deleted(p), q.now(p), w);
    TruncMinutesUnique(Ending(q.deleted(p).value, q.now(p)) - q.created(p).value.time, c.age);
    assert KeptFor(p, q, w, c);
  }

  /** Ages in descending order, as `sort_by(|a, b| b.age.cmp(&a.age))` leaves them. */
  predicate SortedByAge(s: seq<Changeset>) {
    forall p, q :: 0 <= p < q < |s| ==> s[p].age >= s[q].age
  }

  /** Exchanges two entries of the prefix `a[..n]`, which keeps its entries; the rest is untouched. */
  method Swap(a: array<Changeset>, i: nat, j: nat, ghost n: nat)
    requires i < j < n <= a.Length
    modifies a
    ensures a[..] == old(a[..])[i := old(a[j])][j := old(a[i])]
    ensures multiset(a[..n]) == multiset(old(a[..n]))
    ensures a[n..] == old(a[n..])
  {
    ghost var prefix := a[..n];
    a[i], a[j] := a[j], a[i];
    assert a[..n] == prefix[i := prefix[j]][j := prefix[i]];
  }

  /**
   * Halfway through inserting `s[j]` into `s[..i + 1]`: the prefix is sorted
   * apart from position `j`, and `s[j]` lived at least as long as everything
   * after it up to `i`.
   */
  ghost predicate Inserting(s: seq<Changeset>, i: nat, j: nat)
    requires j <= i < |s|
  {
    && (forall p, q :: 0 <= p < q <= i && p != j && q != j ==> s[p].age >= s[q].age)
    && (forall q :: j < q <= i ==> s[j].age >= s[q].age)
  }

  /** Before any exchange: a sorted prefix `s[..i]` with `s[i]` still to place. */
  lemma InsertingStart(s: seq<Changeset>, i: nat)
    requires i < |s| && SortedByAge(s[..i])
    ensures Inserting(s, i, i)
  {
    assert forall p :: 0 <= p < i ==> s[..i][p] == s[p];
  }

  /** Once `s[j]` has no shorter-lived predecessor, the prefix `s[..i + 1]` is sorted. */
  lemma InsertingDone(s: seq<Changeset>, i: nat, j: nat)
    requires j <= i < |s| && Inserting(s, i, j)
    requires j == 0 || s[j - 1].age >= s[j].age
    ensures SortedByAge(s[..i + 1])
  {
    assert forall p :: 0 <= p <= i ==> s[..i + 1][p] == s[p];
  }

  /** Exchanging `s[j]` with a shorter-lived predecessor moves the insertion one step forward. */
  lemma InsertingStep(s: seq<Changeset>, i: nat, j: nat)
    requires 0 < j <= i < |s| && Inserting(s, i, j) && s[j - 1].age < s[j].age
    ensures Inserting(s[j - 1 := s[j]][j := s[j - 1]], i, j - 1)
  {
  }

  /**
   * Moves `a[i]` towards the front of the sorted prefix `a[..i]`, past every
   * shorter-lived neighbour, leaving `a[..i + 1]` sorted, holding the same
   * entries as before, and the rest of the array untouched.
   */
  method InsertDescending(a: array<Changeset>, i: nat)
    requires i < a.Length && SortedByAge(a[..i])
    modifies a
    ensures SortedByAge(a[..i + 1])
    ensures multiset(a[..i + 1]) == multiset(old(a[..i + 1]))
    ensures a[i + 1..] == old(a[i + 1..])
  {
    var j := i;
    InsertingStart(a[..], i);
    while j > 0 && a[j - 1].age < a[j].age
      invariant 0 <= j <= i
      invariant multiset(a[..i + 1]) == multiset(old(a[..i + 1]))
      invariant a[i + 1..] == old(a[i + 1..])
      invariant Inserting(a[..], i, j)
    {
      InsertingStep(a[..], i, j);
      Swap(a, j - 1, j, i + 1);
      j := j - 1;
    }
    InsertingDone(a[..], i, j);
  }

  /**
   * `changesets.sort_by(|a, b| b.age.cmp(&a.age))`: sorts the entries in
   * place, longest-lived first, keeping the same entries.
   */
  method SortByAgeDescending(a: array<Changeset>)
    modifies a
    ensures SortedByAge(a[..])
    ensures multiset(a[..]) == multiset(old(a[..]))
  {
    var i := 0;
    while i < a.Length
      invariant 0 <= i <= a.Length
      invariant SortedByAge(a[..i])
      invariant multiset(a[..]) == multiset(old(a[..]))
    {
      ghost var before := a[..];
      InsertDescending(a, i);
      assert a[..] == a[..i + 1] + a[i + 1..];
      assert before == before[..i + 1] + before[i + 1..];
      i := i + 1;
    }
    assert a[..a.Length] == a[..];
  }

  /** The total of the entries' ages; with no negative age, it is at least each of them. */
  function SumAges(s: seq<Changeset>): (total: int)
    ensures (forall k :: 0 <= k < |s| ==> s[k].age >= 0) ==>
      total >= 0 && forall k :: 0 <= k < |s| ==> s[k].age <= total
  {
    if s == [] then 0
    else
      var init := s[..|s| - 1];
      assert forall k :: 0 <= k < |init| ==> init[k] == s[k];
      SumAges(init) + s[|s| - 1].age
  }

  /** Taking one entry out of a list takes its age out of the total. */
  lemma {:induction false} SumAgesRemove(s: seq<Changeset>, i: nat)
    requires i < |s|
    ensures SumAges(s) == SumAges(s[..i] + s[i + 1..]) + s[i].age
  {
    if i < |s| - 1 {
      var init := s[..|s| - 1];
      var rest := init[..i] + init[i + 1..];
      SumAgesRemove(init, i);
      assert s[..i] + s[i + 1..] == rest + [s[|s| - 1]];
      assert (rest + [s[|s| - 1]])[..|rest|] == rest;
    } else {
      assert s[..i] + s[i + 1..] == s[..|s| - 1];
    }
  }

  /** The total age does not depend on the order of the entries. */
  lemma {:induction false} SumAgesPermutation(a: seq<Changeset>, b: seq<Changeset>)
    requires multiset(a) == multiset(b)
    ensures SumAges(a) == SumAges(b)
    decreases |a|
  {
    if a == [] {
      assert |multiset(b)| == 0;
    } else {
      var x := a[|a| - 1];
      var init := a[..|a| - 1];
      assert x in multiset(b);
      var i :| 0 <= i < |b| && b[i] == x;
      var rest := b[..i] + b[i + 1..];
      assert multiset(b) == multiset(rest) + multiset{x} by {
        assert b == b[..i] + [x] + b[i + 1..];
      }
      assert multiset(a) == multiset(init) + multiset{x} by {
        assert a == init + [x];
      }
      assert multiset(init) == multiset(a) - multiset{x};
      assert multiset(rest) == multiset(b) - multiset{x};
      SumAgesPermutation(init, rest);
      SumAgesRemove(b, i);
    }
  }

  /** The total age of entries that all lasted a positive time is positive, or zero for none. */
  lemma {:induction false} SumAgesNonNegative(s: seq<Changeset>, w: Window)
    requires forall k :: 0 <= k < |s| ==> Reportable(s[k], w)
    ensures SumAges(s) >= 0
    ensures s != [] ==> SumAges(s) > 0
  {
    if s != [] {
      var init := s[..|s| - 1];
      assert forall k :: 0 <= k < |init| ==> init[k] == s[k];
      SumAgesNonNegative(init, w);
    }
  }

  /**
   * The mean on the summary line (line 173): the whole minutes of the total
   * age divided by `max(n, 1)` and rounded toward zero, so no entries give 0.
   */
  function MeanMinutes(s: seq<Changeset>): (m: int)
    ensures s == [] ==> m == 0
    ensures s != [] && SumAges(s) >= 0 ==> m * |s| <= NumMinutes(SumAges(s)) < m * |s| + |s|
  {
    Quot(NumMinutes(SumAges(s)), if |s| > 1 then |s| else 1)
  }

  /**
   * The body of the loop over paths in `main` (lines 127-161) for one path:
   * call `commit_created`, then, unless the path is already skipped,
   * `commit_deleted`; a `continue` becomes `Ok(None)`, a panic an error.
   */
  method Visit(fp: string, q: Resolved, w: Window) returns (s: Result<Option<Changeset>, Fatal>)
    ensures s == Step(fp, q, w)
  {
    var created := q.created(fp);
    if created.Err? {
      return Err(created.error);
    }
    if created.value.time > w.end {
      return Ok(None);
    }
    var meta := q.deleted(fp);
    if meta.Err? {
      return Err(meta.error);
    }
    if meta.value.Some? && meta.value.value.time < w.start {
      return Ok(None);
    }
    var age := TruncMinutes(Ending(meta.value, q.now(fp)) - created.value.time);
    if age == 0 || age < w.minAge {
      return Ok(None);
    }
    var removed := if meta.value.Some? then Some(meta.value.value.hash) else None;
    return Ok(Some(Changeset(BaseName(fp), created.value.hash, removed, age)));
  }

  /** The loop over paths in `main` (lines 124-162): visits them in order and pushes what they keep. */
  method Collect(paths: seq<string>, q: Resolved, w: Window) returns (r: Result<seq<Changeset>, Fatal>)
    ensures r == Survivors(paths, q, w)
  {
    var changesets: seq<Changeset> := [];
    for i := 0 to |paths|
      invariant Survivors(paths[..i], q, w) == Ok(changesets)
    {
      SurvivorsSnoc(paths, i, q, w);
      var s := Visit(paths[i], q, w);
      if s.Err? {
        SurvivorsErrExtends(paths, i + 1, q, w, s.error);
        return Err(s.error);
      }
      if s.value.Some? {
        changesets := changesets + [s.value.value];
      }
    }
    assert paths[..|paths|] == paths;
    return Ok(changesets);
  }

  /** The loop that adds up the ages of the sorted entries (lines 167-172). */
  method TotalAge(a: array<Changeset>) returns (total: int)
    ensures total == SumAges(a[..])
  {
    total := 0;
    for k := 0 to a.Length
      invariant total == SumAges(a[..k])
    {
      assert a[..k + 1][..k] == a[..k];
      total := total + a[k].age;
    }
    assert a[..a.Length] == a[..];
  }

  /**
   * `main` from the window check to the summary line. `filesRaw` is the
   * output of the path query; `paths` is the order in which the `HashSet`
   * built from it is visited, any order of its distinct members.
   */
  method Run(filesRaw: seq<string>, paths: seq<string>, w: Window, env: Env) returns (r: Result<Summary, Fatal>)
    requires forall i, j :: 0 <= i < j < |paths| ==> paths[i] != paths[j]
    requires forall p :: p in paths <==> p in Normalise(filesRaw)
    ensures w.end <= w.start ==> r == Err(EndNotAfterStart)
    ensures w.start < w.end && r.Err? ==> Survivors(paths, Resolve(env), w) == Err(r.error)
    ensures w.start < w.end && Survivors(paths, Resolve(env), w).Err? ==> r.Err?
    ensures r.Ok? ==>
      && Survivors(paths, Resolve(env), w).Ok?
      && var s := Survivors(paths, Resolve(env), w).value;
      && multiset(r.value.entries) == multiset(s)
      && SortedByAge(r.value.entries)
      && r.value.count == |s| == |KeptPositions(paths, Resolve(env), w)|
      && r.value.meanMinutes == MeanMinutes(s)
  {
    if w.end <= w.start {
      return Err(EndNotAfterStart);
    }
    var collected := Collect(paths, Resolve(env), w);
    if collected.Err? {
      return Err(collected.error);
    }
    var changesets := collected.value;
    var a := new Changeset[|changesets|](k requires 0 <= k < |changesets| => changesets[k]);
    assert a[..] == changesets;
    SortByAgeDescending(a);
    var total := TotalAge(a);
    SumAgesPermutation(a[..], changesets);
    SurvivorsCount(paths, Resolve(env), w);
    var n := a.Length;
    r := Ok(Summary(a[..], n, Quot(NumMinutes(total), if n > 1 then n else 1)));
  }
}
