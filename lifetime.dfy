/**
 * The per-path rule in the loop of `main` (src/main.rs:127-161): find when a
 * changeset file was created and deleted, decide whether its lifetime
 * touches the observation window, and compute its age in whole minutes.
 * All instants and durations are integer seconds.
 */
module Lifetime {
  import opened Wrappers
  import opened Text
  import opened History

  /** Rust's `/` on `i64` with a positive divisor: the quotient rounded toward zero. */
  function Quot(a: int, b: int): (q: int)
    requires b > 0
    ensures a >= 0 ==> 0 <= q * b <= a < q * b + b
    ensures a < 0 ==> q * b - b < a <= q * b <= 0
  {
    if a >= 0 then
      DivFloor(a, b);
      a / b
    else
      DivFloor(-a, b);
      var q := (-a) / b;
      assert (-q) * b == -(q * b);
      -q
  }

  /** Euclidean division of a non-negative number: the quotient is the floor. */
  lemma DivFloor(a: nat, b: int)
    requires b > 0
    ensures 0 <= (a / b) * b <= a < (a / b) * b + b
  {
    var q, r := a / b, a % b;
    assert a == q * b + r && 0 <= r < b;
    assert q >= 0;
    assert q * b >= 0;
  }

  /** `Duration::num_minutes`: the whole minutes in a span, rounded toward zero. */
  function NumMinutes(d: int): (m: int)
    ensures d >= 0 ==> 0 <= m * 60 <= d < m * 60 + 60
    ensures d < 0 ==> m * 60 - 60 < d <= m * 60 <= 0
  {
    Quot(d, 60)
  }

  /** `Duration::minutes(age.num_minutes())`: a span cut down toward zero to whole minutes. */
  function TruncMinutes(d: int): (r: int)
    ensures r % 60 == 0
    ensures d >= 0 ==> 0 <= r <= d < r + 60
    ensures d < 0 ==> r - 60 < d <= r <= 0
  {
    NumMinutes(d) * 60
  }

  /** Only one whole number of minutes lies within a minute of a span, on the side of zero. */
  lemma TruncMinutesUnique(d: int, r: int)
    requires r % 60 == 0
    requires d >= 0 ==> 0 <= r <= d < r + 60
    requires d < 0 ==> r - 60 < d <= r <= 0
    ensures r == TruncMinutes(d)
  {
    var t := TruncMinutes(d);
    assert r == 60 * (r / 60) && t == 60 * (t / 60);
  }

  /** The instants and threshold of one run: `--start`, `--end` and `--days`. */
  datatype Window = Window(start: int, end: int, minAge: nat)

  /** A report entry (`ChangesetLifetime`): file name, adding and removing commits, age in seconds. */
  datatype Changeset = Changeset(name: string, added: string, removed: Option<string>, age: int)

  /**
   * What a run consults besides its arguments: the stdout lines of the add
   * and delete history queries for a path, chrono's RFC 3339 date parser
   * (to seconds since the epoch), and the clock reading taken while a path
   * is evaluated.
   */
  datatype Env = Env(
    addLog: string -> seq<string>,
    delLog: string -> seq<string>,
    parseTs: string -> Option<int>,
    now: string -> int)

  /**
   * The call `commit_created(dir, branch, fp)` (line 127): the add-history
   * query for the path, normalised by `run_git`, then read. It reports no
   * add history exactly when every line git printed is blank.
   */
  function Created(path: string, env: Env): (r: Result<Event, Fatal>)
    ensures r == Err(NoAddHistory) <==>
      forall k :: 0 <= k < |env.addLog(path)| ==> Trim(env.addLog(path)[k]) == []
    ensures r.Ok? ==> IsToken(r.value.hash)
  {
    NormaliseEmpty(env.addLog(path));
    CommitCreated(Normalise(env.addLog(path)), env.parseTs)
  }

  /**
   * The call `commit_deleted(dir, branch, fp)` (line 133): the delete-history
   * query for the path, normalised by `run_git`, then read. A history of
   * blank lines means the file was never deleted.
   */
  function Deleted(path: string, env: Env): (r: Result<Option<Event>, Fatal>)
    ensures (forall k :: 0 <= k < |env.delLog(path)| ==> Trim(env.delLog(path)[k]) == []) ==> r == Ok(None)
    ensures r.Err? ==> r.error == MissingField
    ensures r.Ok? && r.value.Some? ==> IsToken(r.value.value.hash)
  {
    NormaliseEmpty(env.delLog(path));
    CommitDeleted(Normalise(env.delLog(path)), env.parseTs)
  }

  /** The instant a lifetime ends: the deletion if there is one, otherwise now. */
  function Ending(deleted: Option<Event>, now: int): int {
    if deleted.Some? then deleted.value.time else now
  }

  /** Whether a lifetime reaches into the window: created by its end, not deleted before its start. */
  predicate InWindow(created: int, deleted: Option<Event>, w: Window) {
    created <= w.end && (deleted.None? || deleted.value.time >= w.start)
  }

  /** What every reported entry satisfies: a positive whole number of minutes, at least the threshold. */
  predicate Reportable(c: Changeset, w: Window) {
    c.age > 0 && c.age % 60 == 0 && c.age >= w.minAge
  }

  /**
   * One iteration of the loop over paths, given what the two history
   * queries for `path` yield and the clock reading: a fatal error, `None`
   * when the path is skipped (`continue`), or the entry it contributes.
   * The delete history only matters once the creation is known not to be
   * after the window, as in the source, which queries it only then.
   */
  function Assess(path: string, created: Result<Event, Fatal>, deleted: Result<Option<Event>, Fatal>,
                  now: int, w: Window): (r: Result<Option<Changeset>, Fatal>)
    ensures r.Ok? && r.value.Some? ==> Reportable(r.value.value, w) && r.value.value.name == BaseName(path)
    ensures r.Err? <==> created.Err? || (created.value.time <= w.end && deleted.Err?)
  {
    match created
    case Err(e) => Err(e)
    case Ok(c) =>
      if c.time > w.end then Ok(None)
      else
        match deleted
        case Err(e) => Err(e)
        case Ok(meta) =>
          if meta.Some? && meta.value.time < w.start then Ok(None)
          else
            var age := TruncMinutes(Ending(meta, now) - c.time);
            if age == 0 || age < w.minAge then Ok(None)
            else
              var removed := if meta.Some? then Some(meta.value.hash) else None;
              Ok(Some(Changeset(BaseName(path), c.hash, removed, age)))
  }

  /** For every path: what `commit_created` and `commit_deleted` return, and the clock reading. */
  datatype Resolved = Resolved(
    created: string -> Result<Event, Fatal>,
    deleted: string -> Result<Option<Event>, Fatal>,
    now: string -> int)

  function Resolve(env: Env): Resolved {
    Resolved(p => Created(p, env), p => Deleted(p, env), env.now)
  }

  /** The iteration for `path`. */
  function Step(path: string, q: Resolved, w: Window): Result<Option<Changeset>, Fatal> {
    Assess(path, q.created(path), q.deleted(path), q.now(path), w)
  }

  /**
   * A reported path was created no later than the window's end, was not
   * deleted before its start, and its age is its lifetime cut down to whole
   * minutes: positive, at least the threshold, and less than a minute short
   * of the lifetime.
   */
  lemma AssessKept(path: string, created: Result<Event, Fatal>, deleted: Result<Option<Event>, Fatal>,
                   now: int, w: Window)
    requires Assess(path, created, deleted, now, w).Ok? && Assess(path, created, deleted, now, w).value.Some?
    ensures created.Ok? && deleted.Ok?
    ensures InWindow(created.value.time, deleted.value, w)
    ensures
      var c := Assess(path, created, deleted, now, w).value.value;
      var span := Ending(deleted.value, now) - created.value.time;
      && 0 < c.age <= span < c.age + 60
      && c.age >= w.minAge
      && c.added == created.value.hash
      && c.removed == (if deleted.value.Some? then Some(deleted.value.value.hash) else None)
  {
    var meta := deleted.value;
    var span := Ending(meta, now) - created.value.time;
    var age := TruncMinutes(span);
    var removed := if meta.Some? then Some(meta.value.hash) else None;
    assert Assess(path, created, deleted, now, w) ==
           Ok(Some(Changeset(BaseName(path), created.value.hash, removed, age)));
    assert age > 0;
    assert span >= 0;
  }

  /**
   * Conversely, a path whose lifetime reaches into the window and lasts at
   * least a minute and at least the threshold (in whole minutes) is reported.
   */
  lemma AssessKeeps(path: string, created: Event, deleted: Option<Event>, now: int, w: Window)
    requires InWindow(created.time, deleted, w)
    requires
      var span := Ending(deleted, now) - created.time;
      span >= 60 && TruncMinutes(span) >= w.minAge
    ensures Assess(path, Ok(created), Ok(deleted), now, w).Ok?
    ensures Assess(path, Ok(created), Ok(deleted), now, w).value.Some?
  {
  }

  /** A path created after the window's end is skipped whatever its delete history holds. */
  lemma AssessCreatedLate(path: string, created: Event, deleted: Result<Option<Event>, Fatal>, now: int, w: Window)
    requires created.time > w.end
    ensures Assess(path, Ok(created), deleted, now, w) == Ok(None)
  {
  }

  /** The threshold is inclusive: an age of exactly `--days` is reported, one second less is not. */
  lemma ThresholdInclusive(path: string, created: Event, deleted: Event, w: Window)
    requires w.start <= created.time <= w.end && w.minAge > 0 && w.minAge % 60 == 0
    requires deleted.time == created.time + w.minAge
    ensures Assess(path, Ok(created), Ok(Some(deleted)), 0, w).Ok?
    ensures Assess(path, Ok(created), Ok(Some(deleted)), 0, w).value.Some?
    ensures Assess(path, Ok(created), Ok(Some(deleted.(time := deleted.time - 1))), 0, w) == Ok(None)
  {
  }
}
