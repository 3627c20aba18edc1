/**
 * The HLS polling recorder `IPTVRecorder`, sequential mode: fetch the
 * playlist, download each listed part once per content, pace the polls to
 * the TARGETDURATION tag, and stop when the recording window closes.
 */
module Recorder {
  import opened Base
  import opened Io
  import Playlist
  import DedupCache
  import Fetcher
  import Naming
  import Text

  /** What one `_download` call did. */
  datatype Status = Written | Duplicate | Raised(error: Error)

  /** Why `record_m3u8` returned: the window closed, an exception escaped, or the poll bound was reached. */
  datatype Stop = WindowClosed | Failed(error: Error) | PollLimit

  /** One `_download(client, url, fp)` call made by a poll. */
  datatype Job = Job(url: string, name: string)

  const TargetDurationTag: string := "TARGETDURATION"

  /** `float(extx.get('TARGETDURATION', 0))`, with `float` given as `parseFloat`. */
  function TargetDuration(extx: map<string, string>, parseFloat: string -> Option<real>): Result<real>
  {
    if TargetDurationTag in extx then
      match parseFloat(extx[TargetDurationTag])
      case None => Err(BadTargetDuration(extx[TargetDurationTag]))
      case Some(d) => Ok(d)
    else Ok(0.0)
  }

  /** `sleep_time`: the target duration plus one second, less the time the poll took. */
  function SleepTime(targetDuration: real, elapsed: real): real
  {
    targetDuration + 1.0 - elapsed
  }

  /** What the pacing step adds to the sleep log: one sleep, only when the time is positive. */
  function Pause(sleepTime: real): seq<real>
  {
    if sleepTime > 0.0 then [sleepTime] else []
  }

  /** `k` sleeps of one second each. */
  function Seconds(k: nat): seq<real>
  {
    seq(k, _ => 1.0)
  }

  /** The downloads a poll numbered `n` dispatches for `parts`, in order. */
  function Jobs(host: string, n: nat, parts: seq<string>): (r: seq<Job>)
    ensures |r| == |parts|
    ensures forall i :: 0 <= i < |parts| ==> r[i].url == host + "/" + parts[i] && r[i].name == Naming.FileName(n, i + 1)
  {
    seq(|parts|, i requires 0 <= i < |parts| => Job(host + "/" + parts[i], Naming.FileName(n, i + 1)))
  }

  /**
   * The i-th download of poll n fetches host + "/" + the rewritten line
   * k + 2i (k = 2 + number of tags) and saves it as FileName(n, i + 1): a
   * line not starting with `http` is fetched as host/line, one starting with
   * `http` as host/host/line.
   */
  lemma PollDownloads(host: string, n: nat, text: string, i: nat)
    requires i < |Playlist.ReadM3u8(host, text, Playlist.Tags(text))|
    ensures var lines, k := Text.Lines(text), 2 + |Playlist.Tags(text)|;
      var job := Jobs(host, n, Playlist.ReadM3u8(host, text, Playlist.Tags(text)))[i];
      && k + 2 * i < |lines|
      && job.name == Naming.FileName(n, i + 1)
      && job.url == host + "/" + (if Playlist.StartsWithHttp(lines[k + 2 * i]) then host + "/" + lines[k + 2 * i] else lines[k + 2 * i])
  {
    var extx := Playlist.Tags(text);
    var parts := Playlist.ReadM3u8(host, text, extx);
    Playlist.ReadM3u8Spec(host, text, extx);
    var lines, k := Text.Lines(text), 2 + |extx|;
    var line := lines[k + 2 * i];
    assert parts[i] == (if Playlist.StartsWithHttp(line) then host + "/" + line else line);
    var job := Jobs(host, n, parts)[i];
    assert job.url == host + "/" + parts[i];
  }

  /** Pacing sleeps exactly when the poll took less than the target duration plus one second. */
  lemma PacingSpec(targetDuration: real, elapsed: real)
    ensures Pause(SleepTime(targetDuration, elapsed)) ==
      (if elapsed < targetDuration + 1.0 then [targetDuration + 1.0 - elapsed] else [])
    ensures SleepTime(6.0, 2.0) == 5.0
  {
  }

  /** The settings of the recorder that a poll depends on. */
  datatype Config = Config(url: string, host: string, retryCount: int, maxHashes: int,
                           fingerprint: seq<byte> -> DedupCache.Fingerprint, parseFloat: string -> Option<real>)

  /** What a poll changes: the fingerprint set, the GETs issued so far and the files written so far. */
  datatype Store = Store(hashes: set<DedupCache.Fingerprint>, requests: seq<string>, files: seq<File>)

  /** One `_download` of `job` from `s`: the new store and the fetch's result. */
  function Step(net: (nat, string) -> HttpOutcome, c: Config, s: Store, job: Job): (Store, Result<Response>)
  {
    var ask := Ask(net, |s.requests|, job.url);
    var requests := s.requests + Repeat(job.url, Fetcher.Attempts(ask, c.retryCount));
    match Fetcher.Fetch(ask, c.retryCount)
    case Err(e) => (Store(s.hashes, requests, s.files), Err(e))
    case Ok(res) =>
      var (next, isNew) := DedupCache.Admit(s.hashes, c.maxHashes, c.fingerprint(res.content));
      (Store(next, requests, s.files + (if isNew then [File(job.name, res.content)] else [])), Ok(res))
  }

  /**
   * The downloads of `jobs` in order from `s`: the final store, the
   * responses fetched, and the error of the download that raised, which
   * ends the loop.
   */
  function RunJobs(net: (nat, string) -> HttpOutcome, c: Config, s: Store, jobs: seq<Job>)
    : (Store, seq<Response>, Option<Error>)
    decreases |jobs|
  {
    if jobs == [] then (s, [], None)
    else
      var (t, f) := Step(net, c, s, jobs[0]);
      match f
      case Err(e) => (t, [], Some(e))
      case Ok(res) =>
        var (u, got, e) := RunJobs(net, c, t, jobs[1..]);
        (u, [res] + got, e)
  }

  /** The fingerprints of the contents of `rs`. */
  function Prints(fp: seq<byte> -> DedupCache.Fingerprint, rs: seq<Response>): (r: seq<DedupCache.Fingerprint>)
    ensures |r| == |rs| && forall i :: 0 <= i < |rs| ==> r[i] == fp(rs[i].content)
  {
    seq(|rs|, i requires 0 <= i < |rs| => fp(rs[i].content))
  }

  /** The fingerprints of the data of `fs`. */
  function FilePrints(fp: seq<byte> -> DedupCache.Fingerprint, fs: seq<File>): (r: seq<DedupCache.Fingerprint>)
    ensures |r| == |fs| && forall i :: 0 <= i < |fs| ==> r[i] == fp(fs[i].data)
  {
    seq(|fs|, i requires 0 <= i < |fs| => fp(fs[i].data))
  }

  /** FilePrints distributes over concatenation. */
  lemma FilePrintsAppend(fp: seq<byte> -> DedupCache.Fingerprint, a: seq<File>, b: seq<File>)
    ensures FilePrints(fp, a + b) == FilePrints(fp, a) + FilePrints(fp, b)
  {
  }

  /** A download that fetched takes one `Admit` step and writes the file `Admit` reports new. */
  lemma StepDedup(net: (nat, string) -> HttpOutcome, c: Config, s: Store, job: Job)
    requires Step(net, c, s, job).1.Ok?
    ensures var (t, f) := Step(net, c, s, job);
      var (next, isNew) := DedupCache.Admit(s.hashes, c.maxHashes, c.fingerprint(f.value.content));
      && t.hashes == next && |s.files| <= |t.files| && t.files[..|s.files|] == s.files
      && FilePrints(c.fingerprint, t.files[|s.files|..]) == (if isNew then [c.fingerprint(f.value.content)] else [])
  {
  }

  /**
   * The downloads take the set through `AdmitAll` over the fingerprints of
   * the responses fetched, and the files they write are, in order, those
   * whose fingerprints `AdmitAll` reports written.
   */
  lemma RunJobsDedup(net: (nat, string) -> HttpOutcome, c: Config, s: Store, jobs: seq<Job>)
    ensures var (t, got, e) := RunJobs(net, c, s, jobs);
      && |s.files| <= |t.files| && t.files[..|s.files|] == s.files
      && t.hashes == DedupCache.AdmitAll(s.hashes, c.maxHashes, Prints(c.fingerprint, got)).0
      && FilePrints(c.fingerprint, t.files[|s.files|..]) == DedupCache.AdmitAll(s.hashes, c.maxHashes, Prints(c.fingerprint, got)).1
  {
    RunJobsAdmit(net, c, s, jobs);
  }

  /** The same, stated over the set and the fingerprints written together. */
  lemma {:induction false} RunJobsAdmit(net: (nat, string) -> HttpOutcome, c: Config, s: Store, jobs: seq<Job>)
    ensures var r := RunJobs(net, c, s, jobs);
      && |s.files| <= |r.0.files| && r.0.files[..|s.files|] == s.files
      && (r.0.hashes, FilePrints(c.fingerprint, r.0.files[|s.files|..])) == DedupCache.AdmitAll(s.hashes, c.maxHashes, Prints(c.fingerprint, r.1))
    decreases |jobs|
  {
    if jobs != [] {
      var (t, f) := Step(net, c, s, jobs[0]);
      if f.Ok? {
        RunJobsAdmit(net, c, t, jobs[1..]);
        var r := RunJobs(net, c, t, jobs[1..]);
        StepThenRun(net, c, s, jobs, t, f.value, r);
      } else {
        assert RunJobs(net, c, s, jobs) == (t, [], Some(f.error));
        assert t.files[|s.files|..] == [];
      }
    }
  }

  /** The induction step of `RunJobsAdmit`: a fetching first download followed by the run over the rest. */
  lemma StepThenRun(net: (nat, string) -> HttpOutcome, c: Config, s: Store, jobs: seq<Job>,
                    t: Store, res: Response, r: (Store, seq<Response>, Option<Error>))
    requires jobs != [] && Step(net, c, s, jobs[0]) == (t, Ok(res))
    requires r == RunJobs(net, c, t, jobs[1..])
    requires |t.files| <= |r.0.files| && r.0.files[..|t.files|] == t.files
    requires (r.0.hashes, FilePrints(c.fingerprint, r.0.files[|t.files|..])) == DedupCache.AdmitAll(t.hashes, c.maxHashes, Prints(c.fingerprint, r.1))
    ensures RunJobs(net, c, s, jobs) == (r.0, [res] + r.1, r.2)
    ensures |s.files| <= |r.0.files| && r.0.files[..|s.files|] == s.files
    ensures (r.0.hashes, FilePrints(c.fingerprint, r.0.files[|s.files|..])) == DedupCache.AdmitAll(s.hashes, c.maxHashes, Prints(c.fingerprint, [res] + r.1))
  {
    StepDedup(net, c, s, jobs[0]);
    var u := r.0;
    var h := c.fingerprint(res.content);
    PrintsCons(c.fingerprint, res, r.1);
    DedupCache.AdmitAllCons(s.hashes, c.maxHashes, h, Prints(c.fingerprint, r.1));
    PrefixTail(u.files, t.files, |s.files|);
    FilePrintsAppend(c.fingerprint, t.files[|s.files|..], u.files[|t.files|..]);
  }

  lemma PrintsCons(fp: seq<byte> -> DedupCache.Fingerprint, res: Response, rs: seq<Response>)
    ensures Prints(fp, [res] + rs) == [fp(res.content)] + Prints(fp, rs)
  {
  }

  /** When `t` is a prefix of `u`, cutting both at `k` agrees, and `u` from `k` on is `t` from `k` on and then the rest of `u`. */
  lemma PrefixTail(u: seq<File>, t: seq<File>, k: nat)
    requires k <= |t| <= |u| && u[..|t|] == t
    ensures u[..k] == t[..k] && u[k..] == t[k..] + u[|t|..]
  {
    assert u[..k] == u[..|t|][..k];
    assert u == t + u[|t|..];
  }

  /**
   * The downloads that fetched come first, and all of them when none
   * raised; the one that raised did so with NoResponse or EmptyContent;
   * every response fetched has a non-empty body; each download issued adds
   * between 1 and `retry_count + 1` GETs.
   */
  lemma {:induction false} RunJobsFetches(net: (nat, string) -> HttpOutcome, c: Config, s: Store, jobs: seq<Job>)
    ensures var (t, got, e) := RunJobs(net, c, s, jobs);
      var issued := |got| + (if e.Some? then 1 else 0);
      && |got| <= |jobs|
      && (e.None? <==> |got| == |jobs|)
      && (e.Some? ==> e.value == NoResponse || e.value == EmptyContent)
      && (forall k :: 0 <= k < |got| ==> |got[k].content| > 0)
      && s.requests <= t.requests
      && |s.requests| + issued <= |t.requests| <= |s.requests| + issued * Fetcher.Budget(c.retryCount)
    decreases |jobs|
  {
    if jobs != [] {
      var (t, f) := Step(net, c, s, jobs[0]);
      var ask := Ask(net, |s.requests|, jobs[0].url);
      assert 1 <= Fetcher.Attempts(ask, c.retryCount) <= Fetcher.Budget(c.retryCount);
      if f.Ok? {
        RunJobsFetches(net, c, t, jobs[1..]);
        var (u, got, e) := RunJobs(net, c, t, jobs[1..]);
        var issued := |got| + (if e.Some? then 1 else 0);
        assert (issued + 1) * Fetcher.Budget(c.retryCount) == issued * Fetcher.Budget(c.retryCount) + Fetcher.Budget(c.retryCount);
      }
    }
  }

  /** One download appends at most one file, named for its job and non-empty. */
  lemma StepFiles(net: (nat, string) -> HttpOutcome, c: Config, s: Store, job: Job)
    ensures var t := Step(net, c, s, job).0;
      && |s.files| <= |t.files| <= |s.files| + 1 && t.files[..|s.files|] == s.files
      && (|t.files| > |s.files| ==> t.files[|s.files|].name == job.name && |t.files[|s.files|].data| > 0)
  {
  }

  /** Downloads of jobs all named for poll `n` write only files named for poll `n`, each non-empty. */
  lemma {:induction false} RunJobsNames(net: (nat, string) -> HttpOutcome, c: Config, s: Store, jobs: seq<Job>, n: nat)
    requires forall k :: 0 <= k < |jobs| ==> Naming.InPoll(jobs[k].name, n)
    ensures var t := RunJobs(net, c, s, jobs).0;
      && |s.files| <= |t.files| && t.files[..|s.files|] == s.files
      && forall i :: |s.files| <= i < |t.files| ==> Naming.InPoll(t.files[i].name, n) && |t.files[i].data| > 0
    decreases |jobs|
  {
    if jobs != [] {
      var (t, f) := Step(net, c, s, jobs[0]);
      StepFiles(net, c, s, jobs[0]);
      if f.Ok? {
        RunJobsNames(net, c, t, jobs[1..], n);
        var u := RunJobs(net, c, t, jobs[1..]).0;
        assert RunJobs(net, c, s, jobs).0 == u;
        forall i | |s.files| <= i < |u.files|
          ensures Naming.InPoll(u.files[i].name, n) && |u.files[i].data| > 0
        {
          if i < |t.files| {
            assert u.files[i] == u.files[..|t.files|][i];
          }
        }
        assert u.files[..|s.files|] == u.files[..|t.files|][..|s.files|];
      } else {
        assert RunJobs(net, c, s, jobs).0 == t;
      }
    }
  }

  /**
   * When no download of the poll clears the set, every fingerprint fetched
   * that was not in the set is written exactly once, and nothing else is.
   */
  lemma PollWritesNewOnce(net: (nat, string) -> HttpOutcome, c: Config, s: Store, jobs: seq<Job>)
    requires OneEpochRun(net, c, s, jobs)
    ensures var (t, got, e) := RunJobs(net, c, s, jobs);
      && |s.files| <= |t.files|
      && var written := FilePrints(c.fingerprint, t.files[|s.files|..]);
      && DedupCache.WrittenOnce(written, s.hashes, Prints(c.fingerprint, got))
      && DedupCache.Elems(written) == DedupCache.Elems(Prints(c.fingerprint, got)) - s.hashes
  {
    RunJobsDedup(net, c, s, jobs);
    var (t, got, e) := RunJobs(net, c, s, jobs);
    DedupCache.EpochWritesOnce(s.hashes, c.maxHashes, Prints(c.fingerprint, got));
  }

  /** No download of `jobs` from `s` clears the set. */
  predicate OneEpochRun(net: (nat, string) -> HttpOutcome, c: Config, s: Store, jobs: seq<Job>)
  {
    DedupCache.OneEpoch(s.hashes, c.maxHashes, Prints(c.fingerprint, RunJobs(net, c, s, jobs).1))
  }

  /**
   * `_record_m3u8(dir_path, n)` on the store: fetch the playlist, download
   * its parts, then parse the target duration; the store afterwards and the
   * poll's result. Clock readings and sleeps are left to the method.
   */
  function PollStep(net: (nat, string) -> HttpOutcome, c: Config, n: nat, s: Store): (Store, Result<()>)
  {
    var ask := Ask(net, |s.requests|, c.url);
    var fetched := Store(s.hashes, s.requests + Repeat(c.url, Fetcher.Attempts(ask, c.retryCount)), s.files);
    match Fetcher.FetchText(ask, c.retryCount)
    case Err(e) => (fetched, Err(e))
    case Ok(text) =>
      var extx := Playlist.Tags(text);
      var (t, got, e) := RunJobs(net, c, fetched, Jobs(c.host, n, Playlist.ReadM3u8(c.host, text, extx)));
      if e.Some? then (t, Err(e.value))
      else match TargetDuration(extx, c.parseFloat)
        case Err(d) => (t, Err(d))
        case Ok(_) => (t, Ok(()))
  }

  /**
   * A poll first issues the playlist GETs; it changes the set and the files
   * only through downloads, writes only files named for poll `n`, each
   * non-empty, and raises only with the errors of a fetch or of `float`.
   */
  lemma PollStepSpec(net: (nat, string) -> HttpOutcome, c: Config, n: nat, s: Store)
    ensures var (t, r) := PollStep(net, c, n, s);
      var ask := Ask(net, |s.requests|, c.url);
      && s.requests + Repeat(c.url, Fetcher.Attempts(ask, c.retryCount)) <= t.requests
      && (Fetcher.FetchText(ask, c.retryCount).Err? ==> t.hashes == s.hashes && t.files == s.files && r.Err?)
      && |s.files| <= |t.files| && t.files[..|s.files|] == s.files
      && (forall i :: |s.files| <= i < |t.files| ==> Naming.InPoll(t.files[i].name, n) && |t.files[i].data| > 0)
      && (r.Err? ==> r.error.NoResponse? || r.error.EmptyContent? || r.error.BadTargetDuration?)
  {
    var ask := Ask(net, |s.requests|, c.url);
    var fetched := Store(s.hashes, s.requests + Repeat(c.url, Fetcher.Attempts(ask, c.retryCount)), s.files);
    var page := Fetcher.FetchText(ask, c.retryCount);
    if page.Ok? {
      var jobs := Jobs(c.host, n, Playlist.ReadM3u8(c.host, page.value, Playlist.Tags(page.value)));
      assert forall k :: 0 <= k < |jobs| ==> Naming.InPoll(jobs[k].name, n);
      RunJobsNames(net, c, fetched, jobs, n);
      RunJobsFetches(net, c, fetched, jobs);
      assert PollStep(net, c, n, s).0 == RunJobs(net, c, fetched, jobs).0;
    }
  }

  /** The target duration a poll from `s` paces by: that of the playlist it fetched, or the fetch's error. */
  function PollDuration(net: (nat, string) -> HttpOutcome, c: Config, s: Store): Result<real>
  {
    match Fetcher.FetchText(Ask(net, |s.requests|, c.url), c.retryCount)
    case Err(e) => Err(e)
    case Ok(text) => TargetDuration(Playlist.Tags(text), c.parseFloat)
  }

  /** The fingerprints of the parts a poll from `s` fetched, in order: none when the playlist fetch fails. */
  function PollPrints(net: (nat, string) -> HttpOutcome, c: Config, n: nat, s: Store): seq<DedupCache.Fingerprint>
  {
    var ask := Ask(net, |s.requests|, c.url);
    var fetched := Store(s.hashes, s.requests + Repeat(c.url, Fetcher.Attempts(ask, c.retryCount)), s.files);
    match Fetcher.FetchText(ask, c.retryCount)
    case Err(_) => []
    case Ok(text) => Prints(c.fingerprint, RunJobs(net, c, fetched, Jobs(c.host, n, Playlist.ReadM3u8(c.host, text, Playlist.Tags(text)))).1)
  }

  /**
   * A poll takes the set through `AdmitAll` over the fingerprints it
   * fetched, and appends, in order, the files whose fingerprints `AdmitAll`
   * reports written.
   */
  lemma PollStepDedup(net: (nat, string) -> HttpOutcome, c: Config, n: nat, s: Store)
    ensures var t := PollStep(net, c, n, s).0;
      && |s.files| <= |t.files| && t.files[..|s.files|] == s.files
      && (t.hashes, FilePrints(c.fingerprint, t.files[|s.files|..])) == DedupCache.AdmitAll(s.hashes, c.maxHashes, PollPrints(net, c, n, s))
  {
    var ask := Ask(net, |s.requests|, c.url);
    var fetched := Store(s.hashes, s.requests + Repeat(c.url, Fetcher.Attempts(ask, c.retryCount)), s.files);
    var page := Fetcher.FetchText(ask, c.retryCount);
    if page.Ok? {
      var jobs := Jobs(c.host, n, Playlist.ReadM3u8(c.host, page.value, Playlist.Tags(page.value)));
      RunJobsAdmit(net, c, fetched, jobs);
      assert PollStep(net, c, n, s).0 == RunJobs(net, c, fetched, jobs).0;
    } else {
      assert PollStep(net, c, n, s).0 == fetched;
      assert fetched.files[|s.files|..] == [];
    }
  }

  /** `name` is the file name of some part of one of the polls 1..count. */
  ghost predicate WrittenBy(name: string, count: nat)
  {
    exists k: nat :: 1 <= k <= count && Naming.InPoll(name, k)
  }

  /** One poll of `record_m3u8`: its number, the window-check reading, the reading that ended the wait for `start`, and the store before and after it with its result. */
  datatype PollRecord = PollRecord(n: nat, checked: nat, woke: nat, before: Store, after: Store, result: Result<()>)

  /** `PollStep` for fixed settings and transport, as a function of the poll number and the store. */
  function PollSteps(net: (nat, string) -> HttpOutcome, c: Config): (nat, Store) -> (Store, Result<()>)
  {
    (n: nat, s: Store) => PollStep(net, c, n, s)
  }

  /**
   * `log` is a run of polls 1, 2, ... from `s0` to `s`: every poll in it is
   * `Polled`, and the last one left `s`.
   */
  ghost predicate Chain(step: (nat, Store) -> (Store, Result<()>), clock: nat -> real, start: real, end: real,
                        log: seq<PollRecord>, s0: Store, s: Store)
  {
    && (if |log| == 0 then s == s0 else log[|log| - 1].after == s)
    && forall k :: 0 <= k < |log| ==> Polled(step, clock, start, end, log, s0, k)
  }

  /**
   * Poll `k` of `log` is numbered k + 1; it took its store from the poll
   * before it (from `s0` for the first), which succeeded; its window check
   * took the reading right after that poll's two (its start and its
   * pacing), three after the reading that ended that poll's wait; it did
   * what `step` says; and it began with a window check that found the
   * reading not past `end` and a wait that ended at the first later reading
   * at or after `start`.
   */
  ghost predicate Polled(step: (nat, Store) -> (Store, Result<()>), clock: nat -> real, start: real, end: real,
                         log: seq<PollRecord>, s0: Store, k: nat)
    requires k < |log|
  {
    && log[k].n == k + 1
    && log[k].before == (if k == 0 then s0 else log[k - 1].after)
    && (k > 0 ==> log[k - 1].result.Ok? && log[k].checked == log[k - 1].woke + 3)
    && (log[k].after, log[k].result) == step(k + 1, log[k].before)
    && log[k].checked < log[k].woke && clock(log[k].checked) <= end && clock(log[k].woke) >= start
    && (forall i :: log[k].checked < i < log[k].woke ==> clock(i) < start)
  }

  /** A run extends by one more poll that starts from its last store, after a successful last poll, three readings after its wait ended. */
  lemma ChainSnoc(step: (nat, Store) -> (Store, Result<()>), clock: nat -> real, start: real, end: real,
                  log: seq<PollRecord>, s0: Store, e: PollRecord)
    requires Chain(step, clock, start, end, log, s0, e.before)
    requires |log| > 0 ==> log[|log| - 1].result.Ok? && e.checked == log[|log| - 1].woke + 3
    requires e.n == |log| + 1 && (e.after, e.result) == step(e.n, e.before)
    requires e.checked < e.woke && clock(e.checked) <= end && clock(e.woke) >= start
    requires forall i :: e.checked < i < e.woke ==> clock(i) < start
    ensures Chain(step, clock, start, end, log + [e], s0, e.after)
  {
    var next := log + [e];
    forall k | 0 <= k < |next|
      ensures Polled(step, clock, start, end, next, s0, k)
    {
      if k < |log| {
        assert Polled(step, clock, start, end, log, s0, k) && next[k] == log[k];
      } else {
        assert next[k] == e;
      }
      if 0 < k {
        assert next[k - 1] == log[k - 1];
      }
    }
  }

  /** Every run but the empty one ends with a run one poll shorter. */
  lemma ChainPrefix(step: (nat, Store) -> (Store, Result<()>), clock: nat -> real, start: real, end: real,
                    log: seq<PollRecord>, s0: Store, s: Store)
    requires Chain(step, clock, start, end, log, s0, s) && |log| > 0
    ensures Chain(step, clock, start, end, log[..|log| - 1], s0, log[|log| - 1].before)
  {
    var p := log[..|log| - 1];
    assert Polled(step, clock, start, end, log, s0, |p|);
    forall k | 0 <= k < |p|
      ensures Polled(step, clock, start, end, p, s0, k)
    {
      assert Polled(step, clock, start, end, log, s0, k) && p[k] == log[k];
      if 0 < k {
        assert p[k - 1] == log[k - 1];
      }
    }
  }

  /** Every poll of a run, the last one included, did what `step` says on the store it started from. */
  lemma ChainStep(step: (nat, Store) -> (Store, Result<()>), clock: nat -> real, start: real, end: real,
                  log: seq<PollRecord>, s0: Store, s: Store, k: nat)
    requires Chain(step, clock, start, end, log, s0, s) && k < |log|
    ensures (log[k].after, log[k].result) == step(k + 1, log[k].before)
    ensures log[k].before == (if k == 0 then s0 else log[k - 1].after)
    ensures k == |log| - 1 ==> log[k].after == s
  {
    assert Polled(step, clock, start, end, log, s0, k);
  }

  /**
   * A run of polls only appends files, and every file it writes is
   * non-empty and named for one of its polls.
   */
  lemma {:induction false} ChainFiles(net: (nat, string) -> HttpOutcome, c: Config, clock: nat -> real, start: real, end: real,
                                      log: seq<PollRecord>, s0: Store, s: Store)
    requires Chain(PollSteps(net, c), clock, start, end, log, s0, s)
    ensures |s0.files| <= |s.files| && s.files[..|s0.files|] == s0.files
    ensures forall i :: |s0.files| <= i < |s.files| ==> WrittenBy(s.files[i].name, |log|) && |s.files[i].data| > 0
    decreases |log|
  {
    if |log| > 0 {
      var m := |log| - 1;
      var before := log[m].before;
      ChainPrefix(PollSteps(net, c), clock, start, end, log, s0, s);
      ChainFiles(net, c, clock, start, end, log[..m], s0, before);
      LastPollFiles(net, c, clock, start, end, log, s0, s);
      PrefixTail(s.files, before.files, |s0.files|);
      forall i | |s0.files| <= i < |s.files|
        ensures WrittenBy(s.files[i].name, |log|) && |s.files[i].data| > 0
      {
        if i < |before.files| {
          assert s.files[i] == before.files[i];
          var k: nat :| 1 <= k <= m && Naming.InPoll(before.files[i].name, k);
          assert 1 <= k <= |log| && Naming.InPoll(s.files[i].name, k);
        } else {
          assert 1 <= m + 1 <= |log| && Naming.InPoll(s.files[i].name, m + 1);
        }
      }
    }
  }

  /** The last poll of a run only appends files, each non-empty and named for its poll number. */
  lemma LastPollFiles(net: (nat, string) -> HttpOutcome, c: Config, clock: nat -> real, start: real, end: real,
                      log: seq<PollRecord>, s0: Store, s: Store)
    requires Chain(PollSteps(net, c), clock, start, end, log, s0, s) && |log| > 0
    ensures var b := log[|log| - 1].before;
      && |b.files| <= |s.files| && s.files[..|b.files|] == b.files
      && forall i :: |b.files| <= i < |s.files| ==> Naming.InPoll(s.files[i].name, |log|) && |s.files[i].data| > 0
  {
    assert Polled(PollSteps(net, c), clock, start, end, log, s0, |log| - 1);
    PollStepSpec(net, c, |log|, log[|log| - 1].before);
  }

  /** The fingerprints fetched over a run, poll after poll, each poll's in order. */
  function RunPrints(net: (nat, string) -> HttpOutcome, c: Config, log: seq<PollRecord>): seq<DedupCache.Fingerprint>
    decreases |log|
  {
    if log == [] then []
    else RunPrints(net, c, log[..|log| - 1]) + PollPrints(net, c, log[|log| - 1].n, log[|log| - 1].before)
  }

  /** `PollStepDedup` for the last poll of a run. */
  lemma LastPollDedup(net: (nat, string) -> HttpOutcome, c: Config, clock: nat -> real, start: real, end: real,
                      log: seq<PollRecord>, s0: Store, s: Store)
    requires Chain(PollSteps(net, c), clock, start, end, log, s0, s) && |log| > 0
    ensures var (b, n) := (log[|log| - 1].before, log[|log| - 1].n);
      && |b.files| <= |s.files| && s.files[..|b.files|] == b.files
      && (s.hashes, FilePrints(c.fingerprint, s.files[|b.files|..])) == DedupCache.AdmitAll(b.hashes, c.maxHashes, PollPrints(net, c, n, b))
  {
    var e := log[|log| - 1];
    assert Polled(PollSteps(net, c), clock, start, end, log, s0, |log| - 1);
    assert (e.after, e.result) == PollStep(net, c, e.n, e.before);
    PollStepDedup(net, c, e.n, e.before);
  }

  /**
   * The set `_hashes` carries over from poll to poll: over a whole run, the
   * set is taken through `AdmitAll` over every fingerprint fetched, poll
   * after poll, and the files written are, in order, those `AdmitAll`
   * reports written. A segment that a later poll lists again is therefore
   * not written again while its fingerprint stays in the set.
   */
  lemma {:induction false} ChainDedup(net: (nat, string) -> HttpOutcome, c: Config, clock: nat -> real, start: real, end: real,
                                      log: seq<PollRecord>, s0: Store, s: Store)
    requires Chain(PollSteps(net, c), clock, start, end, log, s0, s)
    ensures |s0.files| <= |s.files| && s.files[..|s0.files|] == s0.files
    ensures (s.hashes, FilePrints(c.fingerprint, s.files[|s0.files|..])) == DedupCache.AdmitAll(s0.hashes, c.maxHashes, RunPrints(net, c, log))
    decreases |log|
  {
    if |log| == 0 {
      assert s == s0 && s.files[|s0.files|..] == [];
    } else {
      var m := |log| - 1;
      var b := log[m].before;
      ChainPrefix(PollSteps(net, c), clock, start, end, log, s0, s);
      ChainDedup(net, c, clock, start, end, log[..m], s0, b);
      LastPollDedup(net, c, clock, start, end, log, s0, s);
      PrefixTail(s.files, b.files, |s0.files|);
      FilePrintsAppend(c.fingerprint, b.files[|s0.files|..], s.files[|b.files|..]);
      DedupCache.AdmitAllAppend(s0.hashes, c.maxHashes, RunPrints(net, c, log[..m]), PollPrints(net, c, log[m].n, b));
    }
  }

  /**
   * When no download of the run clears the set, every fingerprint the run
   * fetched that was not in the set at its start is written exactly once
   * over the whole run, and nothing else is written.
   */
  lemma ChainWritesNewOnce(net: (nat, string) -> HttpOutcome, c: Config, clock: nat -> real, start: real, end: real,
                           log: seq<PollRecord>, s0: Store, s: Store)
    requires Chain(PollSteps(net, c), clock, start, end, log, s0, s)
    requires DedupCache.OneEpoch(s0.hashes, c.maxHashes, RunPrints(net, c, log))
    ensures |s0.files| <= |s.files|
    ensures var written := FilePrints(c.fingerprint, s.files[|s0.files|..]);
      && DedupCache.WrittenOnce(written, s0.hashes, RunPrints(net, c, log))
      && DedupCache.Elems(written) == DedupCache.Elems(RunPrints(net, c, log)) - s0.hashes
  {
    ChainDedup(net, c, clock, start, end, log, s0, s);
    DedupCache.EpochWritesOnce(s0.hashes, c.maxHashes, RunPrints(net, c, log));
  }

  /** `ChainSnoc` for a run of `PollStep`s, with the appended poll stated by `PollStep` itself. */
  lemma PollSnoc(net: (nat, string) -> HttpOutcome, c: Config, clock: nat -> real, start: real, end: real,
                 log: seq<PollRecord>, s0: Store, e: PollRecord)
    requires Chain(PollSteps(net, c), clock, start, end, log, s0, e.before)
    requires |log| > 0 ==> log[|log| - 1].result.Ok? && e.checked == log[|log| - 1].woke + 3
    requires e.n == |log| + 1 && (e.after, e.result) == PollStep(net, c, e.n, e.before)
    requires e.checked < e.woke && clock(e.checked) <= end && clock(e.woke) >= start
    requires forall i :: e.checked < i < e.woke ==> clock(i) < start
    ensures Chain(PollSteps(net, c), clock, start, end, log + [e], s0, e.after)
  {
    ChainSnoc(PollSteps(net, c), clock, start, end, log, s0, e);
  }

  /** Every poll of a run began after a window check not past `end` and a wait that reached `start`. */
  lemma ChainWindow(step: (nat, Store) -> (Store, Result<()>), clock: nat -> real, start: real, end: real,
                    log: seq<PollRecord>, s0: Store, s: Store)
    requires Chain(step, clock, start, end, log, s0, s)
    ensures forall k :: 0 <= k < |log| ==> clock(log[k].checked) <= end && start <= clock(log[k].woke)
  {
    forall k | 0 <= k < |log|
      ensures clock(log[k].checked) <= end && start <= clock(log[k].woke)
    {
      assert Polled(step, clock, start, end, log, s0, k);
    }
  }

  /**
   * When `start` is after `end` and the clock never goes backwards, a run
   * holds at most one poll: the reading that ended the first wait is at or
   * after `start`, so every later window check is past `end`.
   */
  lemma ChainStartAfterEnd(step: (nat, Store) -> (Store, Result<()>), clock: nat -> real, start: real, end: real,
                           log: seq<PollRecord>, s0: Store, s: Store)
    requires Chain(step, clock, start, end, log, s0, s)
    requires forall i: nat, j: nat :: i <= j ==> clock(i) <= clock(j)
    requires start > end
    ensures |log| <= 1
  {
    ChainLaterChecks(step, clock, start, end, log, s0, s);
  }

  /**
   * With a clock that never goes backwards, every window check after the
   * first poll reads at least `start`.
   */
  lemma ChainLaterChecks(step: (nat, Store) -> (Store, Result<()>), clock: nat -> real, start: real, end: real,
                         log: seq<PollRecord>, s0: Store, s: Store)
    requires Chain(step, clock, start, end, log, s0, s)
    requires forall i: nat, j: nat :: i <= j ==> clock(i) <= clock(j)
    ensures forall k :: 0 < k < |log| ==> clock(log[k].checked) >= start
    ensures |log| > 1 ==> start <= clock(log[1].checked) <= end
  {
    forall k | 0 < k < |log|
      ensures clock(log[k].checked) >= start
    {
      assert Polled(step, clock, start, end, log, s0, k - 1) && Polled(step, clock, start, end, log, s0, k);
      assert clock(log[k - 1].woke) <= clock(log[k].checked);
    }
    if |log| > 1 {
      assert Polled(step, clock, start, end, log, s0, 1);
    }
  }

  class IPTVRecorder {
    const url: string
    const start: real
    const end: real
    const retryCount: int
    /** `save_if_empty`: never consulted, because `_request` never hands back an empty body. */
    const saveEmpty: bool
    const maxHashes: int
    const host: string
    /** Python's `hash` on bytes. */
    const fingerprint: seq<byte> -> DedupCache.Fingerprint
    /** Python's `float` on strings; None stands for ValueError. */
    const parseFloat: string -> Option<real>
    /** `_hashes`: fingerprints of the contents written in the current epoch. */
    var hashes: set<DedupCache.Fingerprint>

    ghost predicate Valid()
      reads this`hashes
    {
      |hashes| <= DedupCache.Cap(maxHashes)
    }

    /** The settings a poll depends on. */
    function Settings(): Config
    {
      Config(url, host, retryCount, maxHashes, fingerprint, parseFloat)
    }

    constructor (url: string, start: real, end: real, retryCount: int, saveEmpty: bool, maxHashes: int,
                 fingerprint: seq<byte> -> DedupCache.Fingerprint, parseFloat: string -> Option<real>)
      ensures this.url == url && this.start == start && this.end == end
      ensures this.retryCount == retryCount && this.saveEmpty == saveEmpty && this.maxHashes == maxHashes
      ensures this.fingerprint == fingerprint && this.parseFloat == parseFloat
      ensures host == Playlist.Host(url)
      ensures hashes == {}
      ensures Valid()
    {
      this.url := url;
      this.start := start;
      this.end := end;
      this.retryCount := retryCount;
      this.saveEmpty := saveEmpty;
      this.maxHashes := maxHashes;
      this.fingerprint := fingerprint;
      this.parseFloat := parseFloat;
      host := Playlist.Host(url);
      hashes := {};
    }

    /** `_try_request(client.get, u)`: GET until one succeeds or `retry_count` retries have failed. */
    method TryRequest(w: World, u: string) returns (res: Option<Response>)
      modifies w`requests
      ensures var t := Fetcher.Try(Ask(w.net, |old(w.requests)|, u), retryCount, 0);
        res == t.0 && w.requests == old(w.requests) + Repeat(u, t.1)
    {
      ghost var ask := Ask(w.net, |w.requests|, u);
      var n := 0;
      res := None;
      while true
        invariant n < Fetcher.Budget(retryCount)
        invariant w.requests == old(w.requests) + Repeat(u, n)
        invariant Fetcher.Try(ask, retryCount, n) == Fetcher.Try(ask, retryCount, 0)
        decreases Fetcher.Budget(retryCount) - n
      {
        var o := w.Get(u);
        RepeatSnoc(u, n);
        if o.Success? {
          res := Some(o.response);
          break;
        }
        n := n + 1;
        if n > retryCount {
          break;
        }
      }
    }

    /** `_request(client, u)`: the response when its body is non-empty. */
    method Request(w: World, u: string) returns (r: Result<Option<Response>>)
      modifies w`requests
      ensures var t := Fetcher.Try(Ask(w.net, |old(w.requests)|, u), retryCount, 0);
        && w.requests == old(w.requests) + Repeat(u, t.1)
        && r == (if t.0.None? then Err(NoResponse)
                 else if |t.0.value.content| == 0 then Ok(None)
                 else Ok(t.0))
    {
      var res := TryRequest(w, u);
      if res.None? {
        // `res.content` on None raises
        return Err(NoResponse);
      }
      if |res.value.content| > 0 {
        return Ok(res);
      }
      return Ok(None);
    }

    /** `_read_url(client, u)`: the text of the response. */
    method ReadUrl(w: World, u: string) returns (r: Result<string>)
      modifies w`requests
      ensures w.requests == old(w.requests) + Repeat(u, Fetcher.Attempts(Ask(w.net, |old(w.requests)|, u), retryCount))
      ensures r == Fetcher.FetchText(Ask(w.net, |old(w.requests)|, u), retryCount)
    {
      var res := Request(w, u);
      if res.Err? {
        return Err(res.error);
      }
      if res.value.None? {
        // `.text` on None raises
        return Err(EmptyContent);
      }
      return Ok(res.value.value.text);
    }

    /**
     * `_download(client, u, name)`: fetch, then write the content unless
     * its fingerprint is already in the set, clearing the set first when
     * it has grown past `max_hashes`.
     */
    method Download(w: World, u: string, name: string) returns (st: Status)
      requires Valid()
      modifies this`hashes, w`requests, w`files
      ensures Valid()
      ensures w.requests == old(w.requests) + Repeat(u, Fetcher.Attempts(Ask(w.net, |old(w.requests)|, u), retryCount))
      ensures var f := Fetcher.Fetch(Ask(w.net, |old(w.requests)|, u), retryCount);
        && (f.Err? ==> st == Raised(f.error) && hashes == old(hashes) && w.files == old(w.files))
        && (f.Ok? ==>
              var (next, isNew) := DedupCache.Admit(old(hashes), maxHashes, fingerprint(f.value.content));
              && hashes == next
              && st == (if isNew then Written else Duplicate)
              && w.files == old(w.files) + (if isNew then [File(name, f.value.content)] else []))
      ensures st.Raised? ==> st.error == NoResponse || st.error == EmptyContent
      ensures |old(w.files)| <= |w.files| && w.files[..|old(w.files)|] == old(w.files)
      ensures forall i :: |old(w.files)| <= i < |w.files| ==> w.files[i].name == name && |w.files[i].data| > 0
      ensures var (t, f) := Step(w.net, Settings(), Store(old(hashes), old(w.requests), old(w.files)), Job(u, name));
        && Store(hashes, w.requests, w.files) == t
        && (st.Raised? <==> f.Err?)
        && (f.Err? ==> st == Raised(f.error))
    {
      var res := Request(w, u);
      if res.Err? {
        return Raised(res.error);
      }
      if res.value.None? {
        // `len(res.content)` on None raises
        return Raised(EmptyContent);
      }
      var content := res.value.value.content;
      // `not len(content) and not save_empty` cannot hold: the body is non-empty here
      var h := fingerprint(content);
      if h in hashes {
        return Duplicate;
      } else if |hashes| > maxHashes {
        hashes := {};
      }
      DedupCache.AdmitKeepsBound(old(hashes), maxHashes, h);
      hashes := hashes + {h};
      w.Write(name, content);
      return Written;
    }

    /**
     * `_check_time()`: false at once when the first reading is past `end`;
     * otherwise sleep one second at a time until a reading reaches `start`.
     */
    method CheckTime(w: World) returns (open: bool)
      requires w.Time(w.readings) > end || w.EventuallyAtLeast(start, w.readings + 1)
      modifies w`readings, w`sleeps
      ensures open <==> w.Time(old(w.readings)) <= end
      ensures !open ==> w.readings == old(w.readings) + 1 && w.sleeps == old(w.sleeps)
      ensures open ==>
        && old(w.readings) + 2 <= w.readings
        && w.Time(w.readings - 1) >= start
        && (forall i :: old(w.readings) + 1 <= i < w.readings - 1 ==> w.Time(i) < start)
        && w.sleeps == old(w.sleeps) + Seconds(w.readings - old(w.readings) - 2)
    {
      var now := w.Now();
      if now > end {
        return false;
      }
      ghost var target :| old(w.readings) + 1 <= target && w.Time(target) >= start;
      now := w.Now();
      while now < start
        invariant old(w.readings) + 2 <= w.readings <= target + 1
        invariant now == w.Time(w.readings - 1)
        invariant forall i :: old(w.readings) + 1 <= i < w.readings - 1 ==> w.Time(i) < start
        invariant w.sleeps == old(w.sleeps) + Seconds(w.readings - old(w.readings) - 2)
        decreases target + 1 - w.readings
      {
        w.Sleep(1.0);
        now := w.Now();
      }
      return true;
    }

    /**
     * The `for part in ...` loop of `_record_m3u8`: download the parts in
     * order as `FileName(n, part_n)`, part_n = 1, 2, ...; the first failing
     * download raises out of the loop.
     */
    method DownloadParts(w: World, n: nat, parts: seq<string>) returns (r: Result<()>)
      requires Valid()
      modifies this`hashes, w`requests, w`files
      ensures Valid()
      ensures var (t, got, e) := RunJobs(w.net, Settings(), Store(old(hashes), old(w.requests), old(w.files)), Jobs(host, n, parts));
        && Store(hashes, w.requests, w.files) == t
        && r == (if e.Some? then Err(e.value) else Ok(()))
    {
      ghost var jobs := Jobs(host, n, parts);
      ghost var total := RunJobs(w.net, Settings(), Store(hashes, w.requests, w.files), jobs);
      var partN := 1;
      var i := 0;
      while i < |parts|
        invariant 0 <= i <= |parts| && partN == i + 1
        invariant Valid()
        invariant var rest := RunJobs(w.net, Settings(), Store(hashes, w.requests, w.files), jobs[i..]);
          rest.0 == total.0 && rest.2 == total.2
      {
        var fp := Naming.FileName(n, partN);
        assert jobs[i..][0] == Job(host + "/" + parts[i], fp);
        assert jobs[i..][1..] == jobs[i + 1..];
        var st := Download(w, host + "/" + parts[i], fp);
        if st.Raised? {
          return Err(st.error);
        }
        partN := partN + 1;
        i := i + 1;
      }
      return Ok(());
    }

    /** The end of `_record_m3u8`: sleep for `sleep_time` when it is positive. */
    method Pace(w: World, targetDuration: real, started: real)
      modifies w`readings, w`sleeps
      ensures w.readings == old(w.readings) + 1
      ensures w.sleeps == old(w.sleeps) + Pause(SleepTime(targetDuration, w.Time(old(w.readings)) - started))
    {
      var now := w.Now();
      var sleepTime := SleepTime(targetDuration, now - started);
      if sleepTime > 0.0 {
        w.Sleep(sleepTime);
      }
    }

    /**
     * The rest of `_record_m3u8` once the playlist `text` is in: parse it,
     * download the parts, then parse the target duration and pace against
     * the poll's start time `started`. `jobs` are the downloads the playlist
     * calls for and `duration` its target duration.
     */
    method ProcessPlaylist(w: World, n: nat, text: string, started: real)
      returns (r: Result<()>, ghost jobs: seq<Job>, ghost duration: Result<real>)
      requires Valid()
      modifies this`hashes, w`requests, w`files, w`readings, w`sleeps
      ensures Valid()
      ensures jobs == Jobs(host, n, Playlist.ReadM3u8(host, text, Playlist.Tags(text)))
      ensures duration == TargetDuration(Playlist.Tags(text), parseFloat)
      ensures var (t, got, e) := RunJobs(w.net, Settings(), Store(old(hashes), old(w.requests), old(w.files)), jobs);
        && Store(hashes, w.requests, w.files) == t
        && r == (if e.Some? then Err(e.value) else if duration.Err? then Err(duration.error) else Ok(()))
      ensures r.Err? ==> w.sleeps == old(w.sleeps) && w.readings == old(w.readings)
      ensures r.Ok? ==>
        && duration.Ok?
        && w.readings == old(w.readings) + 1
        && w.sleeps == old(w.sleeps) + Pause(SleepTime(duration.value, w.Time(old(w.readings)) - started))
    {
      var extx := Playlist.Tags(text);
      var parts := Playlist.ReadM3u8(host, text, extx);
      jobs := Jobs(host, n, parts);
      var done := DownloadParts(w, n, parts);
      var td := TargetDuration(extx, parseFloat);
      duration := td;
      if done.Err? {
        return done, jobs, duration;
      }
      if td.Err? {
        return Err(td.error), jobs, duration;
      }
      Pace(w, td.value, started);
      return Ok(()), jobs, duration;
    }

    /**
     * `_record_m3u8(dir_path, n)`: one poll, as `PollStep` states it on the
     * store, taking one clock reading at its start and one when it paces.
     * `s` is the store on entry. `page` is the playlist fetch's result;
     * when it is a text, `jobs` are the downloads it calls for and
     * `duration` its target duration.
     */
    method RecordPoll(w: World, n: nat, ghost s: Store)
      returns (r: Result<()>, ghost page: Result<string>, ghost jobs: seq<Job>, ghost duration: Result<real>)
      requires Valid()
      requires s == Store(hashes, w.requests, w.files)
      modifies this`hashes, w`requests, w`files, w`readings, w`sleeps
      ensures Valid()
      ensures (Store(hashes, w.requests, w.files), r) == PollStep(w.net, Settings(), n, s)
      ensures page == Fetcher.FetchText(Ask(w.net, |s.requests|, url), retryCount)
      ensures w.readings == old(w.readings) + (if r.Ok? then 2 else 1)
      ensures r.Ok? ==> page.Ok?
      ensures page.Ok? ==> jobs == Jobs(host, n, Playlist.ReadM3u8(host, page.value, Playlist.Tags(page.value)))
      ensures page.Ok? ==> duration == TargetDuration(Playlist.Tags(page.value), parseFloat)
      ensures page.Ok? ==> duration == PollDuration(w.net, Settings(), s)
      ensures r.Err? ==> w.sleeps == old(w.sleeps)
      ensures r.Ok? ==>
        && duration.Ok?
        && w.sleeps == old(w.sleeps) + Pause(SleepTime(duration.value, w.Time(old(w.readings) + 1) - w.Time(old(w.readings))))
    {
      ghost var ask := Ask(w.net, |w.requests|, url);
      var t0 := w.Now();
      var fetched := ReadUrl(w, url);
      page := fetched;
      assert page == Fetcher.FetchText(ask, retryCount);
      if fetched.Err? {
        r, jobs, duration := Err(fetched.error), [], Ok(0.0);
      } else {
        r, jobs, duration := ProcessPlaylist(w, n, fetched.value, t0);
      }
    }

    /**
     * The poll half of a turn of `record_m3u8`'s loop: `RecordPoll`, with
     * the poll appended to `log` as the record checked at reading `checked`
     * whose wait ended at the reading before `paced`, the reading count on
     * entry.
     */
    method LoggedPoll(w: World, n: nat, ghost log: seq<PollRecord>, ghost s0: Store, ghost checked: nat, ghost paced: nat)
      returns (r: Result<()>, ghost next: seq<PollRecord>, ghost duration: Result<real>)
      requires Valid()
      requires paced == w.readings
      requires n == |log| + 1
      requires Chain(PollSteps(w.net, Settings()), w.clock, start, end, log, s0, Store(hashes, w.requests, w.files))
      requires |log| > 0 ==> log[|log| - 1].result.Ok? && checked == log[|log| - 1].woke + 3
      requires checked + 1 < paced && w.Time(checked) <= end && start <= w.Time(paced - 1)
      requires forall i :: checked < i < paced - 1 ==> w.Time(i) < start
      modifies this`hashes, w`requests, w`files, w`readings, w`sleeps
      ensures Valid()
      ensures next == log + [PollRecord(n, checked, paced - 1, Store(old(hashes), old(w.requests), old(w.files)),
                                        Store(hashes, w.requests, w.files), r)]
      ensures w.readings == paced + (if r.Ok? then 2 else 1)
      ensures r.Err? ==> w.sleeps == old(w.sleeps)
      ensures r.Ok? ==> duration.Ok?
      ensures r.Ok? ==> w.sleeps == old(w.sleeps) + Pause(SleepTime(duration.value, w.Time(paced + 1) - w.Time(paced)))
      ensures Chain(PollSteps(w.net, Settings()), w.clock, start, end, next, s0, Store(hashes, w.requests, w.files))
      ensures r.Ok? ==> duration == PollDuration(w.net, Settings(), Store(old(hashes), old(w.requests), old(w.files)))
    {
      ghost var woke := paced - 1;
      ghost var before := Store(hashes, w.requests, w.files);
      ghost var page, jobs;
      r, page, jobs, duration := RecordPoll(w, n, before);
      forall i | checked < i < woke
        ensures w.clock(i) < start
      {
        assert w.Time(i) < start;
      }
      ghost var e := PollRecord(n, checked, woke, before, Store(hashes, w.requests, w.files), r);
      PollSnoc(w.net, Settings(), w.clock, start, end, log, s0, e);
      next := log + [e];
    }

    /**
     * One turn of `record_m3u8`'s loop: `_check_time()`, then poll number
     * `n` when the window is open. `log` records the polls made so far from
     * `s0`; `next` is `log`, with this poll appended when it ran. When it
     * ran, `paced` is the reading its pacing started from, `waited` the
     * sleeps once the wait for `start` was over and `duration` the target
     * duration the pause used.
     */
    method Round(w: World, n: nat, ghost log: seq<PollRecord>, ghost s0: Store)
      returns (open: bool, r: Result<()>, ghost next: seq<PollRecord>, ghost paced: nat, ghost waited: seq<real>, ghost duration: Result<real>)
      requires Valid()
      requires w.Time(w.readings) > end || w.EventuallyAtLeast(start, w.readings + 1)
      requires n == |log| + 1
      requires Chain(PollSteps(w.net, Settings()), w.clock, start, end, log, s0, Store(hashes, w.requests, w.files))
      requires |log| > 0 ==> w.readings == log[|log| - 1].woke + 3 && log[|log| - 1].result.Ok?
      modifies this`hashes, w`requests, w`files, w`readings, w`sleeps
      ensures Valid()
      ensures open <==> w.Time(old(w.readings)) <= end
      ensures old(w.readings) < w.readings
      ensures !open ==>
        && next == log && r == Ok(())
        && hashes == old(hashes) && w.requests == old(w.requests) && w.files == old(w.files)
        && w.readings == old(w.readings) + 1 && w.sleeps == old(w.sleeps)
      ensures open ==>
        && |next| == n && next[..|log|] == log
        && next[|log|].before == Store(old(hashes), old(w.requests), old(w.files))
        && next[|log|].after == Store(hashes, w.requests, w.files)
        && next[|log|].checked == old(w.readings) && next[|log|].result == r
        && old(w.readings) < next[|log|].woke
        && w.readings == next[|log|].woke + (if r.Ok? then 3 else 2)
      ensures open ==> paced == next[|log|].woke + 1
      ensures open ==> waited == old(w.sleeps) + Seconds(paced - old(w.readings) - 2)
      ensures open && r.Err? ==> w.sleeps == waited
      ensures open && r.Ok? ==> duration.Ok?
      ensures open && r.Ok? ==> w.sleeps == waited + Pause(SleepTime(duration.value, w.Time(paced + 1) - w.Time(paced)))
      ensures Chain(PollSteps(w.net, Settings()), w.clock, start, end, next, s0, Store(hashes, w.requests, w.files))
      ensures w.Monotone() && start > end && |log| > 0 ==> !open
    {
      ghost var checked := w.readings;
      ghost var before := Store(hashes, w.requests, w.files);
      if |log| > 0 && w.Monotone() {
        ChainWindow(PollSteps(w.net, Settings()), w.clock, start, end, log, s0, before);
        assert w.Time(log[|log| - 1].woke) <= w.Time(checked);
      }
      open := CheckTime(w);
      paced, waited := w.readings, w.sleeps;
      ghost var woke := paced - 1;
      r, next, duration := Ok(()), log, Ok(0.0);
      if open {
        r, next, duration := LoggedPoll(w, n, log, s0, checked, paced);
      }
    }

    /**
     * `record_m3u8()`: poll with n = 1, 2, ... while `_check_time()` says
     * the window is open, for at most `maxPolls` polls. `log` records the
     * polls made; the run is the chain of `PollStep`s it records.
     */
    method RecordM3u8(w: World, maxPolls: nat) returns (count: nat, stop: Stop, ghost log: seq<PollRecord>)
      requires Valid()
      requires forall j: nat :: w.WaitEnds(start, end, j)
      modifies this`hashes, w`requests, w`files, w`readings, w`sleeps
      ensures Valid()
      ensures count <= maxPolls && |log| == count
      ensures Chain(PollSteps(w.net, Settings()), w.clock, start, end, log,
                    Store(old(hashes), old(w.requests), old(w.files)), Store(hashes, w.requests, w.files))
      ensures count > 0 ==> log[0].checked == old(w.readings)
      ensures stop == PollLimit ==>
        && count == maxPolls && (count == 0 || log[count - 1].result.Ok?)
        && w.readings == (if count == 0 then old(w.readings) else log[count - 1].woke + 3)
      ensures stop == WindowClosed ==>
        && old(w.readings) < w.readings && w.Time(w.readings - 1) > end
        && (count == 0 || log[count - 1].result.Ok?)
        && w.readings == 1 + (if count == 0 then old(w.readings) else log[count - 1].woke + 3)
      ensures stop.Failed? ==> count >= 1 && log[count - 1].result == Err(stop.error) && w.readings == log[count - 1].woke + 2
      ensures maxPolls > 0 && w.Time(old(w.readings)) <= end ==> count >= 1
      ensures maxPolls > 0 && w.Time(old(w.readings)) > end ==>
        count == 0 && stop == WindowClosed && w.readings == old(w.readings) + 1
      ensures w.Monotone() && start > end ==> count <= 1
    {
      var n := 1;
      count := 0;
      log := [];
      ghost var s0 := Store(hashes, w.requests, w.files);
      while true
        invariant n == count + 1 && count <= maxPolls && |log| == count
        invariant Valid()
        invariant Chain(PollSteps(w.net, Settings()), w.clock, start, end, log, s0, Store(hashes, w.requests, w.files))
        invariant old(w.readings) <= w.readings
        invariant count == 0 ==> w.readings == old(w.readings)
        invariant count > 0 ==>
          && log[0].checked == old(w.readings) && w.Time(old(w.readings)) <= end
          && w.readings == log[count - 1].woke + 3 && log[count - 1].result.Ok?
        invariant w.Monotone() && start > end ==> count <= 1
        decreases maxPolls - count
      {
        if count == maxPolls {
          stop := PollLimit;
          break;
        }
        ghost var checked := w.readings;
        assert old(w.readings) <= checked;
        assert w.WaitEnds(start, end, checked);
        var open, r;
        ghost var paced, waited, duration;
        open, r, log, paced, waited, duration := Round(w, n, log, s0);
        if !open {
          assert old(w.readings) <= checked == w.readings - 1;
          stop := WindowClosed;
          break;
        }
        count := n;
        if r.Err? {
          stop := Failed(r.error);
          break;
        }
        n := n + 1;
      }
    }
  }
}
