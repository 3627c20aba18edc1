# IPTVRecorder HLS polling core, in Dafny

This project models the HLS (HTTP Live Streaming) recording loop of the
Python class `IPTVRecorder` (`iptv_recorder/__init__.py`) and proves
properties of that model. One recording polls the playlist URL again and
again while the recording window is open. Each poll does the following:

- it fetches the playlist text, retrying each GET up to `retry_count` more times;
- it extracts the `#EXT-X-NAME:VALUE` tags into a dictionary;
- it takes every second line after a header of `2 + len(tags)` lines as a segment part;
- it downloads each part, writing its bytes to `NNNNN_PPP.ts` unless a part with the same fingerprint was already written in the current epoch of the dedup set (when a new fingerprint arrives and the set already holds more than `max_hashes`, the set is cleared before it is added, so it can reach `max_hashes + 1`);
- it sleeps for the rest of `TARGETDURATION + 1` seconds.

The model covers the sequential path (`use_threads=False`).

Modules, in the order the program uses them:

- `Text` (text.dfy): `str.split`, `'/'.join`, and `splitlines` for `\n` line breaks.
- `Playlist` (playlist.dfy):
  - the host base `'/'.join(url.split('/')[0:-1])`;
  - the regex `#EXT-X-(.+):(.+)`, one line at a time, as a leftmost-greedy match;
  - `dict(findall(...))` as a map folded over the lines;
  - `_read_m3u8` as a sequence.
- `DedupCache` (dedup.dfy): one step of the fingerprint set, `Admit`, as a pure function, and the lemmas about runs of steps.
- `Fetcher` (fetcher.dfy):
  - `Try` is the `_try_request` loop, stated as a function of the attempt outcomes;
  - `Fetch` is `_request` followed by the dereference both callers do.
- `Naming` (naming.dfy): the file name `f'{n:0>5}_{part_n:0>3}.ts'` and its inverse.
- `Io` (io.dfy): the environment, class `World`.
  - The clock is an oracle of reading values, and `datetime.now()` takes the next one.
  - The transport is an oracle that gives the outcome of the i-th GET for a URL.
  - `sleep` calls and file writes are appended to ghost logs.
- `Recorder` (recorder.dfy): class `IPTVRecorder`.
  - Its fields are the constructor's settings and the mutable `_hashes` set.
  - A `Store` holds what a poll changes: the fingerprint set, the GETs issued so far and the files written so far. Pure functions over it state each step: `Step` is one `_download`, `RunJobs` the loop over a poll's parts, `PollStep` one `_record_m3u8` call.
  - A run of `record_m3u8` is a `Chain` of `PollRecord`s. Each record holds a poll's number, the clock reading its window check took, the reading that ended its wait for `start`, the store before and after it, and its result. A later poll's window check is the third reading after the previous poll's wait ended: that poll took one reading at its start and one when it paced.
  - Its methods follow the Python methods. Each one states its new state through these functions.

Errors are values. An attribute access on `None` (`NoResponse`, `EmptyContent`) or a `float` that fails on the TARGETDURATION tag (`BadTargetDuration`) ends the call that raised it. In the sequential path, such an exception propagates out of `record_m3u8` and ends the recording (`Stop.Failed`).

## Where the code and its design notes differ

The model follows the code in each of these cases.

- **Absolute segment URIs.** The design notes say absolute (`http...`) URIs are used unchanged. In the code:
  - `_read_m3u8` (line 64) puts `host/` in front of parts that start with `http`;
  - `_record_m3u8` (lines 86 and 88) then puts `host/` in front of every part.

  As a result, a relative line is fetched as `host/line` and an absolute one as `host/host/line` (`PollDownloads`, `ReadM3u8Spec`).
- **Failed fetches.** The design notes say a fetch whose retries are spent is a routine missing segment. In the code, `_try_request` returns `None`, and `_request` then reads `.content` of `None` (line 45), which raises. Sequentially, that ends the recording.
- **Empty bodies and `save_if_empty`.** The design notes say `save_if_empty` governs empty bodies. In the code, `_request` returns `None` for an empty body, so `_download` raises at line 51 and `_read_url` raises at line 41. A written file is therefore never empty, and `save_if_empty` is never read (`Fetch`, `Download`).
- **Window with start after end.** The design notes say such a window gives zero polls. In the code, `_check_time` first compares with `end` and only then waits for `start`. So the first call returns True whenever the first reading is not past `end`, and then one poll runs. With a clock that never goes backwards, at most one poll runs (`RecordM3u8`).
- **The worked example.** The design notes have a worked example: a playlist of two tag lines followed by `seg1, data, seg2, data`, said to yield `seg1` and `seg2`. The code skips a header of 2 + 2 = 4 lines, so only `seg2` is a part (`TwoTagsSixLines`).

## Model

| member | source | states |
|---|---|---|
| Text.JoinSplit | iptv_recorder/__init__.py:27 | joining the pieces of a split with the same separator gives back the string, which the host computation relies on |
| Text.LinesJoin | iptv_recorder/__init__.py:65 | the lines are the `\n`-separated pieces of the text with no empty piece after a final newline: joining them with `\n`, plus `\n` when the text ends with one, gives back the text; only the empty text has no lines, so `"\n"` gives `[""]` |
| Playlist.HostSpec | iptv_recorder/__init__.py:27 | the host is `""` when the URL has no `/`; otherwise host + `/` + last component rebuilds the URL, and the last component holds no `/` |
| Playlist.FindMarker | iptv_recorder/__init__.py:12 | the result is the leftmost position at or after `from` where `#EXT-X-` starts, or None when there is none |
| Playlist.LastColon | iptv_recorder/__init__.py:12 | the result is the rightmost colon in the range, or None when the range holds none |
| Playlist.LineTagIsLeftmostGreedyMatch | iptv_recorder/__init__.py:12 | a found pair comes from a regex match at the leftmost match position, split at the rightmost colon there; when nothing is found, no match exists on the line at all |
| Playlist.TagMapKeys | iptv_recorder/__init__.py:67-68 | a name is a key of the tag dictionary iff some line carries that tag |
| Playlist.TagMapLastWins | iptv_recorder/__init__.py:67-68 | the value of a key is the value of the last line carrying that tag, and no later line carries it |
| Playlist.NonTagLineIgnored | iptv_recorder/__init__.py:67-68 | inserting a line without a match anywhere leaves the tag dictionary unchanged |
| Playlist.EveryOther | iptv_recorder/__init__.py:65 | `[::2]` has (length+1)/2 elements, element i being element 2i of the input |
| Playlist.PartsSpec | iptv_recorder/__init__.py:63-65 | for header size k the parts are lines k, k+2, ... (none when there are at most k lines); an `http` line gets `host/` in front, any other is kept |
| Playlist.ReadM3u8Spec | iptv_recorder/__init__.py:63-65 | the same for `_read_m3u8(text, extx)`, with k = 2 + number of tags, over the lines of the text |
| Playlist.SegmentCountFromTags | iptv_recorder/__init__.py:65 | the number of parts of a playlist follows from its line count and its number of distinct tags |
| Playlist.TwoTagsSixLines | iptv_recorder/__init__.py:65 | six lines with two distinct tags yield exactly one part, made from line 4; line 2 is skipped |
| DedupCache.AdmitKeepsBound | iptv_recorder/__init__.py:53-59 | one step keeps the set at most `max_hashes + 1` large, and the new fingerprint is in the set afterwards |
| DedupCache.AdmitAllAppend | iptv_recorder/__init__.py:53-59 | the steps over `a + b` are the steps over `a` followed by the steps over `b` from the set `a` left; the fingerprints written are those of `a`, then those of `b` |
| DedupCache.AdmitAllKeepsBound | iptv_recorder/__init__.py:53-59 | any run of steps keeps the set within the same bound |
| DedupCache.EpochSet | iptv_recorder/__init__.py:54-59 | within one epoch (no clear) the set ends as the old set plus every fingerprint seen |
| DedupCache.EpochWritesOnce | iptv_recorder/__init__.py:54-61 | within one epoch no fingerprint is written twice, each written one was not in the set before, and every fingerprint seen that was not in the set is written |
| DedupCache.FillWithoutClear | iptv_recorder/__init__.py:56-59 | distinct new fingerprints that fit under the bound are all admitted without a clear, and the set grows by one each |
| DedupCache.FillThenClear | iptv_recorder/__init__.py:56-59 | from an empty set, `max_hashes + 1` distinct fingerprints fit in one epoch; the next new one clears the set, which then holds only itself, and is written |
| Fetcher.Try | iptv_recorder/__init__.py:94-107 | every attempt before the last raised; the result is the last attempt's response iff it succeeded; None comes only after `retry_count + 1` attempts (at least 1) |
| Fetcher.AllFailures | iptv_recorder/__init__.py:98-107 | when every GET raises, exactly `retry_count + 1` attempts are made and None is returned |
| Fetcher.FirstSuccess | iptv_recorder/__init__.py:98-101 | the first success within the budget ends the loop and its response is returned |
| Fetcher.Fetch | iptv_recorder/__init__.py:43-47 | a returned response has a non-empty body; errors are NoResponse (iff the retries ran out) or EmptyContent |
| Fetcher.FetchOutcomes | iptv_recorder/__init__.py:43-47 | all attempts failing gives NoResponse; otherwise the first success is returned, or EmptyContent when its body is empty |
| Naming.PadLeftSpec | iptv_recorder/__init__.py:84 | `0>w` padding yields max(len, w) digits that end with the original and denote the same number |
| Naming.ParseFileName | iptv_recorder/__init__.py:84 | the file name of (n, part_n) reads back as (n, part_n) |
| Naming.FileNameInjective | iptv_recorder/__init__.py:84 | two (poll, part) pairs give the same file name iff they are equal |
| Naming.FileNameLength | iptv_recorder/__init__.py:84 | for a poll number below 100000 and a part number below 1000 the name has 12 characters |
| Recorder.PollDownloads | iptv_recorder/__init__.py:83-88 | download i of poll n fetches `host/` + (line k+2i, with `host/` in front when it starts with `http`) and saves it as FileName(n, i+1) |
| Recorder.PacingSpec | iptv_recorder/__init__.py:90-92 | the poll sleeps iff it took less than TARGETDURATION + 1 seconds, and then for exactly the remainder |
| Recorder.RunJobsDedup | iptv_recorder/__init__.py:53-61 | the downloads of a poll take the set through `AdmitAll` over the fingerprints of the contents fetched, in order; the files they write come after the old ones and are, in order, the contents `AdmitAll` reports written |
| Recorder.PollWritesNewOnce | iptv_recorder/__init__.py:53-61 | when no download of the poll clears the set, each fingerprint fetched that was not in the set is written exactly once and nothing else is written |
| Recorder.RunJobsFetches | iptv_recorder/__init__.py:83-89 | the downloads that fetched are the first ones, all of them iff none raised; a raise is NoResponse or EmptyContent; every body fetched is non-empty; the GETs are only appended, between 1 and `retry_count + 1` per download issued |
| Recorder.RunJobsNames | iptv_recorder/__init__.py:83-89 | when every job is named for poll n, the old files stay and every file written is named for poll n and non-empty |
| Recorder.PollStepSpec | iptv_recorder/__init__.py:77-92 | a poll first issues the playlist GETs; a failed playlist fetch changes neither the set nor the files and raises; files are only appended, each named for poll n and non-empty; the only errors are NoResponse, EmptyContent and BadTargetDuration |
| Recorder.PollStepDedup | iptv_recorder/__init__.py:77-92 | a poll only appends files; it takes the set through `AdmitAll` over the fingerprints it fetched, in order, and the files it appends are, in order, the ones `AdmitAll` reports written; a failed playlist fetch fetches none |
| Recorder.ChainSnoc | iptv_recorder/__init__.py:113-115 | a run extends by poll number `len + 1` when the poll starts from the run's last store after a successful last poll, its window check is the third reading after the last poll's wait ended and is not past `end`, and its wait ended at the first later reading at or after `start` |
| Recorder.ChainStep | iptv_recorder/__init__.py:113-115 | every poll of a run, the last one included, did `PollStep` for its number on the store the poll before it left (on the initial store for the first) |
| Recorder.LastPollFiles | iptv_recorder/__init__.py:109-111 | the last poll of a run only appends files, each non-empty and named for that poll's number |
| Recorder.ChainFiles | iptv_recorder/__init__.py:109-115 | a run of polls only appends files, and each file it writes is non-empty and named for one of its polls |
| Recorder.LastPollDedup | iptv_recorder/__init__.py:109-115 | the last poll of a run takes the set through `AdmitAll` over the fingerprints it fetched and appends, in order, the files `AdmitAll` reports written |
| Recorder.ChainDedup | iptv_recorder/__init__.py:109-115 | the set carries over from poll to poll: a whole run takes the initial set through `AdmitAll` over all the fingerprints it fetched, poll after poll, and the files it writes are, in order, those `AdmitAll` reports written, so a segment listed again by a later poll is not written again while its fingerprint stays in the set |
| Recorder.ChainWritesNewOnce | iptv_recorder/__init__.py:109-115 | when no download of the run clears the set, every fingerprint fetched over the run that was not in the initial set is written exactly once, and nothing else is written |
| Recorder.ChainWindow | iptv_recorder/__init__.py:70-75 | every poll of a run began after a window check not past `end` and a wait that ended at a reading at or after `start` |
| Recorder.ChainLaterChecks | iptv_recorder/__init__.py:70-75 | with a clock that never goes backwards, every window check after the first poll reads at least `start` |
| Recorder.ChainStartAfterEnd | iptv_recorder/__init__.py:70-75 | with `start` after `end` and a clock that never goes backwards, a run holds at most one poll |
| Recorder.IPTVRecorder.constructor | iptv_recorder/__init__.py:14-33 | settings stored as given, `host` is the URL's host base, and `_hashes` starts empty |
| Recorder.IPTVRecorder.TryRequest | iptv_recorder/__init__.py:94-107 | the loop returns `Try`'s result and issues exactly `Try`'s number of GETs, all for the same URL |
| Recorder.IPTVRecorder.Request | iptv_recorder/__init__.py:43-47 | None for an empty body, the response for a non-empty one, and an error when `_try_request` gave None |
| Recorder.IPTVRecorder.ReadUrl | iptv_recorder/__init__.py:40-41 | the result is the text of the fetched response, or the error of the fetch |
| Recorder.IPTVRecorder.Download | iptv_recorder/__init__.py:49-61 | a failed fetch changes neither the set nor the files; otherwise the set takes one `Admit` step, and the content is written under the given name exactly when its fingerprint was new; the new set, GETs and files are those of `Step`, and it raises iff `Step` does |
| Recorder.IPTVRecorder.CheckTime | iptv_recorder/__init__.py:70-75 | true iff the first reading is not past `end`; when true it has slept one second per reading below `start` and stopped at the first reading at or after `start` |
| Recorder.IPTVRecorder.DownloadParts | iptv_recorder/__init__.py:82-89 | the new set, GETs and files are those `RunJobs` gives for the poll's jobs in order, and the loop raises with the error of the download that raised, if one did |
| Recorder.IPTVRecorder.Pace | iptv_recorder/__init__.py:90-92 | one clock reading, and one sleep of TARGETDURATION + 1 - elapsed when that is positive |
| Recorder.IPTVRecorder.ProcessPlaylist | iptv_recorder/__init__.py:81-92 | the jobs are the playlist's parts named for poll n, and the new store is `RunJobs`' over them; it raises with a download's error, else with a bad TARGETDURATION; on success one more reading and the pacing sleep, on a raise neither |
| Recorder.IPTVRecorder.RecordPoll | iptv_recorder/__init__.py:77-92 | the new store and result are `PollStep`'s, so the playlist GETs come first; a failed playlist fetch takes one reading and no sleep; otherwise the jobs and duration are those of the fetched text, and the duration is `PollDuration` of the old store; on a raise no sleep; on success the poll takes two readings and sleeps once for the target duration plus one second minus the time between them, when that is positive |
| Recorder.IPTVRecorder.LoggedPoll | iptv_recorder/__init__.py:113-114 | `RecordPoll`, with the poll appended to the run as a record of the given window check, the wait that ended at the reading before the poll, the old and new store and the result; the run stays a `Chain`; one reading on a raise and two on success; no sleep on a raise, and on success the pacing sleep for the target duration `duration`, which is `PollDuration` of the old store |
| Recorder.IPTVRecorder.Round | iptv_recorder/__init__.py:113-114 | the window check, then poll n exactly when it says open; the poll is appended to the run with its readings, the old store as its `before` and the new store and result as its `after` and `result`, so by `Chain` (see `ChainStep`) the new store and result are `PollStep`'s; the clock readings end 2 (raise) or 3 (success) after the one that ended the wait, and the sleeps are the old ones, then one second per reading of the wait below `start`, then, on success, the pacing sleep for the target duration it returns; a closed window changes nothing but one reading, and sleeps nothing; with `start` after `end` and a clock that never goes backwards, no second poll runs |
| Recorder.IPTVRecorder.RecordM3u8 | iptv_recorder/__init__.py:109-115 | the run is a chain of polls 1..count from the old store to the new one; it stops at the poll bound after successful polls, at a closed window on the reading past `end` that follows the last poll's pacing reading (the first reading when no poll ran), or on the error of the last poll; a first reading not past `end` gives at least one poll, one past `end` none; with `start` after `end` and a clock that never goes backwards, at most one poll |

## Left out

- `record` (lines 117-129) is not part of this model. It records a raw stream over one connection.
- `_mkdirs` (lines 35-38) and the directory path are not modelled. Files are identified by name only. Its `datetime.now()` reading (line 36) is not taken, so the model's first clock reading is the program's second.
- The threaded path (`use_threads=True`, line 86, the default) is not modelled. Concurrent `_download` calls and exceptions confined to a thread are outside it; only the sequential call at line 88 is modelled.
- The HTTP transport is not modelled. `httpx.Client()` (line 78) and the transport internals are replaced by the `World.net` oracle, which gives the outcome of the i-th GET.
- Python's `hash` is the injected `fingerprint` function. As in the source, two contents with equal fingerprints count as one.
- `float` is the injected `parseFloat`. It gives None where `float` raises ValueError; `extx.get('TARGETDURATION', 0)` without the tag gives 0.0. Its values are exact reals, so it cannot give `nan` or `inf`. With `float('nan')` the sleep time is NaN, which fails `> 0.` so no sleep happens; with `float('inf')`, `sleep` raises OverflowError. Rounding of floating-point arithmetic is not modelled either.
- `datetime.now`, `sleep` and `timedelta.total_seconds` are replaced as follows:
  - `now` is the next value of the clock oracle, in seconds;
  - `sleep` appends its argument to a ghost log;
  - elapsed time is the difference of two readings.
- The regex engine is not modelled. `#EXT-X-(.+):(.+)` is modelled as a match within one line.
- `splitlines` is modelled for `\n` only. Texts with other line boundaries (`\r`, `\r\n`, `\x0b`, `\x0c`, `\x1c`-`\x1e`, `\x85`, `\u2028`, `\u2029`) are not covered.
- The fields `name`, `path` and `_sleep` are not modelled; no core method reads them. `use_thr` is fixed to the sequential path.
- `save_if_empty` is stored but has no effect, because the branch at line 51 that reads it cannot be reached.
- Recorder.IPTVRecorder.CheckTime: requires, when the first reading is not past `end`, that some later reading reaches `start`. Without one the source sleeps forever, which a terminating method cannot express. `Round` requires the same.
- Recorder.IPTVRecorder.Round: returns the target duration its pacing sleep used as a ghost result without restating that it is `PollDuration` of the old store, which `RecordPoll` states; restating it here made the proofs of `Round` and `RecordM3u8` too costly.
- Recorder.IPTVRecorder.RecordM3u8: requires the same of every reading at which a window check could start.
- Recorder.IPTVRecorder.RecordM3u8: takes a bound `maxPolls` on the number of polls and stops with `PollLimit` when it is reached. With the default `end = datetime.max` the window check of the source never closes, and only a poll that raises ends the loop.
- Recorder.IPTVRecorder.RecordM3u8: the run states each poll's store, result and window-check readings. The sleeps of each poll are stated by `RecordPoll` and `CheckTime` for one call and are not collected over the run.
