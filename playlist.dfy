/**
 * PlaylistParser: the host base of the playlist URL, the `#EXT-X-` tag map
 * (`_EXTX.findall` fed to `dict`) and the segment lines (`_read_m3u8`).
 */
module Playlist {
  import opened Base
  import opened Text

  // ---------------------------------------------------------------------
  // Host base: '/'.join(url.split('/')[0:-1]) or ''
  // ---------------------------------------------------------------------

  /** The playlist URL without its last `/`-component. */
  function Host(url: string): string
  {
    var parts := Split(url, '/');
    Join(parts[..|parts| - 1], '/')
  }

  /** The last `/`-component of the URL. */
  function LastComponent(url: string): string
  {
    var parts := Split(url, '/');
    parts[|parts| - 1]
  }

  /**
   * Without a `/` the host is empty; with one, it is everything before the
   * last `/`, so that host + "/" + last component rebuilds the URL.
   */
  lemma HostSpec(url: string)
    ensures '/' !in url ==> Host(url) == ""
    ensures '/' in url ==> Host(url) + "/" + LastComponent(url) == url
    ensures '/' !in LastComponent(url)
  {
    var parts := Split(url, '/');
    if '/' in url {
      var init := parts[..|parts| - 1];
      JoinSnoc(init, LastComponent(url), '/');
      assert init + [LastComponent(url)] == parts;
      JoinSplit(url, '/');
    }
  }

  // ---------------------------------------------------------------------
  // Tags: the regex #EXT-X-(.+):(.+) applied to one line
  // ---------------------------------------------------------------------

  const Marker: string := "#EXT-X-"

  /** The marker `#EXT-X-` starts at position `p` of `line`. */
  predicate MarkerAt(line: string, p: nat)
  {
    p + |Marker| <= |line| && line[p..p + |Marker|] == Marker
  }

  /**
   * The regex matches `line` with the marker at `p` and the separating
   * colon at `q`: a non-empty name between them and a non-empty value after.
   */
  predicate MatchesAt(line: string, p: nat, q: nat)
  {
    MarkerAt(line, p) && p + |Marker| < q && q + 1 < |line| && line[q] == ':'
  }

  /** The leftmost marker at or after `from`. */
  function FindMarker(line: string, from: nat): (r: Option<nat>)
    ensures r.Some? ==> from <= r.value && MarkerAt(line, r.value)
    ensures forall p :: from <= p && (r.None? || p < r.value) ==> !MarkerAt(line, p)
    decreases |line| - from
  {
    if from + |Marker| > |line| then None
    else if line[from..from + |Marker|] == Marker then Some(from)
    else FindMarker(line, from + 1)
  }

  /** The rightmost colon in `line[lo..hi+1]`. */
  function LastColon(line: string, lo: nat, hi: int): (r: Option<nat>)
    requires hi < |line|
    ensures r.Some? ==> lo <= r.value <= hi && line[r.value] == ':'
    ensures forall q :: lo <= q <= hi && (r.None? || r.value < q) ==> line[q] != ':'
    decreases hi - lo
  {
    if hi < lo then None
    else if line[hi] == ':' then Some(hi)
    else LastColon(line, lo, hi - 1)
  }

  /**
   * The (name, value) pair the regex finds in one line, if any: the leftmost
   * marker, and the greedy name running up to the last colon that still has
   * a character after it.
   */
  function LineTag(line: string): Option<(string, string)>
  {
    match FindMarker(line, 0)
    case None => None
    case Some(p) =>
      match LastColon(line, p + |Marker| + 1, |line| - 2)
      case None => None
      case Some(q) => Some((line[p + |Marker|..q], line[q + 1..]))
  }

  /**
   * LineTag is the leftmost-greedy match: when it finds a pair, it comes
   * from the leftmost match position and, there, the rightmost colon; when
   * it finds nothing, the regex matches nowhere on the line.
   */
  lemma LineTagIsLeftmostGreedyMatch(line: string)
    ensures LineTag(line).Some? ==>
      exists p: nat, q: nat :: MatchesAt(line, p, q)
        && LineTag(line).value == (line[p + |Marker|..q], line[q + 1..])
        && (forall p': nat, q': nat :: MatchesAt(line, p', q') ==> p <= p' && (p' == p ==> q' <= q))
    ensures LineTag(line).None? ==> forall p: nat, q: nat :: !MatchesAt(line, p, q)
  {
    match FindMarker(line, 0)
    case None =>
    case Some(p) =>
      var r := LastColon(line, p + |Marker| + 1, |line| - 2);
      match r
      case None =>
        forall p': nat, q': nat | MatchesAt(line, p', q') ensures false {
        }
      case Some(q) =>
        assert MatchesAt(line, p, q);
        forall p': nat, q': nat | MatchesAt(line, p', q') ensures p <= p' && (p' == p ==> q' <= q) {
        }
  }

  /** `line` carries a tag called `name`. */
  predicate TagLineOf(line: string, name: string)
  {
    LineTag(line).Some? && LineTag(line).value.0 == name
  }

  /** dict(findall(...)): each matched pair, in order, overwrites the previous value. */
  function TagMap(lines: seq<string>): map<string, string>
    decreases |lines|
  {
    if lines == [] then map[]
    else
      var m := TagMap(lines[..|lines| - 1]);
      match LineTag(lines[|lines| - 1])
      case None => m
      case Some(t) => m[t.0 := t.1]
  }

  /** The tag map of a playlist text. */
  function Tags(text: string): map<string, string>
  {
    TagMap(Lines(text))
  }

  /** One entry per distinct tag name: a name is a key iff some line carries it. */
  lemma {:induction false} TagMapKeys(lines: seq<string>, name: string)
    ensures name in TagMap(lines) <==> exists i :: 0 <= i < |lines| && TagLineOf(lines[i], name)
    decreases |lines|
  {
    if lines != [] {
      var init := lines[..|lines| - 1];
      TagMapKeys(init, name);
      if exists i :: 0 <= i < |lines| && TagLineOf(lines[i], name) {
        var i :| 0 <= i < |lines| && TagLineOf(lines[i], name);
        if i < |lines| - 1 {
          assert TagLineOf(init[i], name);
        }
      }
      if exists i :: 0 <= i < |init| && TagLineOf(init[i], name) {
        var i :| 0 <= i < |init| && TagLineOf(init[i], name);
        assert TagLineOf(lines[i], name);
      }
    }
  }

  /** Line `i` is the last of `lines` carrying a tag called `name`. */
  predicate LastCarrier(lines: seq<string>, name: string, i: nat)
  {
    i < |lines| && TagLineOf(lines[i], name) && forall j :: i < j < |lines| ==> !TagLineOf(lines[j], name)
  }

  /** A last line that does not carry `name` leaves its entry as it was. */
  lemma TagMapSkip(lines: seq<string>, name: string)
    requires lines != [] && !TagLineOf(lines[|lines| - 1], name)
    ensures var init := lines[..|lines| - 1];
      && (name in TagMap(lines) <==> name in TagMap(init))
      && (name in TagMap(init) ==> TagMap(lines)[name] == TagMap(init)[name])
  {
  }

  /** A last line that does not carry `name` keeps the last carrier of the lines before it. */
  lemma LastCarrierExtend(lines: seq<string>, name: string, i: nat)
    requires lines != [] && !TagLineOf(lines[|lines| - 1], name)
    requires LastCarrier(lines[..|lines| - 1], name, i)
    ensures LastCarrier(lines, name, i) && lines[i] == lines[..|lines| - 1][i]
  {
  }

  /** The last line carrying a name decides its value. */
  lemma {:induction false} TagMapLastWins(lines: seq<string>, name: string)
    requires name in TagMap(lines)
    ensures exists i: nat :: LastCarrier(lines, name, i) && TagMap(lines)[name] == LineTag(lines[i]).value.1
    decreases |lines|
  {
    var last := |lines| - 1;
    var init := lines[..last];
    if TagLineOf(lines[last], name) {
      assert LastCarrier(lines, name, last);
    } else {
      TagMapSkip(lines, name);
      TagMapLastWins(init, name);
      var i: nat :| LastCarrier(init, name, i) && TagMap(init)[name] == LineTag(init[i]).value.1;
      LastCarrierExtend(lines, name, i);
    }
  }

  /** A line without a match leaves the tag map as it is, wherever it stands. */
  lemma {:induction false} NonTagLineIgnored(before: seq<string>, line: string, after: seq<string>)
    requires LineTag(line).None?
    ensures TagMap(before + [line] + after) == TagMap(before + after)
    decreases |after|
  {
    if after == [] {
      assert (before + [line])[..|before|] == before;
      assert before + [line] + after == before + [line];
      assert before + after == before;
    } else {
      var a := after[..|after| - 1];
      var x := after[|after| - 1];
      NonTagLineIgnored(before, line, a);
      assert (before + [line] + after)[..|before + [line] + after| - 1] == before + [line] + a;
      assert (before + after)[..|before + after| - 1] == before + a;
      assert (before + [line] + after)[|before + [line] + after| - 1] == x;
      assert (before + after)[|before + after| - 1] == x;
    }
  }

  // ---------------------------------------------------------------------
  // Segments: text.splitlines()[2 + len(extx):][::2], rewritten
  // ---------------------------------------------------------------------

  /** Python's `s[k:]`: empty when `k` is past the end. */
  function Drop(s: seq<string>, k: nat): seq<string>
  {
    if k >= |s| then [] else s[k..]
  }

  /** Python's `s[::2]`: elements 0, 2, 4, ... in order. */
  function EveryOther(s: seq<string>): (r: seq<string>)
    ensures |r| == (|s| + 1) / 2
    ensures forall i :: 0 <= i < |r| ==> r[i] == s[2 * i]
    decreases |s|
  {
    if |s| == 0 then []
    else if |s| == 1 then [s[0]]
    else [s[0]] + EveryOther(s[2..])
  }

  /** `part[0:4] == 'http'`. */
  predicate SlicedHttp(part: string)
  {
    (if |part| < 4 then part else part[..4]) == "http"
  }

  /** The generator's rewrite, as written: `http`-prefixed parts get the host in front. */
  function Rewrite(host: string, part: string): string
  {
    if !SlicedHttp(part) then part else host + "/" + part
  }

  /** The rewritten lines k, k+2, k+4, ... of `lines`. */
  function Parts(host: string, lines: seq<string>, k: nat): seq<string>
  {
    var picked := EveryOther(Drop(lines, k));
    seq(|picked|, i requires 0 <= i < |picked| => Rewrite(host, picked[i]))
  }

  /** `_read_m3u8(text, extx)`, with the lazy generator taken as a sequence. */
  function ReadM3u8(host: string, text: string, extx: map<string, string>): seq<string>
  {
    Parts(host, Lines(text), 2 + |extx|)
  }

  /** The line starts with the four characters `http`. */
  predicate StartsWithHttp(s: string)
  {
    |s| >= 4 && s[0] == 'h' && s[1] == 't' && s[2] == 't' && s[3] == 'p'
  }

  /**
   * With k = 2 + |extx| header lines and L lines in all, the parts are lines
   * k, k+2, k+4, ... in order (none when L <= k); a line starting with
   * `http` becomes host + "/" + line, any other line is kept unchanged.
   */
  lemma ReadM3u8Spec(host: string, text: string, extx: map<string, string>)
    ensures var lines, k := Lines(text), 2 + |extx|;
      var r := ReadM3u8(host, text, extx);
      && |r| == (if |lines| <= k then 0 else (|lines| - k + 1) / 2)
      && forall i :: 0 <= i < |r| ==>
           k + 2 * i < |lines|
           && r[i] == (if StartsWithHttp(lines[k + 2 * i]) then host + "/" + lines[k + 2 * i] else lines[k + 2 * i])
  {
    PartsSpec(host, Lines(text), 2 + |extx|);
  }

  /** `Parts` on any sequence of lines, with the header size `k`. */
  lemma PartsSpec(host: string, lines: seq<string>, k: nat)
    ensures var r := Parts(host, lines, k);
      && |r| == (if |lines| <= k then 0 else (|lines| - k + 1) / 2)
      && forall i :: 0 <= i < |r| ==>
           k + 2 * i < |lines|
           && r[i] == (if StartsWithHttp(lines[k + 2 * i]) then host + "/" + lines[k + 2 * i] else lines[k + 2 * i])
  {
    var r := Parts(host, lines, k);
    var dropped := Drop(lines, k);
    var picked := EveryOther(dropped);
    assert |r| == (|dropped| + 1) / 2;
    if |lines| <= k {
      assert |dropped| == 0;
    } else {
      assert |dropped| == |lines| - k;
    }
    forall i | 0 <= i < |r|
      ensures k + 2 * i < |lines|
      ensures r[i] == (if StartsWithHttp(lines[k + 2 * i]) then host + "/" + lines[k + 2 * i] else lines[k + 2 * i])
    {
      assert picked[i] == dropped[2 * i];
      assert dropped[2 * i] == lines[k + 2 * i];
      SlicedHttpIff(lines[k + 2 * i]);
    }
  }

  /** The slice test `part[0:4] == 'http'` holds exactly for parts starting with `http`. */
  lemma SlicedHttpIff(part: string)
    ensures SlicedHttp(part) <==> StartsWithHttp(part)
  {
    if |part| >= 4 {
      assert part[..4] == [part[0], part[1], part[2], part[3]];
    }
  }

  /**
   * A six-line playlist with two distinct tags has a header of four lines:
   * its single part is line 4, and line 2 is skipped although it follows
   * the tag lines.
   */
  lemma TwoTagsSixLines(host: string, text: string)
    requires |Lines(text)| == 6 && |Tags(text)| == 2
    ensures var line := Lines(text)[4];
      ReadM3u8(host, text, Tags(text)) == [if StartsWithHttp(line) then host + "/" + line else line]
  {
    ReadM3u8Spec(host, text, Tags(text));
  }

  /** The segment part count of a text with tag map `extx`. */
  lemma SegmentCountFromTags(host: string, text: string)
    ensures var k := 2 + |Tags(text)|;
      |ReadM3u8(host, text, Tags(text))| == (if |Lines(text)| <= k then 0 else (|Lines(text)| - k + 1) / 2)
  {
    ReadM3u8Spec(host, text, Tags(text));
  }
}
