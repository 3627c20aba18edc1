/**
 * The string operations the recorder relies on: `str.split(sep)`,
 * `sep.join(parts)` and `str.splitlines()` (for `\n`-separated text).
 */
module Text {

  /** Index of the first occurrence of `c` in `s`. */
  function IndexOf(s: string, c: char): (i: nat)
    requires c in s
    ensures i < |s| && s[i] == c && c !in s[..i]
  {
    if s[0] == c then 0 else 1 + IndexOf(s[1..], c)
  }

  /** `s.split(sep)`: the maximal pieces of `s` that do not contain `sep`. */
  function Split(s: string, sep: char): (parts: seq<string>)
    ensures |parts| >= 1
    ensures forall i :: 0 <= i < |parts| ==> sep !in parts[i]
    ensures |parts| == 1 <==> sep !in s
    decreases |s|
  {
    if sep !in s then [s]
    else
      var i := IndexOf(s, sep);
      [s[..i]] + Split(s[i + 1..], sep)
  }

  /** `sep.join(parts)`. */
  function Join(parts: seq<string>, sep: char): string
    decreases |parts|
  {
    if |parts| == 0 then ""
    else if |parts| == 1 then parts[0]
    else parts[0] + [sep] + Join(parts[1..], sep)
  }

  /** Joining a first piece onto at least one more puts one separator between them. */
  lemma JoinCons(a: string, rest: seq<string>, sep: char)
    requires |rest| >= 1
    ensures Join([a] + rest, sep) == a + [sep] + Join(rest, sep)
  {
    assert ([a] + rest)[1..] == rest;
  }

  /** A string holding the separator splits into the text before its first one, then the split of the rest. */
  lemma SplitCons(s: string, sep: char)
    requires sep in s
    ensures Split(s, sep) == [s[..IndexOf(s, sep)]] + Split(s[IndexOf(s, sep) + 1..], sep)
  {
  }

  /** A string is the text before position `i`, the character there, and the text after it. */
  lemma Around(s: string, i: nat)
    requires i < |s|
    ensures s == s[..i] + [s[i]] + s[i + 1..]
  {
  }

  /** Joining what was split gives back the original string. */
  lemma {:induction false} JoinSplit(s: string, sep: char)
    ensures Join(Split(s, sep), sep) == s
    decreases |s|
  {
    if sep in s {
      var i := IndexOf(s, sep);
      var a, b := s[..i], s[i + 1..];
      var rest := Split(b, sep);
      JoinSplit(b, sep);
      JoinCons(a, rest, sep);
      SplitCons(s, sep);
      calc {
        Join(Split(s, sep), sep);
        Join([a] + rest, sep);
        a + [sep] + Join(rest, sep);
        a + [sep] + b;
        { Around(s, i); }
        s;
      }
    }
  }

  /** Appending one more piece adds one separator. */
  lemma {:induction false} JoinSnoc(parts: seq<string>, x: string, sep: char)
    requires |parts| >= 1
    ensures Join(parts + [x], sep) == Join(parts, sep) + [sep] + x
    decreases |parts|
  {
    if |parts| > 1 {
      JoinSnoc(parts[1..], x, sep);
      assert (parts + [x])[1..] == parts[1..] + [x];
    }
  }

  /** Splitting two separator-free pieces joined by the separator gives them back. */
  lemma SplitPair(a: string, b: string, sep: char)
    requires sep !in a && sep !in b
    ensures Split(a + [sep] + b, sep) == [a, b]
  {
    var s := a + [sep] + b;
    assert s[|a|] == sep;
    assert forall k :: 0 <= k < |a| ==> s[k] == a[k];
    var i := IndexOf(s, sep);
    assert s[..i] == a;
    assert s[i + 1..] == b;
  }

  /**
   * `text.splitlines()` for text whose only line break is `\n`: the pieces
   * between breaks, without the empty piece after a final break.
   */
  function Lines(text: string): (lines: seq<string>)
    ensures forall i :: 0 <= i < |lines| ==> '\n' !in lines[i]
  {
    DropEmptyLast(Split(text, '\n'))
  }

  /** The pieces without the last one when it is empty. */
  function DropEmptyLast(pieces: seq<string>): seq<string>
    requires |pieces| >= 1
  {
    if pieces[|pieces| - 1] == "" then pieces[..|pieces| - 1] else pieces
  }

  /** A non-empty sequence is its initial part followed by its last element. */
  lemma InitLast(s: seq<string>)
    requires |s| > 0
    ensures s[..|s| - 1] + [s[|s| - 1]] == s
  {
  }

  /**
   * Joining the lines with `\n` gives back the text, less its final line
   * break when it has one: that break is all `splitlines` drops. Only the
   * empty text has no lines, so the text "\n" has the one line "".
   */
  lemma LinesJoin(text: string)
    ensures Join(Lines(text), '\n') + (if text != "" && text[|text| - 1] == '\n' then "\n" else "") == text
    ensures |Lines(text)| == 0 <==> text == ""
  {
    JoinSplit(text, '\n');
    JoinPieces(Split(text, '\n'), text);
  }

  /** `LinesJoin` for any separator-free pieces joined into `text`. */
  lemma JoinPieces(pieces: seq<string>, text: string)
    requires |pieces| >= 1 && Join(pieces, '\n') == text
    requires forall i :: 0 <= i < |pieces| ==> '\n' !in pieces[i]
    ensures Join(DropEmptyLast(pieces), '\n') + (if text != "" && text[|text| - 1] == '\n' then "\n" else "") == text
    ensures |DropEmptyLast(pieces)| == 0 <==> text == ""
  {
    var init, last := pieces[..|pieces| - 1], pieces[|pieces| - 1];
    if |pieces| == 1 {
      assert text == last;
      if last != "" {
        assert text[|text| - 1] in last;
      }
    } else {
      InitLast(pieces);
      JoinSnoc(init, last, '\n');
      if last != "" {
        assert '\n' !in last;
        assert text[|text| - 1] == last[|last| - 1];
      }
    }
  }
}
