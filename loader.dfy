/**
 Sequence loading, `load_sequence`: the file's text, its first line as
 `str.splitlines` cuts it, stripped of surrounding whitespace and uppercased.
 The file system is a map from path to the file's decoded text; a path it
 does not hold (a directory, a file that cannot be read) fails to load.
 */
module Loader {
  import opened Paths
  import opened Wrappers

  datatype LoadError =
    | Unreadable  // `read_text` raises
    | EmptyFile   // `splitlines()` is empty, so `[0]` raises IndexError

  /** The characters at which `str.splitlines` ends a line. */
  predicate IsLineBoundary(c: char)
    ensures IsLineBoundary(c) ==> IsSpace(c)
  {
    var n := c as int;
    (0x0A <= n <= 0x0D) || (0x1C <= n <= 0x1E) || n == 0x85 || n == 0x2028 || n == 0x2029
  }

  /** `str.isspace` for one character, which is what `str.strip()` removes. */
  predicate IsSpace(c: char)
    ensures IsSpace(c) ==> !('!' <= c <= '~')
  {
    var n := c as int;
    (0x09 <= n <= 0x0D) || (0x1C <= n <= 0x20) || n == 0x85 || n == 0xA0 || n == 0x1680
    || (0x2000 <= n <= 0x200A) || n == 0x2028 || n == 0x2029 || n == 0x202F || n == 0x205F
    || n == 0x3000
  }

  predicate NoBoundary(s: string)
  {
    forall k :: 0 <= k < |s| ==> !IsLineBoundary(s[k])
  }

  predicate AllSpace(s: string)
  {
    forall k :: 0 <= k < |s| ==> IsSpace(s[k])
  }

  /** Where the first line ends: the first line boundary, or the end of the text. */
  function LineEnd(s: string): (k: nat)
    ensures k <= |s|
  {
    if s == [] || IsLineBoundary(s[0]) then 0 else LineEnd(s[1..]) + 1
  }

  /** The first line boundary is at `LineEnd`: none comes before it. */
  lemma {:induction false} LineEndFirst(s: string)
    ensures NoBoundary(s[..LineEnd(s)])
    ensures LineEnd(s) < |s| ==> IsLineBoundary(s[LineEnd(s)])
  {
    if s != [] && !IsLineBoundary(s[0]) {
      LineEndFirst(s[1..]);
      assert s[..LineEnd(s)] == [s[0]] + s[1..][..LineEnd(s[1..])];
    }
  }

  /**
   `str.splitlines()`: the lines without their line endings; `\r\n` ends one
   line, and a final line ending adds no empty line.
   */
  function SplitLines(s: string): (lines: seq<string>)
    ensures lines == [] <==> s == []
    decreases |s|
  {
    if s == [] then []
    else
      var k := LineEnd(s);
      if k == |s| then [s]
      else
        var next := if s[k] == '\r' && k + 1 < |s| && s[k + 1] == '\n' then k + 2 else k + 1;
        [s[..k]] + SplitLines(s[next..])
  }

  /** No line that `splitlines` returns holds a line boundary. */
  lemma {:induction false} SplitLinesNoBoundary(s: string)
    ensures forall i :: 0 <= i < |SplitLines(s)| ==> NoBoundary(SplitLines(s)[i])
    decreases |s|
  {
    if s != [] {
      var k := LineEnd(s);
      if k < |s| {
        var next := if s[k] == '\r' && k + 1 < |s| && s[k + 1] == '\n' then k + 2 else k + 1;
        SplitLinesNoBoundary(s[next..]);
      }
      LineEndFirst(s);
      if k == |s| {
        assert s[..k] == s;
      }
    }
  }

  lemma {:induction false} LineEndAt(a: string, b: string)
    requires NoBoundary(a)
    requires b == [] || IsLineBoundary(b[0])
    ensures LineEnd(a + b) == |a|
  {
    if a != [] {
      assert (a + b)[1..] == a[1..] + b;
      LineEndAt(a[1..], b);
    }
  }

  /** The first line is everything before the first line boundary. */
  lemma FirstLineOf(line: string, c: char, rest: string)
    requires NoBoundary(line) && IsLineBoundary(c)
    ensures SplitLines(line + [c] + rest)[0] == line
  {
    var s := line + [c] + rest;
    assert s == line + ([c] + rest);
    LineEndAt(line, [c] + rest);
    assert s[..|line|] == line;
  }

  /** A text without a line boundary is one line. */
  lemma SingleLine(s: string)
    requires s != [] && NoBoundary(s)
    ensures SplitLines(s) == [s]
  {
    assert s == s + [];
    LineEndAt(s, []);
  }

  /** How many whitespace characters the text starts with. */
  function LeadingSpaces(s: string): (n: nat)
    ensures n <= |s|
  {
    if s != [] && IsSpace(s[0]) then LeadingSpaces(s[1..]) + 1 else 0
  }

  /** How many whitespace characters the text ends with. */
  function TrailingSpaces(s: string): (n: nat)
    ensures n <= |s|
  {
    if s != [] && IsSpace(s[|s| - 1]) then TrailingSpaces(s[..|s| - 1]) + 1 else 0
  }

  lemma {:induction false} LeadingSpacesMaximal(s: string)
    ensures AllSpace(s[..LeadingSpaces(s)])
    ensures LeadingSpaces(s) < |s| ==> !IsSpace(s[LeadingSpaces(s)])
  {
    if s != [] && IsSpace(s[0]) {
      LeadingSpacesMaximal(s[1..]);
      assert s[..LeadingSpaces(s)] == [s[0]] + s[1..][..LeadingSpaces(s[1..])];
    }
  }

  lemma {:induction false} TrailingSpacesMaximal(s: string)
    ensures AllSpace(s[|s| - TrailingSpaces(s)..])
    ensures TrailingSpaces(s) < |s| ==> !IsSpace(s[|s| - 1 - TrailingSpaces(s)])
  {
    if s != [] && IsSpace(s[|s| - 1]) {
      var init := s[..|s| - 1];
      TrailingSpacesMaximal(init);
      var n := TrailingSpaces(init);
      assert s[|s| - (n + 1)..] == init[|init| - n..] + [s[|s| - 1]];
    }
  }

  /** `str.strip()`: the text with its leading and trailing whitespace cut off. */
  function Strip(s: string): (r: string)
    ensures |r| <= |s|
  {
    var t := s[LeadingSpaces(s)..];
    t[..|t| - TrailingSpaces(t)]
  }

  /** What `strip` keeps neither starts nor ends with whitespace. */
  lemma StripEnds(s: string)
    ensures var r := Strip(s);
      r != [] ==> !IsSpace(r[0]) && !IsSpace(r[|r| - 1])
  {
    var i := LeadingSpaces(s);
    var t := s[i..];
    var n := TrailingSpaces(t);
    var r := t[..|t| - n];
    if r != [] {
      assert !IsSpace(r[0]) by {
        LeadingSpacesMaximal(s);
        assert r[0] == s[i];
      }
      assert !IsSpace(r[|r| - 1]) by {
        TrailingSpacesMaximal(t);
        assert r[|r| - 1] == t[|t| - 1 - n];
      }
    }
  }

  /** What `strip` keeps is a piece of its argument, and what it cuts on either side is whitespace. */
  lemma StripCuts(s: string)
    ensures var i := LeadingSpaces(s);
      && i + |Strip(s)| <= |s|
      && Strip(s) == s[i..i + |Strip(s)|]
      && AllSpace(s[..i])
      && AllSpace(s[i + |Strip(s)|..])
  {
    var i := LeadingSpaces(s);
    var t := s[i..];
    var m := |t| - TrailingSpaces(t);
    assert Strip(s) == t[..m];
    SliceOfSlice(s, i, m);
    LeadingSpacesMaximal(s);
    TrailingSpacesMaximal(t);
    assert AllSpace(t[m..]);
  }

  lemma SliceOfSlice(s: string, i: nat, j: nat)
    requires i + j <= |s|
    ensures s[i..][..j] == s[i..i + j]
    ensures s[i..][j..] == s[i + j..]
  {
  }

  lemma {:induction false} LeadingSpacesOf(a: string, t: string)
    requires AllSpace(a)
    requires t == [] || !IsSpace(t[0])
    ensures LeadingSpaces(a + t) == |a|
  {
    if a != [] {
      assert (a + t)[1..] == a[1..] + t;
      LeadingSpacesOf(a[1..], t);
    }
  }

  lemma {:induction false} TrailingSpacesOf(t: string, b: string)
    requires AllSpace(b)
    requires t == [] || !IsSpace(t[|t| - 1])
    ensures TrailingSpaces(t + b) == |b|
  {
    if b != [] {
      assert (t + b)[..|t + b| - 1] == t + b[..|b| - 1];
      TrailingSpacesOf(t, b[..|b| - 1]);
    }
  }

  /** `strip` keeps exactly the middle of any whitespace / text / whitespace split of its argument. */
  lemma StripUnique(a: string, m: string, b: string)
    requires AllSpace(a) && AllSpace(b)
    requires m != [] ==> !IsSpace(m[0]) && !IsSpace(m[|m| - 1])
    ensures Strip(a + m + b) == m
  {
    var s := a + m + b;
    if m != [] {
      assert s == a + (m + b);
      LeadingSpacesOf(a, m + b);
      var t := s[|a|..];
      assert t == m + b;
      TrailingSpacesOf(m, b);
      assert t[..|t| - |b|] == m;
    } else {
      assert s == (a + b) + [];
      assert AllSpace(a + b) by {
        forall k | 0 <= k < |a + b| ensures IsSpace((a + b)[k]) {
          if k >= |a| { assert (a + b)[k] == b[k - |a|]; }
        }
      }
      LeadingSpacesOf(a + b, []);
    }
  }

  /** ASCII case mapping of `str.upper` for one character. */
  function UpperChar(c: char): (u: char)
  {
    if 'a' <= c <= 'z' then (c as int - 32) as char else c
  }

  /** `str.upper()`: every lower-case letter replaced by its capital, every other character kept. */
  function Upper(s: string): (r: string)
    ensures |r| == |s|
  {
    if s == [] then [] else [UpperChar(s[0])] + Upper(s[1..])
  }

  /** `upper` maps the text character by character. */
  lemma {:induction false} UpperAt(s: string)
    ensures |Upper(s)| == |s|
    ensures forall k :: 0 <= k < |s| ==> Upper(s)[k] == UpperChar(s[k])
  {
    if s != [] {
      UpperAt(s[1..]);
    }
  }

  /** Uppercasing leaves no lower-case letter, and doing it twice changes nothing more. */
  lemma UpperNormalizes(s: string)
    ensures |Upper(s)| == |s|
    ensures forall k :: 0 <= k < |s| ==> !('a' <= Upper(s)[k] <= 'z')
    ensures Upper(Upper(s)) == Upper(s)
  {
    UpperAt(s);
    UpperAt(Upper(s));
  }

  /** `load_sequence(path)`: `path.read_text().splitlines()[0].strip().upper()`. */
  function LoadSequence(texts: map<Path, string>, p: Path): (r: Result<string, LoadError>)
    ensures r == Err(Unreadable) <==> p !in texts
    ensures r == Err(EmptyFile) <==> p in texts && texts[p] == []
  {
    if p !in texts then Err(Unreadable)
    else
      var lines := SplitLines(texts[p]);
      if lines == [] then Err(EmptyFile) else Ok(Upper(Strip(lines[0])))
  }

  /**
   A loaded sequence is one line, carries no surrounding whitespace and has
   no lower-case letter left.
   */
  lemma LoadedSequenceShape(texts: map<Path, string>, p: Path)
    requires LoadSequence(texts, p).Ok?
    ensures var v := LoadSequence(texts, p).value;
      && NoBoundary(v)
      && Upper(v) == v
      && (v != [] ==> !IsSpace(v[0]) && !IsSpace(v[|v| - 1]))
  {
    var line := SplitLines(texts[p])[0];
    SplitLinesNoBoundary(texts[p]);
    var stripped := Strip(line);
    StripCuts(line);
    StripEnds(line);
    UpperAt(stripped);
    assert NoBoundary(stripped) by {
      var i := LeadingSpaces(line);
      forall k | 0 <= k < |stripped| ensures !IsLineBoundary(stripped[k]) {
        assert stripped[k] == line[i + k];
      }
    }
    UpperNormalizes(stripped);
  }

  /**
   Whatever the first line holds is the sequence: a text that starts with the
   line `line` yields `line`, stripped and uppercased, and what follows is ignored.
   */
  lemma LoadSequenceFirstLine(texts: map<Path, string>, p: Path, line: string, c: char, rest: string)
    requires p in texts && texts[p] == line + [c] + rest
    requires NoBoundary(line) && IsLineBoundary(c)
    ensures LoadSequence(texts, p) == Ok(Upper(Strip(line)))
  {
    FirstLineOf(line, c, rest);
  }

  /** A text without a line boundary is read whole. */
  lemma LoadSequenceWholeText(texts: map<Path, string>, p: Path)
    requires p in texts && texts[p] != [] && NoBoundary(texts[p])
    ensures LoadSequence(texts, p) == Ok(Upper(Strip(texts[p])))
  {
    SingleLine(texts[p]);
  }

  /**
   The only line read is the first, whatever it holds: if the file starts with
   whitespace, text and whitespace on one line, the sequence is that text uppercased.
   */
  lemma LoadSequenceTrimmed(texts: map<Path, string>, p: Path, a: string, m: string, b: string, c: char, rest: string)
    requires p in texts && texts[p] == a + m + b + [c] + rest
    requires AllSpace(a) && AllSpace(b) && NoBoundary(a + m + b) && IsLineBoundary(c)
    requires m != [] ==> !IsSpace(m[0]) && !IsSpace(m[|m| - 1])
    ensures LoadSequence(texts, p) == Ok(Upper(m))
  {
    LoadSequenceFirstLine(texts, p, a + m + b, c, rest);
    StripUnique(a, m, b);
  }

  /** A FASTA header on line 1 is not skipped: the sequence returned is the header line. */
  lemma HeaderIsReturned(texts: map<Path, string>, p: Path, header: string, rest: string)
    requires p in texts && texts[p] == ['>'] + header + ['\n'] + rest
    requires NoBoundary(header)
    ensures LoadSequence(texts, p) == Ok(Upper(Strip(['>'] + header)))
    ensures var r := LoadSequence(texts, p); r.Ok? && r.value != [] && r.value[0] == '>'
  {
    var line := ['>'] + header;
    assert NoBoundary(line) by {
      forall k | 0 <= k < |line| ensures !IsLineBoundary(line[k]) {
        if k > 0 { assert line[k] == header[k - 1]; }
      }
    }
    LoadSequenceFirstLine(texts, p, line, '\n', rest);
    assert LeadingSpaces(line) == 0;
    TrailingSpacesMaximal(line);
    assert Strip(line) != [] && Strip(line)[0] == '>';
    UpperAt(Strip(line));
  }
}
