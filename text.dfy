/** Text helpers shared by the two extraction engines: ASCII case folding (all a
    JavaScript `/i` regex does for the ASCII patterns used here), substring search,
    the JavaScript whitespace and line-terminator classes, `String.prototype.trim`,
    and splitting text into lines and joining lines back. Strings are `seq<char>`. */
module Text {

  // ---------------------------------------------------------------------------
  // Case folding and substring search

  function LowerChar(c: char): char {
    if 'A' <= c <= 'Z' then (c as int + 32) as char else c
  }

  /** Lower-cases the ASCII letters of `s` and leaves every other character alone. */
  function Lower(s: string): (r: string)
    ensures |r| == |s|
  {
    seq(|s|, i requires 0 <= i < |s| => LowerChar(s[i]))
  }

  /** `pat` occurs in `s` at position `k`. */
  predicate OccursAt(s: string, pat: string, k: int) {
    0 <= k && k + |pat| <= |s| && s[k..k + |pat|] == pat
  }

  /** `s.includes(pat)`. */
  predicate Contains(s: string, pat: string) {
    exists k | 0 <= k <= |s| - |pat| :: OccursAt(s, pat, k)
  }

  /** A case-insensitive regex test for a lower-case ASCII literal `pat`. */
  predicate ContainsIgnoreCase(s: string, pat: string) {
    Contains(Lower(s), pat)
  }

  // ---------------------------------------------------------------------------
  // Whitespace, line terminators and trim

  /** The characters of the JavaScript `\s` class, which are also the characters
      `String.prototype.trim` removes (WhiteSpace and LineTerminator). */
  predicate IsSpace(c: char) {
    c == '\t' || c == '\n' || c == '\U{000B}' || c == '\U{000C}' || c == '\r' || c == ' '
    || c == '\U{00A0}' || c == '\U{1680}' || ('\U{2000}' <= c <= '\U{200A}')
    || c == '\U{2028}' || c == '\U{2029}' || c == '\U{202F}' || c == '\U{205F}'
    || c == '\U{3000}' || c == '\U{FEFF}'
  }

  /** The characters a JavaScript regex `.` does not match. */
  predicate IsLineTerminator(c: char) {
    c == '\n' || c == '\r' || c == '\U{2028}' || c == '\U{2029}'
  }

  predicate AllSpace(s: string) {
    forall k :: 0 <= k < |s| ==> IsSpace(s[k])
  }

  predicate NoLineTerminator(s: string) {
    forall k :: 0 <= k < |s| ==> !IsLineTerminator(s[k])
  }

  /** No whitespace at either end. */
  predicate Trimmed(s: string) {
    s == [] || (!IsSpace(s[0]) && !IsSpace(s[|s| - 1]))
  }

  /** End of the whitespace run of `s` that starts at `i`. */
  function SpaceRunEnd(s: string, i: nat): (r: nat)
    requires i <= |s|
    ensures i <= r <= |s|
    ensures forall k :: i <= k < r ==> IsSpace(s[k])
    ensures r < |s| ==> !IsSpace(s[r])
    decreases |s| - i
  {
    if i < |s| && IsSpace(s[i]) then SpaceRunEnd(s, i + 1) else i
  }

  /** Start of the whitespace run of `s` that ends at `j`, not going below `lo`. */
  function SpaceRunStart(s: string, lo: nat, j: nat): (r: nat)
    requires lo <= j <= |s|
    ensures lo <= r <= j
    ensures forall k :: r <= k < j ==> IsSpace(s[k])
    ensures r > lo ==> !IsSpace(s[r - 1])
    decreases j
  {
    if j > lo && IsSpace(s[j - 1]) then SpaceRunStart(s, lo, j - 1) else j
  }

  /** `s.trim()`: `s` without its leading and trailing whitespace. */
  function Trim(s: string): (r: string)
    ensures Trimmed(r)
    ensures exists i :: 0 <= i <= |s| - |r| && s[i..i + |r|] == r
                        && AllSpace(s[..i]) && AllSpace(s[i + |r|..])
  {
    var i := SpaceRunEnd(s, 0);
    var j := SpaceRunStart(s, i, |s|);
    assert AllSpace(s[..i]) && AllSpace(s[j..]);
    s[i..j]
  }

  /** Trimming text that has no whitespace at either end changes nothing. */
  lemma TrimOfTrimmed(s: string)
    requires Trimmed(s)
    ensures Trim(s) == s
  {
    var i := SpaceRunEnd(s, 0);
    var j := SpaceRunStart(s, i, |s|);
    if s != [] {
      assert i == 0;
      assert j == |s|;
    }
  }

  // ---------------------------------------------------------------------------
  // Lines

  /** `s.split("\n")`: the pieces between line feeds; never empty. */
  function SplitLF(s: string): (r: seq<string>)
    ensures |r| >= 1
    ensures forall i :: 0 <= i < |r| ==> '\n' !in r[i]
  {
    if s == [] then [""]
    else
      var rest := SplitLF(s[1..]);
      if s[0] == '\n' then [""] + rest
      else [[s[0]] + rest[0]] + rest[1..]
  }

  /** `s.split(/\r?\n/)`: like `SplitLF`, but a carriage return directly before a
      line feed belongs to the separator. */
  function SplitLines(s: string): (r: seq<string>)
    ensures |r| >= 1
    ensures forall i :: 0 <= i < |r| ==> '\n' !in r[i]
  {
    if s == [] then [""]
    else if s[0] == '\r' && |s| > 1 && s[1] == '\n' then [""] + SplitLines(s[2..])
    else
      var rest := SplitLines(s[1..]);
      if s[0] == '\n' then [""] + rest
      else [[s[0]] + rest[0]] + rest[1..]
  }

  /** `lines.join("\n")`. */
  function Join(lines: seq<string>): string {
    if |lines| == 0 then ""
    else if |lines| == 1 then lines[0]
    else lines[0] + "\n" + Join(lines[1..])
  }

  /** Joining what `split("\n")` produced gives the text back. */
  lemma {:induction false} JoinSplitLF(s: string)
    ensures Join(SplitLF(s)) == s
  {
    if s != [] {
      var rest := SplitLF(s[1..]);
      JoinSplitLF(s[1..]);
      if s[0] == '\n' {
        assert SplitLF(s) == [""] + rest;
        assert Join(SplitLF(s)) == "" + "\n" + Join(rest);
        assert s == "\n" + s[1..];
      } else if |rest| == 1 {
        assert SplitLF(s) == [[s[0]] + rest[0]];
        assert Join(rest) == rest[0];
        assert s == [s[0]] + s[1..];
      } else {
        var first := [s[0]] + rest[0];
        assert SplitLF(s) == [first] + rest[1..];
        assert ([first] + rest[1..])[1..] == rest[1..];
        assert Join(SplitLF(s)) == first + "\n" + Join(rest[1..]);
        assert Join(rest) == rest[0] + "\n" + Join(rest[1..]);
        assert s == [s[0]] + s[1..];
      }
    }
  }

  /** `split("\n")` of text without line feeds is that text alone. */
  lemma {:induction false} SplitLFNoNewline(s: string)
    requires '\n' !in s
    ensures SplitLF(s) == [s]
  {
    if s != [] {
      assert '\n' !in s[1..] by {
        forall k | 0 <= k < |s[1..]| ensures s[1..][k] != '\n' { assert s[1..][k] == s[k + 1]; }
      }
      SplitLFNoNewline(s[1..]);
      assert s == [s[0]] + s[1..];
    }
  }

  /** Splitting `a + t`, where `a` has no line feed, glues `a` to the first piece of `t`. */
  lemma {:induction false} SplitLFPrefix(a: string, t: string)
    requires '\n' !in a
    ensures SplitLF(a + t) == [a + SplitLF(t)[0]] + SplitLF(t)[1..]
  {
    if a != [] {
      assert '\n' !in a[1..] by {
        forall k | 0 <= k < |a[1..]| ensures a[1..][k] != '\n' { assert a[1..][k] == a[k + 1]; }
      }
      SplitLFPrefix(a[1..], t);
      assert (a + t)[1..] == a[1..] + t;
      assert (a + t)[0] == a[0];
      assert [a[0]] + (a[1..] + SplitLF(t)[0]) == a + SplitLF(t)[0];
    } else {
      var r := SplitLF(t);
      assert a + t == t;
      assert a + r[0] == r[0];
      assert r == [r[0]] + r[1..];
    }
  }

  /** Splitting joined lines that hold no line feed gives the lines back. */
  lemma {:induction false} SplitJoinLF(lines: seq<string>)
    requires |lines| >= 1
    requires forall i :: 0 <= i < |lines| ==> '\n' !in lines[i]
    ensures SplitLF(Join(lines)) == lines
  {
    if |lines| == 1 {
      SplitLFNoNewline(lines[0]);
    } else {
      var tail := Join(lines[1..]);
      SplitJoinLF(lines[1..]);
      SplitLFPrefix(lines[0], "\n" + tail);
      assert ("\n" + tail)[1..] == tail;
      assert ("\n" + tail)[0] == '\n';
      assert SplitLF("\n" + tail) == [""] + SplitLF(tail);
      assert ([""] + SplitLF(tail))[0] == "";
      assert ([""] + SplitLF(tail))[1..] == SplitLF(tail);
      assert lines[0] + "" == lines[0];
      assert lines[0] + "\n" + tail == lines[0] + ("\n" + tail);
      assert lines == [lines[0]] + lines[1..];
    }
  }

  /** Joining splits at any line boundary: the first `i` lines, a line feed, the rest. */
  lemma {:induction false} JoinAt(lines: seq<string>, i: nat)
    requires 0 < i < |lines|
    ensures Join(lines) == Join(lines[..i]) + "\n" + Join(lines[i..])
  {
    if i > 1 {
      JoinAt(lines[1..], i - 1);
      assert lines[1..][..i - 1] == lines[..i][1..];
      assert lines[1..][i - 1..] == lines[i..];
      assert Join(lines[..i]) == lines[0] + "\n" + Join(lines[..i][1..]);
    } else {
      assert lines[..1] == [lines[0]];
      assert lines[1..] == lines[i..];
    }
  }

  /** The text with every carriage return that directly precedes a line feed removed. */
  function DropCRBeforeLF(s: string): string {
    if s == [] then []
    else if s[0] == '\r' && |s| > 1 && s[1] == '\n' then DropCRBeforeLF(s[1..])
    else [s[0]] + DropCRBeforeLF(s[1..])
  }

  /** `split(/\r?\n/)` treats `\r\n` as one separator: it is `split("\n")` of the
      text without the carriage returns that precede a line feed; every other
      carriage return stays in its line. */
  lemma {:induction false} SplitLinesDropsCR(s: string)
    ensures SplitLines(s) == SplitLF(DropCRBeforeLF(s))
  {
    if s == [] {
    } else if s[0] == '\r' && |s| > 1 && s[1] == '\n' {
      SplitLinesDropsCR(s[2..]);
      var t := DropCRBeforeLF(s[2..]);
      assert s[1..][1..] == s[2..];
      assert DropCRBeforeLF(s[1..]) == "\n" + t;
      assert ("\n" + t)[1..] == t;
      assert SplitLF("\n" + t) == [""] + SplitLF(t);
    } else {
      SplitLinesDropsCR(s[1..]);
      var t := DropCRBeforeLF(s[1..]);
      assert DropCRBeforeLF(s) == [s[0]] + t;
      assert ([s[0]] + t)[1..] == t;
      assert ([s[0]] + t)[0] == s[0];
    }
  }

  /** Without carriage returns the two ways of splitting agree. */
  lemma {:induction false} SplitLinesWithoutCR(s: string)
    requires '\r' !in s
    ensures SplitLines(s) == SplitLF(s)
  {
    if s != [] {
      assert '\r' !in s[1..] by {
        forall k | 0 <= k < |s[1..]| ensures s[1..][k] != '\r' { assert s[1..][k] == s[k + 1]; }
      }
      SplitLinesWithoutCR(s[1..]);
    }
  }
}
