/** The extraction engines of app.js (`engineProcessors`): the registry keyed by
    engine name, the text pipeline each engine runs over an uploaded file (line
    filtering and cleaning, the "not found" sentinels, slicing from the intro line),
    the `<h1>` title hint, the parsing of the title/artist reply, and the wrapping of
    engine failures by `processFile`. The engine-specific `cleanText` regexes are a
    function parameter: every property below holds whatever that function does. */
module Engines {
  import opened Wrappers
  import opened Text

  // ---------------------------------------------------------------------------
  // Registry

  datatype Engine = Lyrics | Chord

  /** The key under which an engine is registered. */
  function EngineName(e: Engine): string {
    match e
    case Lyrics => "lyrics"
    case Chord => "chord"
  }

  /** `engineProcessors[name]`, looking at the registry's own keys only. */
  function EngineNamed(name: string): (r: Option<Engine>)
    ensures r.Some? <==> name == "lyrics" || name == "chord"
    ensures r.Some? ==> EngineName(r.value) == name
    ensures forall e :: name == EngineName(e) ==> r == Some(e)
  {
    if name == "lyrics" then Some(Lyrics)
    else if name == "chord" then Some(Chord)
    else None
  }

  /** The property names every plain JavaScript object inherits from
      `Object.prototype`; each of them looks up to a truthy value. */
  const InheritedKeys: set<string> := {
    "constructor", "hasOwnProperty", "isPrototypeOf", "propertyIsEnumerable",
    "toLocaleString", "toString", "valueOf", "__proto__",
    "__defineGetter__", "__defineSetter__", "__lookupGetter__", "__lookupSetter__"
  }

  /** The upload handler's engine check as written:
      `!engineType || !engineProcessors[engineType]` rejects, so every name whose
      lookup is truthy passes, the inherited ones included. */
  predicate PassesEngineCheckAsWritten(name: string) {
    name != "" && (name == "lyrics" || name == "chord" || name in InheritedKeys)
  }

  /** "toString" is not an engine, yet it passes the check as written. */
  lemma InheritedNamePassesEngineCheck()
    ensures PassesEngineCheckAsWritten("toString")
    ensures EngineNamed("toString") == None
  {
    assert "toString" in InheritedKeys;
  }

  /** The check as written and the registry lookup agree exactly outside the
      inherited names. */
  lemma EngineCheckAgreesOutsideInheritedKeys(name: string)
    requires name !in InheritedKeys
    ensures PassesEngineCheckAsWritten(name) <==> EngineNamed(name).Some?
  {
  }

  /** Prefix the engine puts before any failure of its own (`Lyrics processing error: ...`). */
  function FailurePrefix(e: Engine): string {
    match e
    case Lyrics => "Lyrics processing error: "
    case Chord => "Chord processing error: "
  }

  /** The body used when no line survives the pipeline. */
  function Sentinel(e: Engine): string {
    match e
    case Lyrics => "Lyrics not found"
    case Chord => "Chord not found"
  }

  // ---------------------------------------------------------------------------
  // Slicing from the intro line (processLyricWithIntro / processChordWithIntro)

  /** `/intro|\[intro\]/i.test(line)`; the bracketed alternative contains the first. */
  predicate IsIntroLine(line: string) {
    ContainsIgnoreCase(line, "intro")
  }

  /** `lines.findIndex(...)` for the intro test, searching from `from`. */
  function FindIntro(lines: seq<string>, from: nat): (r: Option<nat>)
    requires from <= |lines|
    ensures r.Some? ==> from <= r.value < |lines| && IsIntroLine(lines[r.value])
    ensures r.Some? ==> forall j :: from <= j < r.value ==> !IsIntroLine(lines[j])
    ensures r.None? ==> forall j :: from <= j < |lines| ==> !IsIntroLine(lines[j])
    decreases |lines| - from
  {
    if from == |lines| then None
    else if IsIntroLine(lines[from]) then Some(from)
    else FindIntro(lines, from + 1)
  }

  /** The body keeps the lines from the first intro line onward, or is unchanged
      when no line mentions an intro. */
  function ProcessWithIntro(text: string): (r: string)
    ensures |r| <= |text| && text[|text| - |r|..] == r
    ensures (exists i :: 0 <= i < |SplitLF(text)| && IsIntroLine(SplitLF(text)[i]))
            <==> IsIntroLine(SplitLF(r)[0])
  {
    var lines := SplitLF(text);
    JoinSplitLF(text);
    match FindIntro(lines, 0)
    case None =>
      text
    case Some(i) =>
      SplitJoinLF(lines[i..]);
      assert SplitLF(Join(lines[i..]))[0] == lines[i];
      if i == 0 then
        assert lines[0..] == lines;
        Join(lines[i..])
      else
        JoinAt(lines, i);
        Join(lines[i..])
  }

  /** The lines of the sliced body are the trailing lines of the input; the lines
      dropped mention no intro, and when any line is dropped the kept part starts
      with an intro line. */
  lemma ProcessWithIntroLines(text: string)
    ensures var lines := SplitLF(text);
            var kept := SplitLF(ProcessWithIntro(text));
            && |kept| <= |lines|
            && kept == lines[|lines| - |kept|..]
            && (forall j :: 0 <= j < |lines| - |kept| ==> !IsIntroLine(lines[j]))
            && (|kept| < |lines| ==> IsIntroLine(kept[0]))
  {
    var lines := SplitLF(text);
    var kept := SplitLF(ProcessWithIntro(text));
    match FindIntro(lines, 0)
    case None =>
      ProcessWithIntroNoIntro(text);
      assert kept == lines;
      assert lines[|lines| - |kept|..] == lines;
    case Some(i) =>
      ProcessWithIntroAt(text, i);
      SplitJoinLF(lines[i..]);
      assert kept == lines[i..];
      assert |lines| - |kept| == i;
  }

  lemma ProcessWithIntroNoIntro(text: string)
    requires FindIntro(SplitLF(text), 0).None?
    ensures ProcessWithIntro(text) == text
  {
  }

  lemma ProcessWithIntroAt(text: string, i: nat)
    requires FindIntro(SplitLF(text), 0) == Some(i)
    ensures i < |SplitLF(text)| && ProcessWithIntro(text) == Join(SplitLF(text)[i..])
  {
  }

  // ---------------------------------------------------------------------------
  // Line pipelines

  /** A line the engines treat as site boilerplate: it contains "berita" or
      "Tribun", or matches `/tonton juga|baca juga|copyright|video/i`. */
  predicate IsBoilerplate(line: string) {
    Contains(line, "berita") || Contains(line, "Tribun")
    || ContainsIgnoreCase(line, "tonton juga") || ContainsIgnoreCase(line, "baca juga")
    || ContainsIgnoreCase(line, "copyright") || ContainsIgnoreCase(line, "video")
  }

  /** `lines.filter(keep)`: the lines that pass, in their original order. */
  function Filter(lines: seq<string>, keep: string -> bool): (r: seq<string>)
    ensures |r| <= |lines|
  {
    if lines == [] then []
    else (if keep(lines[0]) then [lines[0]] else []) + Filter(lines[1..], keep)
  }

  /** `filter` keeps exactly the lines that pass the test. */
  lemma {:induction false} FilterMembers(lines: seq<string>, keep: string -> bool)
    ensures forall i :: 0 <= i < |Filter(lines, keep)| ==> keep(Filter(lines, keep)[i])
    ensures forall x :: x in Filter(lines, keep) <==> x in lines && keep(x)
  {
    if lines != [] {
      FilterMembers(lines[1..], keep);
      var head := if keep(lines[0]) then [lines[0]] else [];
      var rest := Filter(lines[1..], keep);
      assert Filter(lines, keep) == head + rest;
      assert lines == [lines[0]] + lines[1..];
    }
  }

  /** `lines.map(f)`. */
  function MapLines(lines: seq<string>, f: string -> string): (r: seq<string>)
    ensures |r| == |lines|
    ensures forall i :: 0 <= i < |r| ==> r[i] == f(lines[i])
  {
    if lines == [] then [] else [f(lines[0])] + MapLines(lines[1..], f)
  }

  function NotBoilerplate(line: string): bool { !IsBoilerplate(line) }

  function NotEmpty(line: string): bool { line != "" }

  /** Line by line, what the lyrics engine keeps of the raw lines, in their order: a
      raw line that is not boilerplate contributes its cleaned form unless that is
      empty; any other line contributes nothing. */
  function KeptLyrics(raws: seq<string>, clean: string -> string): seq<string> {
    if raws == [] then []
    else (if !IsBoilerplate(raws[0]) && clean(raws[0]) != "" then [clean(raws[0])] else [])
         + KeptLyrics(raws[1..], clean)
  }

  /** Line by line, what the chord engine keeps: a raw line contributes its cleaned
      form when that is non-empty and not boilerplate. */
  function KeptChords(raws: seq<string>, clean: string -> string): seq<string> {
    if raws == [] then []
    else (if clean(raws[0]) != "" && !IsBoilerplate(clean(raws[0])) then [clean(raws[0])] else [])
         + KeptChords(raws[1..], clean)
  }

  /** filter, map, filter is the line-by-line selection of the lyrics engine. */
  lemma {:induction false} LyricsPipelinePerLine(raws: seq<string>, clean: string -> string)
    ensures Filter(MapLines(Filter(raws, NotBoilerplate), clean), NotEmpty) == KeptLyrics(raws, clean)
  {
    if raws != [] {
      var x := raws[0];
      var rest := Filter(raws[1..], NotBoilerplate);
      var head := if NotBoilerplate(x) then [x] else [];
      LyricsPipelinePerLine(raws[1..], clean);
      assert Filter(raws, NotBoilerplate) == head + rest;
      MapConcat(head, rest, clean);
      var mhead := MapLines(head, clean);
      assert mhead == if NotBoilerplate(x) then [clean(x)] else [];
      FilterConcat(mhead, MapLines(rest, clean), NotEmpty);
      if NotBoilerplate(x) {
        FilterSingle(clean(x), NotEmpty);
      } else {
        assert Filter(mhead, NotEmpty) == [];
      }
    }
  }

  /** map, filter, filter is the line-by-line selection of the chord engine. */
  lemma {:induction false} ChordPipelinePerLine(raws: seq<string>, clean: string -> string)
    ensures Filter(Filter(MapLines(raws, clean), NotEmpty), NotBoilerplate) == KeptChords(raws, clean)
  {
    if raws != [] {
      var y := clean(raws[0]);
      var mrest := MapLines(raws[1..], clean);
      ChordPipelinePerLine(raws[1..], clean);
      assert MapLines(raws, clean) == [y] + mrest;
      FilterCons(y, mrest, NotEmpty);
      var h1 := if NotEmpty(y) then [y] else [];
      FilterConcat(h1, Filter(mrest, NotEmpty), NotBoilerplate);
      if NotEmpty(y) {
        FilterSingle(y, NotBoilerplate);
      } else {
        assert Filter(h1, NotBoilerplate) == [];
      }
    }
  }

  /** Lyrics engine: split on `\r?\n`, drop boilerplate lines, clean each line,
      drop the lines that cleaned to nothing. */
  function LyricsLines(content: string, clean: string -> string): (r: seq<string>)
    ensures forall i :: 0 <= i < |r| ==> r[i] != ""
    ensures forall x :: x in r <==>
              x != "" && exists raw :: raw in SplitLines(content) && !IsBoilerplate(raw) && x == clean(raw)
  {
    var kept := Filter(SplitLines(content), NotBoilerplate);
    FilterMembers(SplitLines(content), NotBoilerplate);
    var cleaned := MapLines(kept, clean);
    assert forall x :: x in cleaned <==> exists raw :: raw in kept && x == clean(raw) by {
      forall x | x in cleaned ensures exists raw :: raw in kept && x == clean(raw) {
        var i :| 0 <= i < |cleaned| && cleaned[i] == x;
        assert kept[i] in kept;
      }
      forall x, raw | raw in kept && x == clean(raw) ensures x in cleaned {
        var i :| 0 <= i < |kept| && kept[i] == raw;
        assert cleaned[i] == x;
      }
    }
    FilterMembers(cleaned, NotEmpty);
    Filter(cleaned, NotEmpty)
  }

  /** Chord engine: split on `\r?\n`, clean each line, drop the lines that cleaned
      to nothing, then drop the cleaned lines that are boilerplate. */
  function ChordLines(content: string, clean: string -> string): (r: seq<string>)
    ensures forall i :: 0 <= i < |r| ==> r[i] != "" && !IsBoilerplate(r[i])
    ensures forall x :: x in r <==>
              x != "" && !IsBoilerplate(x) && exists raw :: raw in SplitLines(content) && x == clean(raw)
  {
    var raw := SplitLines(content);
    var cleaned := MapLines(raw, clean);
    assert forall x :: x in cleaned <==> exists r :: r in raw && x == clean(r) by {
      forall x | x in cleaned ensures exists r :: r in raw && x == clean(r) {
        var i :| 0 <= i < |cleaned| && cleaned[i] == x;
        assert raw[i] in raw;
      }
      forall x, r | r in raw && x == clean(r) ensures x in cleaned {
        var i :| 0 <= i < |raw| && raw[i] == r;
        assert cleaned[i] == x;
      }
    }
    FilterMembers(cleaned, NotEmpty);
    FilterMembers(Filter(cleaned, NotEmpty), NotBoilerplate);
    Filter(Filter(cleaned, NotEmpty), NotBoilerplate)
  }

  /** Filtering on two tests commutes. */
  lemma {:induction false} FilterCommutes(lines: seq<string>, p: string -> bool, q: string -> bool)
    ensures Filter(Filter(lines, p), q) == Filter(Filter(lines, q), p)
  {
    if lines != [] {
      FilterCommutes(lines[1..], p, q);
      var x := lines[0];
      var rp := Filter(lines[1..], p);
      var rq := Filter(lines[1..], q);
      FilterConcat(if p(x) then [x] else [], rp, q);
      FilterConcat(if q(x) then [x] else [], rq, p);
      FilterSingle(x, p);
      FilterSingle(x, q);
    }
  }

  lemma FilterSingle(x: string, keep: string -> bool)
    ensures Filter([x], keep) == if keep(x) then [x] else []
  {
    assert [x][1..] == [];
  }

  lemma {:induction false} FilterConcat(a: seq<string>, b: seq<string>, keep: string -> bool)
    ensures Filter(a + b, keep) == Filter(a, keep) + Filter(b, keep)
  {
    if a == [] {
      assert a + b == b;
    } else {
      var head := if keep(a[0]) then [a[0]] else [];
      FilterConcat(a[1..], b, keep);
      assert a + b == [a[0]] + (a[1..] + b);
      FilterCons(a[0], a[1..] + b, keep);
      ConcatAssoc(head, Filter(a[1..], keep), Filter(b, keep));
    }
  }

  lemma ConcatAssoc(x: seq<string>, y: seq<string>, z: seq<string>)
    ensures x + (y + z) == (x + y) + z
  {
  }

  lemma FilterCons(x: string, rest: seq<string>, keep: string -> bool)
    ensures Filter([x] + rest, keep) == (if keep(x) then [x] else []) + Filter(rest, keep)
  {
    assert ([x] + rest)[1..] == rest;
  }

  /** `filter` keeps order: filtering one more line appends it exactly when it passes. */
  lemma FilterSnoc(lines: seq<string>, x: string, keep: string -> bool)
    ensures Filter(lines + [x], keep) == Filter(lines, keep) + (if keep(x) then [x] else [])
  {
    FilterConcat(lines, [x], keep);
    FilterSingle(x, keep);
  }

  /** `filter` keeps duplicates: a passing line occurs as often as in the input,
      a failing one not at all. */
  lemma {:induction false} FilterCount(lines: seq<string>, keep: string -> bool, x: string)
    ensures multiset(Filter(lines, keep))[x] == if keep(x) then multiset(lines)[x] else 0
  {
    if lines != [] {
      FilterCount(lines[1..], keep, x);
      var head := if keep(lines[0]) then [lines[0]] else [];
      assert Filter(lines, keep) == head + Filter(lines[1..], keep);
      assert lines == [lines[0]] + lines[1..];
      assert multiset(lines) == multiset([lines[0]]) + multiset(lines[1..]);
    }
  }

  /** The lyrics engine's lines, in order and with repeats, are the line-by-line
      selection over `split(/\r?\n/)`. */
  lemma LyricsLinesInOrder(content: string, clean: string -> string)
    ensures LyricsLines(content, clean) == KeptLyrics(SplitLines(content), clean)
  {
    LyricsPipelinePerLine(SplitLines(content), clean);
  }

  /** The chord engine's lines, in order and with repeats, are the line-by-line
      selection over `split(/\r?\n/)`. */
  lemma ChordLinesInOrder(content: string, clean: string -> string)
    ensures ChordLines(content, clean) == KeptChords(SplitLines(content), clean)
  {
    ChordPipelinePerLine(SplitLines(content), clean);
  }

  /** Filtering before or after a map gives the same lines when the map does not
      change the test's verdict. */
  lemma {:induction false} FilterMapCommutes(lines: seq<string>, f: string -> string, keep: string -> bool)
    requires forall x :: keep(f(x)) == keep(x)
    ensures MapLines(Filter(lines, keep), f) == Filter(MapLines(lines, f), keep)
  {
    if lines != [] {
      FilterMapCommutes(lines[1..], f, keep);
      var x := lines[0];
      var head := if keep(x) then [x] else [];
      MapConcat(head, Filter(lines[1..], keep), f);
      assert MapLines(lines, f) == [f(x)] + MapLines(lines[1..], f);
      assert MapLines(lines, f)[0] == f(x);
      assert MapLines(lines, f)[1..] == MapLines(lines[1..], f);
      if keep(x) {
        assert MapLines([x], f) == [f(x)];
      } else {
        assert MapLines([], f) == [];
      }
    }
  }

  lemma MapConcat(a: seq<string>, b: seq<string>, f: string -> string)
    ensures MapLines(a + b, f) == MapLines(a, f) + MapLines(b, f)
  {
    var l := MapLines(a + b, f);
    var r := MapLines(a, f) + MapLines(b, f);
    forall i | 0 <= i < |l| ensures l[i] == r[i] {
      if i < |a| { assert (a + b)[i] == a[i]; } else { assert (a + b)[i] == b[i - |a|]; }
    }
  }

  /** The two engines order "clean" and "drop boilerplate" differently; they keep
      the same lines whenever cleaning never changes whether a line is boilerplate. */
  lemma PipelinesAgreeWhenCleaningKeepsVerdict(content: string, clean: string -> string)
    requires forall x :: IsBoilerplate(clean(x)) == IsBoilerplate(x)
    ensures LyricsLines(content, clean) == ChordLines(content, clean)
  {
    var raw := SplitLines(content);
    assert forall x :: NotBoilerplate(clean(x)) == NotBoilerplate(x);
    FilterMapCommutes(raw, clean, NotBoilerplate);
    FilterCommutes(MapLines(raw, clean), NotEmpty, NotBoilerplate);
  }

  /** `lines.join("\n") || sentinel`: an empty join falls back to the sentinel. */
  function BodyText(lines: seq<string>, sentinel: string): (r: string)
    ensures lines == [] ==> r == sentinel
    ensures lines != [] && (forall i :: 0 <= i < |lines| ==> lines[i] != "") ==> r == Join(lines) && r != ""
  {
    var joined := Join(lines);
    assert lines != [] && lines[0] != "" ==> joined != "" by {
      if lines != [] && lines[0] != "" { JoinNonEmpty(lines); }
    }
    if joined == "" then sentinel else joined
  }

  lemma {:induction false} JoinNonEmpty(lines: seq<string>)
    requires lines != [] && lines[0] != ""
    ensures Join(lines) != ""
  {
    if |lines| > 1 {
      assert Join(lines)[0] == lines[0][0];
    }
  }

  // ---------------------------------------------------------------------------
  // Title hint: the first `<h1>(.*?)</h1>` match

  /** `<h1>` opens at `k` and the nearest-possible `</h1>` at `e` closes it, with no
      line terminator between (a regex `.` does not match one). */
  predicate IsH1Match(s: string, k: int, e: int) {
    OccursAt(s, "<h1>", k) && k + 4 <= e && OccursAt(s, "</h1>", e) && NoLineTerminator(s[k + 4..e])
  }

  /** The lazy `(.*?)</h1>` from an opening tag at `k`, trying ends from `e` on. */
  function H1Close(s: string, k: nat, e: nat): (r: Option<nat>)
    requires OccursAt(s, "<h1>", k) && k + 4 <= e <= |s| && NoLineTerminator(s[k + 4..e])
    ensures r.Some? ==> e <= r.value && IsH1Match(s, k, r.value)
    ensures r.Some? ==> forall e' :: e <= e' < r.value ==> !IsH1Match(s, k, e')
    ensures r.None? ==> forall e' :: e <= e' ==> !IsH1Match(s, k, e')
    decreases |s| - e
  {
    if OccursAt(s, "</h1>", e) then Some(e)
    else if e < |s| && !IsLineTerminator(s[e]) then
      assert s[k + 4..e + 1] == s[k + 4..e] + [s[e]];
      H1Close(s, k, e + 1)
    else
      assert forall e' :: e < e' ==> !IsH1Match(s, k, e') by {
        forall e' | e < e' ensures !IsH1Match(s, k, e') {
          if e' <= |s| { assert s[k + 4..e'][e - (k + 4)] == s[e]; }
        }
      }
      None
  }

  /** The leftmost `<h1>...</h1>` match starting at or after `k`. */
  function H1From(s: string, k: nat): (r: Option<(nat, nat)>)
    ensures r.Some? ==> k <= r.value.0 && IsH1Match(s, r.value.0, r.value.1)
    ensures r.Some? ==> forall k', e' :: k <= k' < r.value.0 ==> !IsH1Match(s, k', e')
    ensures r.Some? ==> forall e' :: e' < r.value.1 ==> !IsH1Match(s, r.value.0, e')
    ensures r.None? ==> forall k', e' :: k <= k' ==> !IsH1Match(s, k', e')
    decreases |s| - k
  {
    if k + 4 > |s| then None
    else if OccursAt(s, "<h1>", k) && H1Close(s, k, k + 4).Some? then
      Some((k, H1Close(s, k, k + 4).value))
    else H1From(s, k + 1)
  }

  /** `(k, e)` is the match the regular expression engine reports: the leftmost
      `<h1>`, closed by the nearest `</h1>` after it. */
  ghost predicate FirstH1Match(s: string, k: int, e: int) {
    && IsH1Match(s, k, e)
    && forall k', e' :: IsH1Match(s, k', e') ==> k < k' || (k == k' && e <= e')
  }

  /** The title hint: the cleaned text of the first `<h1>` element, or
      "Title not found" when there is none. */
  function TitleHint(content: string, clean: string -> string): (r: string)
    ensures (forall k, e :: !IsH1Match(content, k, e)) ==> r == "Title not found"
    ensures (exists k, e :: IsH1Match(content, k, e)) ==>
              exists k, e :: FirstH1Match(content, k, e) && r == clean(content[k + 4..e])
  {
    match H1From(content, 0)
    case None => "Title not found"
    case Some((k, e)) =>
      assert FirstH1Match(content, k, e);
      clean(content[k + 4..e])
  }

  // ---------------------------------------------------------------------------
  // Title/artist reply: /\(title:(.+?),?\s*artist:(.+?)\)$/

  datatype TitleArtist = TitleArtist(judul: string, artis: string)

  /** The tail `,?\s*artist:(.+?)\)$` tried at position `p`; on success, the start of
      the artist group, which runs up to the closing parenthesis at the very end.
      The optional comma and the whitespace run are greedy, and backing off from
      either cannot help because "artist:" starts with a letter. */
  function ArtistTail(s: string, p: nat): (r: Option<nat>)
    requires p <= |s|
    ensures r.Some? ==> p < r.value < |s| - 1 && s[|s| - 1] == ')'
    ensures r.Some? ==> OccursAt(s, "artist:", r.value - 7) && NoLineTerminator(s[r.value..|s| - 1])
  {
    var c := if p < |s| && s[p] == ',' then 1 else 0;
    var a := SpaceRunEnd(s, p + c);
    if OccursAt(s, "artist:", a) && a + 7 < |s| - 1 && s[|s| - 1] == ')'
       && NoLineTerminator(s[a + 7..|s| - 1])
    then Some(a + 7) else None
  }

  /** Independently of how `ArtistTail` searches: the tail matches at `p` with
      "artist:" at `a` when between them lie an optional comma and then only
      whitespace, and after "artist:" a non-empty single-line group runs up to a
      closing parenthesis that ends the text. */
  predicate ArtistTailAt(s: string, p: nat, a: nat) {
    && p <= a && a + 7 < |s| - 1
    && (forall i :: p <= i < a ==> IsSpace(s[i]) || (i == p && s[i] == ','))
    && OccursAt(s, "artist:", a)
    && s[|s| - 1] == ')'
    && NoLineTerminator(s[a + 7..|s| - 1])
  }

  /** `ArtistTail` finds the tail exactly when one exists, and then the only one. */
  lemma ArtistTailExact(s: string, p: nat, a: nat)
    requires p <= |s|
    ensures ArtistTail(s, p) == Some(a + 7) <==> ArtistTailAt(s, p, a)
  {
    var c := if p < |s| && s[p] == ',' then 1 else 0;
    if ArtistTailAt(s, p, a) {
      assert s[a] == 'a' by { assert s[a..a + 7][0] == s[a]; }
      // "artist:" starts with neither whitespace nor a comma, so `a` ends the
      // whitespace run after the optional comma.
      SpaceRunEndIs(s, p + c, a);
    }
  }

  /** The whitespace run from `i` ends at the first non-whitespace character. */
  lemma {:induction false} SpaceRunEndIs(s: string, i: nat, a: nat)
    requires i <= a < |s|
    requires forall k :: i <= k < a ==> IsSpace(s[k])
    requires !IsSpace(s[a])
    ensures SpaceRunEnd(s, i) == a
    decreases a - i
  {
    if i < a {
      SpaceRunEndIs(s, i + 1, a);
    }
  }

  /** No tail starts at `p` exactly when `ArtistTail` finds none. */
  lemma ArtistTailNone(s: string, p: nat)
    requires p <= |s|
    ensures ArtistTail(s, p).None? <==> forall a: nat :: !ArtistTailAt(s, p, a)
  {
    if ArtistTail(s, p).Some? {
      var a: nat := ArtistTail(s, p).value - 7;
      ArtistTailExact(s, p, a);
    } else {
      forall a: nat ensures !ArtistTailAt(s, p, a) {
        ArtistTailExact(s, p, a);
      }
    }
  }

  /** The whole pattern matches with "(title:" at `k` and the title group ending at `p`. */
  predicate IsReplyMatch(s: string, k: int, p: int) {
    OccursAt(s, "(title:", k) && k + 7 < p <= |s| && NoLineTerminator(s[k + 7..p])
    && ArtistTail(s, p).Some?
  }

  /** A lazy search that found nothing from `p + 1` up to its answer, having
      failed at `p`, found nothing from `p` up to it either. */
  lemma NoMatchOneEarlier(s: string, k: nat, p: nat, r: Option<nat>)
    requires !IsReplyMatch(s, k, p)
    requires r.Some? ==> forall p' :: p + 1 <= p' < r.value ==> !IsReplyMatch(s, k, p')
    requires r.None? ==> forall p' :: p + 1 <= p' ==> !IsReplyMatch(s, k, p')
    ensures r.Some? ==> forall p' :: p <= p' < r.value ==> !IsReplyMatch(s, k, p')
    ensures r.None? ==> forall p' :: p <= p' ==> !IsReplyMatch(s, k, p')
  {
  }

  /** The title group cannot run past the end of the line it starts on. */
  lemma NoMatchPastLineEnd(s: string, k: nat, p: nat)
    requires k + 7 <= p && (p == |s| || (p < |s| && IsLineTerminator(s[p])))
    ensures forall p' :: p < p' ==> !IsReplyMatch(s, k, p')
  {
    forall p' | p < p' ensures !IsReplyMatch(s, k, p') {
      if p' <= |s| { assert s[k + 7..p'][p - (k + 7)] == s[p]; }
    }
  }

  /** The lazy title group `(.+?)` from "(title:" at `k`, trying ends from `p` on. */
  function TitleGroupEnd(s: string, k: nat, p: nat): (r: Option<nat>)
    requires OccursAt(s, "(title:", k) && k + 7 < p <= |s| && NoLineTerminator(s[k + 7..p])
    ensures r.Some? ==> p <= r.value && IsReplyMatch(s, k, r.value)
    ensures r.Some? ==> forall p' :: p <= p' < r.value ==> !IsReplyMatch(s, k, p')
    ensures r.None? ==> forall p' :: p <= p' ==> !IsReplyMatch(s, k, p')
    decreases |s| - p
  {
    if ArtistTail(s, p).Some? then Some(p)
    else if p < |s| && !IsLineTerminator(s[p]) then
      assert !IsReplyMatch(s, k, p);
      assert s[k + 7..p + 1] == s[k + 7..p] + [s[p]];
      var r := TitleGroupEnd(s, k, p + 1);
      NoMatchOneEarlier(s, k, p, r);
      r
    else
      NoMatchPastLineEnd(s, k, p);
      None
  }

  /** The leftmost match starting at or after `k`, with its lazy title group. */
  function ReplyMatchFrom(s: string, k: nat): (r: Option<(nat, nat)>)
    ensures r.Some? ==> k <= r.value.0 && IsReplyMatch(s, r.value.0, r.value.1)
    ensures r.Some? ==> forall k', p' :: k <= k' < r.value.0 ==> !IsReplyMatch(s, k', p')
    ensures r.Some? ==> forall p' :: p' < r.value.1 ==> !IsReplyMatch(s, r.value.0, p')
    ensures r.None? ==> forall k', p' :: k <= k' ==> !IsReplyMatch(s, k', p')
    decreases |s| - k
  {
    if k + 8 > |s| then None
    else if OccursAt(s, "(title:", k) && !IsLineTerminator(s[k + 7])
            && (assert s[k + 7..k + 8] == [s[k + 7]]; TitleGroupEnd(s, k, k + 8).Some?) then
      assert s[k + 7..k + 8] == [s[k + 7]];
      Some((k, TitleGroupEnd(s, k, k + 8).value))
    else
      assert forall p' :: !IsReplyMatch(s, k, p') by {
        forall p' ensures !IsReplyMatch(s, k, p') {
          if k + 7 < p' <= |s| { assert s[k + 7..p'][0] == s[k + 7]; }
        }
      }
      ReplyMatchFrom(s, k + 1)
  }

  /** `(k, p)` is the match the regular expression engine reports: the leftmost
      start, and of those the shortest (lazy) title group. */
  ghost predicate FirstReplyMatch(s: string, k: int, p: int) {
    && IsReplyMatch(s, k, p)
    && forall k', p' :: IsReplyMatch(s, k', p') ==> k < k' || (k == k' && p <= p')
  }

  /** `parseTitleArtist`: the trimmed title and artist groups of the reply, or
      "Unknown" for both when the reply does not match. */
  function ParseTitleArtist(text: string): (r: TitleArtist)
    ensures (forall k, p :: !IsReplyMatch(text, k, p)) ==> r == TitleArtist("Unknown", "Unknown")
    ensures Trimmed(r.judul) && Trimmed(r.artis)
    ensures (exists k, p :: IsReplyMatch(text, k, p)) ==>
              exists k, p :: && FirstReplyMatch(text, k, p)
                             && r == TitleArtist(Trim(text[k + 7..p]), Trim(text[ArtistTail(text, p).value..|text| - 1]))
  {
    match ReplyMatchFrom(text, 0)
    case None => TitleArtist("Unknown", "Unknown")
    case Some((k, p)) =>
      assert FirstReplyMatch(text, k, p);
      var q := ArtistTail(text, p).value;
      TitleArtist(Trim(text[k + 7..p]), Trim(text[q..|text| - 1]))
  }

  /** The reply format the prompt asks for: `(title:<t>,artist:<a>)`. */
  function FormatReply(t: string, a: string): string {
    "(title:" + t + ",artist:" + a + ")"
  }

  /** Where the parts of a formatted reply sit. */
  lemma FormatReplyShape(t: string, a: string)
    ensures var s := FormatReply(t, a);
            var n := 7 + |t|;
            && |s| == n + 9 + |a|
            && s[..7] == "(title:" && s[7..n] == t && s[n] == ','
            && s[n + 1..n + 8] == "artist:" && s[n + 8..|s| - 1] == a && s[|s| - 1] == ')'
  {
  }

  /** In a formatted reply the leftmost match starts at the beginning and its lazy
      title group ends at the comma before "artist:". */
  lemma FormattedReplyMatch(t: string, a: string)
    requires t != "" && a != "" && NoLineTerminator(t) && NoLineTerminator(a)
    requires !Contains(t, "artist:")
    ensures ReplyMatchFrom(FormatReply(t, a), 0).Some?
    ensures ReplyMatchFrom(FormatReply(t, a), 0).value == (0, 7 + |t|)
    ensures ArtistTail(FormatReply(t, a), 7 + |t|) == Some(15 + |t|)
  {
    var s := FormatReply(t, a);
    var n := 7 + |t|;
    FormatReplyShape(t, a);
    FormattedReplyTail(t, a);
    // No shorter title group matches.
    forall p' | 7 < p' < n ensures !IsReplyMatch(s, 0, p') {
      NoEarlierArtistTail(s, t, p');
    }
    LeftmostLazyMatch(s, n);
  }

  /** A match at the start whose title group no shorter group could replace is the
      one the regex finds. */
  lemma LeftmostLazyMatch(s: string, n: nat)
    requires IsReplyMatch(s, 0, n)
    requires forall p' :: 7 < p' < n ==> !IsReplyMatch(s, 0, p')
    ensures ReplyMatchFrom(s, 0).Some? && ReplyMatchFrom(s, 0).value == (0, n)
  {
    var m := ReplyMatchFrom(s, 0);
    assert m.Some? && m.value.0 == 0;
  }

  /** The intended split of a formatted reply is a match. */
  lemma FormattedReplyTail(t: string, a: string)
    requires t != "" && a != "" && NoLineTerminator(t) && NoLineTerminator(a)
    ensures ArtistTail(FormatReply(t, a), 7 + |t|) == Some(15 + |t|)
    ensures IsReplyMatch(FormatReply(t, a), 0, 7 + |t|)
  {
    var s := FormatReply(t, a);
    var n := 7 + |t|;
    FormatReplyShape(t, a);
    assert SpaceRunEnd(s, n + 1) == n + 1;
  }

  /** A reply in the requested format parses back to its (trimmed) title and artist,
      provided both are non-empty single lines and the title does not itself
      contain "artist:". */
  lemma ParseFormattedReply(t: string, a: string)
    requires t != "" && a != "" && NoLineTerminator(t) && NoLineTerminator(a)
    requires !Contains(t, "artist:")
    ensures ParseTitleArtist(FormatReply(t, a)) == TitleArtist(Trim(t), Trim(a))
  {
    var s := FormatReply(t, a);
    var n := 7 + |t|;
    FormatReplyShape(t, a);
    FormattedReplyMatch(t, a);
    ParsedGroups(s, n, n + 8);
  }

  /** What `parseTitleArtist` returns once the match and its groups are known. */
  lemma ParsedGroups(s: string, p: nat, q: nat)
    requires ReplyMatchFrom(s, 0).Some? && ReplyMatchFrom(s, 0).value == (0, p)
    requires ArtistTail(s, p) == Some(q)
    ensures 7 < p < q < |s| && ParseTitleArtist(s) == TitleArtist(Trim(s[7..p]), Trim(s[q..|s| - 1]))
  {
  }

  /** With the title followed by a comma, no title group ending inside the title
      is followed by a valid tail. */
  lemma NoEarlierArtistTail(s: string, t: string, p: nat)
    requires 7 + |t| < |s| && s[7..7 + |t|] == t && s[7 + |t|] == ','
    requires !Contains(t, "artist:")
    requires 7 < p < 7 + |t|
    ensures ArtistTail(s, p).None?
  {
    var n := 7 + |t|;
    var c := if p < |s| && s[p] == ',' then 1 else 0;
    var x := SpaceRunEnd(s, p + c);
    assert !IsSpace(s[n]);
    assert x <= n;
    if x + 7 <= n {
      var u, v := t[x - 7..x], s[x..x + 7];
      forall i | 0 <= i < 7 ensures u[i] == v[i] {
        assert t[x - 7 + i] == s[7..n][x - 7 + i];
      }
      assert u == v;
      assert OccursAt(s, "artist:", x) ==> OccursAt(t, "artist:", x - 7);
    } else if x + 7 <= |s| {
      assert s[x..x + 7][n - x] == s[n];
    }
  }

  // ---------------------------------------------------------------------------
  // Title/artist lookup and the engine's processContent

  /** What the title/artist service answered: the text of its first content block,
      no text at all (a missing or empty block), or a failed request. */
  datatype ApiReply = ReplyText(text: string) | NoText | RequestFailed(message: string)

  /** `callApi` after its network call: a text reply is parsed, a reply without
      text gives "Error"/"Error", a failed request becomes an "API Error". */
  function CallApi(reply: ApiReply): (r: Result<TitleArtist>)
    ensures r.Failure? <==> reply.RequestFailed?
    ensures r.Failure? ==> r.error == "API Error: " + reply.message
    ensures reply.ReplyText? && reply.text != "" ==> r == Success(ParseTitleArtist(reply.text))
    ensures (reply.NoText? || reply == ReplyText("")) ==> r == Success(TitleArtist("Error", "Error"))
  {
    match reply
    case ReplyText(text) =>
      if text != "" then Success(ParseTitleArtist(text)) else Success(TitleArtist("Error", "Error"))
    case NoText => Success(TitleArtist("Error", "Error"))
    case RequestFailed(message) => Failure("API Error: " + message)
  }

  /** The record an engine extracts from one file. */
  datatype Extracted =
    | LyricsRecord(judul: string, artis: string, lirik: string, originalText: string)
    | ChordRecord(judul: string, artis: string, chord: string, originalText: string)

  /** The body text an engine extracts, before the title/artist lookup. */
  function EngineBody(e: Engine, content: string, clean: string -> string): (r: string)
    ensures var lines := if e == Lyrics then LyricsLines(content, clean) else ChordLines(content, clean);
            var body := BodyText(lines, Sentinel(e));
            |r| <= |body| && body[|body| - |r|..] == r
    ensures var lines := if e == Lyrics then LyricsLines(content, clean) else ChordLines(content, clean);
            r == ProcessWithIntro(BodyText(lines, Sentinel(e)))
  {
    var lines := if e == Lyrics then LyricsLines(content, clean) else ChordLines(content, clean);
    ProcessWithIntro(BodyText(lines, Sentinel(e)))
  }

  /** `processContent` of engine `e`: the body is the pipeline's output, the title
      and artist come from the lookup (the `<h1>` text is only its query), and a
      failed lookup fails the file with the engine's prefix. */
  function ProcessContent(e: Engine, content: string, clean: string -> string,
                          api: string -> ApiReply): (r: Result<Extracted>)
    ensures var reply := api(TitleHint(content, clean));
            r.Failure? <==> reply.RequestFailed?
    ensures var reply := api(TitleHint(content, clean));
            r.Failure? ==> r.error == FailurePrefix(e) + "API Error: " + reply.message
    ensures r.Success? ==>
              && r.value.originalText == content
              && (r.value.LyricsRecord? <==> e == Lyrics)
              && TitleArtist(r.value.judul, r.value.artis) == CallApi(api(TitleHint(content, clean))).value
              && (if r.value.LyricsRecord? then r.value.lirik else r.value.chord)
                 == EngineBody(e, content, clean)
  {
    var body := EngineBody(e, content, clean);
    match CallApi(api(TitleHint(content, clean)))
    case Failure(m) => Failure(FailurePrefix(e) + m)
    case Success(ta) =>
      match e
      case Lyrics => Success(LyricsRecord(ta.judul, ta.artis, body, content))
      case Chord => Success(ChordRecord(ta.judul, ta.artis, body, content))
  }

  /** The prefix `processFile` puts before every error it re-throws. */
  function FileErrorPrefix(fileName: string): (r: string)
    ensures |r| == |fileName| + 19 && r[..17] == "Error processing " && r[|r| - 2..] == ": "
    ensures r[17..|r| - 2] == fileName
  {
    "Error processing " + fileName + ": "
  }

  lemma PrefixOfConcat(a: string, b: string)
    ensures (a + b)[..|a|] == a
  {
  }

  /** `processFile`: look the engine up by name and run it; every failure, the
      unknown engine included, is re-thrown as "Error processing <file>: ...". */
  function ProcessFile(content: string, fileName: string, engineType: string,
                       clean: Engine -> (string -> string), api: string -> ApiReply): (r: Result<Extracted>)
    ensures r.Success? <==>
              EngineNamed(engineType).Some?
              && ProcessContent(EngineNamed(engineType).value, content, clean(EngineNamed(engineType).value), api).Success?
    ensures r.Success? ==> r == ProcessContent(EngineNamed(engineType).value, content,
                                               clean(EngineNamed(engineType).value), api)
    ensures r.Failure? ==> |r.error| >= |fileName| + 19
                           && r.error[..|fileName| + 19] == FileErrorPrefix(fileName)
    ensures EngineNamed(engineType).None? ==>
              r == Failure(FileErrorPrefix(fileName) + ("Unknown engine type: " + engineType))
    ensures EngineNamed(engineType).Some? && r.Failure? ==>
              r.error == FileErrorPrefix(fileName)
                         + ProcessContent(EngineNamed(engineType).value, content,
                                          clean(EngineNamed(engineType).value), api).error
  {
    var prefix := FileErrorPrefix(fileName);
    match EngineNamed(engineType)
    case None =>
      var m := "Unknown engine type: " + engineType;
      PrefixOfConcat(prefix, m);
      Failure(prefix + m)
    case Some(e) =>
      match ProcessContent(e, content, clean(e), api)
      case Success(x) => Success(x)
      case Failure(m) =>
        PrefixOfConcat(prefix, m);
        Failure(prefix + m)
  }

  // ---------------------------------------------------------------------------
  // Output file name

  /** `output_<engine>_<id>.csv`. */
  function OutputFilename(engineType: string, id: string): string
  {
    "output_" + engineType + "_" + id + ".csv"
  }

  /** The engine name and the id can be read back from an output file name. */
  lemma OutputFilenameShape(engineType: string, id: string)
    ensures var r := OutputFilename(engineType, id);
      && |r| == |engineType| + |id| + 12
      && r[..7] == "output_" && r[|r| - 4..] == ".csv"
      && r[7..7 + |engineType|] == engineType && r[7 + |engineType|] == '_'
      && r[8 + |engineType|..|r| - 4] == id
  {
  }

  /** Two jobs of registered engines share an output file only if they have the same
      engine and the same id. */
  lemma OutputFilenameInjective(e1: Engine, id1: string, e2: Engine, id2: string)
    requires OutputFilename(EngineName(e1), id1) == OutputFilename(EngineName(e2), id2)
    ensures e1 == e2 && id1 == id2
  {
    OutputFilenameShape(EngineName(e1), id1);
    OutputFilenameShape(EngineName(e2), id2);
  }
}
