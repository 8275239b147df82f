/** Greedy wrapping of a card title: `title_lines` in plan.rs. Widths are real numbers and
    the width of a line is the sum of its words and spaces, as the code adds them. */
module Wrap {
  import opened Options

  datatype Measure = Measure(width: string -> real, blank: char -> bool)

  /** Widths are not negative, and the joining space is white space. */
  ghost predicate Sane(m: Measure) {
    m.blank(' ') && forall s :: m.width(s) >= 0.0
  }

  // ----- words -----

  /** `split_whitespace`: the maximal runs without white space. `Open` is the run that the
      end of the string leaves unfinished. */
  function Closed(m: Measure, s: string): seq<string>
    decreases |s|, 0
  {
    if s == [] then []
    else if m.blank(s[|s| - 1]) then Words(m, s[..|s| - 1])
    else Closed(m, s[..|s| - 1])
  }

  function Open(m: Measure, s: string): string {
    if s == [] || m.blank(s[|s| - 1]) then [] else Open(m, s[..|s| - 1]) + [s[|s| - 1]]
  }

  function Words(m: Measure, s: string): seq<string>
    decreases |s|, 1
  {
    Closed(m, s) + if Open(m, s) == [] then [] else [Open(m, s)]
  }

  predicate Solid(m: Measure, word: string) {
    forall k | 0 <= k < |word| :: !m.blank(word[k])
  }

  predicate AreWords(m: Measure, words: seq<string>) {
    forall k | 0 <= k < |words| :: words[k] != [] && Solid(m, words[k])
  }

  lemma {:induction false} WordsAreWords(m: Measure, s: string)
    ensures AreWords(m, Closed(m, s)) && AreWords(m, Words(m, s)) && Solid(m, Open(m, s))
  {
    if s != [] {
      WordsAreWords(m, s[..|s| - 1]);
    }
  }

  lemma {:induction false} OpenGrows(m: Measure, s: string, word: string)
    requires Solid(m, word)
    ensures Closed(m, s + word) == Closed(m, s) && Open(m, s + word) == Open(m, s) + word
  {
    if word == [] {
      assert s + word == s;
    } else {
      var last := |word| - 1;
      assert (s + word)[..|s + word| - 1] == s + word[..last];
      OpenGrows(m, s, word[..last]);
    }
  }

  /** One more word after a space. */
  lemma WordAdded(m: Measure, s: string, word: string)
    requires m.blank(' ') && word != [] && Solid(m, word)
    ensures Words(m, s + " " + word) == Words(m, s) + [word]
  {
    assert (s + " ")[..|s|] == s;
    OpenGrows(m, s + " ", word);
    assert Open(m, s + " ") == [];
    assert [] + word == word;
  }

  // ----- lines -----

  type Line = seq<string>

  function LineWidth(m: Measure, line: Line): real
    requires line != []
  {
    if |line| == 1 then m.width(line[0])
    else LineWidth(m, line[..|line| - 1]) + (m.width(" ") + m.width(line[|line| - 1]))
  }

  function Text(line: Line): string {
    if line == [] then "" else if |line| == 1 then line[0] else Text(line[..|line| - 1]) + " " + line[|line| - 1]
  }

  function Texts(lines: seq<Line>): (t: seq<string>)
    ensures |t| == |lines|
  {
    seq(|lines|, k requires 0 <= k < |lines| => Text(lines[k]))
  }

  function Flatten(lines: seq<Line>): seq<string> {
    if lines == [] then [] else Flatten(lines[..|lines| - 1]) + lines[|lines| - 1]
  }

  predicate FitsAlone(m: Measure, word: string, room: real) {
    m.width(word) <= room + 0.5
  }

  predicate AllFitAlone(m: Measure, words: seq<string>, room: real) {
    forall k | 0 <= k < |words| :: FitsAlone(m, words[k], room)
  }

  predicate Fits(m: Measure, lines: seq<Line>, room: real) {
    forall k | 0 <= k < |lines| :: lines[k] != [] && LineWidth(m, lines[k]) <= room + 0.5
  }

  /** Whether the open line takes one more word. */
  predicate Takes(m: Measure, line: Line, word: string, room: real)
    requires line != []
  {
    LineWidth(m, line) + (m.width(" ") + m.width(word)) <= room + 0.5
  }

  predicate NonEmpty(lines: seq<Line>) {
    forall k | 0 <= k < |lines| :: lines[k] != []
  }

  function AddWord(m: Measure, g: seq<Line>, word: string, room: real): (r: seq<Line>)
    requires NonEmpty(g)
    ensures r != [] && NonEmpty(r)
    ensures g != [] && Takes(m, g[|g| - 1], word, room) ==> |r| == |g| && r[|r| - 1] == g[|g| - 1] + [word]
    ensures g == [] || !Takes(m, g[|g| - 1], word, room) ==> |r| == |g| + 1 && r[|r| - 1] == [word]
    ensures Flatten(r) == Flatten(g) + [word]
  {
    FlattenLast(g, word);
    if g != [] && Takes(m, g[|g| - 1], word, room)
    then g[..|g| - 1] + [g[|g| - 1] + [word]]
    else g + [[word]]
  }

  /** What the loop builds from the words so far; the last line is the open one. */
  function Greedy(m: Measure, words: seq<string>, room: real): (g: seq<Line>)
    ensures g == [] <==> words == []
    ensures NonEmpty(g)
  {
    if words == [] then [] else AddWord(m, Greedy(m, words[..|words| - 1], room), words[|words| - 1], room)
  }

  /** `title_lines`. */
  method TitleLines(m: Measure, title: string, room: real) returns (r: Option<seq<string>>)
    ensures r.Some? <==> AllFitAlone(m, Words(m, title), room)
    ensures r.Some? ==> r.value == Texts(Greedy(m, Words(m, title), room))
  {
    WordsAreWords(m, title);
    r := WrapWords(m, Words(m, title), room);
  }

  /** Its loop over the words. */
  method WrapWords(m: Measure, words: seq<string>, room: real) returns (r: Option<seq<string>>)
    requires AreWords(m, words)
    ensures r.Some? <==> AllFitAlone(m, words, room)
    ensures r.Some? ==> r.value == Texts(Greedy(m, words, room))
  {
    var space := m.width(" ");
    var lines: seq<string>, line, lineW := [], "", 0.0;
    for k := 0 to |words|
      invariant AllFitAlone(m, words[..k], room)
      invariant k == 0 ==> lines == [] && line == ""
      invariant k > 0 ==> line != "" && Held(m, words[..k], room, lines, line, lineW)
    {
      var word := words[k];
      var ww := m.width(word);
      if ww > room + 0.5 {
        assert !FitsAlone(m, words[k], room);
        return None;
      }
      assert words[..k + 1] == words[..k] + [word];
      if line == "" {
        OneWord(m, word, room);
        line, lineW := word, ww;
      } else {
        WordHeld(m, words[..k], word, room, lines, line, lineW);
        if lineW + (space + ww) <= room + 0.5 {
          line, lineW := line + " " + word, lineW + (space + ww);
        } else {
          lines := lines + [line];
          line, lineW := word, ww;
        }
      }
    }
    assert words[..|words|] == words;
    if line != "" {
      lines := lines + [line];
    }
    return Some(lines);
  }

  /** The loop's variables hold the greedy lines: all but the last as text, then the last. */
  predicate Held(m: Measure, words: seq<string>, room: real, lines: seq<string>, line: string, lineW: real) {
    var g := Greedy(m, words, room);
    g != [] && Texts(g) == lines + [line] && lineW == LineWidth(m, g[|g| - 1])
  }

  lemma OneWord(m: Measure, word: string, room: real)
    ensures Held(m, [word], room, [], word, m.width(word))
  {
  }

  lemma WordHeld(m: Measure, words: seq<string>, word: string, room: real, lines: seq<string>, line: string,
                 lineW: real)
    requires Held(m, words, room, lines, line, lineW)
    ensures if lineW + (m.width(" ") + m.width(word)) <= room + 0.5
            then Held(m, words + [word], room, lines, line + " " + word, lineW + (m.width(" ") + m.width(word)))
            else Held(m, words + [word], room, lines + [line], word, m.width(word))
  {
    var g := Greedy(m, words, room);
    assert (words + [word])[..|words|] == words;
    assert Greedy(m, words + [word], room) == AddWord(m, g, word, room);
    assert Texts(g)[|g| - 1] == line;
    LineGrows(m, g[|g| - 1], word);
    if Takes(m, g[|g| - 1], word, room) {
      LastReplaced(g, g[|g| - 1] + [word], lines, line);
    } else {
      assert Texts(g + [[word]]) == Texts(g) + [word];
    }
  }

  lemma LineGrows(m: Measure, line: Line, word: string)
    requires line != []
    ensures LineWidth(m, line + [word]) == LineWidth(m, line) + (m.width(" ") + m.width(word))
    ensures Text(line + [word]) == Text(line) + " " + word
  {
  }

  lemma LastReplaced(g: seq<Line>, now: Line, lines: seq<string>, line: string)
    requires g != [] && Texts(g) == lines + [line]
    ensures Texts(g[..|g| - 1] + [now]) == lines + [Text(now)]
  {
    var last := |g| - 1;
    forall k | 0 <= k < last ensures Text(g[k]) == lines[k] {
      assert Texts(g)[k] == (lines + [line])[k];
    }
    assert |lines| == last;
  }

  // ----- what the lines are -----

  /** Every line is within the room when every word alone is. */
  lemma {:induction false} GreedyFits(m: Measure, words: seq<string>, room: real)
    requires AllFitAlone(m, words, room)
    ensures Fits(m, Greedy(m, words, room), room)
  {
    if words != [] {
      var g, word := Greedy(m, words[..|words| - 1], room), words[|words| - 1];
      GreedyFits(m, words[..|words| - 1], room);
      if g != [] {
        LineGrows(m, g[|g| - 1], word);
      }
    }
  }

  lemma FlattenLast(g: seq<Line>, word: string)
    ensures Flatten(g + [[word]]) == Flatten(g) + [word]
    ensures g != [] ==> Flatten(g[..|g| - 1] + [g[|g| - 1] + [word]]) == Flatten(g) + [word]
  {
    FlattenSnoc(g, [word]);
    if g != [] {
      FlattenSnoc(g[..|g| - 1], g[|g| - 1] + [word]);
      assert Flatten(g[..|g| - 1]) + (g[|g| - 1] + [word]) == Flatten(g) + [word];
    }
  }

  lemma FlattenSnoc(g: seq<Line>, line: Line)
    ensures Flatten(g + [line]) == Flatten(g) + line
  {
    assert (g + [line])[..|g|] == g;
  }

  /** The lines hold the words in order. */
  lemma {:induction false} GreedyFlatten(m: Measure, words: seq<string>, room: real)
    ensures Flatten(Greedy(m, words, room)) == words
  {
    if words != [] {
      GreedyFlatten(m, words[..|words| - 1], room);
      assert words == words[..|words| - 1] + [words[|words| - 1]];
    }
  }

  /** A line's text reads back as its words. */
  lemma {:induction false} TextReadsBack(m: Measure, line: Line)
    requires m.blank(' ') && AreWords(m, line)
    ensures Words(m, Text(line)) == line
  {
    if |line| == 1 {
      OpenGrows(m, "", line[0]);
      assert "" + line[0] == line[0];
    } else if |line| > 1 {
      var prefix, word := line[..|line| - 1], line[|line| - 1];
      TextReadsBack(m, prefix);
      WordAdded(m, Text(prefix), word);
      assert line == prefix + [word];
    }
  }

  function AllWords(m: Measure, texts: seq<string>): seq<string> {
    if texts == [] then [] else AllWords(m, texts[..|texts| - 1]) + Words(m, texts[|texts| - 1])
  }

  lemma {:induction false} LinesReadBack(m: Measure, lines: seq<Line>)
    requires m.blank(' ') && AreWords(m, Flatten(lines))
    ensures AllWords(m, Texts(lines)) == Flatten(lines)
  {
    if lines != [] {
      var prefix, line := lines[..|lines| - 1], lines[|lines| - 1];
      assert forall k | 0 <= k < |line| :: line[k] == Flatten(lines)[|Flatten(prefix)| + k];
      assert forall k | 0 <= k < |Flatten(prefix)| :: Flatten(prefix)[k] == Flatten(lines)[k];
      LinesReadBack(m, prefix);
      TextReadsBack(m, line);
      assert Texts(lines)[..|lines| - 1] == Texts(prefix);
    }
  }

  /** The words of the returned lines are the words of the title, in order. */
  lemma TitleReadsBack(m: Measure, title: string, room: real)
    requires Sane(m)
    ensures AllWords(m, Texts(Greedy(m, Words(m, title), room))) == Words(m, title)
  {
    WordsAreWords(m, title);
    GreedyFlatten(m, Words(m, title), room);
    LinesReadBack(m, Greedy(m, Words(m, title), room));
  }

  // ----- no fewer lines -----

  lemma {:induction false} WidthNotNegative(m: Measure, line: Line)
    requires Sane(m) && line != []
    ensures LineWidth(m, line) >= 0.0
  {
    if |line| > 1 {
      WidthNotNegative(m, line[..|line| - 1]);
    }
  }

  lemma {:induction false} EndIsNarrower(m: Measure, line: Line, from: nat)
    requires Sane(m) && from < |line|
    ensures LineWidth(m, line[from..]) <= LineWidth(m, line)
  {
    if |line| > 1 {
      var prefix := line[..|line| - 1];
      if from == |line| - 1 {
        WidthNotNegative(m, prefix);
        assert line[from..] == [line[|line| - 1]];
      } else {
        EndIsNarrower(m, prefix, from);
        assert line[from..][..|line[from..]| - 1] == prefix[from..];
      }
    }
  }

  /** Greedy against any other wrap: fewer lines, or as many with a last line no longer. */
  predicate Ahead(g: seq<Line>, other: seq<Line>) {
    |g| < |other| || (|g| == |other| && (g == [] || |g[|g| - 1]| <= |other[|other| - 1]|))
  }

  lemma {:induction false} GreedyAhead(m: Measure, words: seq<string>, room: real, other: seq<Line>)
    requires Sane(m) && Flatten(other) == words && Fits(m, other, room)
    ensures Ahead(Greedy(m, words, room), other)
  {
    if words == [] {
      assert Greedy(m, words, room) == [];
    } else {
      assert other != [];
      var last := other[|other| - 1];
      var init, word := words[..|words| - 1], words[|words| - 1];
      assert last[|last| - 1] == word;
      var fewer := WithoutWord(other);
      WithoutWordWraps(m, words, room, other);
      GreedyAhead(m, init, room, fewer);
      var g := Greedy(m, init, room);
      if |last| > 1 && |g| == |fewer| {
        GreedyFlatten(m, init, room);
        TakesToo(m, g, word, room, other);
      }
      AheadStep(m, g, word, room, other);
    }
  }

  /** The same wrap of all words but the last. */
  function WithoutWord(other: seq<Line>): seq<Line>
    requires other != [] && other[|other| - 1] != []
  {
    var n, last := |other| - 1, other[|other| - 1];
    if |last| == 1 then other[..n] else other[..n] + [last[..|last| - 1]]
  }

  lemma WithoutWordWraps(m: Measure, words: seq<string>, room: real, other: seq<Line>)
    requires Sane(m) && words != [] && other != [] && Flatten(other) == words && Fits(m, other, room)
    ensures Flatten(WithoutWord(other)) == words[..|words| - 1] && Fits(m, WithoutWord(other), room)
  {
    var last := other[|other| - 1];
    WithoutWordText(other);
    if |last| > 1 {
      ShorterLine(m, last);
    }
  }

  lemma ShorterLine(m: Measure, line: Line)
    requires Sane(m) && |line| > 1
    ensures LineWidth(m, line[..|line| - 1]) <= LineWidth(m, line)
  {
  }

  lemma WithoutWordText(other: seq<Line>)
    requires other != [] && other[|other| - 1] != []
    ensures Flatten(WithoutWord(other)) == Flatten(other)[..|Flatten(other)| - 1]
  {
    var begin, last := other[..|other| - 1], other[|other| - 1];
    var shorter := last[..|last| - 1];
    if |last| > 1 {
      FlattenSnoc(begin, shorter);
    }
    assert Flatten(WithoutWord(other)) == Flatten(begin) + shorter;
    assert (Flatten(begin) + last)[..|Flatten(begin)| + |shorter|] == Flatten(begin) + shorter;
  }

  /** The last line is where the text ends. */
  lemma LastIsEnd(lines: seq<Line>)
    requires lines != []
    ensures var words, last := Flatten(lines), lines[|lines| - 1];
            |last| <= |words| && last == words[|words| - |last|..]
  {
  }

  lemma SharedEnd(g: seq<Line>, fewer: seq<Line>)
    requires g != [] && fewer != [] && Flatten(g) == Flatten(fewer)
    requires |g[|g| - 1]| <= |fewer[|fewer| - 1]|
    ensures var mine, theirs := g[|g| - 1], fewer[|fewer| - 1]; mine == theirs[|theirs| - |mine|..]
  {
    LastIsEnd(g);
    LastIsEnd(fewer);
  }

  /** If greedy's last line is no longer than the other's, one more word that fits there fits here. */
  lemma ShorterFits(m: Measure, g: seq<Line>, fewer: seq<Line>, word: string, room: real)
    requires Sane(m) && g != [] && fewer != [] && Flatten(g) == Flatten(fewer)
    requires g[|g| - 1] != [] && |g[|g| - 1]| <= |fewer[|fewer| - 1]|
    requires LineWidth(m, fewer[|fewer| - 1] + [word]) <= room + 0.5
    ensures LineWidth(m, g[|g| - 1]) + (m.width(" ") + m.width(word)) <= room + 0.5
  {
    var mine, theirs := g[|g| - 1], fewer[|fewer| - 1];
    var from := |theirs| - |mine|;
    SharedEnd(g, fewer);
    EndIsNarrower(m, theirs + [word], from);
    assert (theirs + [word])[from..] == mine + [word];
    LineGrows(m, mine, word);
  }

  lemma AheadStep(m: Measure, g: seq<Line>, word: string, room: real, other: seq<Line>)
    requires NonEmpty(g) && NonEmpty(other) && other != []
    requires Ahead(g, WithoutWord(other))
    requires |other[|other| - 1]| > 1 && |g| == |WithoutWord(other)| ==> Takes(m, g[|g| - 1], word, room)
    ensures Ahead(AddWord(m, g, word, room), other)
  {
  }

  /** Where greedy could fall behind, its last line takes the word too. */
  lemma TakesToo(m: Measure, g: seq<Line>, word: string, room: real, other: seq<Line>)
    requires Sane(m) && NonEmpty(g) && g != [] && other != []
    requires var last := other[|other| - 1]; |last| > 1 && last[|last| - 1] == word && LineWidth(m, last) <= room + 0.5
    requires Flatten(g) == Flatten(WithoutWord(other)) && |g| == |WithoutWord(other)| && Ahead(g, WithoutWord(other))
    ensures Takes(m, g[|g| - 1], word, room)
  {
    var last, fewer := other[|other| - 1], WithoutWord(other);
    assert last == last[..|last| - 1] + [word];
    assert fewer[|fewer| - 1] == last[..|last| - 1];
    ShorterFits(m, g, fewer, word, room);
  }

  /** No other wrap into lines that fit uses fewer lines. */
  lemma GreedyIsOptimal(m: Measure, title: string, room: real, other: seq<Line>)
    requires Sane(m) && Flatten(other) == Words(m, title) && Fits(m, other, room)
    ensures |Greedy(m, Words(m, title), room)| <= |other|
  {
    GreedyAhead(m, Words(m, title), room, other);
  }

  lemma {:induction false} WordIsNarrower(m: Measure, line: Line, k: nat)
    requires Sane(m) && k < |line|
    ensures m.width(line[k]) <= LineWidth(m, line)
  {
    if |line| > 1 {
      WidthNotNegative(m, line[..|line| - 1]);
      if k < |line| - 1 {
        WordIsNarrower(m, line[..|line| - 1], k);
      }
    }
  }

  /** Where no lines are returned, no wrap fits at all. */
  lemma {:induction false} AnyWrapFitsWords(m: Measure, other: seq<Line>, room: real)
    requires Sane(m) && Fits(m, other, room)
    ensures AllFitAlone(m, Flatten(other), room)
  {
    if other != [] {
      var prefix, line := other[..|other| - 1], other[|other| - 1];
      AnyWrapFitsWords(m, prefix, room);
      forall k | 0 <= k < |line| ensures FitsAlone(m, line[k], room) {
        WordIsNarrower(m, line, k);
      }
    }
  }
}
