/** The greedy line wrapper, and why no layout of the same words takes fewer lines. A space is a blank. */
module Wrapping {

  import opened TextWords

  /** Words with one space between each two. */
  function Joined(words: seq<string>): string
    requires words != []
    decreases |words|
  {
    if |words| == 1 then words[0] else words[0] + " " + Joined(words[1..])
  }

  lemma {:induction false} JoinedSnoc(words: seq<string>, word: string)
    requires words != []
    ensures Joined(words + [word]) == Joined(words) + " " + word
    decreases |words|
  {
    if |words| == 1 {
      assert (words + [word])[1..] == [word];
    } else {
      assert (words + [word])[1..] == words[1..] + [word];
      JoinedSnoc(words[1..], word);
    }
  }

  lemma RunOfWord(word: string, rest: string, blank: Blank)
    requires IsWord(word, blank) && (rest == "" || blank(rest[0]))
    ensures RunLength(word + rest, blank) == |word|
  {
    assert forall i :: 0 <= i < |word| ==> (word + rest)[i] == word[i];
    assert rest != "" ==> (word + rest)[|word|] == rest[0];
  }

  /** Splitting what was joined gives the words back. */
  lemma {:induction false} SplitJoined(words: seq<string>, blank: Blank)
    requires words != [] && blank(' ') && forall i :: 0 <= i < |words| ==> IsWord(words[i], blank)
    ensures Words(Joined(words), blank) == words
    decreases |words|
  {
    var line, word := Joined(words), words[0];
    assert IsWord(word, blank);
    if |words| == 1 {
      SplitFirst(word, "", blank);
      assert line == word + "";
    } else {
      var rest := " " + Joined(words[1..]);
      SplitFirst(word, rest, blank);
      assert line == word + rest;
      assert rest[1..] == Joined(words[1..]);
      SplitJoined(words[1..], blank);
    }
  }

  lemma SplitFirst(word: string, rest: string, blank: Blank)
    requires IsWord(word, blank) && (rest == "" || blank(rest[0]))
    ensures Words(word + rest, blank) == [word] + Words(rest, blank)
  {
    RunOfWord(word, rest, blank);
    var line := word + rest;
    assert line[0] == word[0] && line[..|word|] == word && line[|word|..] == rest;
  }

  /** No line holding some words is shorter than the words joined. */
  lemma {:induction false} JoinedIsShortest(line: string, blank: Blank)
    requires Words(line, blank) != []
    ensures |Joined(Words(line, blank))| <= |line|
    decreases |line|
  {
    if blank(line[0]) {
      JoinedIsShortest(line[1..], blank);
    } else {
      var n := RunLength(line, blank);
      var rest := line[n..];
      var words := [line[..n]] + Words(rest, blank);
      assert words[1..] == Words(rest, blank);
      if words[1..] != [] {
        assert rest != "" && blank(rest[0]);
        JoinedIsShortest(rest[1..], blank);
      }
    }
  }

  // ---------------------------------------------------------------- layouts

  /** A run of words that may stand on one line: it fits, or is one long word. */
  ghost predicate Fits(words: seq<string>, width: int) {
    words != [] && (|words| == 1 || |Joined(words)| <= width)
  }

  function Flat(parts: seq<seq<string>>): seq<string> {
    if parts == [] then [] else parts[0] + Flat(parts[1..])
  }

  ghost predicate IsSplit(parts: seq<seq<string>>, words: seq<string>, width: int) {
    Flat(parts) == words && forall i :: 0 <= i < |parts| ==> Fits(parts[i], width)
  }

  /** What the loop does with the words still to come, having `current` on the open line. */
  function Greedy(current: seq<string>, words: seq<string>, width: int): (parts: seq<seq<string>>)
    requires current != []
    ensures parts != []
    decreases |words|
  {
    if words == [] then [current]
    else if |Joined(current + [words[0]])| > width then [current] + Greedy([words[0]], words[1..], width)
    else Greedy(current + [words[0]], words[1..], width)
  }

  lemma {:induction false} GreedySplits(current: seq<string>, words: seq<string>, width: int)
    requires Fits(current, width)
    ensures IsSplit(Greedy(current, words, width), current + words, width)
    decreases |words|
  {
    if words == [] {
      assert [current][1..] == [];
    } else if |Joined(current + [words[0]])| > width {
      var rest := Greedy([words[0]], words[1..], width);
      GreedySplits([words[0]], words[1..], width);
      assert ([current] + rest)[1..] == rest;
      assert [words[0]] + words[1..] == words;
    } else {
      GreedySplits(current + [words[0]], words[1..], width);
      assert current + [words[0]] + words[1..] == current + words;
    }
  }

  /** Dropping words off the front of a line leaves it fitting. */
  lemma {:induction false} SuffixFits(a: seq<string>, b: seq<string>, width: int)
    requires b != [] && Fits(a + b, width)
    ensures Fits(b, width)
    decreases |a|
  {
    if a == [] {
      assert a + b == b;
    } else {
      assert (a + b)[1..] == a[1..] + b;
      assert Fits(a[1..] + b, width);
      SuffixFits(a[1..], b, width);
    }
  }

  /** A line that holds more does not fit where one that holds less does not. */
  lemma {:induction false} PrefixIsShorter(a: seq<string>, b: seq<string>)
    requires a != []
    ensures |Joined(a)| <= |Joined(a + b)|
    decreases |a|
  {
    if b == [] {
      assert a + b == a;
    } else if |a| == 1 {
      assert (a + b)[0] == a[0];
    } else {
      assert (a + b)[1..] == a[1..] + b;
      PrefixIsShorter(a[1..], b);
    }
  }

  /** Two ways of cutting the same words: the shorter head is a prefix of the longer. */
  lemma Overlap(head: seq<string>, tail: seq<string>, open: seq<string>, rest: seq<string>)
    requires head + tail == open + rest
    ensures |head| <= |open| ==> open == head + open[|head|..] && tail == open[|head|..] + rest
    ensures |head| > |open| ==> head == open + head[|open|..] && rest == head[|open|..] + tail
  {
    var all := head + tail;
    assert all[..|head|] == head && all[|head|..] == tail && all[..|open|] == open && all[|open|..] == rest;
    if |head| <= |open| {
      assert open == all[..|head|] + all[|head|..|open|];
      assert tail == all[|head|..|open|] + all[|open|..];
      assert open[|head|..] == all[|head|..|open|];
    } else {
      assert head == all[..|open|] + all[|open|..|head|];
      assert rest == all[|open|..|head|] + all[|head|..];
      assert head[|open|..] == all[|open|..|head|];
    }
  }

  /** The greedy layout stays ahead. Another layout that is still on words the open line has already
      taken, `late` of them, needs at least as many more lines, less the one it may already have used. */
  lemma {:induction false} StaysAhead(taken: seq<string>, late: seq<string>, words: seq<string>, width: int,
                                      other: seq<seq<string>>)
    requires taken + late != [] && IsSplit(other, late + words, width)
    ensures |Greedy(taken + late, words, width)| <= |other| + if taken == [] then 0 else 1
    decreases |words|, |other|
  {
    var current := taken + late;
    if words == [] {
      if taken == [] {
        assert other != [];
      }
    } else {
      var word, rest := words[0], words[1..];
      assert late + words == late + [word] + rest;
      if |Joined(current + [word])| <= width {
        assert current + [word] == taken + (late + [word]);
        StaysAhead(taken, late + [word], rest, width, other);
      } else {
        AheadOnBreak(taken, late, words, width, other);
      }
    }
  }

  lemma {:induction false} AheadOnBreak(taken: seq<string>, late: seq<string>, words: seq<string>, width: int,
                                        other: seq<seq<string>>)
    requires taken + late != [] && IsSplit(other, late + words, width)
    requires words != [] && |Joined(taken + late + [words[0]])| > width
    ensures |Greedy(taken + late, words, width)| <= |other| + if taken == [] then 0 else 1
    decreases |words|, |other|, 0
  {
    var word, rest := words[0], words[1..];
    assert words == [word] + rest;
    assert other != [];
    var head, tail := other[0], other[1..];
    assert Fits(head, width);
    assert IsSplit(tail, Flat(tail), width);
    Overlap(head, Flat(tail), late, words);
    if |head| <= |late| {
      assert taken + late == (taken + head) + late[|head|..];
      StaysAhead(taken + head, late[|head|..], words, width, tail);
    } else {
      var more := head[|late|..];
      assert more[0] == word && more == [word] + more[1..];
      assert head == (late + [word]) + more[1..];
      PrefixIsShorter(late + [word], more[1..]);
      assert [] + late + [word] == late + [word];
      assert taken != [];
      SuffixFits(late, more, width);
      var shorter := [more] + tail;
      assert shorter[1..] == tail;
      assert [] + [word] == [word];
      StaysAhead([], [word], rest, width, shorter);
    }
  }

  // ---------------------------------------------------------------- the wrapper

  function LeftStripped(text: string, blank: Blank): string {
    if text != "" && blank(text[0]) then LeftStripped(text[1..], blank) else text
  }

  function RightStripped(text: string, blank: Blank): string {
    if text != "" && blank(text[|text| - 1]) then RightStripped(text[..|text| - 1], blank) else text
  }

  function Stripped(text: string, blank: Blank): string {
    RightStripped(LeftStripped(text, blank), blank)
  }

  /** The words of the lines, one line after the other. */
  function WordsOf(lines: seq<string>, blank: Blank): seq<string> {
    if lines == [] then [] else Words(lines[0], blank) + WordsOf(lines[1..], blank)
  }

  /** A layout of the text: the same words, some on each line, no line over the width but a single long word. */
  ghost predicate LaysOut(lines: seq<string>, text: string, width: int, blank: Blank) {
    && WordsOf(lines, blank) == Words(text, blank)
    && forall i :: 0 <= i < |lines| ==>
         var words := Words(lines[i], blank);
         words != [] && (|words| == 1 || |lines[i]| <= width)
  }

  /** One space between words, and none at either end. */
  ghost predicate Tight(line: string, blank: Blank) {
    Words(line, blank) != [] && line == Joined(Words(line, blank))
  }

  function JoinedAll(parts: seq<seq<string>>): (lines: seq<string>)
    requires forall i :: 0 <= i < |parts| ==> parts[i] != []
    ensures |lines| == |parts| && forall i :: 0 <= i < |parts| ==> lines[i] == Joined(parts[i])
  {
    if parts == [] then [] else [Joined(parts[0])] + JoinedAll(parts[1..])
  }

  /** The candidate for the open line is the open line with the word joined on. */
  lemma CandidateIsJoined(current: seq<string>, word: string, blank: Blank)
    requires IsWord(word, blank) && blank(' ')
    requires forall i :: 0 <= i < |current| ==> IsWord(current[i], blank)
    ensures current == [] ==> Stripped("" + " " + word, blank) == word
    ensures current != [] ==> Stripped(Joined(current) + " " + word, blank) == Joined(current + [word])
  {
    if current == [] {
      assert ("" + " " + word)[1..] == word;
      NothingToStrip(word, blank);
    } else {
      StartsWithWord(current, blank);
      JoinedSnoc(current, word);
      var candidate := Joined(current) + " " + word;
      assert candidate[0] == Joined(current)[0] && candidate[|candidate| - 1] == word[|word| - 1];
      NothingToStrip(candidate, blank);
    }
  }

  lemma NothingToStrip(text: string, blank: Blank)
    requires text != "" && !blank(text[0]) && !blank(text[|text| - 1])
    ensures Stripped(text, blank) == text
  {
  }

  lemma StartsWithWord(words: seq<string>, blank: Blank)
    requires words != [] && IsWord(words[0], blank)
    ensures Joined(words) != "" && !blank(Joined(words)[0])
  {
    assert Joined(words)[0] == words[0][0];
  }

  lemma {:induction false} JoinedAllSnoc(parts: seq<seq<string>>, part: seq<string>)
    requires part != [] && forall i :: 0 <= i < |parts| ==> parts[i] != []
    ensures JoinedAll(parts + [part]) == JoinedAll(parts) + [Joined(part)]
  {
    assert forall i :: 0 <= i < |parts| ==> (parts + [part])[i] == parts[i];
  }

  function GreedyOf(words: seq<string>, width: int): (parts: seq<seq<string>>) {
    if words == [] then [] else Greedy([words[0]], words[1..], width)
  }

  lemma GreedyOfSplits(words: seq<string>, width: int)
    ensures IsSplit(GreedyOf(words, width), words, width)
  {
    if words != [] {
      GreedySplits([words[0]], words[1..], width);
      assert [words[0]] + words[1..] == words;
    }
  }

  ghost predicate AllWords(words: seq<string>, blank: Blank) {
    forall i :: 0 <= i < |words| ==> IsWord(words[i], blank)
  }

  /** The lines of a split hold exactly its parts. */
  lemma {:induction false} LinesHoldParts(parts: seq<seq<string>>, blank: Blank)
    requires blank(' ') && AllWords(Flat(parts), blank) && forall i :: 0 <= i < |parts| ==> parts[i] != []
    ensures WordsOf(JoinedAll(parts), blank) == Flat(parts)
    ensures forall i :: 0 <= i < |parts| ==> Words(JoinedAll(parts)[i], blank) == parts[i]
    decreases |parts|
  {
    if parts != [] {
      var flat, rest := Flat(parts), Flat(parts[1..]);
      assert forall i :: 0 <= i < |parts[0]| ==> flat[i] == parts[0][i];
      assert forall i :: 0 <= i < |rest| ==> rest[i] == flat[|parts[0]| + i];
      SplitJoined(parts[0], blank);
      LinesHoldParts(parts[1..], blank);
    }
  }

  function PartsOf(lines: seq<string>, blank: Blank): (parts: seq<seq<string>>)
    ensures |parts| == |lines|
  {
    seq(|lines|, i requires 0 <= i < |lines| => Words(lines[i], blank))
  }

  lemma {:induction false} PartsAreFlat(lines: seq<string>, blank: Blank)
    ensures Flat(PartsOf(lines, blank)) == WordsOf(lines, blank)
    decreases |lines|
  {
    if lines != [] {
      assert PartsOf(lines, blank)[1..] == PartsOf(lines[1..], blank);
      PartsAreFlat(lines[1..], blank);
    }
  }

  /** No layout of the text takes fewer lines. */
  lemma FewestLines(text: string, width: int, blank: Blank, other: seq<string>)
    requires LaysOut(other, text, width, blank)
    ensures |GreedyOf(Words(text, blank), width)| <= |other|
  {
    var words, parts := Words(text, blank), PartsOf(other, blank);
    PartsAreFlat(other, blank);
    forall i | 0 <= i < |parts| ensures Fits(parts[i], width) {
      JoinedIsShortest(other[i], blank);
    }
    if words != [] {
      assert [words[0]] + words[1..] == words && [] + [words[0]] == [words[0]];
      StaysAhead([], [words[0]], words[1..], width, parts);
    }
  }

  lemma {:induction false} LinesKeepTheirText(lines: seq<string>, blank: Blank)
    ensures Visible(Together(lines), blank) == Together(WordsOf(lines, blank))
    decreases |lines|
  {
    if lines != [] {
      VisibleConcat(lines[0], Together(lines[1..]), blank);
      WordsAreTheText(lines[0], blank);
      TogetherConcat(Words(lines[0], blank), WordsOf(lines[1..], blank));
      LinesKeepTheirText(lines[1..], blank);
    }
  }

  /** Any layout keeps every character of the text that is not blank, in order, and adds none. */
  lemma LayoutKeepsTheText(lines: seq<string>, text: string, width: int, blank: Blank)
    requires LaysOut(lines, text, width, blank)
    ensures Visible(Together(lines), blank) == Visible(text, blank)
  {
    LinesKeepTheirText(lines, blank);
    WordsAreTheText(text, blank);
  }

  lemma GreedyLaysOut(text: string, width: int, blank: Blank)
    requires blank(' ')
    ensures forall i :: 0 <= i < |GreedyOf(Words(text, blank), width)| ==> GreedyOf(Words(text, blank), width)[i] != []
    ensures LaysOut(JoinedAll(GreedyOf(Words(text, blank), width)), text, width, blank)
    ensures forall i :: 0 <= i < |GreedyOf(Words(text, blank), width)|
              ==> Tight(JoinedAll(GreedyOf(Words(text, blank), width))[i], blank)
  {
    var words := Words(text, blank);
    GreedyOfSplits(words, width);
    WordsAreWords(text, blank);
    var parts := GreedyOf(words, width);
    assert forall i :: 0 <= i < |parts| ==> Fits(parts[i], width);
    LinesHoldParts(parts, blank);
  }

  /** Fits whole words on lines, each line taking as many as it can. */
  method Wrapped(text: string, width: int, blank: Blank) returns (lines: seq<string>)
    requires blank(' ')
    ensures LaysOut(lines, text, width, blank)
    ensures forall i :: 0 <= i < |lines| ==> Tight(lines[i], blank)
    ensures forall other :: LaysOut(other, text, width, blank) ==> |lines| <= |other|
    ensures Visible(Together(lines), blank) == Visible(text, blank)
  {
    var words := Words(text, blank);
    WordsAreWords(text, blank);
    GreedyLaysOut(text, width, blank);
    lines := Lines(words, width, blank);
    LayoutKeepsTheText(lines, text, width, blank);
    forall other | LaysOut(other, text, width, blank) ensures |lines| <= |other| {
      FewestLines(text, width, blank, other);
    }
  }

  /** Part of the way: the closed lines, the open one, and what the words still to come will make of them. */
  ghost predicate Underway(lines: seq<string>, current: string, parts: seq<seq<string>>, open: seq<string>,
                           rest: seq<string>, whole: seq<seq<string>>, width: int) {
    && open != [] && current == Joined(open)
    && (forall j :: 0 <= j < |parts| ==> parts[j] != [])
    && lines == JoinedAll(parts)
    && parts + Greedy(open, rest, width) == whole
  }

  lemma FirstWord(words: seq<string>, width: int)
    requires words != []
    ensures Underway([], words[0], [], [words[0]], words[1..], GreedyOf(words, width), width)
  {
    assert [] + GreedyOf(words, width) == GreedyOf(words, width);
  }

  lemma NextWord(lines: seq<string>, current: string, parts: seq<seq<string>>, open: seq<string>, word: string,
                 rest: seq<string>, whole: seq<seq<string>>, width: int)
    requires Underway(lines, current, parts, open, [word] + rest, whole, width)
    ensures if |Joined(open + [word])| > width then
              Underway(lines + [current], word, parts + [open], [word], rest, whole, width)
            else
              Underway(lines, Joined(open + [word]), parts, open + [word], rest, whole, width)
  {
    assert ([word] + rest)[1..] == rest;
    if |Joined(open + [word])| > width {
      JoinedAllSnoc(parts, open);
      var tail := Greedy([word], rest, width);
      assert parts + ([open] + tail) == (parts + [open]) + tail;
    }
  }

  lemma LastLine(lines: seq<string>, current: string, parts: seq<seq<string>>, open: seq<string>,
                 whole: seq<seq<string>>, width: int)
    requires Underway(lines, current, parts, open, [], whole, width)
    ensures (forall j :: 0 <= j < |whole| ==> whole[j] != []) && lines + [current] == JoinedAll(whole)
  {
    JoinedAllSnoc(parts, open);
  }

  /** The loop over the words: the lines already closed, and the open one. */
  method Lines(words: seq<string>, width: int, blank: Blank) returns (lines: seq<string>)
    requires blank(' ') && AllWords(words, blank)
    requires forall i :: 0 <= i < |GreedyOf(words, width)| ==> GreedyOf(words, width)[i] != []
    ensures lines == JoinedAll(GreedyOf(words, width))
  {
    lines := [];
    var current := "";
    ghost var parts: seq<seq<string>>, open: seq<string> := [], [];
    ghost var whole := GreedyOf(words, width);
    for i := 0 to |words|
      invariant i == 0 ==> current == "" && lines == [] && open == []
      invariant i > 0 ==> open != [] && current != "" && current == Joined(open) && AllWords(open, blank)
      invariant i > 0 ==> Underway(lines, current, parts, open, words[i..], whole, width)
    {
      hide Underway, GreedyOf, Stripped, JoinedAll;
      var word := words[i];
      assert words[i..] == [word] + words[i + 1..];
      CandidateIsJoined(open, word, blank);
      if i == 0 {
        FirstWord(words, width);
        parts := [];
        assert open + [word] == [word];
      } else {
        NextWord(lines, current, parts, open, word, words[i + 1..], whole, width);
      }
      var candidate := Stripped(current + " " + word, blank);
      if current != "" && |candidate| > width {
        lines := lines + [current];
        current := word;
        parts, open := parts + [open], [word];
      } else {
        current := candidate;
        open := open + [word];
      }
      StartsWithWord(open, blank);
    }
    if current != "" {
      LastLine(lines, current, parts, open, whole, width);
      lines := lines + [current];
    }
  }
}
