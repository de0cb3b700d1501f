/** The words of a text: where each begins, where it ends, and that nothing else of the text is lost or kept.

    Which characters count as blank is a parameter. */
module TextWords {

  type Blank = char -> bool

  function RunLength(text: string, blank: Blank): (n: nat)
    ensures n <= |text|
    ensures forall i :: 0 <= i < n ==> !blank(text[i])
    ensures n < |text| ==> blank(text[n])
    decreases |text|
  {
    if text == "" || blank(text[0]) then 0 else 1 + RunLength(text[1..], blank)
  }

  /** The runs of characters between blanks. */
  function Words(text: string, blank: Blank): seq<string>
    decreases |text|
  {
    if text == "" then
      []
    else if blank(text[0]) then
      Words(text[1..], blank)
    else
      var n := RunLength(text, blank);
      [text[..n]] + Words(text[n..], blank)
  }

  ghost predicate IsWord(word: string, blank: Blank) {
    word != "" && forall i :: 0 <= i < |word| ==> !blank(word[i])
  }

  lemma {:induction false} WordsAreWords(text: string, blank: Blank)
    ensures forall i :: 0 <= i < |Words(text, blank)| ==> IsWord(Words(text, blank)[i], blank)
    decreases |text|
  {
    if text != "" {
      if blank(text[0]) {
        WordsAreWords(text[1..], blank);
      } else {
        WordsAreWords(text[RunLength(text, blank)..], blank);
      }
    }
  }

  // ---------------------------------------------------------------- nothing is lost

  /** A text with its blanks left out. */
  function Visible(text: string, blank: Blank): string {
    if text == "" then "" else (if blank(text[0]) then "" else [text[0]]) + Visible(text[1..], blank)
  }

  /** Words, or lines, put end to end. */
  function Together(parts: seq<string>): string {
    if parts == [] then "" else parts[0] + Together(parts[1..])
  }

  lemma {:induction false} VisibleConcat(a: string, b: string, blank: Blank)
    ensures Visible(a + b, blank) == Visible(a, blank) + Visible(b, blank)
    decreases |a|
  {
    if a == "" {
      assert a + b == b;
    } else {
      assert (a + b)[1..] == a[1..] + b;
      VisibleConcat(a[1..], b, blank);
    }
  }

  lemma {:induction false} TogetherConcat(a: seq<string>, b: seq<string>)
    ensures Together(a + b) == Together(a) + Together(b)
    decreases |a|
  {
    if a == [] {
      assert a + b == b;
    } else {
      assert (a + b)[1..] == a[1..] + b;
      TogetherConcat(a[1..], b);
    }
  }

  lemma {:induction false} WordIsVisible(word: string, blank: Blank)
    requires forall i :: 0 <= i < |word| ==> !blank(word[i])
    ensures Visible(word, blank) == word
    decreases |word|
  {
    if word != "" {
      WordIsVisible(word[1..], blank);
    }
  }

  /** The words of a text, put end to end, are the text with its blanks left out. */
  lemma {:induction false} WordsAreTheText(text: string, blank: Blank)
    ensures Together(Words(text, blank)) == Visible(text, blank)
    decreases |text|
  {
    if text != "" {
      if blank(text[0]) {
        WordsAreTheText(text[1..], blank);
      } else {
        var n := RunLength(text, blank);
        assert text == text[..n] + text[n..];
        VisibleConcat(text[..n], text[n..], blank);
        WordIsVisible(text[..n], blank);
        WordsAreTheText(text[n..], blank);
        assert ([text[..n]] + Words(text[n..], blank))[1..] == Words(text[n..], blank);
      }
    }
  }

  // ---------------------------------------------------------------- where the words are

  /** A word begins at a character that is not blank and has a blank, or nothing, before it. */
  predicate Begins(text: string, blank: Blank, i: int) {
    0 <= i < |text| && !blank(text[i]) && (i == 0 || blank(text[i - 1]))
  }

  /** The word that begins at i, and reaches to the next blank or to the end. */
  ghost predicate Reaches(word: string, text: string, blank: Blank, i: int) {
    && 0 <= i && i + |word| <= |text| && word == text[i..i + |word|]
    && IsWord(word, blank)
    && (i + |word| < |text| ==> blank(text[i + |word|]))
  }

  /** One word for each beginning, in order. */
  ghost predicate CutAt(words: seq<string>, starts: seq<int>, text: string, blank: Blank) {
    && |starts| == |words|
    && (forall j, k :: 0 <= j < k < |starts| ==> starts[j] < starts[k])
    && (forall i :: i in starts <==> Begins(text, blank, i))
    && (forall k :: 0 <= k < |words| ==> Reaches(words[k], text, blank, starts[k]))
  }

  function Later(starts: seq<int>, n: nat): (later: seq<int>)
    ensures |later| == |starts| && forall k :: 0 <= k < |starts| ==> later[k] == starts[k] + n
  {
    seq(|starts|, k requires 0 <= k < |starts| => starts[k] + n)
  }

  lemma LaterMembers(starts: seq<int>, n: nat)
    ensures forall i :: i in Later(starts, n) <==> i - n in starts
  {
    var later := Later(starts, n);
    forall i | i - n in starts ensures i in later {
      var k :| 0 <= k < |starts| && starts[k] == i - n;
      assert later[k] == i;
    }
  }

  /** What is said of the rest of a text can be said of the text, n characters later. */
  lemma ReachesLater(word: string, text: string, blank: Blank, n: nat, i: int)
    requires n <= |text| && Reaches(word, text[n..], blank, i)
    ensures Reaches(word, text, blank, i + n)
  {
    assert text[n..][i..i + |word|] == text[i + n..i + n + |word|];
  }

  lemma {:induction false} WordsAreCut(text: string, blank: Blank) returns (starts: seq<int>)
    ensures CutAt(Words(text, blank), starts, text, blank)
    decreases |text|
  {
    if text == "" {
      starts := [];
    } else if blank(text[0]) {
      var rest := WordsAreCut(text[1..], blank);
      starts := Later(rest, 1);
      LaterMembers(rest, 1);
      assert forall i :: Begins(text, blank, i) <==> Begins(text[1..], blank, i - 1);
      forall k | 0 <= k < |starts| ensures Reaches(Words(text, blank)[k], text, blank, starts[k]) {
        ReachesLater(Words(text, blank)[k], text, blank, 1, rest[k]);
      }
    } else {
      starts := FirstIsCut(text, blank);
    }
  }

  lemma {:induction false} FirstIsCut(text: string, blank: Blank) returns (starts: seq<int>)
    requires text != "" && !blank(text[0])
    ensures CutAt(Words(text, blank), starts, text, blank)
    decreases |text|, 0
  {
    var n := RunLength(text, blank);
    var rest := WordsAreCut(text[n..], blank);
    CutBehind(text, blank, n, Words(text[n..], blank), rest);
    starts := [0] + Later(rest, n);
  }

  /** A first word, and behind it the words of the rest. */
  lemma CutBehind(text: string, blank: Blank, n: nat, words: seq<string>, starts: seq<int>)
    requires 0 < n <= |text| && (forall i :: 0 <= i < n ==> !blank(text[i])) && (n < |text| ==> blank(text[n]))
    requires CutAt(words, starts, text[n..], blank)
    ensures CutAt([text[..n]] + words, [0] + Later(starts, n), text, blank)
  {
    var all, later := [0] + Later(starts, n), [text[..n]] + words;
    forall k | 0 <= k < |all| ensures Reaches(later[k], text, blank, all[k]) {
      if k > 0 {
        ReachesLater(words[k - 1], text, blank, n, starts[k - 1]);
      }
    }
    hide Reaches;
    LaterMembers(starts, n);
    forall i ensures i in all <==> Begins(text, blank, i) {
      BeginsBehind(text, blank, n, i);
    }
    forall k | 0 <= k < |starts| ensures starts[k] >= 0 {
      assert starts[k] in starts;
    }
  }

  lemma BeginsBehind(text: string, blank: Blank, n: nat, i: int)
    requires 0 < n <= |text| && (forall j :: 0 <= j < n ==> !blank(text[j])) && (n < |text| ==> blank(text[n]))
    ensures Begins(text, blank, i) <==> i == 0 || Begins(text[n..], blank, i - n)
  {
  }

  // ---------------------------------------------------------------- and no other words are

  lemma FirstIsIn(starts: seq<int>)
    ensures starts != [] ==> starts[0] in starts
  {
  }

  /** Ascending sequences of the same numbers are the same. */
  lemma {:induction false} SameStarts(a: seq<int>, b: seq<int>)
    requires forall j, k :: 0 <= j < k < |a| ==> a[j] < a[k]
    requires forall j, k :: 0 <= j < k < |b| ==> b[j] < b[k]
    requires forall i :: i in a <==> i in b
    ensures a == b
    decreases |a|
  {
    FirstIsIn(a);
    FirstIsIn(b);
    if a != [] && b != [] {
      assert a[0] in b && b[0] in a;
      forall i ensures i in a[1..] <==> i in b[1..] {
        assert i in a[1..] <==> i in a && i != a[0];
        assert i in b[1..] <==> i in b && i != b[0];
      }
      SameStarts(a[1..], b[1..]);
      assert a == [a[0]] + a[1..] && b == [b[0]] + b[1..];
    }
  }

  lemma OneReach(a: string, b: string, text: string, blank: Blank, i: int)
    requires Reaches(a, text, blank, i) && Reaches(b, text, blank, i)
    ensures a == b
  {
    NoBlankWithin(a, text, blank, i);
    NoBlankWithin(b, text, blank, i);
  }

  lemma NoBlankWithin(word: string, text: string, blank: Blank, i: int)
    requires Reaches(word, text, blank, i)
    ensures forall j :: i <= j < i + |word| ==> !blank(text[j])
  {
    forall j | i <= j < i + |word| ensures !blank(text[j]) {
      assert text[j] == word[j - i];
    }
  }

  /** The words of a text are those that begin at its characters behind a blank or at its start and reach to the next
      blank or to its end, in order; nothing else is. */
  lemma TheWordsAre(text: string, blank: Blank, words: seq<string>)
    ensures words == Words(text, blank) <==> exists starts :: CutAt(words, starts, text, blank)
  {
    var own := WordsAreCut(text, blank);
    if starts :| CutAt(words, starts, text, blank) {
      SameStarts(starts, own);
      forall k | 0 <= k < |words| ensures words[k] == Words(text, blank)[k] {
        OneReach(words[k], Words(text, blank)[k], text, blank, starts[k]);
      }
    }
  }
}
