/** Phrase enumeration for one ayah (build_indexes.py, `populate_phrases`):
    a phrase is a non-empty contiguous run of the ayah's words joined by single
    spaces. */
module Phrases {
  import opened Text

  /** The phrases made of runs `words[a..b]` that end at or before word `n`. */
  function PhrasesUpTo(words: seq<string>, n: nat): set<string>
    requires n <= |words|
  {
    set a, b | 0 <= a < b <= n :: Join(words[a..b], ' ')
  }

  /** The phrases made of runs that end exactly at word `b`. */
  function PhrasesEndingAt(words: seq<string>, b: nat): set<string>
    requires b <= |words|
  {
    set a | 0 <= a < b :: Join(words[a..b], ' ')
  }

  /** Every contiguous non-empty run of `words`, joined by single spaces. */
  function PhraseSet(words: seq<string>): set<string> {
    PhrasesUpTo(words, |words|)
  }

  /** Runs ending by word n + 1 are those ending by word n plus those ending
      at word n + 1. */
  lemma PhrasesUpToNext(words: seq<string>, n: nat)
    requires n < |words|
    ensures PhrasesUpTo(words, n + 1) == PhrasesUpTo(words, n) + PhrasesEndingAt(words, n + 1)
  {
    var all := PhrasesUpTo(words, n + 1);
    forall p | p in all
      ensures p in PhrasesUpTo(words, n) + PhrasesEndingAt(words, n + 1)
    {
      var a, b :| 0 <= a < b <= n + 1 && p == Join(words[a..b], ' ');
      if b <= n {
        assert p in PhrasesUpTo(words, n);
      } else {
        assert p in PhrasesEndingAt(words, n + 1);
      }
    }
    forall p | p in PhrasesUpTo(words, n) ensures p in all {
      var a, b :| 0 <= a < b <= n && p == Join(words[a..b], ' ');
    }
    forall p | p in PhrasesEndingAt(words, n + 1) ensures p in all {
      var a :| 0 <= a < n + 1 && p == Join(words[a..n + 1], ' ');
    }
  }

  /** The list `populate_phrases` carries after word `i`: entry `k` is the
      run of the `k + 1` words that ends at word `i`. */
  predicate Carried(words: seq<string>, i: nat, phrases: seq<string>)
    requires i <= |words|
  {
    |phrases| == i && forall k :: 0 <= k < i ==> phrases[k] == Join(words[i - 1 - k..i], ' ')
  }

  /** The inner loop of `populate_phrases`: the word on its own, then each
      carried phrase followed by a space and the word. */
  method ExtendPhrases(prevPhrases: seq<string>, word: string) returns (curPhrases: seq<string>)
    ensures |curPhrases| == |prevPhrases| + 1 && curPhrases[0] == word
    ensures forall k :: 0 <= k < |prevPhrases| ==> curPhrases[k + 1] == prevPhrases[k] + " " + word
  {
    curPhrases := [word];
    for k := 0 to |prevPhrases|
      invariant |curPhrases| == k + 1 && curPhrases[0] == word
      invariant forall t :: 0 <= t < k ==> curPhrases[t + 1] == prevPhrases[t] + " " + word
    {
      curPhrases := curPhrases + [prevPhrases[k] + " " + word];
    }
  }

  /** Extending the list carried after word `i` by word `i` gives the list
      carried after word `i + 1`, whose entries are exactly the runs ending
      there. */
  lemma CarriedNext(words: seq<string>, i: nat, prev: seq<string>, cur: seq<string>)
    requires i < |words| && Carried(words, i, prev)
    requires |cur| == i + 1 && cur[0] == words[i]
    requires forall k :: 0 <= k < i ==> cur[k + 1] == prev[k] + " " + words[i]
    ensures Carried(words, i + 1, cur)
    ensures (set p | p in cur) == PhrasesEndingAt(words, i + 1)
  {
    forall t | 0 <= t < i + 1 ensures cur[t] == Join(words[i - t..i + 1], ' ') {
      if t == 0 {
        assert words[i..i + 1] == [words[i]];
      } else {
        assert cur[t] == prev[t - 1] + " " + words[i];
        JoinSnoc(words[i - t..i], words[i], ' ');
        assert words[i - t..i] + [words[i]] == words[i - t..i + 1];
      }
    }
    forall p | p in PhrasesEndingAt(words, i + 1) ensures p in cur {
      var a :| 0 <= a < i + 1 && p == Join(words[a..i + 1], ' ');
      assert cur[i - a] == p;
    }
  }

  /** `populate_phrases(ayah_words, ayah_phrases)`: adds to `ayah_phrases`
      every phrase of `ayah_words`, carrying the list of phrases that end at
      the previous word. The source updates the set argument in place; here
      the updated set is returned. */
  method PopulatePhrases(ayahWords: seq<string>, ayahPhrases: set<string>) returns (result: set<string>)
    ensures result == ayahPhrases + PhraseSet(ayahWords)
  {
    var prevPhrases: seq<string> := [];
    result := ayahPhrases;
    for i := 0 to |ayahWords|
      invariant Carried(ayahWords, i, prevPhrases)
      invariant result == ayahPhrases + PhrasesUpTo(ayahWords, i)
    {
      var curPhrases := ExtendPhrases(prevPhrases, ayahWords[i]);
      CarriedNext(ayahWords, i, prevPhrases, curPhrases);
      PhrasesUpToNext(ayahWords, i);
      result := result + set p | p in curPhrases;
      prevPhrases := curPhrases;
    }
  }

  /** The words of a phrase of space-free words are recovered by splitting it. */
  lemma PhraseWords(words: seq<string>, a: nat, b: nat)
    requires a < b <= |words|
    requires forall w :: w in words ==> ' ' !in w
    ensures Split(Join(words[a..b], ' '), ' ') == words[a..b]
    ensures WordCount(Join(words[a..b], ' ')) == b - a
  {
    SplitJoin(words[a..b], ' ');
  }

  /** The words of an ayah come from `split(' ')`, so a phrase of it has as
      many words as its run. */
  lemma AyahPhraseWordCount(text: string, a: nat, b: nat)
    requires a < b <= |Split(text, ' ')|
    ensures WordCount(Join(Split(text, ' ')[a..b], ' ')) == b - a
  {
    PhraseWords(Split(text, ' '), a, b);
  }

  /** The six phrases of the example are distinct: their lengths differ. */
  lemma SixPhrases()
    ensures |{"I", "am", "I am", "Sherlock", "am Sherlock", "I am Sherlock"}| == 6
  {
    var s1: set<string> := {"I"};
    assert |"am"| == 2 && "am" !in s1;
    var s2 := s1 + {"am"};
    assert |"I am"| == 4 && "I am" !in s2;
    var s3 := s2 + {"I am"};
    assert |"Sherlock"| == 8 && "Sherlock" !in s3;
    var s4 := s3 + {"Sherlock"};
    assert |"am Sherlock"| == 11 && "am Sherlock" !in s4;
    var s5 := s4 + {"am Sherlock"};
    assert |"I am Sherlock"| == 13 && "I am Sherlock" !in s5;
    var s6 := s5 + {"I am Sherlock"};
    assert s6 == {"I", "am", "I am", "Sherlock", "am Sherlock", "I am Sherlock"};
  }

  /** The phrases of a three-word ayah, written out. */
  lemma ThreeWordPhrases(w: seq<string>)
    requires |w| == 3
    ensures PhraseSet(w) == {w[0], w[1], w[0] + " " + w[1], w[2], w[1] + " " + w[2],
                             w[0] + " " + w[1] + " " + w[2]}
  {
    assert w[0..1] == [w[0]] && w[1..2] == [w[1]] && w[2..3] == [w[2]];
    assert w[0..2] == [w[0], w[1]] && w[1..3] == [w[1], w[2]] && w[0..3] == w;
    assert Join(w[1..3], ' ') == w[1] + " " + w[2] by {
      assert w[1..3][1..] == [w[2]];
    }
    assert Join(w[0..2], ' ') == w[0] + " " + w[1] by {
      assert w[0..2][1..] == [w[1]];
    }
    assert Join(w, ' ') == w[0] + " " + w[1] + " " + w[2] by {
      assert w[1..] == w[1..3];
    }
  }

  /** The six runs of "I am Sherlock", spelled out. */
  lemma SherlockRuns(w: seq<string>)
    requires w == ["I", "am", "Sherlock"]
    ensures {w[0], w[1], w[0] + " " + w[1], w[2], w[1] + " " + w[2], w[0] + " " + w[1] + " " + w[2]}
            == {"I", "am", "I am", "Sherlock", "am Sherlock", "I am Sherlock"}
  {
    assert w[0] + " " + w[1] == "I am";
    assert w[1] + " " + w[2] == "am Sherlock";
    assert w[0] + " " + w[1] + " " + w[2] == "I am Sherlock";
  }

  /** The example in the comment above `populate_phrases`. */
  lemma SherlockExample(w: seq<string>)
    requires w == ["I", "am", "Sherlock"]
    ensures PhraseSet(w) == {"I", "am", "I am", "Sherlock", "am Sherlock", "I am Sherlock"}
    ensures |PhraseSet(w)| == 6
  {
    ThreeWordPhrases(w);
    SherlockRuns(w);
    SixPhrases();
  }
}
