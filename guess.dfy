/** The hint logic and the surah-name helpers of the game in
    guess_the_surah.py. The indexes the game loads at start-up
    (`ayah_num_to_prev_ayah_num`, `ayah_num_to_ayah`, `phrase_to_ayah_num`,
    the surah-name maps) are passed in as parameters, and the session values
    the hint functions read are arguments too. A hint that finds no earlier
    text sets `exhausted`, which stands for the "No more hints" message the
    source writes into the session. */
module Guess {
  import opened Wrappers
  import opened Text
  import BuildIndexes
  import IndexProperties

  /** Python truthiness of a possibly missing string: `None` and `""` are
      false. */
  predicate Truthy(x: Option<string>) {
    x.Some? && x.value != ""
  }

  /** `d.get(k)` on a dict of strings. */
  function Get(d: map<string, string>, k: string): (r: Option<string>)
    ensures r.Some? <==> k in d
    ensures r.Some? ==> r.value == d[k]
  {
    if k in d then Some(d[k]) else None
  }

  /** What a hint returns: the phrase shown, the ayah the hint has reached
      and whether there was nothing left to add. */
  datatype Hint = Hint(phrase: string, ayahNum: string, exhausted: bool)

  /** The separator the game puts between two ayahs of a hint. */
  const AyahSeparator: string := " ● "

  /** `prefix_ayah(phrase, surah_ayah_num)`: the hint of the easy mode puts
      the whole previous ayah of the same surah in front of the phrase.
      `current` is the session's `surah_num:ayah_num`, used when no hint has
      been given yet. A previous ayah without a text raises `KeyError`. */
  function PrefixAyah(phrase: string, surahAyahNum: Option<string>, current: string,
                      prevAyahNum: map<string, string>, ayahText: map<string, string>): (r: Result<Hint>)
    ensures var ref := if Truthy(surahAyahNum) then surahAyahNum.value else current;
            var prev := Get(prevAyahNum, ref);
            && (!Truthy(prev) <==> r == Ok(Hint(phrase, ref, true)))
            && (Truthy(prev) ==> (r.Ok? <==> prev.value in ayahText))
            && (Truthy(prev) && r.Ok? ==> r.value == Hint(ayahText[prev.value] + AyahSeparator + phrase, prev.value, false))
  {
    var ref := if Truthy(surahAyahNum) then surahAyahNum.value else current;
    var prev := Get(prevAyahNum, ref);
    if !Truthy(prev) then Ok(Hint(phrase, ref, true))
    else if prev.value !in ayahText then Err("KeyError")
    else Ok(Hint(ayahText[prev.value] + AyahSeparator + phrase, prev.value, false))
  }

  /** Over the indexes built from the ayahs `es`, a hint from ayah `i` adds
      the ayah processed just before it when that one lies in the same
      surah, and reports that there are no more hints otherwise. */
  lemma PrefixAyahOverIndex(es: seq<BuildIndexes.Entry>, i: nat, phrase: string, current: string)
    requires IndexProperties.DistinctNums(es) && i < |es|
    requires forall j :: 0 <= j < |es| ==> es[j].ayahNum != ""
    ensures var r := PrefixAyah(phrase, Some(es[i].ayahNum), current,
                                BuildIndexes.PrevChain(es), BuildIndexes.AyahTexts(es));
            if i > 0 && BuildIndexes.SurahOf(es[i].ayahNum) == BuildIndexes.SurahOf(es[i - 1].ayahNum)
            then r == Ok(Hint(es[i - 1].text + AyahSeparator + phrase, es[i - 1].ayahNum, false))
            else r == Ok(Hint(phrase, es[i].ayahNum, true))
  {
    IndexProperties.PrevChainAt(es, i);
    if i > 0 && BuildIndexes.SurahOf(es[i].ayahNum) == BuildIndexes.SurahOf(es[i - 1].ayahNum) {
      PrefixAyahSameSurah(es, i, phrase, current);
    } else {
      PrefixAyahNewSurah(es, i, phrase, current);
    }
  }

  lemma PrefixAyahSameSurah(es: seq<BuildIndexes.Entry>, i: nat, phrase: string, current: string)
    requires IndexProperties.DistinctNums(es) && 0 < i < |es| && es[i].ayahNum != ""
    requires es[i].ayahNum in BuildIndexes.PrevChain(es)
    requires BuildIndexes.PrevChain(es)[es[i].ayahNum] == es[i - 1].ayahNum != ""
    ensures PrefixAyah(phrase, Some(es[i].ayahNum), current, BuildIndexes.PrevChain(es), BuildIndexes.AyahTexts(es))
            == Ok(Hint(es[i - 1].text + AyahSeparator + phrase, es[i - 1].ayahNum, false))
  {
    IndexProperties.AyahTextsAt(es, i - 1);
  }

  lemma PrefixAyahNewSurah(es: seq<BuildIndexes.Entry>, i: nat, phrase: string, current: string)
    requires i < |es| && es[i].ayahNum != "" && es[i].ayahNum !in BuildIndexes.PrevChain(es)
    ensures PrefixAyah(phrase, Some(es[i].ayahNum), current, BuildIndexes.PrevChain(es), BuildIndexes.AyahTexts(es))
            == Ok(Hint(phrase, es[i].ayahNum, true))
  {
  }

  /** `s` ends with `t`. */
  predicate EndsWith(s: string, t: string) {
    |t| <= |s| && s[|s| - |t|..] == t
  }

  /** A successful hint only ever adds text in front of the phrase. */
  lemma PrefixAyahExtends(phrase: string, surahAyahNum: Option<string>, current: string,
                          prevAyahNum: map<string, string>, ayahText: map<string, string>)
    ensures var r := PrefixAyah(phrase, surahAyahNum, current, prevAyahNum, ayahText);
            r.Ok? ==> EndsWith(r.value.phrase, phrase) && (r.value.exhausted <==> r.value.phrase == phrase)
  {
    var r := PrefixAyah(phrase, surahAyahNum, current, prevAyahNum, ayahText);
    if r.Ok? && !r.value.exhausted {
      var p := r.value.phrase;
      assert |p| > |phrase|;
      assert p[|p| - |phrase|..] == phrase;
    }
  }

  /** `ws[k..]` begins with the words `pw`. */
  predicate WordsAt(ws: seq<string>, pw: seq<string>, k: int) {
    0 <= k && k + |pw| <= |ws| && ws[k..k + |pw|] == pw
  }

  /** The first position from `from` on where the words `pw` occur in `ws`. */
  function WordIndexFrom(ws: seq<string>, pw: seq<string>, from: nat): (r: Option<nat>)
    requires from <= |ws| + 1
    ensures r.Some? ==> from <= r.value && WordsAt(ws, pw, r.value)
    ensures r.Some? ==> forall k :: from <= k < r.value ==> !WordsAt(ws, pw, k)
    ensures r.None? ==> forall k :: from <= k ==> !WordsAt(ws, pw, k)
    decreases |ws| + 1 - from
  {
    if from + |pw| > |ws| then None
    else if ws[from..from + |pw|] == pw then Some(from)
    else WordIndexFrom(ws, pw, from + 1)
  }

  /** The first hint's `word_idx`: the index of the word just before the
      first place where the phrase's words stand in the ayah as whole words;
      `None` for the `ValueError` of a phrase the ayah lacks. */
  function HintStart(ayah: string, phrase: string): (r: Option<int>)
    ensures r.Some? ==> WordsAt(Split(ayah, ' '), Split(phrase, ' '), r.value + 1)
    ensures r.Some? ==> forall k :: 0 <= k <= r.value ==> !WordsAt(Split(ayah, ' '), Split(phrase, ' '), k)
    ensures r.None? ==> forall k :: !WordsAt(Split(ayah, ' '), Split(phrase, ' '), k)
  {
    match WordIndexFrom(Split(ayah, ' '), Split(phrase, ' '), 0)
    case None => None
    case Some(k) => Some(k - 1)
  }

  /** The first hint's `word_idx` as guess_the_surah.py computes it: the
      number of words from the phrase's first character position to the end
      of the ayah, taken from the ayah's word count, less one. The position
      is that of the first occurrence of the phrase as a substring. */
  function HintStartAsWritten(ayah: string, phrase: string): (r: Option<int>)
    ensures r.None? <==> IndexOf(ayah, phrase).None?
  {
    match IndexOf(ayah, phrase)
    case None => None
    case Some(c) => Some(|Split(ayah, ' ')| - |Split(ayah[c..], ' ')| - 1)
  }

  /** The character position at which word `k` of `Join(words, ' ')` starts. */
  function Offset(words: seq<string>, k: nat): nat
    requires k <= |words|
  {
    if k == 0 then 0 else |Join(words[..k], ' ')| + 1
  }

  /** The text from the start of word `k` on is the join of the words from
      `k` on. */
  lemma JoinFrom(words: seq<string>, k: nat)
    requires k < |words|
    ensures Offset(words, k) <= |Join(words, ' ')|
    ensures Join(words, ' ')[Offset(words, k)..] == Join(words[k..], ' ')
  {
    if k > 0 {
      JoinAt(words, k, ' ');
    }
  }

  /** When the first substring occurrence of the phrase starts word `k`,
      the computation as written gives `k - 1`, the index of the word just
      before the phrase that the hint loop at guess_the_surah.py:104-108
      starts from. */
  lemma HintStartAsWrittenAtWord(ayah: string, phrase: string, k: nat)
    requires k < |Split(ayah, ' ')|
    requires IndexOf(ayah, phrase) == Some(Offset(Split(ayah, ' '), k))
    ensures HintStartAsWritten(ayah, phrase) == Some(k - 1)
  {
    var words := Split(ayah, ' ');
    JoinSplit(ayah, ' ');
    JoinFrom(words, k);
    var rest := words[k..];
    forall w | w in rest ensures ' ' !in w {
      assert w in words;
    }
    SplitJoin(rest, ' ');
  }

  /** The worked example in guess_the_surah.py: for an ayah with the words
      of `"My name is Zubair Khan"` and the phrase `"is Zubair"`, the first
      hint starts at index 1, the word `"name"`. */
  lemma ZubairExample(ayah: string, phrase: string)
    requires Split(ayah, ' ') == ["My", "name", "is", "Zubair", "Khan"]
    requires Split(phrase, ' ') == ["is", "Zubair"]
    ensures HintStart(ayah, phrase) == Some(1)
  {
    var words, pw := Split(ayah, ' '), Split(phrase, ' ');
    assert words[2..4] == pw;
    assert !WordsAt(words, pw, 0) && !WordsAt(words, pw, 1) by {
      assert words[0..2][0] == "My" && words[1..3][0] == "name";
    }
    assert WordIndexFrom(words, pw, 2) == Some(2);
    assert WordIndexFrom(words, pw, 1) == Some(2);
    assert WordIndexFrom(words, pw, 0) == Some(2);
  }

  /** Splitting `w + " " + rest` for a word `w`. */
  lemma SplitWord(w: string, rest: string)
    requires ' ' !in w
    ensures Split(w + " " + rest, ' ') == [w] + Split(rest, ' ')
  {
    assert w + " " + rest == w + [' '] + rest;
    SplitAppendSep(w, rest, ' ');
    SplitNoSep(w, ' ');
  }

  /** The as-written computation goes wrong when the phrase's first
      substring occurrence begins inside an earlier word. In the ayah
      `x + w + " " + w` (for instance `"ab b"` with `w == "b"`) the phrase `w`
      first occurs inside the first word, so the first hint gives -1 (no word
      of this ayah before the phrase) where word 0 precedes the phrase's
      first whole-word occurrence. */
  lemma HintStartCollision(x: string, w: string)
    requires x != "" && ' ' !in x && ' ' !in w
    ensures HintStartAsWritten(x + w + " " + w, w) == Some(-1)
    ensures HintStart(x + w + " " + w, w) == Some(0)
  {
    var first := x + w;
    var ayah := first + " " + w;
    assert ' ' !in first by {
      forall i | 0 <= i < |first| ensures first[i] != ' ' {
        if i >= |x| { assert first[i] == w[i - |x|]; }
      }
    }
    SplitWord(first, w);
    SplitNoSep(w, ' ');
    assert Split(ayah, ' ') == [first, w];
    assert !WordsAt([first, w], [w], 0) by {
      assert |first| > |w|;
    }
    assert [first, w][1..2] == [w];
    assert WordIndexFrom([first, w], [w], 0) == Some(1);
    assert OccursAt(ayah, w, |x|) by {
      assert ayah[|x|..|x| + |w|] == w;
    }
    var c := IndexOf(ayah, w).value;
    assert c <= |x|;
    var tail := first[c..];
    assert ayah[c..] == tail + " " + w;
    assert ' ' !in tail by {
      forall i | 0 <= i < |tail| ensures tail[i] != ' ' {
        assert tail[i] == first[c + i];
      }
    }
    SplitWord(tail, w);
  }

  /** What a word hint returns: the phrase, the ayah reached, the index of
      the next word to add (`word_idx`) and whether nothing was added. */
  datatype WordHint = WordHint(phrase: string, ayahNum: string, wordIdx: int, exhausted: bool)

  /** `add_word_to_phrase(phrase, ayah_num, word_idx)`: the hint of the hard
      mode adds the word before the phrase, and at the start of the ayah the
      last word of the previous ayah of the same surah. `KeyError`,
      `ValueError` and `IndexError` become `Err`. The first hint locates the
      phrase with `HintStart`. */
  function AddWordToPhrase(phrase: string, ayahNum: Option<string>, wordIdx: Option<int>,
                           phraseToAyahNum: map<string, string>, ayahText: map<string, string>,
                           prevAyahNum: map<string, string>): (r: Result<WordHint>)
    ensures !Truthy(ayahNum) && phrase !in phraseToAyahNum ==> r == Err("KeyError")
    ensures r.Ok? && !r.value.exhausted ==> EndsWith(r.value.phrase, phrase) && |phrase| < |r.value.phrase|
    ensures r.Ok? && r.value.exhausted ==> r.value.phrase == phrase && r.value.wordIdx < 0
  {
    var ref := if Truthy(ayahNum) then Some(ayahNum.value) else Get(phraseToAyahNum, phrase);
    if ref.None? || ref.value !in ayahText then Err("KeyError")
    else
      var start := if wordIdx.Some? then Some(wordIdx.value) else HintStart(ayahText[ref.value], phrase);
      if start.None? then Err("ValueError")
      else WordHintAt(phrase, ref.value, start.value, ayahText, prevAyahNum)
  }

  /** The rest of `add_word_to_phrase` once the ayah and `word_idx` are known. */
  function WordHintAt(phrase: string, ayahNum: string, idx: int,
                      ayahText: map<string, string>, prevAyahNum: map<string, string>): (r: Result<WordHint>)
    requires ayahNum in ayahText
    ensures r.Ok? && !r.value.exhausted ==> EndsWith(r.value.phrase, phrase) && |phrase| < |r.value.phrase|
    ensures r.Ok? && r.value.exhausted ==> r.value.phrase == phrase && r.value.wordIdx < 0
  {
    var words := Split(ayahText[ayahNum], ' ');
    if idx >= 0 then
      if idx >= |words| then Err("IndexError")
      else Ok(WordHint(words[idx] + " " + phrase, ayahNum, idx - 1, false))
    else
      var prev := Get(prevAyahNum, ayahNum);
      if !Truthy(prev) then Ok(WordHint(phrase, ayahNum, idx, true))
      else if prev.value !in ayahText then Err("KeyError")
      else
        var prevWords := Split(ayahText[prev.value], ' ');
        var last := |prevWords| - 1;
        Ok(WordHint(prevWords[last] + AyahSeparator + phrase, prev.value, last - 1, false))
  }

  /** `phrase` begins with the whole word `w`. */
  predicate StartsWithWord(w: string, phrase: string) {
    phrase == w || (|w| < |phrase| && phrase[..|w| + 1] == w + " ")
  }

  /** The state between two word hints: the phrase shown begins with word
      `idx + 1` of the hint's ayah, so word `idx` is the next one to add. */
  predicate HintState(ayahText: map<string, string>, ayahNum: string, idx: int, phrase: string) {
    ayahNum in ayahText
    && -1 <= idx < |Split(ayahText[ayahNum], ' ')| - 1
    && StartsWithWord(Split(ayahText[ayahNum], ' ')[idx + 1], phrase)
  }

  /** A joined run starts with its first word. */
  lemma JoinStartsWithWord(pw: seq<string>)
    requires |pw| >= 1
    ensures StartsWithWord(pw[0], Join(pw, ' '))
  {
    if |pw| > 1 {
      var j := Join(pw, ' ');
      assert j == pw[0] + [' '] + Join(pw[1..], ' ');
      assert j[..|pw[0]| + 1] == pw[0] + " ";
    }
  }

  /** The first hint's index puts the phrase right after word `idx`. */
  lemma FirstHintState(ayahText: map<string, string>, ayahNum: string, phrase: string)
    requires ayahNum in ayahText && HintStart(ayahText[ayahNum], phrase).Some?
    ensures HintState(ayahText, ayahNum, HintStart(ayahText[ayahNum], phrase).value, phrase)
  {
    var ws, pw := Split(ayahText[ayahNum], ' '), Split(phrase, ' ');
    var k := HintStart(ayahText[ayahNum], phrase).value + 1;
    assert ws[k..k + |pw|] == pw;
    assert ws[k] == pw[0] by {
      assert ws[k..k + |pw|][0] == ws[k];
    }
    JoinSplit(phrase, ' ');
    JoinStartsWithWord(pw);
  }

  /** The first word hint of a phrase (no `ayah_num`, no `word_idx`) looks the
      ayah up in `phrase_to_ayah_num` and the index up with `HintStart`; it
      fails with `ValueError` exactly when the phrase is not a run of the
      ayah's words, and otherwise acts as a hint that was handed both. */
  lemma FirstHint(phrase: string, phraseToAyahNum: map<string, string>,
                  ayahText: map<string, string>, prevAyahNum: map<string, string>)
    requires phrase in phraseToAyahNum && phraseToAyahNum[phrase] in ayahText
    ensures var ref := phraseToAyahNum[phrase];
            var start := HintStart(ayahText[ref], phrase);
            && (start.None? <==>
                AddWordToPhrase(phrase, None, None, phraseToAyahNum, ayahText, prevAyahNum) == Err("ValueError"))
            && (start.Some? ==>
                AddWordToPhrase(phrase, None, None, phraseToAyahNum, ayahText, prevAyahNum) ==
                AddWordToPhrase(phrase, Some(ref), Some(start.value), phraseToAyahNum, ayahText, prevAyahNum))
  {
    var ref := phraseToAyahNum[phrase];
    var start := HintStart(ayahText[ref], phrase);
    FirstHintCall(phrase, phraseToAyahNum, ayahText, prevAyahNum);
    if start.Some? {
      GivenHintCall(phrase, ref, start.value, phraseToAyahNum, ayahText, prevAyahNum);
      WordHintAtErrors(phrase, ref, start.value, ayahText, prevAyahNum);
    }
  }

  lemma FirstHintCall(phrase: string, phraseToAyahNum: map<string, string>,
                      ayahText: map<string, string>, prevAyahNum: map<string, string>)
    requires phrase in phraseToAyahNum && phraseToAyahNum[phrase] in ayahText
    ensures var ref := phraseToAyahNum[phrase];
            var start := HintStart(ayahText[ref], phrase);
            AddWordToPhrase(phrase, None, None, phraseToAyahNum, ayahText, prevAyahNum) ==
            if start.None? then Err("ValueError") else WordHintAt(phrase, ref, start.value, ayahText, prevAyahNum)
  {
  }

  lemma GivenHintCall(phrase: string, ref: string, idx: int, phraseToAyahNum: map<string, string>,
                      ayahText: map<string, string>, prevAyahNum: map<string, string>)
    requires ref in ayahText && (ref != "" || Get(phraseToAyahNum, phrase) == Some(ref))
    ensures AddWordToPhrase(phrase, Some(ref), Some(idx), phraseToAyahNum, ayahText, prevAyahNum) ==
            WordHintAt(phrase, ref, idx, ayahText, prevAyahNum)
  {
  }

  lemma WordHintAtErrors(phrase: string, ayahNum: string, idx: int,
                         ayahText: map<string, string>, prevAyahNum: map<string, string>)
    requires ayahNum in ayahText
    ensures var r := WordHintAt(phrase, ayahNum, idx, ayahText, prevAyahNum);
            r.Err? ==> r.error == "IndexError" || r.error == "KeyError"
  {
  }

  /** Every word hint from a hint state either adds text in front of the
      phrase and reaches a new hint state, or, at the start of a surah,
      changes nothing; the only failure left is a previous ayah without a
      text. */
  lemma WordHintStep(phrase: string, ayahNum: string, idx: int, phraseToAyahNum: map<string, string>,
                     ayahText: map<string, string>, prevAyahNum: map<string, string>)
    requires ayahNum != "" && HintState(ayahText, ayahNum, idx, phrase)
    ensures var r := AddWordToPhrase(phrase, Some(ayahNum), Some(idx), phraseToAyahNum, ayahText, prevAyahNum);
            && (r.Err? ==> idx < 0 && Truthy(Get(prevAyahNum, ayahNum)) && prevAyahNum[ayahNum] !in ayahText)
            && (r.Ok? && r.value.exhausted ==> r.value == WordHint(phrase, ayahNum, idx, true) && idx < 0)
            && (r.Ok? && !r.value.exhausted ==> HintState(ayahText, r.value.ayahNum, r.value.wordIdx, r.value.phrase))
            && (r.Ok? && idx >= 0 ==> r.value.ayahNum == ayahNum && r.value.wordIdx == idx - 1)
    ensures idx >= 0 ==>
              AddWordToPhrase(phrase, Some(ayahNum), Some(idx), phraseToAyahNum, ayahText, prevAyahNum)
              == Ok(WordHint(Split(ayahText[ayahNum], ' ')[idx] + " " + phrase, ayahNum, idx - 1, false))
  {
    var r := AddWordToPhrase(phrase, Some(ayahNum), Some(idx), phraseToAyahNum, ayahText, prevAyahNum);
    if r.Ok? && !r.value.exhausted {
      var w := if idx >= 0 then Split(ayahText[ayahNum], ' ')[idx] else
        var ps := Split(ayahText[prevAyahNum[ayahNum]], ' '); ps[|ps| - 1];
      var p := r.value.phrase;
      assert p[..|w| + 1] == w + " ";
    }
  }

  /** At the start of an ayah, a hint moves to the previous ayah of the same
      surah: it puts that ayah's last word and the ayah separator in front
      of the phrase and points at the word before that last word; with no
      previous ayah it hands everything back unchanged. */
  lemma WordHintCrossesAyah(phrase: string, ayahNum: string, idx: int, phraseToAyahNum: map<string, string>,
                            ayahText: map<string, string>, prevAyahNum: map<string, string>)
    requires ayahNum != "" && ayahNum in ayahText && idx < 0
    ensures var r := AddWordToPhrase(phrase, Some(ayahNum), Some(idx), phraseToAyahNum, ayahText, prevAyahNum);
            var prev := Get(prevAyahNum, ayahNum);
            && (!Truthy(prev) ==> r == Ok(WordHint(phrase, ayahNum, idx, true)))
            && (Truthy(prev) && prev.value in ayahText ==>
                  var ws := Split(ayahText[prev.value], ' ');
                  r == Ok(WordHint(ws[|ws| - 1] + AyahSeparator + phrase, prev.value, |ws| - 2, false)))
  {
  }

  /** `get_surah_name`: the session's surah name without its first
      space-separated token (the surah number). */
  function SurahNameOf(surahName: string): (r: string)
    ensures |r| <= |surahName|
  {
    var tokens := Split(surahName, ' ');
    JoinLength(tokens, surahName);
    Join(tokens[1..], ' ')
  }

  /** Joining the tail of a split never makes the text longer. */
  lemma JoinLength(tokens: seq<string>, s: string)
    requires tokens == Split(s, ' ')
    ensures |Join(tokens[1..], ' ')| <= |s|
  {
    JoinSplit(s, ' ');
    if |tokens| > 1 {
      JoinAt(tokens, 1, ' ');
    }
  }

  /** A name `"<number> <name>"` yields `<name>`; a name without a space
      yields the empty string. */
  lemma SurahNameOfSpec(num: string, name: string)
    requires ' ' !in num
    ensures SurahNameOf(num + " " + name) == name
    ensures SurahNameOf(num) == ""
  {
    SplitAppendSep(num, name, ' ');
    assert num + " " + name == num + [' '] + name;
    SplitNoSep(num, ' ');
    assert Split(num + " " + name, ' ')[1..] == Split(name, ' ');
    JoinSplit(name, ' ');
  }

  /** The value of `create_surah_name_to_num_map` after inserting the
      `(surah_num, surah_name)` pairs `items` in order: a later pair
      overwrites an earlier one with the same name. */
  function NameMap(items: seq<(string, string)>): map<string, string>
    decreases |items|
  {
    if items == [] then map[]
    else NameMap(items[..|items| - 1])[items[|items| - 1].1 := items[|items| - 1].0]
  }

  /** A name is mapped exactly when some pair carries it, and it is mapped
      to the number of the last such pair. */
  lemma {:induction false} NameMapSpec(items: seq<(string, string)>, name: string)
    ensures name in NameMap(items) <==> exists i :: 0 <= i < |items| && items[i].1 == name
    ensures name in NameMap(items) ==>
              exists i :: 0 <= i < |items| && items[i].1 == name && NameMap(items)[name] == items[i].0
                          && forall j :: i < j < |items| ==> items[j].1 != name
    decreases |items|
  {
    if items != [] {
      var pre := items[..|items| - 1];
      NameMapSpec(pre, name);
      if name in NameMap(pre) && items[|items| - 1].1 != name {
        var i :| 0 <= i < |pre| && pre[i].1 == name && NameMap(pre)[name] == pre[i].0
                 && forall j :: i < j < |pre| ==> pre[j].1 != name;
        assert items[i] == pre[i];
      }
      forall i | 0 <= i < |pre| && pre[i].1 == name ensures items[i].1 == name { }
      forall i | 0 <= i < |pre| && items[i].1 == name ensures pre[i].1 == name { }
    }
  }

  /** English names are inserted first and Arabic names after them, so a
      name that is both takes its Arabic pair's number; every English name
      missing from the Arabic list keeps its English pair's number. */
  lemma NameMapArabicLast(english: seq<(string, string)>, arabic: seq<(string, string)>, name: string)
    ensures name in NameMap(english + arabic) <==>
              (exists i :: 0 <= i < |english| && english[i].1 == name) || (exists i :: 0 <= i < |arabic| && arabic[i].1 == name)
    ensures (exists i :: 0 <= i < |arabic| && arabic[i].1 == name) ==>
              name in NameMap(arabic) && name in NameMap(english + arabic) && NameMap(english + arabic)[name] == NameMap(arabic)[name]
    ensures (forall i :: 0 <= i < |arabic| ==> arabic[i].1 != name) && name in NameMap(english) ==>
              name in NameMap(english + arabic) && NameMap(english + arabic)[name] == NameMap(english)[name]
  {
    var all := english + arabic;
    NameMapSpec(all, name);
    NameMapSpec(english, name);
    NameMapSpec(arabic, name);
    NameMapOver(english, arabic, name);
    forall i | 0 <= i < |english| && english[i].1 == name ensures all[i].1 == name { }
    forall i | 0 <= i < |arabic| && arabic[i].1 == name ensures all[|english| + i].1 == name { }
    forall i | 0 <= i < |all| && all[i].1 == name
      ensures (exists i :: 0 <= i < |english| && english[i].1 == name) || (exists i :: 0 <= i < |arabic| && arabic[i].1 == name)
    {
      if i >= |english| {
        assert arabic[i - |english|].1 == name;
      }
    }
  }

  /** Pairs appended after all pairs named `name` leave its number alone,
      and appending a pair list that names it gives that list's number. */
  lemma {:induction false} NameMapOver(english: seq<(string, string)>, arabic: seq<(string, string)>, name: string)
    ensures (forall i :: 0 <= i < |arabic| ==> arabic[i].1 != name) ==>
              (name in NameMap(english + arabic) <==> name in NameMap(english))
              && (name in NameMap(english) ==> NameMap(english + arabic)[name] == NameMap(english)[name])
    ensures name in NameMap(arabic) ==> name in NameMap(english + arabic) && NameMap(english + arabic)[name] == NameMap(arabic)[name]
    decreases |arabic|
  {
    if arabic != [] {
      var pre := arabic[..|arabic| - 1];
      NameMapOver(english, pre, name);
      assert (english + arabic)[..|english + arabic| - 1] == english + pre;
      if forall i :: 0 <= i < |arabic| ==> arabic[i].1 != name {
        forall i | 0 <= i < |pre| ensures pre[i].1 != name {
          assert pre[i] == arabic[i];
        }
      }
    } else {
      assert english + arabic == english;
    }
  }

  /** `create_surah_name_to_num_map()`: every English name, then every
      Arabic name, mapped to its surah number. */
  method CreateSurahNameToNumMap(surahNumToName: seq<(string, string)>, surahNumToArabicName: seq<(string, string)>)
    returns (surahMap: map<string, string>)
    ensures surahMap == NameMap(surahNumToName + surahNumToArabicName)
  {
    surahMap := map[];
    for i := 0 to |surahNumToName|
      invariant surahMap == NameMap(surahNumToName[..i])
    {
      assert surahNumToName[..i + 1][..i] == surahNumToName[..i];
      surahMap := surahMap[surahNumToName[i].1 := surahNumToName[i].0];
    }
    assert surahNumToName[..|surahNumToName|] == surahNumToName + surahNumToArabicName[..0];
    for j := 0 to |surahNumToArabicName|
      invariant surahMap == NameMap(surahNumToName + surahNumToArabicName[..j])
    {
      var done := surahNumToName + surahNumToArabicName[..j];
      var next := surahNumToName + surahNumToArabicName[..j + 1];
      assert next[..|next| - 1] == done;
      surahMap := surahMap[surahNumToArabicName[j].1 := surahNumToArabicName[j].0];
    }
    assert surahNumToArabicName[..|surahNumToArabicName|] == surahNumToArabicName;
  }
}
