/** The older phrase pipeline of unique_phrases.py: the recursive enumerator
    `unique_phrases`, which either extends the current phrase by the next word
    or restarts it at that word and skips states whose cache key it has seen,
    and the module-level passes that keep the phrases found in one ayah only
    and then, per ayah, the ones with the fewest words. */
module UniquePhrases {
  import opened Wrappers
  import opened Text
  import opened Phrases
  import opened Uniqueness
  import BuildIndexes

  /** `MIN_WORDS`: phrases with fewer space-separated words are not kept. */
  const MinWordsSetting: int := 1

  /** The phrases of `p` with at least `minWords` words. */
  function Keep(ps: set<string>, minWords: int): (r: set<string>)
    ensures forall p :: p in r <==> p in ps && WordCount(p) >= minWords
  {
    set p | p in ps && WordCount(p) >= minWords
  }

  lemma KeepUnion(a: set<string>, b: set<string>, minWords: int)
    ensures Keep(a, minWords) + Keep(b, minWords) == Keep(a + b, minWords)
  {
  }

  /** Everything the call `unique_phrases(words, idx, _, cur, cache)` adds to
      its phrase set when no cache entry cuts the recursion short. */
  function Contrib(words: seq<string>, minWords: int, idx: nat, cur: string): set<string>
    decreases |words| - idx
  {
    var c := Strip(cur);
    if idx >= |words| then Own(c, minWords)
    else
      var w := Strip(words[idx]);
      Own(c, minWords) + Contrib(words, minWords, idx + 1, c + " " + w) + Contrib(words, minWords, idx + 1, w)
  }

  /** What the call adds for its own stripped phrase `c`. */
  function Own(c: string, minWords: int): (r: set<string>)
    ensures r == Keep({c}, minWords)
  {
    if WordCount(c) >= minWords then {c} else {}
  }

  /** `MIN_WORDS` filter: nothing shorter than `minWords` words is added. */
  lemma {:induction false} ContribMinWords(words: seq<string>, minWords: int, idx: nat, cur: string)
    ensures forall p :: p in Contrib(words, minWords, idx, cur) ==> WordCount(p) >= minWords
    decreases |words| - idx
  {
    if idx < |words| {
      var c, w := Strip(cur), Strip(words[idx]);
      ContribMinWords(words, minWords, idx + 1, c + " " + w);
      ContribMinWords(words, minWords, idx + 1, w);
    }
  }

  /** Only the words from `idx` on influence what the call from `idx` adds;
      in particular the leading `surah|ayah|` token never contributes. */
  lemma {:induction false} ContribIgnoresEarlier(words: seq<string>, words': seq<string>, minWords: int, idx: nat, cur: string)
    requires |words'| == |words| && forall j :: idx <= j < |words| ==> words'[j] == words[j]
    ensures Contrib(words', minWords, idx, cur) == Contrib(words, minWords, idx, cur)
    decreases |words| - idx
  {
    if idx < |words| {
      var c, w := Strip(cur), Strip(words[idx]);
      ContribIgnoresEarlier(words, words', minWords, idx + 1, c + " " + w);
      ContribIgnoresEarlier(words, words', minWords, idx + 1, w);
      assert words'[idx] == words[idx];
      ContribStep(words', minWords, idx, cur);
      ContribStep(words, minWords, idx, cur);
    }
  }

  /** One level of the recursion: the call's own phrase, then the call that
      extends it by word `idx` and the call that restarts at that word. */
  lemma ContribStep(words: seq<string>, minWords: int, idx: nat, cur: string)
    requires idx < |words|
    ensures var c, w := Strip(cur), Strip(words[idx]);
            Contrib(words, minWords, idx, cur) ==
            Own(c, minWords) + Contrib(words, minWords, idx + 1, c + " " + w) + Contrib(words, minWords, idx + 1, w)
  {
  }

  /** A word as `ayah.split(' ')` yields it from well-spaced text: not empty,
      and neither starting nor ending with whitespace. */
  predicate CleanWord(w: string) {
    w != [] && !IsSpace(w[0]) && !IsSpace(w[|w| - 1])
  }

  /** Every word after the leading `surah|ayah|` token is clean. */
  predicate CleanWords(words: seq<string>) {
    forall k :: 1 <= k < |words| ==> CleanWord(words[k])
  }

  /** A join of clean words is clean. */
  lemma {:induction false} JoinClean(ws: seq<string>)
    requires |ws| >= 1 && forall k :: 0 <= k < |ws| ==> CleanWord(ws[k])
    ensures CleanWord(Join(ws, ' '))
    decreases |ws|
  {
    if |ws| > 1 {
      JoinClean(ws[1..]);
      var j := Join(ws, ' ');
      assert j == ws[0] + [' '] + Join(ws[1..], ' ');
      assert j[0] == ws[0][0];
      assert j[|j| - 1] == Join(ws[1..], ' ')[|Join(ws[1..], ' ')| - 1];
    }
  }

  /** The run of `words[a..b]`, joined by single spaces. */
  function Run(words: seq<string>, a: nat, b: nat): string
    requires a <= b <= |words|
  {
    Join(words[a..b], ' ')
  }

  lemma RunClean(words: seq<string>, a: nat, b: nat)
    requires CleanWords(words) && 1 <= a < b <= |words|
    ensures CleanWord(Run(words, a, b)) && Strip(Run(words, a, b)) == Run(words, a, b)
  {
    JoinClean(words[a..b]);
  }

  /** The run starting at word `a` that reaches word `idx`, and all its
      extensions to the right. */
  function Extensions(words: seq<string>, a: nat, idx: nat): set<string>
    requires a <= idx <= |words|
  {
    set b | idx <= b <= |words| :: Run(words, a, b)
  }

  /** All the runs that start at word `idx` or later. */
  function RunsFrom(words: seq<string>, idx: nat): set<string>
    requires idx <= |words|
  {
    set a, b | idx <= a < b <= |words| :: Run(words, a, b)
  }

  lemma ExtensionsNext(words: seq<string>, a: nat, idx: nat)
    requires a <= idx < |words|
    ensures Extensions(words, a, idx) == {Run(words, a, idx)} + Extensions(words, a, idx + 1)
  {
    forall p | p in Extensions(words, a, idx)
      ensures p in {Run(words, a, idx)} + Extensions(words, a, idx + 1)
    {
      var b :| idx <= b <= |words| && p == Run(words, a, b);
      if b > idx {
        assert p in Extensions(words, a, idx + 1);
      }
    }
  }

  lemma RunsFromNext(words: seq<string>, idx: nat)
    requires idx < |words|
    ensures RunsFrom(words, idx) == Extensions(words, idx, idx + 1) + RunsFrom(words, idx + 1)
  {
    forall p | p in RunsFrom(words, idx)
      ensures p in Extensions(words, idx, idx + 1) + RunsFrom(words, idx + 1)
    {
      var a, b :| idx <= a < b <= |words| && p == Run(words, a, b);
      if a == idx {
        assert p in Extensions(words, idx, idx + 1);
      } else {
        assert p in RunsFrom(words, idx + 1);
      }
    }
    forall p | p in Extensions(words, idx, idx + 1) ensures p in RunsFrom(words, idx) {
      var b :| idx + 1 <= b <= |words| && p == Run(words, idx, b);
    }
    forall p | p in RunsFrom(words, idx + 1) ensures p in RunsFrom(words, idx) {
      var a, b :| idx + 1 <= a < b <= |words| && p == Run(words, a, b);
    }
  }

  /** Extending the run `words[a..idx]` by the next word gives the run
      `words[a..idx + 1]`. */
  lemma RunSnoc(words: seq<string>, a: nat, idx: nat)
    requires a < idx < |words|
    ensures Run(words, a, idx) + " " + words[idx] == Run(words, a, idx + 1)
  {
    JoinSnoc(words[a..idx], words[idx], ' ');
    assert words[a..idx] + [words[idx]] == words[a..idx + 1];
  }

  /** From the run `words[a..idx]` as current phrase, for every `a`, the
      recursion adds exactly that run, its extensions and every run further
      right, less those with fewer than `minWords` words. */
  lemma {:induction false} ContribRun(words: seq<string>, minWords: int, idx: nat)
    requires CleanWords(words) && 1 <= idx <= |words|
    ensures forall a :: 1 <= a < idx ==> RunSpec(words, minWords, a, idx, Run(words, a, idx))
    decreases |words| - idx
  {
    if idx < |words| {
      ContribRun(words, minWords, idx + 1);
      forall a | 1 <= a < idx ensures RunSpec(words, minWords, a, idx, Run(words, a, idx)) {
        ContribRunStep(words, minWords, a, idx);
      }
    } else {
      forall a | 1 <= a < idx ensures RunSpec(words, minWords, a, idx, Run(words, a, idx)) {
        ContribRunBase(words, minWords, a, idx);
      }
    }
  }

  /** The call from `idx` on `cur` adds the run `words[a..idx]`, its
      extensions and the runs further right, less those with fewer than
      `minWords` words. */
  predicate RunSpec(words: seq<string>, minWords: int, a: nat, idx: nat, cur: string)
    requires a <= idx <= |words|
  {
    Contrib(words, minWords, idx, cur) == Keep(Extensions(words, a, idx) + RunsFrom(words, idx), minWords)
  }

  /** `ContribRun` once every word is consumed. */
  lemma ContribRunBase(words: seq<string>, minWords: int, a: nat, idx: nat)
    requires CleanWords(words) && 1 <= a < idx == |words|
    ensures RunSpec(words, minWords, a, idx, Run(words, a, idx))
  {
    RunClean(words, a, idx);
    assert Extensions(words, a, idx) == {Run(words, a, idx)};
    assert RunsFrom(words, idx) == {};
  }

  /** The step of `ContribRun`, from its two sub-calls. */
  lemma ContribRunStep(words: seq<string>, minWords: int, a: nat, idx: nat)
    requires CleanWords(words) && 1 <= a < idx < |words|
    requires RunSpec(words, minWords, a, idx + 1, Run(words, a, idx + 1))
    requires RunSpec(words, minWords, idx, idx + 1, Run(words, idx, idx + 1))
    ensures RunSpec(words, minWords, a, idx, Run(words, a, idx))
  {
    var cur := Run(words, a, idx);
    RunClean(words, a, idx);
    var c, w := Strip(cur), Strip(words[idx]);
    assert w == Run(words, idx, idx + 1) by {
      assert words[idx..idx + 1] == [words[idx]];
      RunClean(words, idx, idx + 1);
    }
    assert c + " " + w == Run(words, a, idx + 1) by {
      RunSnoc(words, a, idx);
    }
    ContribStep(words, minWords, idx, cur);
    KeepRunsNext(words, minWords, a, idx);
  }

  /** The recursion looks at its phrase only once stripped. */
  lemma ContribStripped(words: seq<string>, minWords: int, idx: nat, cur: string)
    ensures Contrib(words, minWords, idx, cur) == Contrib(words, minWords, idx, Strip(cur))
  {
    assert Strip(Strip(cur)) == Strip(cur);
    if idx < |words| {
      ContribStep(words, minWords, idx, cur);
      ContribStep(words, minWords, idx, Strip(cur));
    }
  }

  /** The sets of `ContribRun` at `idx` are the own run plus those of its
      two sub-calls at `idx + 1`. */
  lemma KeepRunsNext(words: seq<string>, minWords: int, a: nat, idx: nat)
    requires a < idx < |words|
    ensures Keep({Run(words, a, idx)}, minWords)
            + Keep(Extensions(words, a, idx + 1) + RunsFrom(words, idx + 1), minWords)
            + Keep(Extensions(words, idx, idx + 1) + RunsFrom(words, idx + 1), minWords)
            == Keep(Extensions(words, a, idx) + RunsFrom(words, idx), minWords)
  {
    var c := Run(words, a, idx);
    var ext, next, rest := Extensions(words, a, idx + 1), Extensions(words, idx, idx + 1), RunsFrom(words, idx + 1);
    ExtensionsNext(words, a, idx);
    RunsFromNext(words, idx);
    calc {
      Keep({c}, minWords) + Keep(ext + rest, minWords) + Keep(next + rest, minWords);
      { KeepUnion({c}, ext + rest, minWords); KeepUnion({c} + ext + rest, next + rest, minWords); }
      Keep({c} + ext + rest + (next + rest), minWords);
      { assert {c} + ext + rest + (next + rest) == ({c} + ext) + (next + rest); }
      Keep(({c} + ext) + (next + rest), minWords);
    }
  }

  /** The starting call `unique_phrases(tokens, 1, _, "", _)`: it adds the
      empty phrase and every run of the words after the first token, less
      those with fewer than `minWords` words. */
  lemma ContribTop(tokens: seq<string>, minWords: int)
    requires |tokens| >= 1 && CleanWords(tokens)
    ensures Contrib(tokens, minWords, 1, "") == Keep({""} + PhraseSet(tokens[1..]), minWords)
  {
    if |tokens| <= 1 {
      assert PhraseSet(tokens[1..]) == {};
    } else {
      var w := tokens[1];
      var s := "" + " " + w;
      assert Strip(s) == w by {
        assert FirstNonSpace(s, 1) == 1;
        assert FirstNonSpace(s, 0) == 1;
        assert EndNonSpace(s, |s|) == |s|;
        assert s[1..] == w;
      }
      assert w == Run(tokens, 1, 2) by {
        assert tokens[1..2] == [w];
      }
      ContribStripped(tokens, minWords, 2, s);
      ContribRun(tokens, minWords, 2);
      RunsFromNext(tokens, 1);
      RunsFromShift(tokens);
    }
  }

  /** The runs from word 1 of the tokens are the phrases of `tokens[1..]`. */
  lemma RunsFromShift(tokens: seq<string>)
    requires |tokens| >= 1
    ensures RunsFrom(tokens, 1) == PhraseSet(tokens[1..])
  {
    var words := tokens[1..];
    forall p | p in RunsFrom(tokens, 1) ensures p in PhraseSet(words) {
      var a, b :| 1 <= a < b <= |tokens| && p == Run(tokens, a, b);
      ShiftSlice(tokens, a, b);
      assert p == Join(words[a - 1..b - 1], ' ');
      assert p in PhrasesUpTo(words, |words|);
    }
    forall p | p in PhraseSet(words) ensures p in RunsFrom(tokens, 1) {
      var a, b :| 0 <= a < b <= |words| && p == Join(words[a..b], ' ');
      ShiftSlice(tokens, a + 1, b + 1);
      assert p == Run(tokens, a + 1, b + 1);
    }
  }

  lemma ShiftSlice(tokens: seq<string>, a: nat, b: nat)
    requires 1 <= a <= b <= |tokens|
    ensures tokens[1..][a - 1..b - 1] == tokens[a..b]
  {
    var l, r := tokens[1..][a - 1..b - 1], tokens[a..b];
    assert |l| == |r|;
    forall k | 0 <= k < |l| ensures l[k] == r[k] {
      assert l[k] == tokens[a + k];
    }
  }

  /** With `MIN_WORDS = 1` the filter keeps everything, so the empty phrase
      `""` (one word for `len("".split(" "))`) is among the ayah's phrases. */
  lemma ContribMinOne(tokens: seq<string>)
    requires |tokens| >= 1 && CleanWords(tokens)
    ensures Contrib(tokens, MinWordsSetting, 1, "") == {""} + PhraseSet(tokens[1..])
  {
    ContribTop(tokens, MinWordsSetting);
  }

  /** A state of the recursion: the phrase passed in and the word index. */
  datatype State = State(cur: string, idx: nat)

  /** `cur_phrase + str(word_idx)`, the key under which the state is
      cached. */
  function CacheKey(cur: string, idx: nat): (k: string)
    ensures |k| > |cur| && k[..|cur|] == cur
  {
    cur + NatToString(idx)
  }

  /** The key is injective on phrases that do not end in a digit: the digits
      at the end of the key are then exactly those of the index. */
  lemma CacheKeyInjective(a: string, i: nat, b: string, j: nat)
    requires NoDigitEnd(a) && NoDigitEnd(b) && CacheKey(a, i) == CacheKey(b, j)
    ensures a == b && i == j
  {
    CacheKeyLength(a, i, b, j);
    CacheKeyLength(b, j, a, i);
    var k := CacheKey(a, i);
    assert a == k[..|a|] == b;
    assert NatToString(i) == k[|a|..] == NatToString(j);
    NatToStringInjective(i, j);
  }

  /** The digits at the end of a key are at most those of its index. */
  lemma CacheKeyLength(a: string, i: nat, b: string, j: nat)
    requires NoDigitEnd(b) && CacheKey(a, i) == CacheKey(b, j)
    ensures |b| <= |a|
  {
    if |a| < |b| {
      assert false;
    }
  }

  /** The key `(cur_phrase, word_idx) == ("1", 2)` and `("", 12)` share: a
      phrase ending in a digit can make the cache skip a state it has not
      visited. */
  lemma CacheKeyCollision()
    ensures CacheKey("1", 2) == CacheKey("", 12)
  {
    assert NatToString(12) == NatToString(1) + [DigitChar(2)];
  }

  /** The cache keys of a set of visited states. */
  ghost function Keys(done: set<State>): set<string> {
    set s | s in done :: CacheKey(s.cur, s.idx)
  }

  /** No stripped word after the first token ends in a digit, so no phrase
      the recursion builds does. */
  predicate WordsOk(words: seq<string>) {
    forall k :: 1 <= k < |words| ==> NoDigitEnd(Strip(words[k]))
  }

  predicate Visited(done: set<State>, s: State) {
    s in done
  }

  ghost predicate DigitFree(done: set<State>) {
    forall s {:trigger Visited(done, s)} :: Visited(done, s) ==> NoDigitEnd(s.cur)
  }

  /** Everything each visited state adds is already in `phrases`. */
  ghost predicate Sound(words: seq<string>, minWords: int, done: set<State>, phrases: set<string>) {
    forall s {:trigger Visited(done, s)} :: Visited(done, s) ==> Complete(words, minWords, s.idx, s.cur, phrases)
  }

  /** A cache hit under injective keys is a state already visited, whose
      phrases are all present. */
  lemma CacheHit(words: seq<string>, minWords: int, done: set<State>, phrases: set<string>, cur: string, idx: nat)
    requires CacheKey(cur, idx) in Keys(done) && NoDigitEnd(cur) && DigitFree(done)
    requires Sound(words, minWords, done, phrases)
    ensures Complete(words, minWords, idx, cur, phrases)
  {
    var s :| s in done && CacheKey(s.cur, s.idx) == CacheKey(cur, idx);
    assert Visited(done, s);
    CacheKeyInjective(s.cur, s.idx, cur, idx);
  }

  /** `unique_phrases(ayah_words, word_idx, ayah_phrases, cur_phrase,
      cache)`. The source adds to the `ayah_phrases` and `cache` sets in
      place; here the updated sets are returned. `done` is the ghost record
      of the states behind the cache keys. Without further assumptions the
      result holds only phrases of `Contrib`; when no word ends in a digit it
      holds all of them. */
  method UniquePhrasesRec(ayahWords: seq<string>, wordIdx: nat, ayahPhrases: set<string>, curPhrase: string,
                          cache: set<string>, minWords: int, ghost done: set<State>)
    returns (phrases: set<string>, cache': set<string>, ghost done': set<State>)
    requires 1 <= wordIdx
    requires cache == Keys(done)
    requires WordsOk(ayahWords) ==>
               NoDigitEnd(curPhrase) && DigitFree(done) && Sound(ayahWords, minWords, done, ayahPhrases)
    ensures cache' == Keys(done')
    ensures Covers(ayahWords, minWords, wordIdx, curPhrase, ayahPhrases, phrases)
    ensures WordsOk(ayahWords) ==>
              && DigitFree(done') && Sound(ayahWords, minWords, done', phrases)
              && Complete(ayahWords, minWords, wordIdx, curPhrase, phrases)
    decreases |ayahWords| - wordIdx
  {
    var cacheKey := CacheKey(curPhrase, wordIdx);
    if cacheKey in cache {
      if WordsOk(ayahWords) {
        CacheHit(ayahWords, minWords, done, ayahPhrases, curPhrase, wordIdx);
      }
      return ayahPhrases, cache, done;
    }
    var cur := Strip(curPhrase);
    phrases := ayahPhrases;
    if WordCount(cur) >= minWords {
      phrases := phrases + {cur};
    }
    assert phrases == ayahPhrases + Own(cur, minWords);
    if wordIdx >= |ayahWords| {
      AtEnd(ayahWords, minWords, wordIdx, curPhrase, ayahPhrases, done, WordsOk(ayahWords));
      return phrases, cache, done;
    }
    var curWord := Strip(ayahWords[wordIdx]);
    var newPhrase := cur + " " + curWord;
    ghost var own := phrases;
    var next := wordIdx + 1;
    ghost var ok := WordsOk(ayahWords);
    if ok {
      NoDigitEndSpaced(cur, curWord);
    }
    ghost var done1;
    phrases, cache', done1 := UniquePhrasesRec(ayahWords, next, phrases, newPhrase, cache, minWords, done);
    ghost var mid := phrases;
    phrases, cache', done' := UniquePhrasesRec(ayahWords, next, phrases, curWord, cache', minWords, done1);
    ghost var s := State(curPhrase, wordIdx);
    KeysAdd(done', s);
    cache' := cache' + {cacheKey};
    RecStep(ayahWords, minWords, wordIdx, next, curPhrase, cur, curWord, newPhrase, ayahPhrases, own, mid, phrases, done', ok);
    done' := done' + {s};
  }

  /** Past the last word a state contributes only its own phrase. */
  lemma AtEnd(words: seq<string>, minWords: int, idx: nat, curPhrase: string, start: set<string>, done: set<State>, ok: bool)
    requires idx >= |words|
    requires ok ==> Sound(words, minWords, done, start)
    ensures var phrases := start + Own(Strip(curPhrase), minWords);
            && Covers(words, minWords, idx, curPhrase, start, phrases)
            && (ok ==> Sound(words, minWords, done, phrases))
            && Complete(words, minWords, idx, curPhrase, phrases)
  {
    if ok {
      SoundGrow(words, minWords, done, start, start + Own(Strip(curPhrase), minWords));
    }
  }

  /** The bookkeeping after both recursive calls: together with its own
      phrase they add exactly what `Contrib` describes for this state, so the
      state can join the visited ones. */
  lemma RecStep(words: seq<string>, minWords: int, idx: nat, next: nat, curPhrase: string, c: string, w: string, n: string,
                start: set<string>, own: set<string>, mid: set<string>, phrases: set<string>, done: set<State>, ok: bool)
    requires idx < |words| && next == idx + 1
    requires c == Strip(curPhrase) && w == Strip(words[idx]) && n == c + " " + w
    requires own == start + Own(c, minWords)
    requires Covers(words, minWords, next, n, own, mid)
    requires Covers(words, minWords, next, w, mid, phrases)
    requires ok ==> NoDigitEnd(curPhrase) && DigitFree(done)
    requires ok ==> Sound(words, minWords, done, phrases)
    requires ok ==> Complete(words, minWords, next, n, mid)
    requires ok ==> Complete(words, minWords, next, w, phrases)
    ensures Covers(words, minWords, idx, curPhrase, start, phrases)
    ensures ok ==> DigitFree(done + {State(curPhrase, idx)})
    ensures ok ==> Sound(words, minWords, done + {State(curPhrase, idx)}, phrases)
    ensures ok ==> Complete(words, minWords, idx, curPhrase, phrases)
  {
    ContribStep(words, minWords, idx, curPhrase);
    Widen(start, own, mid, phrases, Own(c, minWords),
          Contrib(words, minWords, idx + 1, n), Contrib(words, minWords, idx + 1, w));
    if ok {
      SoundAdd(words, minWords, done, phrases, State(curPhrase, idx));
      DigitFreeAdd(done, State(curPhrase, idx));
    }
  }

  lemma DigitFreeAdd(done: set<State>, s: State)
    requires DigitFree(done) && NoDigitEnd(s.cur)
    ensures DigitFree(done + {s})
  {
    forall t | Visited(done + {s}, t)
      ensures NoDigitEnd(t.cur)
    {
      if t != s {
        assert Visited(done, t);
      }
    }
  }

  /** Visited states stay covered when phrases are added. */
  lemma SoundGrow(words: seq<string>, minWords: int, done: set<State>, phrases: set<string>, more: set<string>)
    requires Sound(words, minWords, done, phrases) && phrases <= more
    ensures Sound(words, minWords, done, more)
  {
    forall t | Visited(done, t)
      ensures Complete(words, minWords, t.idx, t.cur, more)
    {
    }
  }

  /** Three successive bounded additions add at most their union. */
  lemma Widen(a: set<string>, b: set<string>, c: set<string>, d: set<string>,
              x: set<string>, y: set<string>, z: set<string>)
    requires Between(a, b, x) && Between(b, c, y) && Between(c, d, z)
    ensures Between(a, d, x + y + z)
  {
  }

  /** The call from state `(cur, idx)` turns `start` into `phrases` by
      adding only phrases that state contributes. */
  ghost predicate Covers(words: seq<string>, minWords: int, idx: nat, cur: string, start: set<string>, phrases: set<string>) {
    Between(start, phrases, Contrib(words, minWords, idx, cur))
  }

  /** Every phrase the state `(cur, idx)` contributes is in `phrases`. */
  ghost predicate Complete(words: seq<string>, minWords: int, idx: nat, cur: string, phrases: set<string>) {
    Contrib(words, minWords, idx, cur) <= phrases
  }

  /** `hi` grows `lo` by some elements of `extra`. */
  predicate Between(lo: set<string>, hi: set<string>, extra: set<string>) {
    lo <= hi <= lo + extra
  }

  lemma KeysAdd(done: set<State>, s: State)
    ensures Keys(done + {s}) == Keys(done) + {CacheKey(s.cur, s.idx)}
  {
  }

  /** A phrase extended by a word that does not end in a digit does not end
      in one either. */
  lemma NoDigitEndSpaced(c: string, w: string)
    requires NoDigitEnd(w)
    ensures NoDigitEnd(c + " " + w)
  {
    var t := c + " " + w;
    if w == [] {
      assert t[|t| - 1] == ' ';
    } else {
      assert t[|t| - 1] == w[|w| - 1];
    }
  }

  lemma SoundAdd(words: seq<string>, minWords: int, done: set<State>, phrases: set<string>, s: State)
    requires Sound(words, minWords, done, phrases)
    requires Contrib(words, minWords, s.idx, s.cur) <= phrases
    ensures Sound(words, minWords, done + {s}, phrases)
  {
    forall t | Visited(done + {s}, t)
      ensures Complete(words, minWords, t.idx, t.cur, phrases)
    {
      if t != s {
        assert Visited(done, t);
      }
    }
  }

  /** The call `unique_phrases(tokens, 1, ayah_phrases, "", set())` on an
      ayah's tokens, starting from an empty phrase set. */
  method AyahPhraseSet(tokens: seq<string>) returns (phrases: set<string>)
    ensures phrases <= Contrib(tokens, MinWordsSetting, 1, "")
    ensures WordsOk(tokens) ==> phrases == Contrib(tokens, MinWordsSetting, 1, "")
    ensures |tokens| >= 1 && WordsOk(tokens) && CleanWords(tokens) ==> phrases == {""} + PhraseSet(tokens[1..])
  {
    ghost var done: set<State> := {};
    ghost var done';
    var cache: set<string> := {};
    assert Keys(done) == {};
    phrases, cache, done' := UniquePhrasesRec(tokens, 1, {}, "", cache, MinWordsSetting, done);
    if |tokens| >= 1 && WordsOk(tokens) && CleanWords(tokens) {
      ContribMinOne(tokens);
    }
  }

  /** `l.rstrip()`: the line without its trailing white space. */
  function RStrip(l: string): (r: string)
    ensures r <= l
    ensures r == [] || !IsSpace(r[|r| - 1])
    ensures forall i :: |r| <= i < |l| ==> IsSpace(l[i])
  {
    l[..EndNonSpace(l, |l|)]
  }

  /** `[l.rstrip() for l in file if l.rstrip() and not l.startswith("#")]`. */
  function AyahLines(lines: seq<string>): (ayahs: seq<string>)
    ensures |ayahs| <= |lines|
    decreases |lines|
  {
    if lines == [] then []
    else
      var l := lines[0];
      var rest := AyahLines(lines[1..]);
      if RStrip(l) != [] && l[0] != '#' then [RStrip(l)] + rest else rest
  }

  /** The kept lines are exactly the stripped lines that are neither blank
      nor comments, and none of them ends in white space. */
  lemma {:induction false} AyahLinesMember(lines: seq<string>, a: string)
    ensures a in AyahLines(lines) <==> exists l :: l in lines && a == RStrip(l) && a != [] && l[0] != '#'
    ensures a in AyahLines(lines) ==> a[0] != '#' && !IsSpace(a[|a| - 1])
    decreases |lines|
  {
    if lines != [] {
      AyahLinesMember(lines[1..], a);
      var l := lines[0];
      if a == RStrip(l) && a != [] && l[0] != '#' {
        assert l in lines;
      }
      forall l' | l' in lines[1..] ensures l' in lines { }
      forall l' | l' in lines && l' != l ensures l' in lines[1..] {
        var k :| 0 <= k < |lines| && lines[k] == l';
        assert lines[1..][k - 1] == l';
      }
    }
  }

  /** `tokens[0].split('|')` with `tokens = ayah.split(' ')`, read as
      `surah_num + ":" + ayah_num`; `None` where `[1]` raises `IndexError`. */
  function AyahNumber(ayah: string): (r: Option<string>)
    ensures r.Some? <==> |Split(Split(ayah, ' ')[0], '|')| >= 2
  {
    var head := Split(Split(ayah, ' ')[0], '|');
    if |head| < 2 then None else Some(head[0] + ":" + head[1])
  }

  /** A corpus line `surah|ayah| text` yields the ayah number `surah:ayah`,
      and the words after the first token are the words of `text`. */
  lemma AyahNumberRoundTrip(surah: string, ayah: string, text: string)
    requires ' ' !in surah && '|' !in surah && ' ' !in ayah && '|' !in ayah
    ensures AyahNumber(surah + "|" + ayah + "| " + text) == Some(BuildIndexes.AyahNumOf(surah, ayah))
    ensures Split(surah + "|" + ayah + "| " + text, ' ')[1..] == Split(text, ' ')
  {
    var first := surah + "|" + ayah + "|";
    var line := surah + "|" + ayah + "| " + text;
    assert line == first + [' '] + text;
    assert ' ' !in first by {
      forall i | 0 <= i < |first| ensures first[i] != ' ' {
        if i < |surah| { assert first[i] == surah[i]; }
        else if |surah| < i < |surah| + 1 + |ayah| { assert first[i] == ayah[i - |surah| - 1]; }
      }
    }
    SplitAppendSep(first, text, ' ');
    SplitNoSep(first, ' ');
    assert Split(line, ' ') == [first] + Split(text, ' ');
    assert [surah, ayah, ""][1..] == [ayah, ""];
    assert [ayah, ""][1..] == [""];
    assert Join([ayah, ""], '|') == ayah + "|" + "";
    assert first == Join([surah, ayah, ""], '|');
    SplitJoin([surah, ayah, ""], '|');
  }

  /** What the script holds for one ayah line: its ayah number, and a phrase
      set within the phrases the recursion enumerates, all of them when the
      words keep cache keys apart. */
  ghost predicate Reads(ayah: string, o: Observation) {
    var tokens := Split(ayah, ' ');
    AyahNumber(ayah) == Some(o.ayahNum)
    && o.phrases <= Contrib(tokens, MinWordsSetting, 1, "")
    && (WordsOk(tokens) ==> o.phrases == Contrib(tokens, MinWordsSetting, 1, ""))
  }

  /** The phrases of `ps` with the fewest words, the sentinel `10000` being
      the largest count that can survive. */
  ghost function Fewest(ps: set<string>): set<string> {
    set p | p in ps && WordCount(p) == MinWords(ps)
  }

  /** `Fewest` keeps phrases of one, minimal, word count, and every phrase of
      that count; it empties the set only when every phrase is longer than
      the sentinel. */
  lemma FewestSpec(ps: set<string>)
    ensures Fewest(ps) <= ps
    ensures forall p, q :: p in Fewest(ps) && q in ps ==> WordCount(p) <= WordCount(q)
    ensures forall p, q :: p in Fewest(ps) && q in Fewest(ps) ==> WordCount(p) == WordCount(q)
    ensures forall p :: p in ps && WordCount(p) <= Sentinel && (forall q :: q in ps ==> WordCount(p) <= WordCount(q)) ==> p in Fewest(ps)
    ensures Fewest(ps) == {} <==> forall p :: p in ps ==> WordCount(p) > Sentinel
  {
    MinWordsAttained(ps);
  }

  /** Some phrase has the minimum word count unless every phrase is longer
      than the sentinel. */
  lemma MinWordsAttained(ps: set<string>)
    ensures (exists p :: p in ps && WordCount(p) <= Sentinel) ==> exists p :: p in ps && WordCount(p) == MinWords(ps)
  {
    if p :| p in ps && WordCount(p) <= Sentinel {
      if MinWords(ps) == Sentinel {
        assert WordCount(p) == MinWords(ps);
      }
    }
  }

  /** `ayah_num_to_phrases` once every entry keeps its fewest-word phrases. */
  ghost function PrunedIndex(g: map<string, set<string>>): map<string, set<string>> {
    map a | a in g :: Fewest(g[a])
  }

  /** Pruning the reverse index of a phrase map keeps every ayah as a key
      and, for each, the phrases `Minimal` maps to it. */
  lemma PrunedIndexMinimal(m: map<string, string>)
    ensures PrunedIndex(AyahIndex(m)).Keys == m.Values
    ensures forall a :: a in m.Values ==> PrunedIndex(AyahIndex(m))[a] == PhrasesOf(Minimal(m), a)
  {
    forall a | a in m.Values ensures PrunedIndex(AyahIndex(m))[a] == PhrasesOf(Minimal(m), a) {
      PrunedAt(m, a);
    }
  }

  /** An ayah's pruned entry holds the phrases `Minimal` maps to it. */
  lemma PrunedAt(m: map<string, string>, a: string)
    requires a in m.Values
    ensures PrunedIndex(AyahIndex(m))[a] == PhrasesOf(Minimal(m), a)
  {
    var ps := PhrasesOf(m, a);
    assert PrunedIndex(AyahIndex(m))[a] == Fewest(ps);
    forall p ensures p in PhrasesOf(Minimal(m), a) <==> p in Fewest(ps) {
      MinimalMember(m, a, p);
    }
  }

  /** An ayah's pruned entry is empty only when all of its phrases exceed
      the sentinel. */
  lemma PrunedNonEmpty(m: map<string, string>, a: string)
    requires a in m.Values
    requires forall p :: p in m ==> WordCount(p) <= Sentinel
    ensures PrunedIndex(AyahIndex(m))[a] != {}
  {
    var ps := PhrasesOf(m, a);
    FewestSpec(ps);
    var q :| q in m && m[q] == a;
    assert q in ps;
  }

  /** A phrase is kept for ayah `a` exactly when it is one of the ayah's
      fewest-word phrases. */
  lemma MinimalMember(m: map<string, string>, a: string, p: string)
    ensures p in PhrasesOf(Minimal(m), a) <==> p in Fewest(PhrasesOf(m, a))
  {
    if p in m && m[p] == a {
      assert p in PhrasesOf(m, a);
    }
  }

  /** The phrases of `done` whose word count is not `k`. */
  ghost function Longer(done: set<string>, k: int): set<string> {
    set p | p in done && WordCount(p) != k
  }

  /** One ayah's round of lines 73-79: `min_phrase_words` is found, then
      every phrase of another word count is removed from the set. */
  method KeepFewest(phrases: set<string>) returns (kept: set<string>)
    ensures kept == Fewest(phrases)
  {
    var minWords := MinWordsOf(phrases);
    kept := phrases;
    var remaining := phrases;
    while remaining != {}
      invariant remaining <= phrases
      invariant kept == phrases - Longer(phrases - remaining, minWords)
      decreases remaining
    {
      var phrase :| phrase in remaining;
      ghost var done := phrases - remaining;
      if WordCount(phrase) != minWords {
        assert Longer(done + {phrase}, minWords) == Longer(done, minWords) + {phrase};
        kept := kept - {phrase};
      } else {
        assert Longer(done + {phrase}, minWords) == Longer(done, minWords);
      }
      remaining := remaining - {phrase};
      assert phrases - remaining == done + {phrase};
    }
    assert phrases - Longer(phrases, minWords) == Fewest(phrases);
  }

  /** The loop `for phrases in ayah_num_to_phrases.values()`: each entry is
      pruned in place, the keys stay. */
  method PruneEach(g: map<string, set<string>>) returns (g': map<string, set<string>>)
    ensures g' == PrunedIndex(g)
  {
    g' := g;
    var remaining := g.Keys;
    while remaining != {}
      invariant remaining <= g.Keys && g'.Keys == g.Keys
      invariant forall a :: a in g' ==> g'[a] == if a in remaining then g[a] else Fewest(g[a])
      decreases remaining
    {
      var a :| a in remaining;
      var kept := KeepFewest(g'[a]);
      g' := g'[a := kept];
      remaining := remaining - {a};
    }
    assert g' == PrunedIndex(g);
  }

  /** The loop of lines 66-69 that builds `ayah_num_to_phrases`. */
  method BuildAyahIndex(phraseToAyahNum: map<string, string>) returns (ayahNumToPhrases: map<string, set<string>>)
    ensures ayahNumToPhrases == AyahIndex(phraseToAyahNum)
  {
    ayahNumToPhrases := map[];
    var remaining := phraseToAyahNum.Keys;
    ghost var done: set<string> := {};
    assert BuildIndexes.Restrict(phraseToAyahNum, done) == map[];
    while remaining != {}
      invariant remaining <= phraseToAyahNum.Keys && done == phraseToAyahNum.Keys - remaining
      invariant ayahNumToPhrases == AyahIndex(BuildIndexes.Restrict(phraseToAyahNum, done))
      decreases remaining
    {
      var phrase :| phrase in remaining;
      var ayahNum := phraseToAyahNum[phrase];
      BuildIndexes.ReverseIndexStep(phraseToAyahNum, done, phrase);
      var ayahPhrases := if ayahNum in ayahNumToPhrases then ayahNumToPhrases[ayahNum] else {};
      ayahNumToPhrases := ayahNumToPhrases[ayahNum := ayahPhrases + {phrase}];
      remaining := remaining - {phrase};
      done := done + {phrase};
    }
    assert BuildIndexes.Restrict(phraseToAyahNum, done) == phraseToAyahNum;
  }

  /** Lines 48-53 for one ayah: its number from the first token and its
      phrases from the recursion; `None` for the `IndexError`. */
  method ReadAyah(ayah: string) returns (r: Option<Observation>)
    ensures r.Some? <==> AyahNumber(ayah).Some?
    ensures r.Some? ==> Reads(ayah, r.value)
  {
    var tokens := Split(ayah, ' ');
    var head := Split(tokens[0], '|');
    if |head| < 2 {
      return None;
    }
    var ayahNum := head[0] + ":" + head[1];
    var ayahPhrases := AyahPhraseSet(tokens);
    return Some(Observation(ayahNum, ayahPhrases));
  }

  /** The loop `for ayah in ayahs` of lines 47-59 over `phrase_to_ayah_num`
      and `non_unique_phrases`, which start empty: an ayah whose first token
      has no second `|` field stops the script with `IndexError`. `es` is
      what the ayahs read so far contributed. */
  method ReadAyahs(ayahs: seq<string>)
    returns (ok: bool, owners: map<string, string>, nonUnique: set<string>, ghost es: seq<Observation>)
    ensures ok <==> forall i :: 0 <= i < |ayahs| ==> AyahNumber(ayahs[i]).Some?
    ensures |es| <= |ayahs| && (ok ==> |es| == |ayahs|)
    ensures !ok ==> |es| < |ayahs| && AyahNumber(ayahs[|es|]).None?
    ensures forall i :: 0 <= i < |es| ==> Reads(ayahs[i], es[i])
    ensures owners == Owners(es) && nonUnique == Repeated(es)
  {
    owners, nonUnique, es := map[], {}, [];
    assert Owners(es) == map[] && Repeated(es) == {};
    var i := 0;
    while i < |ayahs|
      invariant 0 <= i <= |ayahs| && |es| == i
      invariant forall k :: 0 <= k < i ==> Reads(ayahs[k], es[k])
      invariant forall k :: 0 <= k < i ==> AyahNumber(ayahs[k]).Some?
      invariant owners == Owners(es) && nonUnique == Repeated(es)
    {
      var read := ReadAyah(ayahs[i]);
      if read.None? {
        return false, owners, nonUnique, es;
      }
      var o := read.value;
      owners, nonUnique := ObservePhrases(owners, nonUnique, o.ayahNum, o.phrases, es);
      forall k | 0 <= k < i + 1 ensures Reads(ayahs[k], (es + [o])[k]) {
        if k < i {
          assert (es + [o])[k] == es[k];
        }
      }
      es := es + [o];
      i := i + 1;
    }
    return true, owners, nonUnique, es;
  }

  /** The module-level state of unique_phrases.py. `observed` records, for
      each ayah processed, its number and the phrase set it contributed. */
  class PhraseIndex {
    var ayahNumToPhrases: map<string, set<string>>
    var phraseToAyahNum: map<string, string>
    var nonUniquePhrases: set<string>
    ghost var observed: seq<Observation>

    constructor()
      ensures ayahNumToPhrases == map[] && phraseToAyahNum == map[] && nonUniquePhrases == {}
      ensures observed == []
    {
      ayahNumToPhrases, phraseToAyahNum, nonUniquePhrases := map[], map[], {};
      observed := [];
    }

    /** The loop `for ayah in ayahs` of lines 47-59, on the fields. */
    method ObserveAyahs(ayahs: seq<string>) returns (ok: bool)
      requires phraseToAyahNum == map[] && nonUniquePhrases == {} && observed == []
      modifies this
      ensures ok <==> forall i :: 0 <= i < |ayahs| ==> AyahNumber(ayahs[i]).Some?
      ensures |observed| <= |ayahs| && (ok ==> |observed| == |ayahs|)
      ensures !ok ==> |observed| < |ayahs| && AyahNumber(ayahs[|observed|]).None?
      ensures forall i :: 0 <= i < |observed| ==> Reads(ayahs[i], observed[i])
      ensures phraseToAyahNum == Owners(observed) && nonUniquePhrases == Repeated(observed)
      ensures ayahNumToPhrases == old(ayahNumToPhrases)
    {
      var owners, nonUnique;
      ghost var es;
      ok, owners, nonUnique, es := ReadAyahs(ayahs);
      phraseToAyahNum, nonUniquePhrases, observed := owners, nonUnique, es;
    }

    /** Lines 47-79 after the corpus is read: observe every ayah, delete the
        non-unique phrases, build the reverse index and prune each of its
        entries to the phrases with the fewest words. */
    method Run(ayahs: seq<string>) returns (ok: bool)
      requires ayahNumToPhrases == map[] && phraseToAyahNum == map[] && nonUniquePhrases == {} && observed == []
      modifies this
      ensures ok <==> forall i :: 0 <= i < |ayahs| ==> AyahNumber(ayahs[i]).Some?
      ensures |observed| <= |ayahs| && (ok ==> |observed| == |ayahs|)
      ensures !ok ==> |observed| < |ayahs| && AyahNumber(ayahs[|observed|]).None?
      ensures forall i :: 0 <= i < |observed| ==> Reads(ayahs[i], observed[i])
      ensures nonUniquePhrases == Repeated(observed)
      ensures phraseToAyahNum == if ok then Unique(observed) else Owners(observed)
      ensures ayahNumToPhrases == if ok then PrunedIndex(AyahIndex(Unique(observed))) else map[]
    {
      ok := ObserveAyahs(ayahs);
      if !ok {
        return;
      }
      var unique := RemoveDuplicates(phraseToAyahNum, nonUniquePhrases, observed);
      var index := BuildAyahIndex(unique);
      index := PruneEach(index);
      phraseToAyahNum, ayahNumToPhrases := unique, index;
    }
  }
}
