/** The index build of build_indexes.py (`parse_quran`): each corpus line
    `surah|ayah|text` is cut into fields, the basmalah is removed, empty ayahs
    are skipped, every phrase of every ayah is observed, phrases seen in two
    ayahs are deleted, the reverse indexes are built and every phrase longer
    than its ayah's shortest unique phrase is pruned. The module-level dicts
    are the fields of `QuranIndex`. */
module BuildIndexes {
  import opened Wrappers
  import opened Text
  import opened Phrases
  import opened Uniqueness

  /** The invocation removed from every ayah text before it is indexed
      (build_indexes.py:32), code point by code point: each shadda (U+0651)
      comes before the fatha (U+064E) it carries, as the corpus writes it. */
  const Basmalah: string :=
    "\U{0628}\U{0650}\U{0633}\U{0652}\U{0645}\U{0650} "
    + "\U{0627}\U{0644}\U{0644}\U{0651}\U{064E}\U{0647}\U{0650} "
    + "\U{0627}\U{0644}\U{0631}\U{0651}\U{064E}\U{062D}\U{0652}\U{0645}\U{064E}\U{0640}\U{0670}\U{0646}\U{0650} "
    + "\U{0627}\U{0644}\U{0631}\U{0651}\U{064E}\U{062D}\U{0650}\U{064A}\U{0645}\U{0650}"

  /** The order of the stacked marks: shadda, then fatha, in Allah,
      ar-Rahman and ar-Rahim. */
  lemma BasmalahSpelling()
    ensures |Basmalah| == 39
    ensures Basmalah[6] == ' ' && Basmalah[14] == ' ' && Basmalah[28] == ' '
    ensures Basmalah[10] == '\U{0651}' && Basmalah[11] == '\U{064E}'
    ensures Basmalah[18] == '\U{0651}' && Basmalah[19] == '\U{064E}'
    ensures Basmalah[32] == '\U{0651}' && Basmalah[33] == '\U{064E}'
  {
  }

  datatype Record = Record(surah: string, ayah: string, text: string)

  /** `tokens = line.split('|')` and the reads of `tokens[0]`, `tokens[1]`
      and `tokens[2]`; a line with fewer than three fields raises
      `IndexError`, extra fields are ignored. */
  function ParseLine(line: string): (r: Result<Record>)
    ensures r.Ok? <==> |Split(line, '|')| >= 3
  {
    var tokens := Split(line, '|');
    if |tokens| < 3 then Err("IndexError")
    else Ok(Record(tokens[0], tokens[1], tokens[2]))
  }

  /** A line written from three fields without `|` reads back as those fields. */
  lemma ParseLineRoundTrip(surah: string, ayah: string, text: string)
    requires '|' !in surah && '|' !in ayah && '|' !in text
    ensures ParseLine(surah + "|" + ayah + "|" + text) == Ok(Record(surah, ayah, text))
  {
    assert [surah, ayah, text][1..] == [ayah, text];
    assert [ayah, text][1..] == [text];
    assert Join([ayah, text], '|') == ayah + "|" + text;
    var line := surah + "|" + ayah + "|" + text;
    assert line == Join([surah, ayah, text], '|');
    SplitJoin([surah, ayah, text], '|');
  }

  /** `tokens[2].replace(basmalah, '').strip()` */
  function CleanAyah(text: string): (r: string)
    ensures |r| <= |text|
    ensures r == [] || (!IsSpace(r[0]) && !IsSpace(r[|r| - 1]))
  {
    Strip(RemoveAll(text, Basmalah))
  }

  /** A basmalah that opens an ayah is removed with it. */
  lemma BasmalahRemoved(text: string)
    ensures CleanAyah(Basmalah + text) == CleanAyah(text)
  {
    assert (Basmalah + text)[..|Basmalah|] == Basmalah;
    assert (Basmalah + text)[|Basmalah|..] == text;
  }

  /** A line holding only the basmalah is empty once cleaned, so the ayah is
      skipped. */
  lemma BasmalahOnlySkipped(recs: seq<Record>, surah: string, ayah: string)
    ensures CleanAyah(Basmalah) == ""
    ensures Entries(recs + [Record(surah, ayah, Basmalah)]) == Entries(recs)
  {
    BasmalahRemoved("");
    assert Basmalah + "" == Basmalah;
    assert (recs + [Record(surah, ayah, Basmalah)])[..|recs|] == recs;
  }

  /** `f"{surah_num}:{tokens[1]}"`: the surah field, a colon, the ayah field. */
  function AyahNumOf(surah: string, ayah: string): (r: string)
    ensures |r| == |surah| + 1 + |ayah|
    ensures r[..|surah|] == surah && r[|surah|] == ':' && r[|surah| + 1..] == ayah
  {
    surah + ":" + ayah
  }

  /** `ayah_num.split(':')[0]`: the ayah number up to its first colon. */
  function SurahOf(ayahNum: string): (r: string)
    ensures ':' !in r && r <= ayahNum
    ensures |r| < |ayahNum| ==> ayahNum[|r|] == ':'
  {
    SplitHead(ayahNum, ':');
    Split(ayahNum, ':')[0]
  }

  /** The surah part of an ayah number is the surah field it was made from
      when that field holds no `:`. */
  lemma SurahOfAyahNum(surah: string, ayah: string)
    requires ':' !in surah
    ensures SurahOf(AyahNumOf(surah, ayah)) == surah
  {
    SplitAppendSep(surah, ayah, ':');
    SplitNoSep(surah, ':');
    assert AyahNumOf(surah, ayah) == surah + [':'] + ayah;
  }

  /** An ayah that survives basmalah removal: its number, its surah field and
      its cleaned text. */
  datatype Entry = Entry(ayahNum: string, surah: string, text: string)

  /** The ayah a record contributes: none when its text is empty once the
      basmalah is removed and the text stripped. */
  function EntryOf(r: Record): (es: seq<Entry>)
    ensures |es| <= 1
    ensures es == [] <==> CleanAyah(r.text) == ""
    ensures es != [] ==> es[0] == Entry(AyahNumOf(r.surah, r.ayah), r.surah, CleanAyah(r.text))
  {
    var text := CleanAyah(r.text);
    if text == "" then [] else [Entry(AyahNumOf(r.surah, r.ayah), r.surah, text)]
  }

  /** The records of the corpus lines, or the error of the first malformed
      line. */
  function ParseLines(lines: seq<string>): (r: Result<seq<Record>>)
    ensures r.Ok? ==> |r.value| == |lines|
    decreases |lines|
  {
    if lines == [] then Ok([])
    else
      match ParseLines(lines[..|lines| - 1])
      case Err(e) => Err(e)
      case Ok(recs) =>
        match ParseLine(lines[|lines| - 1])
        case Err(e) => Err(e)
        case Ok(rec) => Ok(recs + [rec])
  }

  predicate WellFormed(lines: seq<string>) {
    forall i :: 0 <= i < |lines| ==> ParseLine(lines[i]).Ok?
  }

  /** The corpus parses exactly when every line has three fields, and then
      record `i` is line `i` cut into its fields. */
  lemma {:induction false} ParseLinesOk(lines: seq<string>)
    ensures ParseLines(lines).Ok? <==> WellFormed(lines)
    ensures ParseLines(lines).Ok? ==>
              forall i :: 0 <= i < |lines| ==> Ok(ParseLines(lines).value[i]) == ParseLine(lines[i])
    decreases |lines|
  {
    if lines != [] {
      var init := lines[..|lines| - 1];
      ParseLinesOk(init);
      assert forall i :: 0 <= i < |init| ==> init[i] == lines[i];
    }
  }

  /** An error on a prefix of the corpus is an error of the whole corpus. */
  lemma {:induction false} ParseLinesErr(lines: seq<string>, n: nat)
    requires n <= |lines| && ParseLines(lines[..n]).Err?
    ensures ParseLines(lines).Err?
    decreases |lines| - n
  {
    if n < |lines| {
      assert lines[..n + 1][..n] == lines[..n];
      ParseLinesErr(lines, n + 1);
    } else {
      assert lines[..n] == lines;
    }
  }

  /** The non-empty ayahs of `recs`, in corpus order. */
  function Entries(recs: seq<Record>): (es: seq<Entry>)
    ensures |es| <= |recs|
    ensures forall i :: 0 <= i < |es| ==> es[i].text != ""
    decreases |recs|
  {
    if recs == [] then [] else Entries(recs[..|recs| - 1]) + EntryOf(recs[|recs| - 1])
  }

  /** The phrase set `populate_phrases` builds for an ayah's cleaned text. */
  function AyahPhrases(text: string): set<string> {
    PhraseSet(Split(text, ' '))
  }

  /** What the line loop observes: each ayah's number with its phrase set,
      in corpus order. */
  function Observations(es: seq<Entry>): seq<Observation> {
    seq(|es|, i requires 0 <= i < |es| => Observation(es[i].ayahNum, AyahPhrases(es[i].text)))
  }

  /** `surah_num_to_ayah_nums`: the ayah numbers of each surah field, in
      corpus order. */
  function AyahNumsBySurah(es: seq<Entry>): map<string, seq<string>>
    decreases |es|
  {
    if es == [] then map[]
    else
      var m := AyahNumsBySurah(es[..|es| - 1]);
      var e := es[|es| - 1];
      m[e.surah := (if e.surah in m then m[e.surah] else []) + [e.ayahNum]]
  }

  /** `ayah_num_to_ayah`: each ayah number's cleaned text. */
  function AyahTexts(es: seq<Entry>): map<string, string>
    decreases |es|
  {
    if es == [] then map[]
    else AyahTexts(es[..|es| - 1])[es[|es| - 1].ayahNum := es[|es| - 1].text]
  }

  /** `ayah_num_to_prev_ayah_num`: an ayah is linked to the ayah processed
      just before it when both lie in the same surah. */
  function PrevChain(es: seq<Entry>): map<string, string>
    decreases |es|
  {
    if |es| < 2 then map[]
    else
      var m := PrevChain(es[..|es| - 1]);
      var e, prev := es[|es| - 1], es[|es| - 2];
      if SurahOf(e.ayahNum) == SurahOf(prev.ayahNum) then m[e.ayahNum := prev.ayahNum] else m
  }

  /** The surahs the phrases of `m` lie in. */
  function SurahsOf(m: map<string, string>): set<string> {
    set p | p in m :: SurahOf(m[p])
  }

  /** The phrases of `m` whose ayah lies in surah `s`. */
  function SurahPhrases(m: map<string, string>, s: string): set<string> {
    set p | p in m && SurahOf(m[p]) == s
  }

  /** `surah_num_to_phrases` as built from a phrase to ayah map. */
  function SurahIndex(m: map<string, string>): map<string, set<string>> {
    map s | s in SurahsOf(m) :: SurahPhrases(m, s)
  }

  function Restrict(m: map<string, string>, ks: set<string>): map<string, string> {
    map p | p in ks && p in m :: m[p]
  }

  /** Adding one phrase adds it to the entry of its own ayah only. */
  lemma AyahIndexAdd(m: map<string, string>, p: string, v: string)
    requires p !in m
    ensures AyahIndex(m[p := v]) == AyahIndex(m)[v := PhrasesOf(m, v) + {p}]
  {
    var m' := m[p := v];
    var lhs, rhs := AyahIndex(m'), AyahIndex(m)[v := PhrasesOf(m, v) + {p}];
    assert m'.Values == m.Values + {v} by {
      forall a | a in m.Values ensures a in m'.Values {
        var q :| q in m && m[q] == a;
        assert m'[q] == a;
      }
      assert m'[p] == v;
    }
    forall a | a in lhs ensures lhs[a] == rhs[a] {
      assert PhrasesOf(m', a) == PhrasesOf(m, a) + (if a == v then {p} else {});
    }
  }

  /** Adding one phrase adds it to the entry of its own surah only. */
  lemma SurahIndexAdd(m: map<string, string>, p: string, v: string)
    requires p !in m
    ensures SurahIndex(m[p := v]) == SurahIndex(m)[SurahOf(v) := SurahPhrases(m, SurahOf(v)) + {p}]
  {
    var m' := m[p := v];
    var lhs, rhs := SurahIndex(m'), SurahIndex(m)[SurahOf(v) := SurahPhrases(m, SurahOf(v)) + {p}];
    assert SurahsOf(m') == SurahsOf(m) + {SurahOf(v)} by {
      forall s | s in SurahsOf(m) ensures s in SurahsOf(m') {
        var q :| q in m && SurahOf(m[q]) == s;
        assert m'[q] == m[q];
      }
      assert m'[p] == v;
    }
    forall s | s in lhs ensures lhs[s] == rhs[s] {
      assert SurahPhrases(m', s) == SurahPhrases(m, s) + (if s == SurahOf(v) then {p} else {});
    }
  }

  /** Moving one phrase into the processed part adds it to its ayah's and
      its surah's entry, creating the entry when it is missing. */
  lemma ReverseIndexStep(m: map<string, string>, done: set<string>, p: string)
    requires p in m && p !in done
    ensures var g := AyahIndex(Restrict(m, done));
            AyahIndex(Restrict(m, done + {p})) == g[m[p] := (if m[p] in g then g[m[p]] else {}) + {p}]
    ensures var g := SurahIndex(Restrict(m, done));
            var s := SurahOf(m[p]);
            SurahIndex(Restrict(m, done + {p})) == g[s := (if s in g then g[s] else {}) + {p}]
  {
    var before := Restrict(m, done);
    assert Restrict(m, done + {p}) == before[p := m[p]];
    AyahIndexAdd(before, p, m[p]);
    SurahIndexAdd(before, p, m[p]);
    if m[p] !in AyahIndex(before) {
      assert PhrasesOf(before, m[p]) == {};
    }
    if SurahOf(m[p]) !in SurahIndex(before) {
      assert SurahPhrases(before, SurahOf(m[p])) == {};
    }
  }

  /** The body of the reverse-index loop for `phrase`: the phrase joins the
      set of its ayah and the set of that ayah's surah, each created when
      missing (`if key not in d: d[key] = set()`, then `d[key].add(phrase)`). */
  method AddReverse(phraseToAyahNum: map<string, string>, ghost done: set<string>, phrase: string,
                    ayahNumToPhrases: map<string, set<string>>, surahNumToPhrases: map<string, set<string>>)
    returns (ayahNumToPhrases': map<string, set<string>>, surahNumToPhrases': map<string, set<string>>)
    requires phrase in phraseToAyahNum && phrase !in done
    requires ayahNumToPhrases == AyahIndex(Restrict(phraseToAyahNum, done))
    requires surahNumToPhrases == SurahIndex(Restrict(phraseToAyahNum, done))
    ensures ayahNumToPhrases' == AyahIndex(Restrict(phraseToAyahNum, done + {phrase}))
    ensures surahNumToPhrases' == SurahIndex(Restrict(phraseToAyahNum, done + {phrase}))
  {
    var ayahNum := phraseToAyahNum[phrase];
    var surahNum := SurahOf(ayahNum);
    ReverseIndexStep(phraseToAyahNum, done, phrase);
    var ayahPhrases := if ayahNum in ayahNumToPhrases then ayahNumToPhrases[ayahNum] else {};
    ayahNumToPhrases' := ayahNumToPhrases[ayahNum := ayahPhrases + {phrase}];
    var surahPhrases := if surahNum in surahNumToPhrases then surahNumToPhrases[surahNum] else {};
    surahNumToPhrases' := surahNumToPhrases[surahNum := surahPhrases + {phrase}];
  }

  /** The loop `for phrase, ayah_num in phrase_to_ayah_num.items()` that
      builds `ayah_num_to_phrases` and `surah_num_to_phrases`. */
  method BuildReverseIndexes(phraseToAyahNum: map<string, string>)
    returns (ayahNumToPhrases: map<string, set<string>>, surahNumToPhrases: map<string, set<string>>)
    ensures ayahNumToPhrases == AyahIndex(phraseToAyahNum)
    ensures surahNumToPhrases == SurahIndex(phraseToAyahNum)
  {
    ayahNumToPhrases, surahNumToPhrases := map[], map[];
    var remaining := phraseToAyahNum.Keys;
    ghost var done: set<string> := {};
    assert Restrict(phraseToAyahNum, done) == map[];
    while remaining != {}
      invariant remaining <= phraseToAyahNum.Keys && done == phraseToAyahNum.Keys - remaining
      invariant ayahNumToPhrases == AyahIndex(Restrict(phraseToAyahNum, done))
      invariant surahNumToPhrases == SurahIndex(Restrict(phraseToAyahNum, done))
      decreases remaining
    {
      var phrase :| phrase in remaining;
      ayahNumToPhrases, surahNumToPhrases :=
        AddReverse(phraseToAyahNum, done, phrase, ayahNumToPhrases, surahNumToPhrases);
      remaining := remaining - {phrase};
      done := done + {phrase};
    }
    assert Restrict(phraseToAyahNum, done) == phraseToAyahNum;
  }

  /** What is left of `m` once the ayahs in `doneA` are pruned and, of ayah
      `a`'s phrases, those in `doneP` whose word count is not `k` are deleted. */
  ghost function Pruned(m: map<string, string>, doneA: set<string>, doneP: set<string>, k: int): map<string, string> {
    map p | p in m && (m[p] in doneA ==> WordCount(p) == MinWords(PhrasesOf(m, m[p])))
                   && (p in doneP ==> WordCount(p) == k) :: m[p]
  }

  /** Deleting a phrase keeps the rest of the pruned map. */
  lemma PrunedDrop(m: map<string, string>, doneA: set<string>, doneP: set<string>, k: int, p: string)
    requires p in m && m[p] !in doneA && p !in doneP && WordCount(p) != k
    ensures p in Pruned(m, doneA, doneP, k)
    ensures Pruned(m, doneA, doneP + {p}, k) == Pruned(m, doneA, doneP, k) - {p}
  {
  }

  /** Looking at a phrase of the minimum length deletes nothing. */
  lemma PrunedKeep(m: map<string, string>, doneA: set<string>, doneP: set<string>, k: int, p: string)
    requires WordCount(p) == k
    ensures Pruned(m, doneA, doneP + {p}, k) == Pruned(m, doneA, doneP, k)
  {
  }

  /** Once all of ayah `a`'s phrases are looked at, `a` counts as pruned. */
  lemma PrunedAyah(m: map<string, string>, doneA: set<string>, a: string)
    requires a !in doneA
    ensures Pruned(m, doneA, PhrasesOf(m, a), MinWords(PhrasesOf(m, a))) == Pruned(m, doneA + {a}, {}, 0)
  {
  }

  /** Before any pruning the map is whole, and the surah index over it is the
      unpruned one; an ayah of `m` lies in one of its surahs. */
  lemma PrunedStart(m: map<string, string>, k: int)
    ensures Pruned(m, {}, {}, k) == m
    ensures SurahIndexOver(SurahsOf(m), m) == SurahIndex(m)
  {
  }

  lemma PrunedEnter(m: map<string, string>, doneA: set<string>, a: string, k: int)
    requires a in m.Values
    ensures SurahOf(a) in SurahsOf(m)
    ensures Pruned(m, doneA, {}, k) == Pruned(m, doneA, {}, 0)
  {
    var p :| p in m && m[p] == a;
    assert SurahOf(m[p]) in SurahsOf(m);
  }

  /** Once every ayah is pruned, the result is `Minimal(m)`. */
  lemma PrunedAll(m: map<string, string>, doneA: set<string>)
    requires forall p :: p in m ==> m[p] in doneA
    ensures Pruned(m, doneA, {}, 0) == Minimal(m)
  {
  }

  /** Deleting phrase `p` deletes it from its surah's entry only. */
  lemma SurahIndexOverDrop(keys: set<string>, m': map<string, string>, p: string)
    requires p in m' && SurahOf(m'[p]) in keys
    ensures var g := SurahIndexOver(keys, m');
            SurahIndexOver(keys, m' - {p}) == g[SurahOf(m'[p]) := g[SurahOf(m'[p])] - {p}]
  {
    var g := SurahIndexOver(keys, m');
    forall s | s in keys
      ensures SurahPhrases(m' - {p}, s) == if s == SurahOf(m'[p]) then g[s] - {p} else g[s]
    {
    }
  }

  /** The pruned surah index: every surah key of the unpruned index, holding
      the phrases of `m'` that lie in it. */
  function SurahIndexOver(keys: set<string>, m': map<string, string>): map<string, set<string>> {
    map s | s in keys :: SurahPhrases(m', s)
  }

  lemma AyahIndexAt(m: map<string, string>, a: string)
    requires a in AyahIndex(m)
    ensures a in m.Values && AyahIndex(m)[a] == PhrasesOf(m, a)
  {
  }

  /** Every ayah number of `m` is a key of `AyahIndex(m)`. */
  lemma AyahIndexCovers(m: map<string, string>, ayahs: set<string>)
    requires ayahs == AyahIndex(m).Keys
    ensures forall p :: p in m ==> m[p] in ayahs
  {
    forall p | p in m ensures m[p] in ayahs {
      assert m[p] in m.Values;
    }
  }

  /** One round of the pruning loop, for ayah `ayahNum` and its `phrases`:
      `min_words` is their minimum word count, and every phrase with another
      word count is deleted from `phrase_to_ayah_num` and from its surah's
      set in `surah_num_to_phrases`. `m` is the map before any pruning and
      `doneA` the ayahs already pruned. */
  method PruneAyah(ayahNum: string, phrases: set<string>,
                   phraseToAyahNum: map<string, string>, surahNumToPhrases: map<string, set<string>>,
                   ghost m: map<string, string>, ghost doneA: set<string>)
    returns (phraseToAyahNum': map<string, string>, surahNumToPhrases': map<string, set<string>>)
    requires ayahNum !in doneA && ayahNum in m.Values && phrases == PhrasesOf(m, ayahNum)
    requires phraseToAyahNum == Pruned(m, doneA, {}, 0)
    requires surahNumToPhrases == SurahIndexOver(SurahsOf(m), phraseToAyahNum)
    ensures phraseToAyahNum' == Pruned(m, doneA + {ayahNum}, {}, 0)
    ensures surahNumToPhrases' == SurahIndexOver(SurahsOf(m), phraseToAyahNum')
  {
    var minWords := MinWordsOf(phrases);
    var surahNum := SurahOf(ayahNum);
    PrunedEnter(m, doneA, ayahNum, minWords);
    phraseToAyahNum', surahNumToPhrases' := phraseToAyahNum, surahNumToPhrases;
    var remaining := phrases;
    ghost var doneP: set<string> := {};
    while remaining != {}
      invariant remaining <= phrases && doneP == phrases - remaining
      invariant phraseToAyahNum' == Pruned(m, doneA, doneP, minWords)
      invariant surahNumToPhrases' == SurahIndexOver(SurahsOf(m), phraseToAyahNum')
      decreases remaining
    {
      var phrase :| phrase in remaining;
      if WordCount(phrase) != minWords {
        PrunedDrop(m, doneA, doneP, minWords, phrase);
        SurahIndexOverDrop(SurahsOf(m), phraseToAyahNum', phrase);
        phraseToAyahNum' := phraseToAyahNum' - {phrase};
        surahNumToPhrases' := surahNumToPhrases'[surahNum := surahNumToPhrases'[surahNum] - {phrase}];
      } else {
        PrunedKeep(m, doneA, doneP, minWords, phrase);
      }
      remaining := remaining - {phrase};
      doneP := doneP + {phrase};
    }
    PrunedAyah(m, doneA, ayahNum);
  }

  /** The loop `for ayah_num, phrases in ayah_num_to_phrases.items()` that
      keeps, of each ayah's unique phrases, only the shortest ones, in
      `phrase_to_ayah_num` and in `surah_num_to_phrases`. Every `del` and
      `remove` finds its key. */
  method PruneToMinimal(ayahNumToPhrases: map<string, set<string>>, phraseToAyahNum: map<string, string>,
                        surahNumToPhrases: map<string, set<string>>)
    returns (phraseToAyahNum': map<string, string>, surahNumToPhrases': map<string, set<string>>)
    requires ayahNumToPhrases == AyahIndex(phraseToAyahNum)
    requires surahNumToPhrases == SurahIndex(phraseToAyahNum)
    ensures phraseToAyahNum' == Minimal(phraseToAyahNum)
    ensures surahNumToPhrases' == SurahIndexOver(surahNumToPhrases.Keys, Minimal(phraseToAyahNum))
  {
    ghost var m := phraseToAyahNum;
    phraseToAyahNum', surahNumToPhrases' := phraseToAyahNum, surahNumToPhrases;
    var remainingAyahs := ayahNumToPhrases.Keys;
    ghost var doneA: set<string> := {};
    PrunedStart(m, 0);
    while remainingAyahs != {}
      invariant remainingAyahs <= ayahNumToPhrases.Keys && doneA == ayahNumToPhrases.Keys - remainingAyahs
      invariant phraseToAyahNum' == Pruned(m, doneA, {}, 0)
      invariant surahNumToPhrases' == SurahIndexOver(SurahsOf(m), phraseToAyahNum')
      decreases remainingAyahs
    {
      var ayahNum :| ayahNum in remainingAyahs;
      AyahIndexAt(m, ayahNum);
      phraseToAyahNum', surahNumToPhrases' :=
        PruneAyah(ayahNum, ayahNumToPhrases[ayahNum], phraseToAyahNum', surahNumToPhrases', m, doneA);
      remainingAyahs := remainingAyahs - {ayahNum};
      doneA := doneA + {ayahNum};
    }
    AyahIndexCovers(m, doneA);
    PrunedAll(m, doneA);
  }

  /** `prev_ayah_num`: the number of the last ayah read, if any. */
  function LastAyahNum(es: seq<Entry>): (r: Option<string>)
    ensures r.None? <==> es == []
    ensures r.Some? ==> r.value == es[|es| - 1].ayahNum
  {
    if es == [] then None else Some(es[|es| - 1].ayahNum)
  }

  /** Reading one more line extends the parse by that line's record. */
  lemma ParseLinesSnoc(lines: seq<string>, i: nat)
    requires i < |lines|
    ensures var prefix, line := ParseLines(lines[..i]), ParseLine(lines[i]);
            ParseLines(lines[..i + 1]) ==
              if prefix.Err? then prefix
              else if line.Err? then Err(line.error)
              else Ok(prefix.value + [line.value])
  {
    assert lines[..i + 1][..i] == lines[..i];
  }

  /** One more record adds its ayah, if any. */
  lemma EntriesSnoc(recs: seq<Record>, r: Record)
    ensures Entries(recs + [r]) == Entries(recs) + EntryOf(r)
  {
    assert (recs + [r])[..|recs|] == recs;
  }

  /** One more ayah extends each of the folds by one step. */
  lemma AyahNumsSnoc(es: seq<Entry>, e: Entry)
    ensures var m := AyahNumsBySurah(es);
            AyahNumsBySurah(es + [e]) == m[e.surah := (if e.surah in m then m[e.surah] else []) + [e.ayahNum]]
  {
    assert (es + [e])[..|es|] == es;
  }

  lemma AyahTextsSnoc(es: seq<Entry>, e: Entry)
    ensures AyahTexts(es + [e]) == AyahTexts(es)[e.ayahNum := e.text]
  {
    assert (es + [e])[..|es|] == es;
  }

  lemma PrevChainSnoc(es: seq<Entry>, e: Entry)
    ensures PrevChain(es + [e]) ==
            if es != [] && SurahOf(e.ayahNum) == SurahOf(es[|es| - 1].ayahNum)
            then PrevChain(es)[e.ayahNum := es[|es| - 1].ayahNum] else PrevChain(es)
  {
    var es' := es + [e];
    assert es'[..|es'| - 1] == es;
    if es != [] {
      assert es'[|es'| - 2] == es[|es| - 1];
    }
  }

  lemma ObservationsSnoc(es: seq<Entry>, e: Entry)
    ensures Observations(es + [e]) == Observations(es) + [Observation(e.ayahNum, AyahPhrases(e.text))]
  {
  }

  /** Lines 180-190 of the line loop: the ayah's words are split off, its
      phrase set is built and every phrase is observed. */
  method ObserveAyah(owners: map<string, string>, nonUnique: set<string>, ayahNum: string, ayah: string,
                     ghost obs: seq<Observation>)
    returns (owners': map<string, string>, nonUnique': set<string>)
    requires owners == Owners(obs) && nonUnique == Repeated(obs)
    ensures owners' == Owners(obs + [Observation(ayahNum, AyahPhrases(ayah))])
    ensures nonUnique' == Repeated(obs + [Observation(ayahNum, AyahPhrases(ayah))])
  {
    var ayahWords := Split(ayah, ' ');
    var ayahPhrases := PopulatePhrases(ayahWords, {});
    assert {} + AyahPhrases(ayah) == AyahPhrases(ayah);
    owners', nonUnique' := ObservePhrases(owners, nonUnique, ayahNum, ayahPhrases, obs);
  }

  /** The module-level dicts filled by `parse_quran`. `juz_num_to_ayah_range`
      and `surah_num_to_name` are filled from files, which this model leaves
      out. */
  class QuranIndex {
    var ayahNumToPrevAyahNum: map<string, string>
    var ayahNumToAyah: map<string, string>
    var surahNumToAyahNums: map<string, seq<string>>
    var surahNumToPhrases: map<string, set<string>>
    var phraseToAyahNum: map<string, string>

    /** The state of the module before `parse_quran` runs. */
    ghost predicate Unbuilt()
      reads this
    {
      ayahNumToPrevAyahNum == map[] && ayahNumToAyah == map[] && surahNumToAyahNums == map[] &&
      surahNumToPhrases == map[] && phraseToAyahNum == map[]
    }

    /** The dicts as `parse_quran` leaves them after reading the ayahs `es`. */
    ghost predicate Built(es: seq<Entry>)
      reads this
    {
      var unique := Unique(Observations(es));
      && ayahNumToPrevAyahNum == PrevChain(es)
      && ayahNumToAyah == AyahTexts(es)
      && surahNumToAyahNums == AyahNumsBySurah(es)
      && phraseToAyahNum == Minimal(unique)
      && surahNumToPhrases == SurahIndexOver(SurahIndex(unique).Keys, Minimal(unique))
    }

    constructor ()
      ensures Unbuilt()
    {
      ayahNumToPrevAyahNum, ayahNumToAyah, surahNumToAyahNums := map[], map[], map[];
      surahNumToPhrases, phraseToAyahNum := map[], map[];
    }

    /** The dicts while the line loop of `parse_quran` runs, after it has read
        the ayahs `es`; `nonUnique` is its local `non_unique_phrases`. */
    ghost predicate Indexed(es: seq<Entry>, nonUnique: set<string>)
      reads this
    {
      && ayahNumToPrevAyahNum == PrevChain(es)
      && ayahNumToAyah == AyahTexts(es)
      && surahNumToAyahNums == AyahNumsBySurah(es)
      && phraseToAyahNum == Owners(Observations(es))
      && nonUnique == Repeated(Observations(es))
      && surahNumToPhrases == map[]
    }

    /** The rest of the line loop's body once the ayah `ayah` (number
        `ayahNum`, surah field `surahNum`) is known to be non-empty: it is
        appended to its surah's list, stored, its phrases are observed and it
        is linked to `prevAyahNum` when both lie in the same surah. */
    method IndexAyah(surahNum: string, ayahNum: string, ayah: string, nonUnique: set<string>,
                     prevAyahNum: Option<string>, ghost es: seq<Entry>)
      returns (nonUnique': set<string>)
      requires Indexed(es, nonUnique)
      requires prevAyahNum == LastAyahNum(es)
      modifies this
      ensures Indexed(es + [Entry(ayahNum, surahNum, ayah)], nonUnique')
    {
      var e := Entry(ayahNum, surahNum, ayah);
      ghost var es' := es + [e];
      AyahNumsSnoc(es, e);
      AyahTextsSnoc(es, e);
      PrevChainSnoc(es, e);
      ObservationsSnoc(es, e);

      var ayahNums := surahNumToAyahNums;
      if surahNum !in ayahNums || ayahNums[surahNum] == [] {
        ayahNums := ayahNums[surahNum := []];
      }
      ayahNums := ayahNums[surahNum := ayahNums[surahNum] + [ayahNum]];
      assert ayahNums == AyahNumsBySurah(es');

      var owners;
      owners, nonUnique' := ObserveAyah(phraseToAyahNum, nonUnique, ayahNum, ayah, Observations(es));

      // A stored ayah number holds a ':', so it is never the empty string.
      var chain := ayahNumToPrevAyahNum;
      if prevAyahNum.Some? && SurahOf(ayahNum) == SurahOf(prevAyahNum.value) {
        chain := chain[ayahNum := prevAyahNum.value];
      }
      surahNumToAyahNums, ayahNumToAyah := ayahNums, ayahNumToAyah[ayahNum := ayah];
      phraseToAyahNum, ayahNumToPrevAyahNum := owners, chain;
    }

    /** The line loop's body for the record `rec` of a well-formed line:
        the ayah number is built, the text cleaned and, unless it is empty
        (`if not ayah: continue`), the ayah is indexed. */
    method ReadRecord(rec: Record, nonUnique: set<string>, prevAyahNum: Option<string>, ghost es: seq<Entry>)
      returns (nonUnique': set<string>, prevAyahNum': Option<string>, ghost es': seq<Entry>)
      requires Indexed(es, nonUnique) && prevAyahNum == LastAyahNum(es)
      modifies this
      ensures es' == es + EntryOf(rec)
      ensures Indexed(es', nonUnique') && prevAyahNum' == LastAyahNum(es')
    {
      var surahNum := rec.surah;
      var ayahNum := AyahNumOf(surahNum, rec.ayah);
      var ayah := CleanAyah(rec.text);
      nonUnique', prevAyahNum', es' := nonUnique, prevAyahNum, es;
      if ayah != "" {
        nonUnique' := IndexAyah(surahNum, ayahNum, ayah, nonUnique, prevAyahNum, es);
        prevAyahNum' := Some(ayahNum);
        es' := es + [Entry(ayahNum, surahNum, ayah)];
      } else {
        assert es + EntryOf(rec) == es;
      }
    }

    /** `parse_quran()` over the corpus lines already read from the file
        (stripped, blank and `#` lines dropped). A malformed line raises
        `IndexError` in the source, which ends the build: `ok` is false. */
    method ParseQuran(lines: seq<string>) returns (ok: bool)
      requires Unbuilt()
      modifies this
      ensures ok <==> ParseLines(lines).Ok?
      ensures ok ==> Built(Entries(ParseLines(lines).value))
    {
      var nonUniquePhrases: set<string> := {};
      var prevAyahNum: Option<string> := None;
      ghost var recs: seq<Record> := [];
      ghost var es: seq<Entry> := [];
      assert Observations(es) == [];
      assert Indexed(es, nonUniquePhrases);
      for i := 0 to |lines|
        invariant ParseLines(lines[..i]) == Ok(recs) && es == Entries(recs)
        invariant Indexed(es, nonUniquePhrases)
        invariant prevAyahNum == LastAyahNum(es)
      {
        ParseLinesSnoc(lines, i);
        var line := ParseLine(lines[i]);
        if line.Err? {
          var read := i + 1;
          ParseLinesErr(lines, read);
          return false;
        }
        assert ParseLines(lines[..i + 1]) == Ok(recs + [line.value]);
        EntriesSnoc(recs, line.value);
        nonUniquePhrases, prevAyahNum, es := ReadRecord(line.value, nonUniquePhrases, prevAyahNum, es);
        recs := recs + [line.value];
      }
      assert lines[..|lines|] == lines;
      FinishIndexes(nonUniquePhrases, es);
      return true;
    }

    /** The part of `parse_quran()` after the line loop: the repeated phrases
        are deleted, the reverse indexes built and every ayah's and surah's
        phrases pruned to the fewest words. */
    method FinishIndexes(nonUniquePhrases: set<string>, ghost es: seq<Entry>)
      requires Indexed(es, nonUniquePhrases)
      modifies this
      ensures Built(es)
    {
      ghost var obs := Observations(es);
      var unique := RemoveDuplicates(phraseToAyahNum, nonUniquePhrases, obs);
      var ayahNumToPhrases, surahIndex := BuildReverseIndexes(unique);
      var pruned, prunedSurahs := PruneToMinimal(ayahNumToPhrases, unique, surahIndex);
      phraseToAyahNum, surahNumToPhrases := pruned, prunedSurahs;
    }
  }
}
