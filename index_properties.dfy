/** What the dicts built by `parse_quran` (build_indexes.py) hold, stated
    about the specification folds of `BuildIndexes` and proved from them. */
module IndexProperties {
  import opened Text
  import opened Phrases
  import opened Uniqueness
  import opened BuildIndexes

  /** No two processed ayahs carry the same "surah:ayah" number, as in a
      corpus that lists every ayah once. */
  predicate DistinctNums(es: seq<Entry>) {
    forall i, j :: 0 <= i < j < |es| ==> es[i].ayahNum != es[j].ayahNum
  }

  /** The final `phrase_to_ayah_num` for the processed ayahs `es`. */
  ghost function PhraseIndex(es: seq<Entry>): map<string, string> {
    Minimal(Unique(Observations(es)))
  }

  /** Every key of the chain is the number of a processed ayah other than the
      first, linked to the number of the ayah processed just before it. */
  lemma {:induction false} PrevChainKeys(es: seq<Entry>, k: string)
    requires k in PrevChain(es)
    ensures exists i :: 0 < i < |es| && es[i].ayahNum == k && PrevChain(es)[k] == es[i - 1].ayahNum
    decreases |es|
  {
    var n := |es|;
    var pre := es[..n - 1];
    if k == es[n - 1].ayahNum && PrevChain(es) != PrevChain(pre) {
      assert PrevChain(es)[k] == es[n - 2].ayahNum;
    } else {
      PrevChainKeys(pre, k);
      var i :| 0 < i < |pre| && pre[i].ayahNum == k && PrevChain(pre)[k] == pre[i - 1].ayahNum;
      assert es[i] == pre[i] && es[i - 1] == pre[i - 1];
    }
  }

  /** The chain never crosses a surah boundary. */
  lemma {:induction false} PrevChainSameSurah(es: seq<Entry>, k: string)
    requires k in PrevChain(es)
    ensures SurahOf(PrevChain(es)[k]) == SurahOf(k)
    decreases |es|
  {
    var n := |es|;
    var pre := es[..n - 1];
    if k != es[n - 1].ayahNum || PrevChain(es) == PrevChain(pre) {
      if k in PrevChain(pre) {
        PrevChainSameSurah(pre, k);
      }
    }
  }

  /** With distinct ayah numbers, ayah `i` has a chain entry exactly when the
      ayah processed before it lies in the same surah, and the entry is that
      ayah's number. */
  lemma {:induction false} PrevChainAt(es: seq<Entry>, i: nat)
    requires DistinctNums(es) && i < |es|
    ensures es[i].ayahNum in PrevChain(es) <==> i > 0 && SurahOf(es[i].ayahNum) == SurahOf(es[i - 1].ayahNum)
    ensures es[i].ayahNum in PrevChain(es) ==> PrevChain(es)[es[i].ayahNum] == es[i - 1].ayahNum
    decreases |es|
  {
    var n := |es|;
    var pre := es[..n - 1];
    assert DistinctNums(pre);
    if i == n - 1 {
      if es[i].ayahNum in PrevChain(pre) {
        PrevChainKeys(pre, es[i].ayahNum);
        assert false;
      }
    } else {
      PrevChainAt(pre, i);
      assert es[i].ayahNum != es[n - 1].ayahNum;
      assert pre[i] == es[i];
      if i > 0 {
        assert pre[i - 1] == es[i - 1];
      }
    }
  }

  /** `ayah_num_to_ayah` holds exactly the processed ayah numbers. */
  lemma {:induction false} AyahTextsKeys(es: seq<Entry>, k: string)
    ensures k in AyahTexts(es) <==> exists i :: 0 <= i < |es| && es[i].ayahNum == k
    decreases |es|
  {
    if es != [] {
      var n := |es|;
      var pre := es[..n - 1];
      AyahTextsKeys(pre, k);
      if k in AyahTexts(pre) {
        var i :| 0 <= i < |pre| && pre[i].ayahNum == k;
        assert es[i].ayahNum == k;
      }
      if exists i :: 0 <= i < |es| && es[i].ayahNum == k {
        var i :| 0 <= i < |es| && es[i].ayahNum == k;
        if i < n - 1 {
          assert pre[i].ayahNum == k;
        }
      }
    }
  }

  /** With distinct ayah numbers, each number maps to its own cleaned text. */
  lemma {:induction false} AyahTextsAt(es: seq<Entry>, i: nat)
    requires DistinctNums(es) && i < |es|
    ensures es[i].ayahNum in AyahTexts(es) && AyahTexts(es)[es[i].ayahNum] == es[i].text
    decreases |es|
  {
    var n := |es|;
    var pre := es[..n - 1];
    if i < n - 1 {
      assert DistinctNums(pre);
      AyahTextsAt(pre, i);
      assert pre[i] == es[i];
    }
  }

  /** The ayah numbers of surah field `s` among `es`, in corpus order. */
  function AyahNumsOf(es: seq<Entry>, s: string): (r: seq<string>)
    ensures |r| <= |es|
    decreases |es|
  {
    if es == [] then []
    else AyahNumsOf(es[..|es| - 1], s) + if es[|es| - 1].surah == s then [es[|es| - 1].ayahNum] else []
  }

  /** `surah_num_to_ayah_nums` has a key for every surah field that occurs,
      holding that surah's ayah numbers in corpus order. */
  lemma {:induction false} AyahNumsBySurahSpec(es: seq<Entry>, s: string)
    ensures s in AyahNumsBySurah(es) <==> exists i :: 0 <= i < |es| && es[i].surah == s
    ensures s in AyahNumsBySurah(es) ==> AyahNumsBySurah(es)[s] == AyahNumsOf(es, s)
    ensures s !in AyahNumsBySurah(es) ==> AyahNumsOf(es, s) == []
    decreases |es|
  {
    if es != [] {
      var n := |es|;
      var pre := es[..n - 1];
      AyahNumsBySurahSpec(pre, s);
      if s in AyahNumsBySurah(pre) {
        var i :| 0 <= i < |pre| && pre[i].surah == s;
        assert es[i].surah == s;
      }
      if exists i :: 0 <= i < |es| && es[i].surah == s {
        var i :| 0 <= i < |es| && es[i].surah == s;
        if i < n - 1 {
          assert pre[i].surah == s;
        }
      }
    }
  }

  /** Every processed ayah comes from a record whose cleaned text is not
      empty. */
  lemma {:induction false} EntriesFrom(recs: seq<Record>, i: nat)
    requires i < |Entries(recs)|
    ensures exists j :: 0 <= j < |recs| && EntryOf(recs[j]) == [Entries(recs)[i]]
    decreases |recs|
  {
    var n := |recs|;
    var pre := recs[..n - 1];
    var es, last := Entries(pre), EntryOf(recs[n - 1]);
    assert Entries(recs) == es + last;
    if i < |es| {
      EntriesFrom(pre, i);
      var j :| 0 <= j < |pre| && EntryOf(pre[j]) == [es[i]];
      SameRecord(recs, j);
    } else {
      assert last == [Entries(recs)[i]];
    }
  }

  /** Conversely, every record whose cleaned text is not empty contributes
      its ayah. */
  lemma {:induction false} EntriesKeep(recs: seq<Record>, j: nat)
    requires j < |recs| && CleanAyah(recs[j].text) != ""
    ensures Entry(AyahNumOf(recs[j].surah, recs[j].ayah), recs[j].surah, CleanAyah(recs[j].text))
            in Entries(recs)
    decreases |recs|
  {
    var n := |recs|;
    var r := recs[j];
    var e := Entry(AyahNumOf(r.surah, r.ayah), r.surah, CleanAyah(r.text));
    if j < n - 1 {
      var pre := recs[..n - 1];
      SameRecord(recs, j);
      EntriesKeep(pre, j);
      assert e in Entries(pre);
      EntriesGrow(recs);
    } else {
      EntriesLast(recs);
      assert r == recs[|recs| - 1];
    }
  }

  lemma EntriesGrow(recs: seq<Record>)
    requires recs != []
    ensures forall e :: e in Entries(recs[..|recs| - 1]) ==> e in Entries(recs)
  {
    assert Entries(recs) == Entries(recs[..|recs| - 1]) + EntryOf(recs[|recs| - 1]);
  }

  lemma EntriesLast(recs: seq<Record>)
    requires recs != []
    ensures var r := recs[|recs| - 1];
            CleanAyah(r.text) != "" ==> Entry(AyahNumOf(r.surah, r.ayah), r.surah, CleanAyah(r.text)) in Entries(recs)
  {
    var r := recs[|recs| - 1];
    assert Entries(recs) == Entries(recs[..|recs| - 1]) + EntryOf(r);
    if CleanAyah(r.text) != "" {
      assert EntryOf(r)[0] in EntryOf(r);
    }
  }

  lemma SameRecord(recs: seq<Record>, j: nat)
    requires j < |recs| - 1
    ensures recs[..|recs| - 1][j] == recs[j]
  {
  }

  /** Every number in a surah's list is that of a processed ayah of that
      surah. */
  lemma {:induction false} AyahNumsOfFrom(es: seq<Entry>, s: string, k: string)
    requires k in AyahNumsOf(es, s)
    ensures exists i :: 0 <= i < |es| && es[i].ayahNum == k && es[i].surah == s
    decreases |es|
  {
    var n := |es|;
    var pre := es[..n - 1];
    if k in AyahNumsOf(pre, s) {
      AyahNumsOfFrom(pre, s, k);
      var i :| 0 <= i < |pre| && pre[i].ayahNum == k && pre[i].surah == s;
      assert es[i] == pre[i];
    } else {
      assert es[n - 1].ayahNum == k && es[n - 1].surah == s;
    }
  }

  /** After duplicate removal and pruning, every phrase of
      `phrase_to_ayah_num` lies in the phrase set of exactly one processed
      ayah, and is mapped to that ayah's number. */
  lemma PhraseIndexSound(es: seq<Entry>, p: string)
    requires p in PhraseIndex(es)
    ensures exists i :: && 0 <= i < |es|
                        && PhraseIndex(es)[p] == es[i].ayahNum
                        && p in AyahPhrases(es[i].text)
                        && forall j :: 0 <= j < |es| && j != i ==> p !in AyahPhrases(es[j].text)
  {
    var obs := Observations(es);
    UniqueAt(obs, p);
    var i :| OnlyIn(obs, p, i);
    assert obs[i] == Observation(es[i].ayahNum, AyahPhrases(es[i].text));
    forall j | 0 <= j < |es| && j != i ensures p !in AyahPhrases(es[j].text) {
      assert obs[j].phrases == AyahPhrases(es[j].text);
      assert !InAyah(obs, p, j);
    }
  }

  /** A phrase of ayah `i` alone survives duplicate removal, mapped to ayah
      `i`. */
  lemma OnlyInUnique(es: seq<Entry>, q: string, i: nat)
    requires i < |es| && q in AyahPhrases(es[i].text)
    requires forall j :: 0 <= j < |es| && j != i ==> q !in AyahPhrases(es[j].text)
    ensures q in Unique(Observations(es)) && Unique(Observations(es))[q] == es[i].ayahNum
  {
    var obs := Observations(es);
    assert OnlyIn(obs, q, i);
    UniqueAt(obs, q);
  }

  /** Every surviving phrase has no more words than any phrase unique to the
      same ayah. */
  lemma PhraseIndexMinimal(es: seq<Entry>, p: string, q: string, i: nat)
    requires p in PhraseIndex(es) && i < |es| && PhraseIndex(es)[p] == es[i].ayahNum
    requires q in AyahPhrases(es[i].text)
    requires forall j :: 0 <= j < |es| && j != i ==> q !in AyahPhrases(es[j].text)
    ensures WordCount(p) <= WordCount(q)
  {
    OnlyInUnique(es, q, i);
  }

  /** A phrase of the run `words[a..b]` of an ayah has `b - a` words, so never
      more than the ayah. */
  lemma AyahPhraseBound(text: string, q: string)
    requires q in AyahPhrases(text)
    ensures WordCount(q) <= |Split(text, ' ')|
  {
    var words := Split(text, ' ');
    var a, b :| 0 <= a < b <= |words| && q == Join(words[a..b], ' ');
    AyahPhraseWordCount(text, a, b);
  }

  /** An ayah of at most 10000 words that has a phrase found in no other ayah
      keeps at least one phrase after pruning. */
  lemma PhraseIndexKeeps(es: seq<Entry>, q: string, i: nat)
    requires i < |es| && q in AyahPhrases(es[i].text)
    requires forall j :: 0 <= j < |es| && j != i ==> q !in AyahPhrases(es[j].text)
    requires |Split(es[i].text, ' ')| <= Sentinel
    ensures exists p :: p in PhraseIndex(es) && PhraseIndex(es)[p] == es[i].ayahNum
  {
    OnlyInUnique(es, q, i);
    AyahPhraseBound(es[i].text, q);
    var unique := Unique(Observations(es));
    assert q in unique && WordCount(q) <= Sentinel;
    var p :| p in Minimal(unique) && Minimal(unique)[p] == unique[q];
    assert PhraseIndex(es)[p] == es[i].ayahNum;
  }

  /** The final `surah_num_to_phrases` for the processed ayahs `es`. */
  ghost function SurahPhraseIndex(es: seq<Entry>): map<string, set<string>> {
    var unique := Unique(Observations(es));
    SurahIndexOver(SurahIndex(unique).Keys, Minimal(unique))
  }

  /** `surah_num_to_phrases` has a key for each surah that held a phrase after
      duplicate removal, and holds exactly the surviving phrases whose ayah
      lies in that surah. */
  lemma SurahPhraseIndexSpec(es: seq<Entry>, s: string)
    ensures s in SurahPhraseIndex(es) <==>
              exists p :: p in Unique(Observations(es)) && SurahOf(Unique(Observations(es))[p]) == s
    ensures s in SurahPhraseIndex(es) ==>
              forall p :: p in SurahPhraseIndex(es)[s] <==> p in PhraseIndex(es) && SurahOf(PhraseIndex(es)[p]) == s
  {
    var unique := Unique(Observations(es));
    if s in SurahPhraseIndex(es) {
      assert s in SurahsOf(unique);
    }
  }

  /** When no ayah has more than 10000 words, no surah's phrase set is left
      empty by pruning. */
  lemma SurahPhraseIndexNonEmpty(es: seq<Entry>, s: string)
    requires s in SurahPhraseIndex(es)
    requires forall i :: 0 <= i < |es| ==> |Split(es[i].text, ' ')| <= Sentinel
    ensures SurahPhraseIndex(es)[s] != {}
  {
    var obs := Observations(es);
    var unique := Unique(obs);
    SurahPhraseIndexSpec(es, s);
    var q :| q in unique && SurahOf(unique[q]) == s;
    UniqueAt(obs, q);
    var i :| OnlyIn(obs, q, i);
    assert obs[i] == Observation(es[i].ayahNum, AyahPhrases(es[i].text));
    forall j | 0 <= j < |es| && j != i ensures q !in AyahPhrases(es[j].text) {
      assert obs[j].phrases == AyahPhrases(es[j].text);
      assert !InAyah(obs, q, j);
    }
    PhraseIndexKeeps(es, q, i);
    var p :| p in PhraseIndex(es) && PhraseIndex(es)[p] == es[i].ayahNum;
    assert p in SurahPhraseIndex(es)[s];
  }

  /** Every processed ayah carries the number of a record that is not empty
      once cleaned. */
  lemma EntryNum(recs: seq<Record>, i: nat)
    requires i < |Entries(recs)|
    ensures exists j :: && 0 <= j < |recs|
                        && AyahNumOf(recs[j].surah, recs[j].ayah) == Entries(recs)[i].ayahNum
                        && CleanAyah(recs[j].text) != ""
  {
    EntriesFrom(recs, i);
  }

  /** An ayah number whose every record is empty once the basmalah is
      removed is a key of no dict, in no surah's list, and a value of neither
      the chain nor the phrase index. */
  lemma EmptyAyahNowhere(recs: seq<Record>, k: string)
    requires forall j :: 0 <= j < |recs| && AyahNumOf(recs[j].surah, recs[j].ayah) == k ==> CleanAyah(recs[j].text) == ""
    ensures var es := Entries(recs);
            && k !in AyahTexts(es)
            && k !in PrevChain(es)
            && k !in PrevChain(es).Values
            && k !in PhraseIndex(es).Values
            && forall s :: s in AyahNumsBySurah(es) ==> k !in AyahNumsBySurah(es)[s]
  {
    var es := Entries(recs);
    forall i | 0 <= i < |es| ensures es[i].ayahNum != k {
      EntryNum(recs, i);
    }
    UnprocessedNowhere(es, k);
  }

  /** A number that no processed ayah carries appears nowhere in the dicts. */
  lemma UnprocessedNowhere(es: seq<Entry>, k: string)
    requires forall i :: 0 <= i < |es| ==> es[i].ayahNum != k
    ensures && k !in AyahTexts(es)
            && k !in PrevChain(es)
            && k !in PrevChain(es).Values
            && k !in PhraseIndex(es).Values
            && forall s :: s in AyahNumsBySurah(es) ==> k !in AyahNumsBySurah(es)[s]
  {
    AyahTextsKeys(es, k);
    forall a | a in PrevChain(es) ensures a != k && PrevChain(es)[a] != k {
      PrevChainKeys(es, a);
    }
    forall p | p in PhraseIndex(es) ensures PhraseIndex(es)[p] != k {
      PhraseIndexSound(es, p);
    }
    forall s | s in AyahNumsBySurah(es) ensures k !in AyahNumsBySurah(es)[s] {
      AyahNumsBySurahSpec(es, s);
      forall a | a in AyahNumsOf(es, s) ensures a != k {
        AyahNumsOfFrom(es, s, a);
      }
    }
  }
}
