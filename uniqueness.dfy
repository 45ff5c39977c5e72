/** The global uniqueness and minimality passes shared by build_indexes.py
    (`parse_quran`) and unique_phrases.py (its module-level loops): the
    first-owner map and the set of phrases seen in a second ayah, the removal
    of those phrases, the ayah to phrases reverse index and the per-ayah
    minimum word count. */
module Uniqueness {
  import opened Text

  /** One processed ayah: its "surah:ayah" number and its phrase set. */
  datatype Observation = Observation(ayahNum: string, phrases: set<string>)

  /** The starting value of the running minimum in both minimality loops. */
  const Sentinel: int := 10000

  /** `phrase_to_ayah_num` after observing `es` in order: a phrase is mapped
      to the first ayah whose phrase set holds it. */
  function Owners(es: seq<Observation>): map<string, string>
    decreases |es|
  {
    if es == [] then map[]
    else
      var e := es[|es| - 1];
      ObserveStep(Owners(es[..|es| - 1]), e.ayahNum, e.phrases)
  }

  /** The owners after one more ayah: its phrases not yet owned get it. */
  function ObserveStep(m: map<string, string>, ayahNum: string, ps: set<string>): (r: map<string, string>)
    ensures forall p :: p in r <==> p in m || p in ps
    ensures forall p :: p in r ==> r[p] == if p in m then m[p] else ayahNum
  {
    m + map p | p in ps && p !in m :: ayahNum
  }

  /** `non_unique_phrases` after observing `es`: the phrases met again in a
      later ayah. */
  function Repeated(es: seq<Observation>): set<string>
    decreases |es|
  {
    if es == [] then {}
    else Repeated(es[..|es| - 1]) + (es[|es| - 1].phrases * Owners(es[..|es| - 1]).Keys)
  }

  /** `phrase_to_ayah_num` once the repeated phrases are deleted. */
  function Unique(es: seq<Observation>): map<string, string> {
    Owners(es) - Repeated(es)
  }

  predicate InAyah(es: seq<Observation>, p: string, i: int) {
    0 <= i < |es| && p in es[i].phrases
  }

  /** Ayah `i` is the first one holding `p`. */
  predicate FirstIn(es: seq<Observation>, p: string, i: int) {
    InAyah(es, p, i) && forall j :: 0 <= j < i ==> !InAyah(es, p, j)
  }

  /** Ayah `i` is the only one holding `p`. */
  predicate OnlyIn(es: seq<Observation>, p: string, i: int) {
    InAyah(es, p, i) && forall j :: 0 <= j < |es| && j != i ==> !InAyah(es, p, j)
  }

  /** A phrase has an owner exactly when some ayah holds it, and the owner
      is the first such ayah. */
  lemma {:induction false} OwnersAt(es: seq<Observation>, p: string)
    ensures p in Owners(es) <==> exists i :: InAyah(es, p, i)
    ensures forall i :: FirstIn(es, p, i) ==> p in Owners(es) && Owners(es)[p] == es[i].ayahNum
    decreases |es|
  {
    if es != [] {
      var n := |es| - 1;
      var pre := es[..n];
      OwnersAt(pre, p);
      assert Owners(es) == ObserveStep(Owners(pre), es[n].ayahNum, es[n].phrases);
      assert forall i :: 0 <= i < n ==> (InAyah(pre, p, i) <==> InAyah(es, p, i));
      if p in Owners(pre) {
        var i :| InAyah(pre, p, i);
        assert InAyah(es, p, i);
      } else if p in es[n].phrases {
        assert InAyah(es, p, n);
      }
      forall i | FirstIn(es, p, i)
        ensures p in Owners(es) && Owners(es)[p] == es[i].ayahNum
      {
        if i < n {
          assert FirstIn(pre, p, i);
        } else {
          assert forall j :: 0 <= j < n ==> !InAyah(pre, p, j);
        }
      }
    }
  }

  /** A phrase is repeated exactly when two different ayahs hold it; only
      phrases that already have an owner are ever marked repeated. */
  lemma RepeatedAt(es: seq<Observation>, p: string)
    ensures p in Repeated(es) <==> exists i, j :: i < j && InAyah(es, p, i) && InAyah(es, p, j)
    ensures p in Repeated(es) ==> p in Owners(es)
  {
    RepeatedPair(es, p);
    forall i, j | i < j && InAyah(es, p, i) && InAyah(es, p, j)
      ensures p in Repeated(es)
    {
      PairRepeated(es, p, i, j);
    }
  }

  /** A repeated phrase has two holders and an owner. */
  lemma {:induction false} RepeatedPair(es: seq<Observation>, p: string)
    ensures p in Repeated(es) ==> exists i, j :: i < j && InAyah(es, p, i) && InAyah(es, p, j)
    ensures p in Repeated(es) ==> p in Owners(es)
    decreases |es|
  {
    if es != [] && p in Repeated(es) {
      var n := |es| - 1;
      var pre := es[..n];
      RepeatedPair(pre, p);
      RepeatedStep(es, pre, es[n]);
      var i, j;
      if p in Repeated(pre) {
        i, j :| i < j && InAyah(pre, p, i) && InAyah(pre, p, j);
        assert es[i] == pre[i] && es[j] == pre[j];
      } else {
        OwnersAt(pre, p);
        i :| InAyah(pre, p, i);
        assert es[i] == pre[i];
        j := n;
      }
      assert InAyah(es, p, i) && InAyah(es, p, j);
      OwnersAt(es, p);
    }
  }

  /** Two holders make a phrase repeated. */
  lemma {:induction false} PairRepeated(es: seq<Observation>, p: string, i: int, j: int)
    requires i < j && InAyah(es, p, i) && InAyah(es, p, j)
    ensures p in Repeated(es)
    decreases |es|
  {
    var n := |es| - 1;
    var pre := es[..n];
    RepeatedStep(es, pre, es[n]);
    assert InAyah(pre, p, i);
    if j < n {
      assert InAyah(pre, p, j);
      PairRepeated(pre, p, i, j);
    } else {
      OwnersAt(pre, p);
    }
  }

  lemma RepeatedStep(es: seq<Observation>, pre: seq<Observation>, last: Observation)
    requires es == pre + [last]
    ensures Repeated(es) == Repeated(pre) + (last.phrases * Owners(pre).Keys)
  {
    assert es[..|es| - 1] == pre;
  }

  /** After duplicate removal a phrase is kept exactly when one ayah alone
      holds it, and it is mapped to that ayah. A phrase occurring twice in
      one ayah counts once, since each ayah contributes a set. */
  lemma UniqueAt(es: seq<Observation>, p: string)
    ensures p in Unique(es) <==> exists i :: OnlyIn(es, p, i)
    ensures forall i :: OnlyIn(es, p, i) ==> Unique(es)[p] == es[i].ayahNum
  {
    OwnersAt(es, p);
    RepeatedAt(es, p);
    if p in Unique(es) {
      var i :| InAyah(es, p, i);
      assert OnlyIn(es, p, i);
    }
    forall i | OnlyIn(es, p, i) ensures Unique(es)[p] == es[i].ayahNum {
      assert FirstIn(es, p, i);
    }
  }

  /** The uniqueness statement for every phrase at once. */
  lemma UniqueSpec(es: seq<Observation>)
    ensures forall p :: p in Unique(es) <==> exists i :: OnlyIn(es, p, i)
    ensures forall p, i :: OnlyIn(es, p, i) ==> Unique(es)[p] == es[i].ayahNum
  {
    forall p ensures p in Unique(es) <==> exists i :: OnlyIn(es, p, i) {
      UniqueAt(es, p);
    }
    forall p, i | OnlyIn(es, p, i) ensures Unique(es)[p] == es[i].ayahNum {
      UniqueAt(es, p);
    }
  }

  /** The loop `for ayah_phrase in ayah_phrases: ...` of one ayah: a phrase
      already owned is marked non-unique, any other one gets this ayah as
      owner. */
  method ObservePhrases(owners: map<string, string>, nonUnique: set<string>,
                        ayahNum: string, ayahPhrases: set<string>, ghost es: seq<Observation>)
    returns (owners': map<string, string>, nonUnique': set<string>)
    requires owners == Owners(es) && nonUnique == Repeated(es)
    ensures owners' == Owners(es + [Observation(ayahNum, ayahPhrases)])
    ensures nonUnique' == Repeated(es + [Observation(ayahNum, ayahPhrases)])
  {
    owners', nonUnique' := owners, nonUnique;
    var remaining := ayahPhrases;
    ghost var done: set<string> := {};
    while remaining != {}
      invariant remaining <= ayahPhrases && done == ayahPhrases - remaining
      invariant forall p :: p in owners' <==> p in owners || p in done
      invariant forall p :: p in owners' ==> owners'[p] == if p in owners then owners[p] else ayahNum
      invariant nonUnique' == nonUnique + (done * owners.Keys)
      decreases remaining
    {
      var p :| p in remaining;
      if p in owners' {
        nonUnique' := nonUnique' + {p};
      } else {
        owners' := owners'[p := ayahNum];
      }
      remaining := remaining - {p};
      done := done + {p};
    }
    ObserveAll(es, ayahNum, ayahPhrases, owners', nonUnique');
  }

  /** The loop's end state is the next prefix's owners and repeats. */
  lemma ObserveAll(es: seq<Observation>, ayahNum: string, ps: set<string>,
                   owners': map<string, string>, nonUnique': set<string>)
    requires forall p :: p in owners' <==> p in Owners(es) || p in ps
    requires forall p :: p in owners' ==> owners'[p] == if p in Owners(es) then Owners(es)[p] else ayahNum
    requires nonUnique' == Repeated(es) + (ps * Owners(es).Keys)
    ensures owners' == Owners(es + [Observation(ayahNum, ps)])
    ensures nonUnique' == Repeated(es + [Observation(ayahNum, ps)])
  {
    var es' := es + [Observation(ayahNum, ps)];
    assert es'[..|es'| - 1] == es;
    assert owners' == ObserveStep(Owners(es), ayahNum, ps);
  }

  /** `for p in non_unique_phrases: del phrase_to_ayah_num[p]`. Each deleted
      key is present, so the `del` never raises `KeyError`. */
  method RemoveDuplicates(phraseToAyahNum: map<string, string>, nonUnique: set<string>,
                          ghost es: seq<Observation>)
    returns (result: map<string, string>)
    requires phraseToAyahNum == Owners(es) && nonUnique == Repeated(es)
    ensures result == Unique(es)
  {
    forall p | p in nonUnique ensures p in phraseToAyahNum {
      RepeatedAt(es, p);
    }
    result := phraseToAyahNum;
    var remaining := nonUnique;
    while remaining != {}
      invariant remaining <= nonUnique
      invariant result == phraseToAyahNum - (nonUnique - remaining)
      invariant remaining <= result.Keys
      decreases remaining
    {
      var p :| p in remaining;
      result := result - {p};
      remaining := remaining - {p};
    }
  }

  /** The phrases mapped to ayah `a`. */
  function PhrasesOf(m: map<string, string>, a: string): set<string> {
    set p | p in m && m[p] == a
  }

  /** `ayah_num_to_phrases` built from a phrase to ayah map. */
  function AyahIndex(m: map<string, string>): map<string, set<string>> {
    map a | a in m.Values :: PhrasesOf(m, a)
  }

  /** The running minimum `min(10000, len(p.split(' ')) for p in ps)`. */
  ghost function MinWords(ps: set<string>): (k: int)
    ensures k <= Sentinel
    ensures forall p :: p in ps ==> k <= WordCount(p)
    ensures k == Sentinel || exists p :: p in ps && WordCount(p) == k
    decreases ps
  {
    if ps == {} then Sentinel
    else
      var p :| p in ps;
      var rest := MinWords(ps - {p});
      if WordCount(p) < rest then WordCount(p) else rest
  }

  /** The three properties of `MinWords` pin its value down. */
  lemma MinWordsUnique(ps: set<string>, k: int)
    requires k <= Sentinel
    requires forall p :: p in ps ==> k <= WordCount(p)
    requires k == Sentinel || exists p :: p in ps && WordCount(p) == k
    ensures k == MinWords(ps)
  {
  }

  /** The loop `min_words = 10000; for phrase in phrases: min_words =
      min(min_words, len(phrase.split(' ')))`. */
  method MinWordsOf(phrases: set<string>) returns (minWords: int)
    ensures minWords <= Sentinel
    ensures forall p :: p in phrases ==> minWords <= WordCount(p)
    ensures minWords == Sentinel || exists p :: p in phrases && WordCount(p) == minWords
    ensures minWords == MinWords(phrases)
  {
    minWords := Sentinel;
    var remaining := phrases;
    while remaining != {}
      invariant remaining <= phrases
      invariant minWords <= Sentinel
      invariant forall p :: p in phrases - remaining ==> minWords <= WordCount(p)
      invariant minWords == Sentinel || exists p :: p in phrases - remaining && WordCount(p) == minWords
      decreases remaining
    {
      var p :| p in remaining;
      if WordCount(p) < minWords {
        minWords := WordCount(p);
      }
      remaining := remaining - {p};
    }
    MinWordsUnique(phrases, minWords);
  }

  /** The phrase to ayah map restricted to the phrases whose word count is
      their ayah's minimum. */
  ghost function Minimal(m: map<string, string>): (r: map<string, string>)
    ensures forall p :: p in r <==> p in m && WordCount(p) == MinWords(PhrasesOf(m, m[p]))
    ensures forall p :: p in r ==> p in m && r[p] == m[p]
    ensures forall p, q :: p in r && q in m && m[q] == r[p] ==> WordCount(p) <= WordCount(q)
    ensures forall p, q :: p in r && q in r && r[p] == r[q] ==> WordCount(p) == WordCount(q)
    ensures forall q :: q in m && WordCount(q) <= Sentinel ==> exists p :: p in r && r[p] == m[q]
  {
    var r := map p | p in m && WordCount(p) == MinWords(PhrasesOf(m, m[p])) :: m[p];
    forall p, q | p in r && q in m && m[q] == r[p] ensures WordCount(p) <= WordCount(q) {
      assert q in PhrasesOf(m, m[p]);
    }
    forall q | q in m && WordCount(q) <= Sentinel ensures exists p :: p in r && r[p] == m[q] {
      var ps := PhrasesOf(m, m[q]);
      assert q in ps;
      if MinWords(ps) == Sentinel {
        assert q in r;
      } else {
        var p :| p in ps && WordCount(p) == MinWords(ps);
        assert p in r;
      }
    }
    r
  }
}
