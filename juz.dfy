/** Juz lookup (build_indexes.py, `compare_ayah` and `find_juz_num`): a
    three-way comparison of an ayah against an inclusive range of ayahs, and a
    binary search over the 30 juz ranges that uses it. Ayah numbers are taken
    as the integer pairs the source parses out of its "surah:ayah" strings. */
module Juz {
  import opened Wrappers

  datatype Verse = Verse(surah: int, ayah: int)

  /** One juz: its first and last ayah, both included. */
  datatype AyahRange = AyahRange(start: Verse, end: Verse)

  /** Lexicographic (surah, ayah) order. */
  predicate Before(a: Verse, b: Verse) {
    a.surah < b.surah || (a.surah == b.surah && a.ayah < b.ayah)
  }

  predicate AtMost(a: Verse, b: Verse) {
    !Before(b, a)
  }

  predicate Contains(r: AyahRange, t: Verse) {
    AtMost(r.start, t) && AtMost(t, r.end)
  }

  /** `compare_ayah(ayah_range, target_ayah_num)`: -1 when the target comes
      before the range, 1 when it comes after it, 0 when it lies within it.
      `Err` stands for the final `raise`, which no input reaches. */
  function CompareAyah(ayahRange: AyahRange, target: Verse): (r: Result<int>)
    ensures r.Ok?
    ensures r.value == -1 || r.value == 0 || r.value == 1
    ensures r.value == -1 ==> Before(target, ayahRange.start)
    ensures r.value == 0 ==> Contains(ayahRange, target)
    ensures r.value == 1 ==> Before(ayahRange.end, target)
    ensures AtMost(ayahRange.start, ayahRange.end) ==>
              && (r.value == -1 <==> Before(target, ayahRange.start))
              && (r.value == 0 <==> Contains(ayahRange, target))
              && (r.value == 1 <==> Before(ayahRange.end, target))
  {
    var surahNum, ayahNum := target.surah, target.ayah;
    var startSurahNum, startAyahNum := ayahRange.start.surah, ayahRange.start.ayah;
    var endSurahNum, endAyahNum := ayahRange.end.surah, ayahRange.end.ayah;
    if surahNum < startSurahNum then Ok(-1)
    else if surahNum > endSurahNum then Ok(1)
    else if surahNum > startSurahNum && surahNum < endSurahNum then Ok(0)
    else if surahNum == startSurahNum && surahNum == endSurahNum then
      if ayahNum < startAyahNum then Ok(-1)
      else if ayahNum > endAyahNum then Ok(1)
      else Ok(0)
    else if surahNum == startSurahNum then
      if ayahNum < startAyahNum then Ok(-1) else Ok(0)
    else if surahNum == endSurahNum then
      if ayahNum > endAyahNum then Ok(1) else Ok(0)
    else Err("There is a bug in the compare_ayah logic")
  }

  /** The juz table the search expects: keys 1..30, each range non-empty and
      ending before the next one starts. */
  predicate Ascending(table: map<int, AyahRange>) {
    && (forall k :: 1 <= k <= 30 ==> k in table)
    && (forall k :: 1 <= k <= 30 ==> AtMost(table[k].start, table[k].end))
    && (forall k :: 1 <= k < 30 ==> Before(table[k].end, table[k + 1].start))
  }

  /** In an ascending table every earlier range ends before every later one
      starts. */
  lemma {:induction false} AscendingApart(table: map<int, AyahRange>, j: int, k: int)
    requires Ascending(table) && 1 <= j < k <= 30
    ensures Before(table[j].end, table[k].start)
    decreases k - j
  {
    if j + 1 < k {
      AscendingApart(table, j + 1, k);
      assert Before(table[j].end, table[j + 1].start);
      assert AtMost(table[j + 1].start, table[j + 1].end);
    }
  }

  /** In an ascending table at most one range contains a given ayah. */
  lemma JuzUnique(table: map<int, AyahRange>, t: Verse, j: int, k: int)
    requires Ascending(table) && 1 <= j <= 30 && 1 <= k <= 30
    requires Contains(table[j], t) && Contains(table[k], t)
    ensures j == k
  {
    if j < k {
      AscendingApart(table, j, k);
    } else if k < j {
      AscendingApart(table, k, j);
    }
  }

  /** `find_juz_num(ayah_num)`: binary search over juz 1..30. The table is
      the module-level `juz_num_to_ayah_range`, passed in; `probes` records
      every index the search looks up. A missing key is the `KeyError` the
      dict lookup would raise. */
  method FindJuzNum(table: map<int, AyahRange>, target: Verse) returns (r: Result<int>, ghost probes: seq<int>)
    ensures forall i :: 0 <= i < |probes| ==> 1 <= probes[i] <= 30
    ensures r.Ok? ==> 1 <= r.value <= 30 && r.value in table && Contains(table[r.value], target)
    ensures Ascending(table) ==> (r.Ok? <==> exists k :: 1 <= k <= 30 && Contains(table[k], target))
    ensures Ascending(table) && r.Ok? ==>
              forall k :: 1 <= k <= 30 && Contains(table[k], target) ==> k == r.value
  {
    var startIdx, endIdx := 1, 30;
    probes := [];
    while startIdx <= endIdx
      invariant 1 <= startIdx && endIdx <= 30
      invariant forall i :: 0 <= i < |probes| ==> 1 <= probes[i] <= 30
      invariant Ascending(table) ==>
                  forall k :: 1 <= k <= 30 && (k < startIdx || endIdx < k) ==> !Contains(table[k], target)
      decreases endIdx - startIdx
    {
      var midIdx := (startIdx + endIdx) / 2;
      probes := probes + [midIdx];
      if midIdx !in table {
        return Err("KeyError"), probes;
      }
      var res := CompareAyah(table[midIdx], target).value;
      if res == 0 {
        if Ascending(table) {
          forall k | 1 <= k <= 30 && Contains(table[k], target) ensures k == midIdx {
            JuzUnique(table, target, k, midIdx);
          }
        }
        return Ok(midIdx), probes;
      }
      if res < 0 {
        if Ascending(table) {
          forall k | midIdx < k <= 30 ensures !Contains(table[k], target) {
            AscendingApart(table, midIdx, k);
          }
        }
        endIdx := midIdx - 1;
      } else {
        if Ascending(table) {
          forall k | 1 <= k < midIdx ensures !Contains(table[k], target) {
            AscendingApart(table, k, midIdx);
          }
        }
        startIdx := midIdx + 1;
      }
    }
    return Err("There is a bug in the find_juz_num logic"), probes;
  }
}
