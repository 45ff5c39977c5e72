# quran-game core in Dafny

This project models the core of quran-game, a Qur'an memorisation game
("guess the surah"), and proves properties of the model:

- **Minimal unique phrase index** (build_indexes.py). The model covers:
  - every contiguous run of words of an ayah (`populate_phrases`);
  - the first-owner / non-unique pass over the corpus;
  - removal of repeated phrases;
  - the ayah and surah reverse indexes;
  - pruning to each ayah's fewest-word phrases;
  - the previous-ayah chain that stays within a surah (`parse_quran`).

  The corpus is an in-memory list of `surah|ayah|text` lines. The
  module-level dicts are the fields of the class `BuildIndexes.QuranIndex`.
- **Juz lookup** (build_indexes.py): `compare_ayah` is a comparison of a
  `(surah, ayah)` pair against an inclusive range. `find_juz_num` is a binary
  search over the 30 juz ranges.
- **The older recursive enumerator** (unique_phrases.py). The model has:
  - the extend-or-restart recursion with its string-keyed cache;
  - the ayah loop, duplicate removal and reverse index;
  - the per-ayah pruning.

  The module-level dicts are the fields of `UniquePhrases.PhraseIndex`.
- **Hints** (guess_the_surah.py): `prefix_ayah` and `add_word_to_phrase` walk
  back along the previous-ayah chain. `get_surah_name` and
  `create_surah_name_to_num_map` are modelled too.
- **Camel zakat** (zakat_utils.py): `calculate_zakat`, its table of bands and
  its 50-camel cycle above 200.
- **Dotless text** (tashkeel_utils.py and convert_to_rasm.py). Each file
  deletes the marks U+064B–U+0652 and U+0670. It then rewrites the rest
  letter by letter from two tables; the letters whose form depends on their
  position read their neighbours in the stripped text. The model also covers
  the per-line rewrite in `process_file`.

Modules:

- `Wrappers`: `Option` and `Result`.
- `Text`: the Python string methods the source uses, as functions on
  `seq<char>`: `split(' ')`, `join`, `strip`, `str.index`, `replace` and
  `str(int)`.
- `Phrases`: `populate_phrases`.
- `Uniqueness`: how first owners, repeated phrases and the fewest-word
  pruning work. Both scripts share it.
- `BuildIndexes`: `parse_quran`.
- `IndexProperties`: the end-state properties of the built index.
- `Juz`: `compare_ayah` and `find_juz_num`.
- `UniquePhrases`: unique_phrases.py.
- `Guess`: the hint functions and the surah-name helpers.
- `Zakat`: `calculate_zakat`.
- `Tashkeel`: tashkeel_utils.py.
- `Rasm`: convert_to_rasm.py.

Each operation that loops in the source is a `method` with its loop. It is
proved against a function that specifies it, and the properties are lemmas
about that function. Python exceptions (`KeyError`, `IndexError`,
`ValueError`, the `raise` statements) become the `Err` case of a `Result`.

## Model

| member | source | states |
|---|---|---|
| BuildIndexes.ParseLine | build_indexes.py:169-172 | a corpus line parses exactly when it has at least three bar-separated fields; otherwise it is the `IndexError` of `tokens[1]`/`tokens[2]` |
| BuildIndexes.AyahNumOf | build_indexes.py:171 | `f"{surah_num}:{tokens[1]}"` is the surah field, one colon, then the ayah field |
| BuildIndexes.SurahOf | build_indexes.py:193 | `ayah_num.split(':')[0]` is the longest colon-free prefix of the ayah number |
| BuildIndexes.ParseLineRoundTrip | build_indexes.py:169-172 | a line made of surah, ayah and text joined by bars (no bar inside a field) parses back to exactly those three fields |
| BuildIndexes.SurahOfAyahNum | build_indexes.py:171 | `ayah_num.split(':')[0]` of `f"{surah}:{ayah}"` gives back the surah field when that field holds no `:` |
| BuildIndexes.ParseLines | build_indexes.py:167-172 | a successful parse has one record per corpus line |
| BuildIndexes.ParseLinesOk | build_indexes.py:167-172 | the corpus parses exactly when every line parses; record `i` is then line `i` cut into fields |
| BuildIndexes.ParseLinesErr | build_indexes.py:167-172 | a malformed line in any prefix makes the whole corpus fail to parse |
| BuildIndexes.BasmalahSpelling | build_indexes.py:32 | the invocation is 39 code points in four words, with each shadda written before the fatha it carries |
| BuildIndexes.CleanAyah | build_indexes.py:172 | `replace(basmalah, '').strip()` is no longer than the text and neither starts nor ends with whitespace |
| BuildIndexes.BasmalahRemoved | build_indexes.py:172 | a leading invocation is removed: the text after it cleans to the same ayah |
| BuildIndexes.BasmalahOnlySkipped | build_indexes.py:172-174 | a line whose text is only the invocation cleans to `""` and adds no ayah |
| BuildIndexes.EntryOf | build_indexes.py:170-174 | a line yields no ayah exactly when its text is empty after basmalah removal and stripping, and otherwise the ayah `surah:ayah` with its surah field and its cleaned text |
| BuildIndexes.Entries | build_indexes.py:172-174 | every ayah kept after basmalah removal is non-empty, and each record yields at most one ayah |
| BuildIndexes.AyahIndexAdd | build_indexes.py:205-208 | adding one phrase to the phrase map adds it to the ayah-index entry of its own ayah only |
| BuildIndexes.SurahIndexAdd | build_indexes.py:210-213 | adding one phrase adds it to the surah-index entry of its ayah's surah only |
| BuildIndexes.ReverseIndexStep | build_indexes.py:205-213 | one iteration of the reverse-index loop grows both indexes by the current phrase, creating the entry when it is missing |
| BuildIndexes.AddReverse | build_indexes.py:205-213 | the loop body adds the phrase to its ayah's set and its surah's set, creating each when missing, so both maps become the indexes of one more phrase |
| BuildIndexes.BuildReverseIndexes | build_indexes.py:202-213 | the loop builds `ayah_num_to_phrases` and `surah_num_to_phrases` as the exact inverses (by ayah and by surah) of `phrase_to_ayah_num` |
| BuildIndexes.PruneAyah | build_indexes.py:216-225 | one ayah's pruning round deletes exactly that ayah's phrases whose word count is above its minimum, from both the phrase map and the surah index |
| BuildIndexes.PruneToMinimal | build_indexes.py:215-225 | after the pruning loop the phrase map is `Minimal` of the unique map and each surah's set holds exactly its surviving phrases |
| BuildIndexes.ObserveAyah | build_indexes.py:184-190 | after one ayah the owner map and the non-unique set are the first owners and the repeated phrases of all ayahs so far |
| BuildIndexes.QuranIndex.IndexAyah | build_indexes.py:175-195 | one pass of the line loop body for a non-empty ayah keeps every dict equal to its definition over the ayahs read so far |
| BuildIndexes.QuranIndex.FinishIndexes | build_indexes.py:197-225 | duplicate removal, the reverse indexes and pruning leave the dicts exactly as `Built` describes them |
| BuildIndexes.QuranIndex.ReadRecord | build_indexes.py:170-195 | one pass of the line loop over a parsed record extends the ayahs read by that record's ayah, if any, and keeps every dict equal to its definition over them |
| BuildIndexes.QuranIndex.ParseQuran | build_indexes.py:159-225 | the build succeeds exactly when every line parses, and then all five dicts equal their definitions over the non-empty ayahs |
| Juz.CompareAyah | build_indexes.py:68-111 | the `raise` is unreachable; the result is -1, 0 or 1 and, for a range with start ≤ end, -1 iff target < start, 0 iff start ≤ target ≤ end, 1 iff target > end, in lexicographic order |
| Juz.AscendingApart | build_indexes.py:117-132 | in 30 ascending ranges every earlier range ends before every later one starts |
| Juz.JuzUnique | build_indexes.py:117-132 | an ayah lies in at most one juz range of an ascending table |
| Juz.FindJuzNum | build_indexes.py:117-132 | every probe lies in 1..30; a success is a range that holds the target; on an ascending table it succeeds iff some range holds the target, and that range is the only one |
| Phrases.PhrasesUpToNext | build_indexes.py:146-153 | the runs ending by word n+1 are the runs ending by word n plus those ending at word n+1 (the carried `prev_phrases` list) |
| Phrases.ExtendPhrases | build_indexes.py:147-149 | the inner loop builds the word on its own followed by every carried phrase extended by a space and the word, in order |
| Phrases.CarriedNext | build_indexes.py:146-153 | extending the list carried after word i gives the list carried after word i+1, whose entries are exactly the runs ending at that word |
| Phrases.PopulatePhrases | build_indexes.py:142-153 | the set gains exactly every contiguous non-empty run of the words, joined by single spaces, and keeps its old members; the loop keeps the invariant that after word i the carried list has i+1 entries and entry k is words i-k..i joined |
| Phrases.PhraseWords | build_indexes.py:149 | a run of space-free words splits back into those words, so its word count is its length |
| Phrases.AyahPhraseWordCount | build_indexes.py:175 | a run of an ayah's `split(' ')` words has as many words as the run is long |
| Phrases.SherlockExample | build_indexes.py:134-141 | "I am Sherlock" yields exactly the six phrases listed in the comment |
| Phrases.ThreeWordPhrases | build_indexes.py:134-141 | the phrases of three words are the three words, the two adjacent pairs and the whole run |
| Uniqueness.ObserveStep | build_indexes.py:186-190 | observing an ayah's phrases keeps the existing owners and makes the ayah the owner of every new phrase |
| Uniqueness.OwnersAt | build_indexes.py:186-190 | a phrase has an owner iff some ayah holds it, and the owner is the first ayah that holds it |
| Uniqueness.RepeatedAt | build_indexes.py:186-188 | a phrase is non-unique iff two different ayahs hold it (a phrase repeated within one ayah is not) |
| Uniqueness.RepeatedStep | build_indexes.py:186-188 | an ayah adds to the non-unique set exactly its phrases that already had an owner |
| Uniqueness.UniqueAt | build_indexes.py:197-199 | after duplicate removal a phrase is kept iff exactly one ayah holds it, and it maps to that ayah |
| Uniqueness.UniqueSpec | build_indexes.py:197-199 | the same, for all phrases at once |
| Uniqueness.ObservePhrases | build_indexes.py:186-190 | the inner loop over an ayah's phrases updates the owners and the non-unique set to their definitions over one more ayah |
| Uniqueness.RemoveDuplicates | build_indexes.py:197-199 | deleting every non-unique phrase from the first-owner map leaves exactly the phrases held by one ayah |
| Uniqueness.MinWords | build_indexes.py:217-219 | the running minimum from 10000 is at most 10000, at most every phrase's word count, and is 10000 or some phrase's word count |
| Uniqueness.MinWordsOf | build_indexes.py:217-219 | the minimum loop computes that minimum |
| Uniqueness.Minimal | build_indexes.py:215-225 | pruning keeps a phrase iff it has its ayah's minimum word count; the kept phrases keep their ayah; an ayah keeps some phrase whenever one has at most 10000 words |
| IndexProperties.PrevChainKeys | build_indexes.py:192-195 | every chain key is a processed ayah other than the first, linked to the ayah processed just before it |
| IndexProperties.PrevChainSameSurah | build_indexes.py:192-194 | the chain never crosses a surah boundary |
| IndexProperties.PrevChainAt | build_indexes.py:192-195 | with distinct ayah numbers, ayah i has a chain entry iff the ayah before it is in the same surah, and then the entry is that ayah |
| IndexProperties.AyahTextsKeys | build_indexes.py:182 | `ayah_num_to_ayah` has a key exactly for each processed ayah |
| IndexProperties.AyahTextsAt | build_indexes.py:182 | with distinct ayah numbers, each ayah's text is stored under its number |
| IndexProperties.AyahNumsBySurahSpec | build_indexes.py:178-180 | a surah has a list iff one of its ayahs was processed, and the list is its ayahs in corpus order |
| IndexProperties.PhraseIndexSound | build_indexes.py:186-225 | every phrase left in `phrase_to_ayah_num` lies in the phrase set of exactly one ayah and maps to it |
| IndexProperties.OnlyInUnique | build_indexes.py:186-199 | a phrase held by exactly one ayah survives duplicate removal, mapped to that ayah |
| IndexProperties.PhraseIndexMinimal | build_indexes.py:215-225 | a surviving phrase has no more words than any phrase unique to its ayah |
| IndexProperties.AyahPhraseBound | build_indexes.py:142-153 | a phrase of an ayah has at most as many words as the ayah |
| IndexProperties.PhraseIndexKeeps | build_indexes.py:215-225 | an ayah of at most 10000 words that had a unique phrase keeps at least one |
| IndexProperties.SurahPhraseIndexSpec | build_indexes.py:204-225 | `surah_num_to_phrases` has a key for each surah with a unique phrase, and its set is exactly the surviving phrases whose ayah lies in that surah |
| IndexProperties.SurahPhraseIndexNonEmpty | build_indexes.py:215-225 | when no ayah exceeds 10000 words, no surah's set is empty after pruning |
| IndexProperties.EntryNum | build_indexes.py:169-174 | every processed ayah number comes from a line whose text is non-empty after basmalah removal |
| IndexProperties.EntriesKeep | build_indexes.py:166-174 | every line whose cleaned text is not empty is processed: its ayah, with its number and cleaned text, is among the processed ayahs |
| IndexProperties.EmptyAyahNowhere | build_indexes.py:172-174 | an ayah empty after basmalah removal gets no key or value in any of the maps |
| IndexProperties.UnprocessedNowhere | build_indexes.py:176-213 | a number that no processed ayah carries is a key of no dict, in no surah's list, and a value of neither the chain nor the phrase index |
| UniquePhrases.Keep | unique_phrases.py:29-30 | the `MIN_WORDS` filter keeps exactly the phrases with at least `MIN_WORDS` words |
| UniquePhrases.Own | unique_phrases.py:28-30 | a state contributes its own stripped phrase iff that phrase passes the filter |
| UniquePhrases.ContribMinWords | unique_phrases.py:29-30 | no phrase with fewer than `MIN_WORDS` words is ever added |
| UniquePhrases.ContribTop | unique_phrases.py:23-53 | when every token after the first is non-empty with no whitespace at either end (`CleanWords`), from `(word_idx=1, cur_phrase="")` the recursion adds exactly the runs of `tokens[1:]` and `""` that pass the filter, so the first token never contributes |
| UniquePhrases.ContribMinOne | unique_phrases.py:13-53 | under `CleanWords`, with `MIN_WORDS = 1` it adds every run of `tokens[1:]` and also `""` |
| UniquePhrases.CacheKey | unique_phrases.py:24 | the key extends the current phrase with the decimal digits of the index |
| UniquePhrases.CacheKeyInjective | unique_phrases.py:24 | the key is injective on phrases that do not end in a digit |
| UniquePhrases.CacheKeyCollision | unique_phrases.py:24 | the states ("1", 2) and ("", 12) share a key |
| UniquePhrases.CacheHit | unique_phrases.py:24-26 | under injective keys a cache hit is a state already visited, all of whose phrases are present |
| UniquePhrases.UniquePhrasesRec | unique_phrases.py:23-43 | the recursion terminates, only adds phrases of the reference family, keeps the cache equal to the keys of the visited states, and has added the whole family of its state when no word ends in a digit |
| UniquePhrases.AyahPhraseSet | unique_phrases.py:52-53 | an ayah's phrase set is within the reference family, equals it when no word ends in a digit, and then, under `CleanWords`, is `""` plus every run of `tokens[1:]` |
| UniquePhrases.RStrip | unique_phrases.py:16 | `rstrip` drops exactly the trailing whitespace |
| UniquePhrases.AyahLinesMember | unique_phrases.py:16 | the ayahs read are exactly the right-stripped non-blank lines not starting with `#` |
| UniquePhrases.AyahNumber | unique_phrases.py:48-50 | an ayah number is found iff the first token has at least two bar-separated fields (otherwise `IndexError`) |
| UniquePhrases.AyahNumberRoundTrip | unique_phrases.py:46-50 | a line made of surah and ayah, each followed by a bar, then a space and the text, yields `surah:ayah` and the words of `text` |
| UniquePhrases.FewestSpec | unique_phrases.py:72-79 | pruning keeps phrases of one, minimal, word count, keeps every phrase of that count, and empties a set only when every phrase exceeds 10000 words |
| UniquePhrases.PrunedIndexMinimal | unique_phrases.py:65-79 | the pruned reverse index has a key per ayah and holds the phrases `Minimal` maps to it |
| UniquePhrases.PrunedNonEmpty | unique_phrases.py:72-79 | no ayah's set is left empty when no phrase exceeds 10000 words |
| UniquePhrases.MinimalMember | unique_phrases.py:72-79 | pruning the reverse index and pruning the phrase map keep the same phrases |
| UniquePhrases.KeepFewest | unique_phrases.py:72-79 | one ayah's round removes every phrase whose word count is not the minimum |
| UniquePhrases.PruneEach | unique_phrases.py:72-79 | the loop prunes every ayah's set this way |
| UniquePhrases.BuildAyahIndex | unique_phrases.py:65-69 | the reverse index is the exact inverse of `phrase_to_ayah_num` |
| UniquePhrases.ReadAyah | unique_phrases.py:48-53 | an ayah is read iff its number parses, and then its observation is its number and phrase set |
| UniquePhrases.ReadAyahs | unique_phrases.py:47-59 | the loop reads ayahs up to the first bad one (all of them iff none is bad) and leaves the first owners and repeated phrases of those read |
| UniquePhrases.PhraseIndex.ObserveAyahs | unique_phrases.py:47-59 | the same, on the script's fields; the reverse index is untouched |
| UniquePhrases.PhraseIndex.Run | unique_phrases.py:47-79 | the script stops at the first bad ayah; otherwise `phrase_to_ayah_num` is the unique map and `ayah_num_to_phrases` its pruned inverse |
| Guess.PrefixAyah | guess_the_surah.py:73-88 | with no (or an empty) previous ayah it returns the phrase and reference unchanged and flags no more hints; otherwise it returns `prev_text ● phrase` and the previous reference, or `KeyError` when the text is missing |
| Guess.Get | guess_the_surah.py:77 | `dict.get(k)` is `None` exactly when `k` is not a key, and the key's value otherwise |
| Guess.PrefixAyahExtends | guess_the_surah.py:73-88 | a hint only adds text in front of the phrase, and it is flagged exhausted iff nothing was added |
| Guess.PrefixAyahOverIndex | guess_the_surah.py:77-88 | over the built index, a hint from an ayah adds the previous ayah of its surah, and reports no more hints at a surah's first ayah |
| Guess.PrefixAyahSameSurah | guess_the_surah.py:85-88 | the case with a previous ayah in the same surah |
| Guess.PrefixAyahNewSurah | guess_the_surah.py:77-83 | the case of an ayah without a chain entry |
| Guess.HintStart | guess_the_surah.py:99-113 | the first `word_idx` is the index of the word before the first whole-word occurrence of the phrase; `None` (`ValueError`) when there is none |
| Guess.HintStartAsWritten | guess_the_surah.py:110-113 | the source's computation fails (`ValueError`) iff the phrase is not a substring of the ayah |
| Guess.HintStartAsWrittenAtWord | guess_the_surah.py:110-113 | when the first substring occurrence starts word k, the source's formula gives k-1 |
| Guess.ZubairExample | guess_the_surah.py:104-108 | "My name is Zubair Khan" with "is Zubair" gives 1 |
| Guess.HintStartCollision | guess_the_surah.py:110-113 | an occurrence inside an earlier word makes the source's formula give -1 where the word before the phrase has index 0 |
| Guess.AddWordToPhrase | guess_the_surah.py:94-134 | a missing phrase is a `KeyError`; a successful hint only adds text in front; an exhausted hint returns the phrase unchanged with a negative index |
| Guess.WordHintAt | guess_the_surah.py:115-134 | once the ayah and index are known, a hint that adds text ends with the old phrase and is longer, and one that adds nothing returns the phrase unchanged with a negative index |
| Guess.FirstHintState | guess_the_surah.py:99-113 | the first hint starts from a state where the phrase begins with the word after `word_idx` |
| Guess.FirstHint | guess_the_surah.py:95-113 | the first word hint of a phrase takes its ayah from `phrase_to_ayah_num` and its index from the phrase's position; it raises `ValueError` exactly when the phrase is not found there, and otherwise equals the hint handed that ayah and index |
| Guess.WordHintStep | guess_the_surah.py:115-134 | from such a state a hint either prepends a word and reaches another such state, or changes nothing at a surah's start; while `word_idx ≥ 0` the result is exactly `ayah_words[word_idx] + " " + phrase` in the same ayah with the index one less; the only failure is a previous ayah without a text |
| Guess.WordHintCrossesAyah | guess_the_surah.py:120-134 | at an ayah's start, the hint prepends the previous ayah's last word and ` ● `, returning the previous reference and `len(prev_words) - 2`; with no previous ayah it changes nothing and flags no more hints |
| Guess.SurahNameOf | guess_the_surah.py:244-246 | the name is no longer than the session string |
| Guess.SurahNameOfSpec | guess_the_surah.py:244-246 | `"num name"` gives `name`, and a single token gives `""` |
| Guess.NameMapSpec | guess_the_surah.py:171-177 | a name is a key iff some pair has it, and it maps to the number of its last pair |
| Guess.NameMapArabicLast | guess_the_surah.py:171-177 | every English and every Arabic name is a key; an Arabic name maps to its Arabic number, and an English name that is not also Arabic to its English number |
| Guess.NameMapOver | guess_the_surah.py:175-176 | the Arabic names, inserted second, win over the English ones and leave other names alone |
| Guess.CreateSurahNameToNumMap | guess_the_surah.py:171-177 | the two loops build that map |
| Zakat.Base | zakat_utils.py:56-57 | the base text is a run of decimal digits whose value is the ḥiqqah count, followed by exactly " ḥiqqahs (3 y/o camel)" |
| Zakat.CalculateZakatAsWritten | zakat_utils.py:3-77 | `calculate_zakat` as written; any count ≤ 4, negatives included, gives "0 zakat" |
| Zakat.LookupSpec | zakat_utils.py:7-52 | a table lookup fails iff no band holds the count, and otherwise returns a holding band's text |
| Zakat.TableOrdered | zakat_utils.py:7-52 | the 23 bands are non-empty and strictly ascending |
| Zakat.AsWrittenFollowsTable | zakat_utils.py:7-52 | for 5..200 the function matches the band table, which covers every count except 121..124 |
| Zakat.TableUpTo19 | zakat_utils.py:7-12 | the bands from 5 to 19 |
| Zakat.TableUpTo45 | zakat_utils.py:13-18 | the bands from 20 to 45 |
| Zakat.TableUpTo90 | zakat_utils.py:19-24 | the bands from 46 to 90 |
| Zakat.TableUpTo129 | zakat_utils.py:25-28 | the bands from 91 to 129 and the gap at 121..124 |
| Zakat.TableUpTo144 | zakat_utils.py:29-34 | the bands from 130 to 144 |
| Zakat.TableUpTo159 | zakat_utils.py:35-40 | the bands from 145 to 159 |
| Zakat.TableUpTo174 | zakat_utils.py:41-46 | the bands from 160 to 174 |
| Zakat.TableUpTo200 | zakat_utils.py:47-52 | the bands from 175 to 200 |
| Zakat.AsWrittenGap | zakat_utils.py:25-27 | 121..124 match no branch and give "Invalid input" |
| Zakat.AboveTable | zakat_utils.py:55-75 | above 200 the result is the base for `4 + (c-200)//50` ḥiqqahs plus the extra for `(c-150) % 50` |
| Zakat.CyclePosition | zakat_utils.py:58-61 | the cycle position lies in 0..49, and positions 0-4 and 46-49 give only the base |
| Zakat.CycleRepeats | zakat_utils.py:55-75 | fifty more camels add one ḥiqqah and keep the extra |
| Zakat.BaseDigits | zakat_utils.py:56-57 | above 200 the result starts with `f"{4 + (c-200)//50} ḥiqqahs (3 y/o camel)"` |
| Zakat.AsWrittenInvalid | zakat_utils.py:3-77 | the function is total, and "Invalid input" occurs exactly for 121..124 |
| Zakat.CalculateZakat | zakat_utils.py:3-77 | the corrected function agrees with the source everywhere outside 121..124 |
| Zakat.CalculateZakatTotal | zakat_utils.py:25-28 | the corrected function never gives "Invalid input" and gives 2 ḥiqqahs for 91..124 |
| Tashkeel.StripTashkeel | tashkeel_utils.py:33-34 | the result is no longer and holds no mark, and text without marks is unchanged |
| Tashkeel.StripTashkeelSubsequence | tashkeel_utils.py:33-34 | the result is a subsequence of the text: the other characters keep their order |
| Tashkeel.StripTashkeelCounts | tashkeel_utils.py:4 | each mark occurs 0 times and every other character as often as in the text, so exactly the marks are removed |
| Tashkeel.StripTashkeelConcat | tashkeel_utils.py:33-34 | stripping distributes over concatenation |
| Tashkeel.StripTashkeelIdempotent | tashkeel_utils.py:33-34 | stripping twice is stripping once |
| Tashkeel.TablesClosed | tashkeel_utils.py:6-31 | the tables produce only characters that neither table rewrites and that are not marks, and no letter is a key of both |
| Tashkeel.FormType | tashkeel_utils.py:40-45 | the form is beginning, alone, end or middle exactly by whether each neighbour is a space or missing |
| Tashkeel.GetContextualForm | tashkeel_utils.py:36-47 | a character that is not a `letter_placement` key is returned unchanged |
| Tashkeel.ContextualFormByNext | tashkeel_utils.py:26-47 | with these tables only the next neighbour matters: the end form before a break, the middle form otherwise |
| Tashkeel.Undotted | tashkeel_utils.py:54-63 | the loop output is as long as its input |
| Tashkeel.DotlessText | tashkeel_utils.py:49-64 | `remove_tashkeel(text)` is as long as `strip_tashkeel(text)` |
| Tashkeel.RemoveTashkeel | tashkeel_utils.py:49-64 | the loop computes `DotlessText` and keeps the stripped length |
| Tashkeel.UndottedAt | tashkeel_utils.py:54-63 | at each position: a character in neither table stays; a `dotless_map` letter becomes its value; a placed letter takes the form for its neighbours in the stripped text, with none before the first and none after the last |
| Tashkeel.UndottedOutput | tashkeel_utils.py:58-63 | every output character is the input character or a table output |
| Tashkeel.UndottedKeeps | tashkeel_utils.py:58-63 | a character that no table produces appears in the output only where it was in the input |
| Tashkeel.UndottedFixed | tashkeel_utils.py:58-63 | text without table letters is unchanged |
| Tashkeel.DotlessTextIdempotent | tashkeel_utils.py:49-64 | converting converted text changes nothing |
| Text.Split | build_indexes.py:169 | `str.split` gives at least one piece, no piece holds the separator, and `"".split(c)` is `[""]` |
| Text.Join | guess_the_surah.py:246 | `sep.join(ws)` of one word is that word; otherwise it begins with the first word, followed by `sep` |
| Text.SplitJoin | guess_the_surah.py:246 | splitting a join of at least one separator-free word gives back exactly those words |
| Text.SplitHead | build_indexes.py:193 | the first piece of `split(sep)` is a prefix of the text, followed by `sep` when it is shorter than the text |
| Text.Strip | build_indexes.py:172 | `str.strip()` is a slice of the text that drops only whitespace before and after it, neither starts nor ends with whitespace, and leaves a string that already has that form unchanged |
| Text.StripEmpty | build_indexes.py:173 | the stripped text is empty exactly when the text is all whitespace |
| Text.IndexOf | guess_the_surah.py:110 | `str.index` finds the first position where the substring occurs, and `None` (the `ValueError`) exactly when it occurs nowhere |
| Text.RemoveAll | build_indexes.py:172 | `replace(pat, '')` never lengthens the text and changes nothing when `pat` does not occur |
| Text.NatToString | unique_phrases.py:24 | `str(n)` is a non-empty string of decimal digits |
| Text.NatToStringValue | unique_phrases.py:24 | reading those digits back gives `n` |
| Rasm.RemoveTashkeel | convert_to_rasm.py:32-33 | the result is no longer and holds no mark |
| Rasm.RemoveTashkeelAgrees | convert_to_rasm.py:32-33 | it equals `strip_tashkeel`, so it deletes exactly U+064B–U+0652 and U+0670 |
| Rasm.TablesAgree | convert_to_rasm.py:5-30 | both files carry the same two tables |
| Rasm.GetContextualForm | convert_to_rasm.py:35-47 | a non-key character is returned unchanged |
| Rasm.ContextualFormAgrees | convert_to_rasm.py:35-47 | the rule is that of tashkeel_utils.py for all inputs |
| Rasm.RasmText | convert_to_rasm.py:49-64 | `convert_to_rasm` keeps the length of the stripped text |
| Rasm.ConvertToRasm | convert_to_rasm.py:49-64 | the loop computes `RasmText` with that length |
| Rasm.RasmTextAgrees | convert_to_rasm.py:49-64 | `convert_to_rasm(t)` equals `remove_tashkeel(t)` of tashkeel_utils.py for every `t` |
| Rasm.RasmTextAt | convert_to_rasm.py:54-63 | unmapped characters pass through, `dotless_map` letters become their value, and placed letters take their contextual form |
| Rasm.RasmTextIdempotent | convert_to_rasm.py:49-64 | converting twice is converting once |
| Rasm.RasmTextKeepsBars | convert_to_rasm.py:49-64 | no bar character is introduced by the conversion |
| Rasm.RewriteLine | convert_to_rasm.py:68-73 | a line is written iff its stripped text has exactly 3 bar-separated fields, and the line written ends in a newline and splits back into surah, ayah and the converted text |

## Left out

- File I/O and JSON are not modelled: reading the corpus and the juz and surah-name files, and dumping the maps (build_indexes.py:37-56, 160-161, 230-264; unique_phrases.py:15, 82-93; `bootstrap_indexes`). `BuildIndexes.QuranIndex.ParseQuran` takes the list of lines that line 161 builds. `FindJuzNum` takes the juz table as a parameter. `CreateSurahNameToNumMap` takes the two name dicts as lists of pairs in insertion order.
- `int()` parsing of `surah:ayah` is not modelled. `compare_ayah` and `find_juz_num` work on parsed integer pairs.
- The Flask layer, the session bag and translation are left out. The session values the hint functions read are arguments (`current`, the session's surah name). The "No more hints" message is the `exhausted` flag; its colour (red or yellow) is not modelled.
- `get_random_phrase` and `get_random_ayah` are left out: they make random choices, and the retry loop has no termination guarantee.
- `remove_dots` is not modelled: guess_the_surah.py imports it, but tashkeel_utils.py does not define it.
- The `re` engine is not modelled. The mark class is a code-point range predicate.
- Characters are abstract code points. There is no Unicode normalisation, and the two letter tables are finite maps. `strip` and `rstrip` use a fixed list of whitespace code points.
- `process_file` is modelled only as the per-line rewrite `Rasm.RewriteLine`. Opening the files, the line loop and the output order are left out.
- BuildIndexes.QuranIndex.ParseQuran: says nothing about the dicts after a malformed line. The model just stops with `ok` false; the source's exception leaves the dicts partly filled.
- UniquePhrases.UniquePhrasesRec: proves the recursion adds the whole reference family only when no stripped word after the first token ends in a decimal digit. Otherwise it proves only inclusion. The reason is that the cache key `cur_phrase + str(word_idx)` can collide across states (`UniquePhrases.CacheKeyCollision`), and a collided state is skipped.
- UniquePhrases.AyahPhraseSet: the same restriction to words that do not end in a digit, for the same reason. Its equality with `""` plus the runs of `tokens[1:]` holds only under `CleanWords`, as for `ContribMinOne`.
- UniquePhrases.ContribTop: equates the phrases added with the runs of `tokens[1:]` only when every token after the first is non-empty with no whitespace at either end (`CleanWords`). Otherwise the `strip` at unique_phrases.py:28 makes the added phrases differ from the runs: a double space gives an empty token, and the state `"a "` is added as `"a"`. The phrases added in that case are described by `Contrib` alone.
- UniquePhrases.ContribMinOne: the same `CleanWords` restriction, for the same reason.
- Guess.AddWordToPhrase: locates the first hint with the whole-word search `Guess.HintStart`, the corrected form of the substring search in the source (see Findings). The source's formula is `Guess.HintStartAsWritten`. `Guess.HintStartAsWrittenAtWord` shows that the two agree whenever the first substring occurrence starts a word.
- Zakat.CalculateZakatAsWritten: its own contract states only the `≤ 4` case. The band table, the gap and the cycle are stated by the lemmas beside it.

## Findings

| source | as written | input that shows it | evidently intended | confidence | as-written member | corrected member |
|---|---|---|---|---|---|---|
| zakat_utils.py:25-27 | the band 91..120 is followed directly by 125..129, so 121..124 fall through to the final `else` | `calculate_zakat(121)` returns "Invalid input" | a result for every count. 121..124 stay at 2 ḥiqqahs until the first goat at 125, as the source's own pattern after 120 implies | high (not executed) | Zakat.CalculateZakatAsWritten, Zakat.AsWrittenGap | Zakat.CalculateZakat, Zakat.CalculateZakatTotal |
| guess_the_surah.py:110-113 | the first hint finds the phrase with `ayah.index(phrase)`, a substring search, and counts the words from that character on | ayah `"ab b"`, phrase `"b"`: `index` finds the `b` inside `"ab"`, giving `word_idx` -1, so the hint jumps to the previous ayah | `word_idx` 0, the word just before the phrase's first whole-word occurrence | medium (not executed) | Guess.HintStartAsWritten, Guess.HintStartCollision | Guess.HintStart, Guess.FirstHintState |
