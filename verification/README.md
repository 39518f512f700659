# Question answering by TF-IDF: the scoring and ranking core

The system answers a question in two stages. First it ranks the documents of
a corpus by TF-IDF against the query words. Then it ranks the sentences of the
best documents by the summed IDF of the query words they contain, with
query-term density breaking ties. This project models the four functions of
`questions.py` that do this work:

- `tokenize` keeps the lower-cased units that contain an ASCII letter and are
  not stopwords (module `Tokenize`);
- `compute_idfs` maps every word of the corpus to ln(TD / df), where TD is the
  number of documents and df the number that contain the word (module `Idf`);
- `top_files` sums occurrence count times IDF over the query words, then picks
  the best unranked file `n` times (modules `Scores`, `Selection`,
  `FileRanker`);
- `top_sentences` sums the IDF of the query words present in each sentence,
  then picks `n` times, breaking equal scores on density (modules `Scores`,
  `Selection`, `SentenceRanker`).

Python dictionaries are `Tables.Table` values: the key list in insertion order
(the order Python iterates them) and a map. The query is a Python set. It is
given as the sequence in which it is iterated, and both scores are proved not
to depend on that order. `math.log` is a parameter `ln`. Scores and
densities are exact reals.

Each loop of the source is a `method` with a `for` loop, proved equal to a
specification function (`Filtered`, `DocFreq`, `TfIdf`, `SentenceScore`,
`Scan`, `Ranking`). The properties of the rankings are lemmas about those
functions. One repeated scan, `Selection.Scan` and `Selection.Ranking`, models
both rankers. Its order is lexicographic on (score, secondary key). Files use
a constant secondary key, so a file replaces the running best only on a
strictly greater score. Sentences use their density.

Two behaviours of the source come out of the model as stated properties:

- `max` is not reset between rounds. A round that finds no unranked key
  appends the previous pick again, so asking for more results than there are
  candidates repeats the last one.
- With `n >= 1` and an empty score table, `max` is never bound and the source
  fails. The methods require `n > 0 ==> query != [] && keys != []`.

## Model

| member | source | states |
|---|---|---|
| Tokenize.Lower | questions.py:76 | lower-casing keeps the length, leaves no character in A-Z, and keeps exactly the positions that hold an ASCII letter |
| Tokenize.LowerIdempotent | questions.py:76 | lower-casing an already lower-cased unit changes nothing |
| Tokenize.LowerKeepsLetters | questions.py:76-77 | the `[a-zA-Z]` search finds a letter in the lower-cased unit if and only if the unit itself has one |
| Tokenize.Kept | questions.py:77 | a unit is kept if and only if it has an ASCII letter and its lower-cased form is not a stopword |
| Tokenize.Filtered | questions.py:73-80 | the token list is never longer than the unit list |
| Tokenize.Tokenize | questions.py:73-80 | the loop returns exactly the filtered, lower-cased units in their order, no more tokens than units |
| Tokenize.FilteredAppend | questions.py:75-78 | filtering distributes over concatenation, so kept units keep their relative order and multiplicity |
| Tokenize.FilteredSound | questions.py:76-78 | every token is the lower-cased form of some kept unit, contains an ASCII letter and is not a stopword |
| Tokenize.FilteredComplete | questions.py:77-78 | every unit that has a letter and whose lower-cased form is not a stopword appears, lower-cased, among the tokens |
| Idf.DocFreq | questions.py:96-99 | the number of documents containing a word is at most the number of documents |
| Idf.CountContaining | questions.py:96-99 | the inner loop counts exactly the documents that contain the word |
| Idf.DocFreqPositive | questions.py:94-99 | a word taken from some document has a count of at least one, so TD/count never divides by zero |
| Idf.Vocabulary | questions.py:94-101 | every word of every named document is among the words that receive an IDF |
| Idf.VocabularyMembers | questions.py:94-95 | a word is in the vocabulary if and only if some document contains it |
| Idf.ComputeIdfs | questions.py:91-103 | the IDF keys are exactly the words of the corpus (none for an empty corpus), and each value is ln(TD / df) with 1 <= df <= TD |
| Idf.IdfNonNegative | questions.py:101 | if ln is non-negative from 1 upwards, every IDF value is non-negative, because TD / df >= 1 |
| Scores.Occurrences | questions.py:129 | `list.count` is the multiplicity of the word in the list, so it is at most the length and positive exactly when the word occurs |
| Scores.Matches | questions.py:175-179 | the number of query words a sentence contains is at most the query size, and positive exactly when some query word occurs in it |
| Scores.Density | questions.py:180 | the density of a sentence lies between 0 and query size / sentence length, and is positive exactly when some query word occurs in it |
| Scores.TfIdf | questions.py:123-130 | a file's summed score is non-negative when the IDFs are, and zero when no query word both has an IDF and occurs in the file |
| Scores.SentenceScore | questions.py:155-162 | a sentence's summed score is non-negative when the IDFs are, and zero when no query word both has an IDF and occurs in the sentence |
| Scores.SumOverSigns | questions.py:123-130 | a sum of non-negative terms over the query is non-negative, and a sum of zero terms is zero |
| Scores.SumOverPermutation | questions.py:123 | a sum over the query is the same for every iteration order of the query set |
| Scores.ScoresIgnoreQueryOrder | questions.py:123-130 | file and sentence scores are the same for every iteration order of the query set |
| Scores.SentenceScorePresenceOnly | questions.py:159-162 | a sentence score depends only on which words occur, not on how often they occur |
| Scores.SentenceScoreAtMostTfIdf | questions.py:155-162 | with non-negative IDFs, a word list's presence score is between 0 and its TF-IDF score |
| Scores.SentenceGainAtMostFileGain | questions.py:129-130 | with non-negative IDFs, a word's sentence contribution (its IDF when present) is at most its file contribution (occurrences times IDF) |
| Scores.TfIdfStep | questions.py:123-130 | one more query word adds occurrences times IDF to a file's score |
| Scores.SentenceScoreStep | questions.py:156-162 | one more query word adds its IDF to a sentence's score when the word is present |
| Scores.TfIdfUnknownWord | questions.py:127-128 | a query word without an IDF, or absent from the word list, changes neither score |
| Selection.BeatsIsStrictOrder | questions.py:169-182 | the comparison of the scans (a greater score at line 138, or a greater score then a greater density at lines 169-182) is irreflexive, asymmetric and transitive, and two keys neither of which beats the other have equal score and secondary key |
| Selection.Scan | questions.py:136-140 | a round finds nothing exactly when every key is ranked, and otherwise finds an unranked key |
| Selection.Ranking | questions.py:135-141 | `n` rounds give a list of exactly `n` keys |
| Selection.ScanPicksEarliestBest | questions.py:137-140 | no unranked key beats the pick, and the pick strictly beats every unranked key before it, so ties go to the earliest key |
| Selection.RankingPrefix | questions.py:135-141 | the first `m` of `n` rounds give the same list as `m` rounds |
| Selection.RankingRound | questions.py:135-141 | round `m` appends the scan's pick over the keys ranked before it, or repeats the previous pick when there is none |
| Selection.RankingDistinct | questions.py:138 | while at most as many rounds as keys are run, no key is ranked twice |
| Selection.RankingRoundIsEarliestBest | questions.py:135-141 | each round that has unranked keys picks a fresh key no unranked key beats, strictly beating the unranked keys before it |
| Selection.RankingNonIncreasing | questions.py:135-141 | no key in the ranking beats an earlier one |
| Selection.NotBeatenByUnranked | questions.py:137-140 | a scan over a table that has an unranked key finds a pick that key does not beat |
| Selection.RankingRepeatsWhenExhausted | questions.py:139-141 | after as many rounds as keys, each further round appends the previous pick again |
| FileRanker.TopFilesSpec | questions.py:106-143 | the files returned number exactly `n` |
| FileRanker.FileScores | questions.py:121-130 | the table lists every file in file order (none for an empty query), and each score is the file's TF-IDF sum |
| FileRanker.AddWord | questions.py:124-130 | one query word inserts missing files at 0 and adds that word's TF-IDF term to every file |
| FileRanker.ScanFiles | questions.py:136-140 | one round's `max` is the scan's pick, or the previous round's `max` when no file is left |
| FileRanker.SelectFiles | questions.py:133-143 | the `n` rounds return the ranking of the table with a strict-greater score test |
| FileRanker.TopFiles | questions.py:106-143 | the function returns the `n`-round ranking of the files by TF-IDF, exactly `n` names |
| FileRanker.TopFilesRound | questions.py:136-141 | while files remain, round `m` picks a fresh file scoring at least every unranked file and strictly more than the unranked files before it |
| FileRanker.TopFilesOrdered | questions.py:133-143 | the names are files, scores never increase, the first min(n, file count) are distinct, and later entries repeat the last pick |
| SentenceRanker.TopSentencesSpec | questions.py:145-186 | the sentences returned number exactly `n` |
| SentenceRanker.SentenceScores | questions.py:153-162 | the table lists every sentence in order (none for an empty query), and each score is the sum of the IDFs of the query words present |
| SentenceRanker.ScoreSentence | questions.py:156-162 | one sentence's pass over the query inserts it (unless the query is empty) with its summed IDF score and leaves every other score as it was |
| SentenceRanker.ScanSentences | questions.py:167-182 | one round's `max` is the scan's pick by (score, density), or the previous round's `max` when no sentence is left |
| SentenceRanker.CountMatches | questions.py:173-179 | the two counters are the numbers of query words in the candidate and in the running best |
| SentenceRanker.SelectSentences | questions.py:164-186 | the `n` rounds return the ranking of the table by score, then density |
| SentenceRanker.TopSentences | questions.py:145-186 | the function returns the `n`-round ranking of the sentences by score, then density, exactly `n` entries |
| SentenceRanker.TopSentencesRound | questions.py:166-184 | while sentences remain, round `m` picks a fresh sentence that no unranked sentence exceeds in (score, density), strictly exceeding the unranked ones before it |
| SentenceRanker.TopSentencesOrdered | questions.py:164-186 | scores never increase, density never increases between equal scores, the first min(n, sentence count) are distinct, and later entries repeat the last pick |
| Examples.TokenizeExample | questions.py:73-80 | "The quick , brown FOX jumps ." with stopword "the" gives quick, brown, fox, jumps |
| Examples.IdfExample | questions.py:91-103 | with doc1 = [a, b] and doc2 = [a], `compute_idfs` returns exactly {a: ln(2/2), b: ln(2/1)} |
| Examples.TopFilesExample | questions.py:133-143 | with query {b} and a positive IDF for b, the top file is the one that contains b |
| Examples.TieBreakExample | questions.py:172-182 | of two sentences with equal scores, the denser one (2 of 5 words over 2 of 10) ranks first, though it is listed second |

## Left out

- `main`, `load_files`, the sentence and word splitters, the stopword list and all file and console I/O are not modelled. `Tokenize` takes the splitter's units and the stopword set as parameters.
- `math.log` is the parameter `ln`. Its values are not computed. `Idf.IdfNonNegative` assumes only that ln is non-negative from 1 upwards.
- Floating point is not modelled. Scores and densities are exact reals. Python's float sums depend on the order of addition, and its division rounds, so near-ties may compare differently.
- `str.lower` and the regular expression are modelled on ASCII only. Non-ASCII letters are neither lower-cased nor counted as letters.
- `n` is a natural number. `range(n)` with negative `n` (no rounds) is not modelled.
- The query set is modelled as its iteration sequence. Set semantics (no repeated words) are not enforced; the permutation lemmas cover any order.
- Idf.ComputeIdfs: the IDF result is a map, so the insertion order of the IDF dictionary is not modelled (nothing reads it).
- FileRanker.TopFiles: with `n >= 1` and an empty query or no files, the source fails on an unbound `max`. The model requires a non-empty query and file table instead.
- SentenceRanker.TopSentences: like `TopFiles`, it requires a non-empty query and sentence table when `n >= 1`. Every sentence must also have at least one word, which is stronger than the source. The source divides only for a sentence whose score equals the running best, so an empty sentence elsewhere does not fail there.
- SentenceRanker.SelectSentences: requires every sentence to have at least one word, for the same reason as `TopSentences`.
- SentenceRanker.ScanSentences: requires every sentence to have at least one word, for the same reason as `TopSentences`.
- FileRanker.AddWord, FileRanker.ScanFiles, Idf.CountContaining, SentenceRanker.ScoreSentence and SentenceRanker.CountMatches are inner loops of the source written as methods of their own. They are not separate functions in `questions.py`.
