# SNLIData in Dafny

A model of the data pipeline of `SNLIData` (`dataset.py`). The pipeline reads the three SNLI
partitions (train, valid, test), which are tab-separated files with one record per line.

1. It builds the vocabulary of the record tokens.
2. It restricts a pretrained (GloVe) embedding table to that vocabulary.
3. It materialises each partition as a list of `[premise, hypothesis, label]` examples.
4. While loading, it accumulates, for each token missing from the pretrained table, a running sum of the pretrained vectors of its neighbours inside a window of `window_size`. It also keeps a running count of those neighbours.
5. Finally, it stores the mean `sum / count` as the embedding of every such token that has a count.

Modules:

- `Text`: Python's `str.rstrip()` and `str.split(sep)`.
- `Vectors`: vectors as `seq<real>`, with the zero vector, addition and division by a count.
- `Records`: the record parser shared by `build_word_set` and `load`, and `label_dict`.
- `Accumulator`: the unseen-word accumulator.
  - It is defined position by position, as `approximate_unseen` runs (`ScanPrefix`, `Window`).
  - It is proved equal, word by word, to a closed form: the sum over a word's occurrences of its pretrained neighbours (`OccSum`, `OccCount`, `CorpusSum`, `CorpusCount`).
  - It also holds the finalisation of `get_total`.
- `Corpus`: specification functions for every stage (`FileVocab`, `WordSet`, `GetGlove`, `Load`, `LoadAll`, `Build`), with the properties that connect them across stages.
- `Dataset`: the class `SNLIData`.
  - Its mutable fields are `wordSet`, `wordEmbeds`, `unseenWordDict`, `unseenWordCountDict` and the three data lists.
  - It has one method per source method. Each loop carries invariants, and each method is proved against the `Corpus`/`Accumulator` function for its stage.
  - `Create` is `__init__`. It is proved to leave exactly the fields `Corpus.Build` describes.
- `WorkedExample`: a two-sentence corpus computed through the accumulator and the finalisation.

Inputs that are files in the source are parameters here:

- a data file is its sequence of lines (line 0 is the header);
- the pretrained file is its sequence of rows, each a word and its already-parsed vector.

The source raises exceptions on bad input. Each one becomes a `Failure` of the `Result` type:

- `MissingColumn`: the `IndexError` of `cols[1]`/`cols[2]` on a retained line with fewer than three columns.
- `UnknownLabel`: the `KeyError` of `label_dict`.
- `EmptyVocabulary`: the `ZeroDivisionError` when `get_glove` prints its coverage percentage.

### Unseen words without a count

One might expect every out-of-vocabulary token to end up in the embedding table after
finalisation, with a zero vector when it never had a pretrained neighbour. The code does not do
this: at `dataset.py:79-83` a word without a count is only printed and gets no entry. The model
follows the code:

- `Accumulator.Finalize` and `Corpus.BuildEmbeddings` state that such a word has no embedding.
- `WorkedExample.TwoSentencesFinal` shows it for a concrete word (`x`).

## Model

| member | source | states |
|---|---|---|
| Text.RStrip | dataset.py:41 | `rstrip()` never lengthens the line (length only; the meaning is in `Text.RStripMeaning`) |
| Text.RStripMeaning | dataset.py:41 | `rstrip()` keeps a prefix of the line, removes only white space, and leaves no trailing white space |
| Text.Split | dataset.py:41-44 | splitting always yields at least one piece, so `cols[0]` always exists |
| Text.SplitPieces | dataset.py:41 | no piece of a split contains the separator |
| Text.SplitJoin | dataset.py:41 | joining the pieces of a split with the separator gives back the string (splitting loses nothing) |
| Text.JoinSplit | dataset.py:47-50 | splitting a join of separator-free fields gives back exactly those fields, empty ones included |
| Records.LabelIndex | dataset.py:19-20 | `label_dict` maps `entailment` to 0, `contradiction` to 1 and `neutral` to 2, and succeeds on no other label; any other label fails with `UnknownLabel` of that label |
| Records.LabelIndexBijective | dataset.py:20 | distinct labels get distinct classes and every class 0..2 has a label |
| Records.DropBrackets | dataset.py:47-50 | the bracket filter never lengthens the list (length only; the meaning is in `Records.DropBracketsMembers` and `Records.DropBracketsAppend`) |
| Records.DropBracketsMembers | dataset.py:47-50 | the filtered list holds no `(` or `)` and holds exactly the other tokens |
| Records.DropBracketsAppend | dataset.py:47-50 | filtering distributes over concatenation, so the kept tokens stay in their original order |
| Records.DropBracketsKeeps | dataset.py:47-50 | a list without brackets passes through unchanged |
| Records.TokensOfFields | dataset.py:47-50 | a column written as space-separated fields yields exactly those fields minus brackets, in order, empty fields kept |
| Records.Columns | dataset.py:41 | a line always has a first column |
| Records.ParseRecord | dataset.py:37-50 | the header and lines labelled `-` are skipped; a retained line with fewer than three columns fails; otherwise the record's label is column 0 and its token lists are the filtered columns 1 and 2 |
| Records.ExampleOf | dataset.py:118-130 | a record becomes an example with its label's class (below 3); a skip stays a skip; a parse failure or an unknown label fails; both directions |
| Records.ParseExample | dataset.py:110-125 | per line of `load`: skipped exactly when the line is not retained; fails exactly when the line is short of columns or its label is unknown; else the example carries the parsed record's tokens and, as its class, `label_dict` of column 0 |
| Vectors.Zero | dataset.py:95-96 | the zero vector has the configured dimension and only zeros |
| Vectors.Add | dataset.py:101-103 | element-wise sum of equal-length vectors |
| Vectors.Div | dataset.py:80 | every element divided by the positive count (result times count gives the element back) |
| Vectors.AddZero | dataset.py:95-103 | adding the zero vector changes nothing |
| Vectors.AddAssoc | dataset.py:101-103 | vector addition regroups, so repeated in-place additions equal one addition of their total |
| Accumulator.NeighbourSum | dataset.py:97-103 | the sum of a window's pretrained neighbours has the configured dimension (dimension only; its meaning is in `Accumulator.WindowStep` and `Accumulator.ScanPrefixSums`) |
| Accumulator.OccSum | dataset.py:92-103 | the total over a word's occurrences has the configured dimension (dimension only; meaning in `Accumulator.ScanPrefixSums`) |
| Accumulator.ScanPrefix | dataset.py:92-107 | the position loop keeps every vector of the accumulator at the configured dimension (dimension only; meaning in `Accumulator.ScanPrefixSums` and `Accumulator.ScanPrefixCounts`) |
| Accumulator.AddSentence | dataset.py:90-107 | one `approximate_unseen` call keeps the accumulator's dimension (dimension only; meaning in `Accumulator.AddSentenceEffect`) |
| Accumulator.Window | dataset.py:94-107 | after position `i` is handled, its token has a running sum, of the configured dimension |
| Accumulator.WindowStart | dataset.py:94-96 | before the first offset, the token's sum is created as the zero vector if absent and nothing else changes |
| Accumulator.WindowStep | dataset.py:97-107 | one offset: a pretrained in-bounds non-zero-offset neighbour's vector is added to the sum, and the count is created at 1 or raised by 1; otherwise nothing changes |
| Accumulator.WindowEnd | dataset.py:97-98 | the offset loop ends after offset `window_size`, or at once when the range is empty |
| Accumulator.NeighbourNone | dataset.py:99-103 | a window without contributions adds the zero vector |
| Accumulator.OccNone | dataset.py:92-103 | occurrences without contributions add the zero vector |
| Accumulator.OccOutside | dataset.py:93 | a pretrained word, or one that does not occur, gets no count and a zero sum from the sentence |
| Accumulator.NeighbourCountBound | dataset.py:97-99 | the contributions of a window are at most its non-zero offsets |
| Accumulator.WindowBound | dataset.py:97-99 | one occurrence contributes at most `2 * window_size` times, and nothing when `window_size <= 0` |
| Accumulator.OccurrencesIn | dataset.py:92 | a word's occurrence count in a prefix is positive exactly when it is in the prefix |
| Accumulator.OccCountBound | dataset.py:92-107 | a sentence adds at most `2 * window_size` per occurrence to a word's count, and nothing when `window_size <= 0` |
| Accumulator.NeighbourCountIsCardinality | dataset.py:97-100 | a window's count is the number of offsets `r != 0` whose neighbour is in bounds and pretrained |
| Accumulator.ScanPrefixKeys | dataset.py:92-96 | after the first `n` positions a word has a sum exactly when it had one or it occurs among them without being pretrained |
| Accumulator.ScanPrefixSums | dataset.py:92-103 | after the first `n` positions a word's sum has grown by exactly its occurrence total |
| Accumulator.ScanPrefixCountKeys | dataset.py:104-107 | after the first `n` positions a word has a count exactly when it had one or got a contribution |
| Accumulator.ScanPrefixCounts | dataset.py:104-107 | after the first `n` positions a word's count has grown by exactly its number of contributing neighbours |
| Accumulator.AddSentenceEffect | dataset.py:90-107 | for every word, one call: sum exists iff before or the word occurs unpretrained; count exists iff before or a contribution; sum and count grow by exactly the word's occurrence totals |
| Accumulator.AddSentenceOutside | dataset.py:93 | a pretrained word, or one absent from the sentence, keeps both entries exactly |
| Accumulator.OccOutsideContra | dataset.py:93 | a word that got a contribution occurs in the sentence and is not pretrained |
| Accumulator.AddSentenceValid | dataset.py:94-107 | one call keeps the accumulator invariants: counted words have sums, counts are at least 1, uncounted sums are zero |
| Accumulator.NoWindowNoContribution | dataset.py:97-99 | with `window_size <= 0` counts never change and sums never grow |
| Accumulator.Accumulate | dataset.py:127-128 | repeated calls keep the accumulator's dimension (dimension only; meaning in `Accumulator.AccumulateSums` and `Accumulator.AccumulateCounts`) |
| Accumulator.CorpusSum | dataset.py:92-103 | the corpus total of a word's neighbours has the configured dimension (dimension only; meaning in `Accumulator.AccumulateSums`) |
| Accumulator.AccumulateValid | dataset.py:94-107 | running over many sentences keeps the accumulator invariants |
| Accumulator.AccumulateSums | dataset.py:127-128 | over many sentences a word has a sum iff it had one or occurs somewhere unpretrained, and its sum has grown by its corpus total |
| Accumulator.AccumulateCounts | dataset.py:127-128 | over many sentences a word has a count iff it had one or got a contribution, and its count has grown by its corpus total |
| Accumulator.AccumulateSnoc | dataset.py:127-128 | running over one more sentence is one more call |
| Accumulator.AccumulateAppend | dataset.py:70-73 | running over a concatenation is running over each part in turn, as the three loads share one accumulator |
| Accumulator.Finalize | dataset.py:78-83 | after finalisation a word has an embedding exactly when it was pretrained or was counted; a counted word's embedding is its sum divided by its count; other pretrained entries are unchanged |
| Accumulator.FinalizeStepEmbeds | dataset.py:79-83 | handling one more word writes its mean into the table when it has a count and changes nothing otherwise |
| Accumulator.FinalizeStepCounted | dataset.py:79-81 | a counted word's mean is written into the table |
| Accumulator.FinalizeStepUncounted | dataset.py:82-83 | a word without a count leaves the table alone |
| Accumulator.FinalizeStepSums | dataset.py:79-80 | handling one more word divides its sum by its count in place when it has one |
| Corpus.VocabPrefixSucceeds | dataset.py:37-50 | the vocabulary of a prefix exists exactly when each of its lines parses |
| Corpus.VocabPrefixFails | dataset.py:47-50 | a line short of columns makes the vocabulary of every prefix containing it fail |
| Corpus.VocabPrefixWords | dataset.py:47-52 | a token is in the vocabulary of a prefix exactly when some record among its lines contains it |
| Corpus.FileVocabMeaning | dataset.py:35-52 | `update_dict` succeeds exactly when every line parses (labels never inspected) and collects exactly the tokens of the retained records |
| Corpus.GlovePrefix | dataset.py:62-65 | every key of the restricted table is in the vocabulary |
| Corpus.GlovePrefixDim | dataset.py:65 | every kept vector has the dimension of the rows |
| Corpus.GetGlove | dataset.py:58-68 | `get_glove` fails exactly on an empty vocabulary, with `EmptyVocabulary`, and otherwise returns exactly the restricted table `GloveTable`, whose keys are in the vocabulary and whose values are the last row of each word (proved in `Corpus.GlovePrefixAt`) |
| Corpus.GloveTable | dataset.py:60-68 | every key of `get_glove`'s table is in the vocabulary |
| Corpus.GlovePrefixAt | dataset.py:62-65 | a word has an entry exactly when it is in the vocabulary and some row carries it, and its vector is that of the last such row |
| Corpus.RetainedIdx | dataset.py:110-119 | the retained positions are in range, strictly increasing, not skipped, and include every non-skipped line |
| Corpus.Sentences | dataset.py:127-128 | the sentences passed to `approximate_unseen` are each example's premise then hypothesis, in order |
| Corpus.SentencesAppend | dataset.py:127-130 | the sentences of concatenated data are the concatenated sentences |
| Corpus.LoadPrefix | dataset.py:110-130 | a loaded prefix keeps the accumulator's dimension (dimension only; meaning in `Corpus.LoadPrefixData` and `Corpus.LoadPrefixAcc`) |
| Corpus.LoadPrefixSucceeds | dataset.py:110-125 | a prefix loads exactly when every line passes parsing and the label lookup |
| Corpus.LoadPrefixData | dataset.py:110-130 | a loaded prefix holds one example per retained line, in order, each that line's parse |
| Corpus.LoadPrefixAcc | dataset.py:127-130 | the accumulator `load` leaves is that of the premise-then-hypothesis sentences of its examples in order |
| Corpus.LoadPrefixVocab | dataset.py:47-124 | when a prefix loads, its vocabulary exists and holds every token of every loaded example |
| Corpus.Load | dataset.py:87-135 | `load` keeps the accumulator's dimension (dimension only; meaning in `Corpus.LoadSucceeds`, `Corpus.LoadData` and `Corpus.LoadValid`) |
| Corpus.LoadSucceeds | dataset.py:87-135 | `load` fails exactly when some line is short of columns or has an unknown label |
| Corpus.LoadData | dataset.py:110-130 | `load` yields exactly one example per retained line, in file order, each the line's parse; no retained line is dropped |
| Corpus.LoadWordsInVocab | dataset.py:35-130 | when `load` succeeds on a file, `update_dict` succeeds on it and its vocabulary holds every token of every example |
| Corpus.LoadValid | dataset.py:87-135 | `load` keeps the accumulator invariants |
| Corpus.LoadAll | dataset.py:71-73 | the three loads keep the accumulator invariants |
| Corpus.RunStages | dataset.py:22-32 | the restricted table and every sum have the configured dimension, and the accumulator invariants hold after the loads |
| Corpus.BuildStages | dataset.py:22-32 | `__init__` succeeds past the table exactly when the three loads do, and then its fields are the vocabulary, the finalised table and sums, the counts and the three data lists |
| Corpus.BuildVocabComplete | dataset.py:22-32 | every token of every example of the three partitions is in `word_set` |
| Corpus.StagesAccumulate | dataset.py:70-73 | the final accumulator is that of all sentences of train, valid and test, in order |
| Corpus.BuildEmbeddings | dataset.py:26-32 | pretrained keys are vocabulary words and keep their vectors; an unpretrained word has an embedding exactly when it had a contribution; that embedding is the mean of all contributing neighbour vectors over the three partitions, and its count is their number |
| Dataset.SNLIData.constructor | dataset.py:8-30 | the containers start empty, with the configured dimension and window |
| Dataset.SNLIData.UpdateDict | dataset.py:35-52 | succeeds exactly when `update_dict`'s specification does, adding exactly the file's vocabulary to `word_set` |
| Dataset.SNLIData.AddLine | dataset.py:38-52 | one line: succeeds exactly when it parses (same error) and adds exactly the tokens of its record |
| Dataset.SNLIData.AddWords | dataset.py:51-52 | adds exactly the given tokens to `word_set` |
| Dataset.SNLIData.BuildWordSet | dataset.py:34-56 | train, valid, test in order; succeeds exactly when all three do, adding the union of their vocabularies |
| Dataset.SNLIData.GetGlove | dataset.py:58-68 | returns exactly the restricted table, or the empty-vocabulary failure |
| Dataset.SNLIData.ApproximateUnseen | dataset.py:90-107 | the two accumulator fields become exactly the specification's accumulator after the sentence |
| Dataset.SNLIData.AddWindow | dataset.py:93-107 | the body for one unpretrained position leaves exactly the specification's window state |
| Dataset.SNLIData.Load | dataset.py:87-135 | succeeds exactly when the specification does, returning its data, leaving its accumulator, and keeping the invariants |
| Dataset.SNLIData.GetTotal | dataset.py:70-85 | the three loads then the finalisation: data lists, table, sums and counts are exactly those of the specification |
| Dataset.SNLIData.FinalizeUnseen | dataset.py:78-83 | the table and the sums become exactly the specification's finalisation |
| Dataset.SNLIData.Create | dataset.py:8-32 | succeeds exactly when `Corpus.Build` does, and leaves exactly its fields |
| WorkedExample.TwoSentences | dataset.py:90-107 | window 1, `a=[1,0]`, `c=[3,0]`, sentences `a b c` and `x b`: `b` sums to `[4,0]` with count 2; `x` gets a zero sum and no count |
| WorkedExample.TwoSentencesFinal | dataset.py:78-83 | finalising that accumulator gives `b` the embedding `[2,0]` and `x` none |

## Left out

- File opening and line enumeration are not modelled. A data file is given as its lines and the pretrained file as its parsed rows. `print` diagnostics are also left out, including the progress line at `dataset.py:132`, which never prints because of operator precedence.
- Parsing a pretrained line is left out: `line.split(' ')` and `float(l)` at `dataset.py:63-65`. Each row arrives as a word and a vector of reals.
- Floating point is not modelled. Vectors are `seq<real>`, and `np.add` and the in-place division are exact.
- `Vectors.Add`: on vectors of different lengths the result keeps the length of `a`: a shorter `b` is padded with zeros and a longer `b` is truncated. numpy would instead broadcast a length-1 `b` and raise a broadcast error on any other mismatch, unless `embedding_dim` is 1, when the zero sum `a` broadcasts to the length of `b`. In the model the lengths always agree, because every vector it adds is a zero vector or a kept pretrained vector of the configured dimension.
- `Dataset.SNLIData.Create`: the precondition `VocabRowsDim` is a simplification of the model. It asks that every pretrained row whose word is in the vocabulary has a vector of the configured dimension; rows of other words are dropped unread, as at `dataset.py:64-65`, and may have any length. The source asks less. A kept row of another length is only used when it is added to an unseen word's sum (`dataset.py:99-103`): a length-1 vector is then broadcast, and any other length raises unless `embedding_dim` is 1, when the zero sum broadcasts to the row's length. A kept row that is never added causes no error at all. The model does not cover the inputs with such a kept row.
- Array aliasing is not modelled. In the source, `word_embeds[w]` and `unseen_word_dict[w]` are the same numpy array after finalisation. The model holds them as separate values, which are equal.
- The state of the object after a failure is not modelled. The source raises from `__init__`, so no object is returned; the model returns a `Failure` and makes no promise about the fields.
- `get_dataloaders`, `SNLIDataset` and `batchify` (`dataset.py:137-183`) are left out. They are torch loader plumbing and tensor construction.
- The `__main__` block is left out: argparse and the pickle snapshot.
- The unused `ngram2idx`/`idx2ngram` maps and `num_classes` are left out.
- Exceptions are modelled as the three `Error` values above, not as Python exception types.
