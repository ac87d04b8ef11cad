# CompBioLabCLI search and compare logic in Dafny

This project models the selection and formatting logic of the protein-family
command-line tools `search` and `compare`. Latent spaces are fixed-length
numeric fingerprints of protein families. The tools do four things:

- **Sequence search** (`search -ns`). Every family whose trained sequence
  length can hold the query is considered. The query is centred between `-`
  gaps up to that length. The family's decoder reconstructs the padded query,
  and the accuracy is the fraction of positions that match. The first family
  with the strictly highest accuracy is reported. The start value is `'none'`
  with accuracy 0.
- **Nearest latent space**. This is a linear scan for the smallest distance
  with a strict `<`, starting from infinity, so ties keep the earlier
  candidate. It exists twice: in `search -nl1` and in the `SearchLS` class.
  `SearchLS` passes the p-norm to Minkowski. Both cut the family name out of
  the file name.
- **compare input selection**. The `if`/`elif` chain of `run` decides from
  `-names`, `-n1`, `-n2`, `-nl1` and `-nl2` one of four things: list the
  families, show help, compare a particular pair of vectors, or fail.
- **compare output**. A `CompareOutput` record becomes a text line on
  standard output, or a text or CSV line in a file opened with mode `'a'` or
  `'w'`.

The machine-learning and numeric parts are parameters of the model:

- a family's decoder (network prediction plus the argmax back to letters) is
  a `Decoder`, which maps a family name and a padded string to a string of
  the same length;
- a distance metric is a `Metric`, a real-valued function with a name;
- file loading is a function from names to vectors;
- formatting a float with `str` is a function from reals to strings.

Modules (all files are verified together):

| file | module | models |
|---|---|---|
| results.dfy | Results | Option/Result for raised exceptions |
| pytext.dfy | PyText | Python `n * c`, slicing, `split`/`join` |
| amino_key.dfy | AminoKey | `aa_key` and `get_AA` |
| sequence_search.dfy | SequenceSearch | `new_sequence` |
| metrics.dfy | Metrics | vectors, metrics, the first-minimum specification |
| latent_scan.dfy | LatentScan | the `search -nl1` scan |
| search_ls.dfy | SearchLatentSpace | the `SearchLS` class |
| compare.dfy | Compare | `CompareOutput`, output sinks, `run` |

Where the code behaves differently from its descriptions, the model follows
the code:

- `search -nl1` and `compare` call the metric with two arguments, so their
  `-p` option has no effect. Only `SearchLS` passes `p_norm` to Minkowski.
- In `compare`, giving only `-n1` together with a new latent file names the
  second vector after `n11` or `n12`. Neither name is ever assigned, so this
  path loads both files and then always ends in a NameError.
- In `compare`, the branch without family names always loads both `nl1` and
  `nl2`. When only one new file is given, the other name is `""`, and
  `np.loadtxt("")` fails. The model selects the pair with `NewFile("")`, so
  with a loader that fails on the empty name the outcome is that load error,
  never a comparison.
- In `compare`, the branch with only `-n2` loads the packaged family before
  the new file, although the new file is the first vector compared.
- `aa_key` is built as Python builds a dictionary comprehension: a repeated
  letter keeps its first position among the keys and its last index as the
  value. `get_AA(aa_key[l]) == l` is proved for every letter, repeated or
  not. When the letters are distinct, the two are inverse bijections with
  `0..len(aa_letters)`.

## Model

| member | source | states |
|---|---|---|
| AminoKey.Put | CLI/search.py:28 | a dictionary store grows the table by at most one entry and never shrinks it |
| AminoKey.PutSetsKey | CLI/search.py:28 | after `d[l] = i`, looking up `l` gives `i` |
| AminoKey.PutKeepsOtherKeys | CLI/search.py:28 | `d[l] = i` leaves the value of every other key unchanged |
| AminoKey.PutReplaces | CLI/search.py:28 | storing a key that is present overwrites its entry where it stands, keeping the insertion order |
| AminoKey.PutAppends | CLI/search.py:28 | storing an absent key appends it at the end |
| AminoKey.AaKey | CLI/search.py:28 | the comprehension has at most one key per letter of `aa_letters` |
| AminoKey.Lookup | CLI/search.py:28 | `aa_key[l]`, which the source does not evaluate; it appears in the property `get_AA(aa_key[l]) == l` that `GetAAInvertsAaKey` proves. It fails (KeyError) exactly when `l` is not a key, and otherwise gives the value stored with `l` |
| AminoKey.GetAA | CLI/search.py:26-27 | `get_AA(n)` fails (ValueError from `index`) exactly when no value is `n`, and otherwise gives a key stored with value `n` |
| AminoKey.AaKeyWellFormed | CLI/search.py:28 | the table built from any letter string has distinct keys and distinct values below its length, and its keys are exactly the string's letters |
| AminoKey.GetAAInvertsAaKey | CLI/search.py:26-28 | every letter in `aa_letters` has an index in `aa_key`, and `get_AA` of that index gives the letter back |
| AminoKey.AaKeyBijection | CLI/search.py:26-28 | for distinct letters, `aa_key[letters[i]] == i` and `get_AA(i) == letters[i]` for every position `i`; `get_AA` fails on any other index |
| SequenceSearch.Eligible | CLI/search.py:41-42 | a family takes part exactly when its size is at least the query length (no contract; the skip test itself) |
| SequenceSearch.LeftGaps | CLI/search.py:58 | the left gaps are half the length difference, rounded down: `2 * left <= size - len <= 2 * left + 1` |
| SequenceSearch.RightGaps | CLI/search.py:58-59 | left gaps, query length and right gaps add up to the family size, and `left <= right <= left + 1` |
| SequenceSearch.Pad | CLI/search.py:58-61 | the padded query has the family's length, holds the query unchanged at offset `left`, and is `-` on both sides of it |
| SequenceSearch.MatchCount | CLI/search.py:78-83 | the number of agreeing positions is at most the length |
| SequenceSearch.CountMatches | CLI/search.py:78-83 | the loop counts exactly the positions where reconstruction and padded query agree |
| SequenceSearch.MatchCountBounds | CLI/search.py:78-84 | the count is at most the length, and equals it exactly when the two strings are equal |
| SequenceSearch.Accuracy | CLI/search.py:84 | accuracy lies in [0, 1] and is 1 exactly when every position matches |
| SequenceSearch.ScoreOf | CLI/search.py:38-84 | a family is skipped exactly when its size is below the query length; the score is undefined (the search fails on an empty padded query) exactly for size 0 with an empty query; otherwise it is an accuracy in [0, 1], equal to 1 exactly when the decoder reproduces the padded query |
| SequenceSearch.ScoreFamily | CLI/search.py:38-84 | the loop body (skip test, gap padding, decoding, counting, division) yields the family's score |
| SequenceSearch.LeadsAfterStep | CLI/search.py:86-89 | a skipped family or an accuracy no higher than the current one keeps the leader; only a strictly higher accuracy replaces it |
| SequenceSearch.NewSequence | CLI/search.py:30-89 | fails exactly when some eligible family scores undefined; otherwise returns the first family in file order with the highest accuracy, or `'none'` with 0 when no family scores above 0 |
| SequenceSearch.FirstBestUnique | CLI/search.py:86-89 | the description of the result admits exactly one answer |
| SequenceSearch.FirstBestIsMaximum | CLI/search.py:86-89 | the reported accuracy lies in [0, 1] and no family's accuracy exceeds it |
| SequenceSearch.NoneExactlyWhenNothingScores | CLI/search.py:30-89 | the result is `'none'` with 0 exactly when every family is skipped or scores 0 |
| SequenceSearch.ResultIgnoresSkippedFamilies | CLI/search.py:40-51 | the decoders of skipped families are never consulted: decoders that agree on the eligible families give the same result |
| Metrics.FirstMin | CLI/SearchLS.py:15-24 | for every non-empty list of distances there is an index that is the first minimum |
| Metrics.FirstMinUnique | CLI/SearchLS.py:22-24 | the first minimum is unique |
| Metrics.ScanStep | CLI/search.py:125-129 | one step of the scan with strict `<` from an infinite bound keeps the first minimum of the prefix and its distance |
| LatentScan.FamilyNameOf | CLI/search.py:130 | the displayed name is the path without its first 14 and last 4 characters, and empty when the path is shorter than 18 |
| LatentScan.FamilyNameOfLatentFile | CLI/search.py:123-130 | for `Latent_spaces/<family>.txt` the displayed name is `<family>` |
| LatentScan.NearestLatent | CLI/search.py:121-131 | fails exactly when there is no candidate file; otherwise reports the first file at the smallest two-argument distance, its cut name, the metric's name and that distance |
| SearchLatentSpace.Measure | CLI/SearchLS.py:17-20 | the metric call of `do_search`: Minkowski with `p_norm` as third argument, every other metric with the two vectors (no contract; see the next row) |
| SearchLatentSpace.PNormOnlyReachesMinkowski | CLI/SearchLS.py:17-20 | Minkowski gets `p_norm` as its third argument; every other metric gets the two vectors only, and its distance does not depend on `p_norm` |
| SearchLatentSpace.TrimExtension | CLI/SearchLS.py:25 | `name[:-4]` drops the last four characters, and is empty for shorter names |
| SearchLatentSpace.TrimExtensionOfTxt | CLI/SearchLS.py:25 | a candidate `<family>.txt` is reported as `<family>` |
| SearchLatentSpace.SearchResultIsClosest | CLI/SearchLS.py:15-25 | the search result is unique, and its distance is no greater than the distance to any candidate |
| SearchLatentSpace.SearchLS.DoSearch | CLI/SearchLS.py:14-25 | empty candidate list: fails with `closest_family` unbound; otherwise the first candidate at the smallest distance, with Minkowski given `p_norm`, named without its extension and with the metric's `__name__` |
| SearchLatentSpace.SearchLS.constructor | CLI/SearchLS.py:7-12 | stores the name, the loaded query, the metric and `p_norm`, and keeps the outcome of the one search it runs |
| Compare.CompareOutput.TextRecord | CLI/compare.py:28 | the stdout line `metric + ' distance: ' + result` (no contract) |
| Compare.CompareOutput.CsvRecord | CLI/compare.py:35 | the CSV record `a1,a2,metric,result` (no contract; its fields are recovered by `CsvFileLineFields`) |
| Compare.CompareOutput.FileLine | CLI/compare.py:32-35 | the line `to_file` writes: the text record for `"text"`, the CSV record otherwise, then a newline (no contract) |
| Compare.TextFileLineIsStdoutLine | CLI/compare.py:27-33 | the text file line is the stdout line followed by a newline |
| Compare.CsvFileLineFields | CLI/compare.py:34-35 | any format other than `"text"` writes `a1,a2,metric,result` and a newline; when no field holds a comma, splitting the line at commas gives the four fields back in order |
| Compare.Io.Print | CLI/compare.py:28 | `print` appends one line to standard output and leaves the files alone |
| Compare.ContentsAfterOpen | CLI/compare.py:31 | what a file holds after `open`: its text for `'a'` on an existing file, empty otherwise (no contract; used by `Io.Write`) |
| Compare.Io.Write | CLI/compare.py:31 | opening with `'a'` keeps the file's text (an absent file starts empty), opening with `'w'` empties it; the text written follows; nothing else changes |
| Compare.ToStdout | CLI/compare.py:27-28 | prints `metric + ' distance: ' + result` as one line and leaves the files alone |
| Compare.ToFile | CLI/compare.py:30-35 | mode `'a'` appends the record line to the file, mode `'w'` makes it the whole file; standard output and other files are unchanged |
| Compare.DecidesUnique | CLI/compare.py:73-116 | the cases of the selection cover every combination of arguments with exactly one outcome |
| Compare.SelectInputs | CLI/compare.py:47-116 | `-names` wins over everything; help exactly when both new files are absent and a family name is missing; two names give both packaged vectors in order, ignoring new files; only `-n2` takes `nl1` if given, else `nl2`, named after that file; only `-n1` with a new file fails on the undefined `n11`/`n12`; no names compares the two new files |
| Compare.Selection.Loads | CLI/compare.py:83-116 | the files a branch loads, in order: the two vectors of a pair (the packaged family first on the `-n2` path), the family and the new file on the `-n1` path, none for names or help |
| Compare.FirstFailedLoad | CLI/compare.py:83-116 | nothing is reported exactly when every file loads; otherwise the first file in load order that fails, all earlier ones having loaded |
| Compare.PairOutput | CLI/compare.py:119 | the record of a loaded pair: its two display names, the metric's name and the formatted two-argument distance (no contract) |
| Compare.CarryOut | CLI/compare.py:83-126 | per selection: listing names and help are recognised exactly; the first file in the branch's load order that fails is reported; the `-n1` path raises NameError on `n11`/`n12` only after both loads; a loaded pair is compared to `PairOutput`; the record goes to the output file when one is named and to standard output otherwise; other outcomes leave the output untouched |
| Compare.Run | CLI/compare.py:37-126 | names listed exactly with `-names`, help shown exactly when the selection is help; a decided branch fails on the first file that does not load; with its files loaded the `-n1` path fails on `n11`/`n12` and a decided pair gives the record of its two names, the metric's name and the formatted two-argument distance; the record goes to the output file when one is named and to standard output otherwise; listing names and failures leave the output untouched |
| PyText.Repeat | CLI/search.py:60 | `n * '-'` is `n` gap characters |
| PyText.Slice | CLI/search.py:130 | a Python slice never fails: it has the length between the normalised bounds, is empty when they cross, and holds the characters from the start bound on |
| PyText.Split | CLI/compare.py:35 | Python's `str.split(sep)`, which the source does not call: the reader-side inverse of the comma join at compare.py:35, used for the CSV round trip of `CsvFileLineFields`; it gives at least one piece, no piece holds `sep`, and joining the pieces with `sep` gives the string back |

## Left out

- Keras model loading, `predict`, `to_one_hot` and `K.argmax` (CLI/search.py:45-74). They are foreign machine-learning calls. The model replaces them with the abstract `Decoder`. The reshape that fixes the decoder's output length becomes the decoder's type, and a failing reshape is not modelled.
- `get_AA` inside the decoder. It is modelled on its own (AminoKey). The decoder's use of it, and the ValueError it would raise for an index with no letter, are part of the abstract decoder.
- The distance functions of the scientific library and `getDistanceFunction`. They are floating-point library code. A metric is an uninterpreted real-valued function. Its display name, `str(distance_function).split()[1]` or `__name__`, is a given string.
- IEEE floats: infinite or NaN distances, `str` formatting of floats, and the float division in `int((size - len) / 2)`. The model uses reals and integer division. Every distance is finite, so the first candidate always replaces the infinite start bound. Formatting a float is a parameter of `Compare.Run`.
- File and package I/O: `np.loadtxt`, `pd.read_csv`, `glob`, `open` for reading, `importlib.resources` and `load_files`. These are I/O. Loaded vectors, tables, candidate lists and their order are inputs. In `compare`, a failed `np.loadtxt` is the error `LoadError`. `search -nl1`, `new_sequence` and `SearchLS` take their loaded data or loaders as total inputs, so a failing read there is not modelled.
- Compare.Run: the family listing that `print_families` prints is not modelled (its module is not part of this model). The listing branch leaves the modelled output unchanged.
- The printed messages of `search` (CLI/search.py:90, 130). The model returns their contents (family, accuracy or metric name and distance) instead of the formatted line.
- The three-way dispatch of `search`'s `run` (CLI/search.py:112-136), together with its help branch. That branch calls `parser`, which is local to `main`.
- Argument parsing in both `main` functions. The parser of `compare` refuses output modes other than `'a'` and `'w'` and unknown metric names (CLI/compare.py:156, 159-160), so `Mode` has only two values. The `-m` option of `search` has no `choices`, so an unknown name reaches `getDistanceFunction`, which is not part of this model; the model takes the metric already looked up.
- SequenceSearch.ScoreFamily: on an empty padded query Python fails inside decoding (CLI/search.py:64-74), before the division of CLI/search.py:84. With the decoder abstract, the model detects the same case at the division and reports one `EmptyPaddedQuery` failure for the family.
- CLI/utils/layers.py, CLI/CompareLS.py and CLI/LSVector.py. They only build Keras layers or delegate to the distance library and file loaders.
- SearchLatentSpace.SearchLS.constructor: when the candidate list is empty, Python's constructor raises. The model builds the object and stores the failure in `result`.
