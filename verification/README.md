# NLIDataset row pipeline — a Dafny model

This project models how `NLIDataset` (KG-NLI, `core/dataset.py`) turns a
table of natural-language-inference rows (`sentence1`, `sentence2`,
`label`) into a list of labelled sentence-pair instances plus a per-label
count map (`weights`), and proves what that pipeline promises:

- the `dpsa` flag picks the label encoding: signed (entailment 1,
  contradiction -1, with neutral rows dropped before anything else) or
  three-way (entailment 0, contradiction 1, neutral 2);
- rows are optionally shuffled, cut to the first `n_samples`, and stably
  sorted by the word count of `sentence1` (`group_by_size`);
- the loop skips rows with a missing sentence or an unknown label, rejects
  over-long rows in three-way mode (taking back their count), and emits an
  instance carrying `label_factory[label]` for every other row;
- `weights` is the histogram of the emitted rows' labels, and the emitted
  rows are a subsequence of the ordered rows.

Modules, one per concern:

| file | module | models |
|---|---|---|
| `wrappers.dfy` | `Wrappers` | `Option` (a NaN cell) and `Result` (a raised error) |
| `pyslice.dfy` | `PySlice` | Python's `s[:n]` |
| `pytext.dfy` | `PyText` | Python's `str.split()` and the word count it gives |
| `stablesort.dfy` | `StableSort` | Python's stable `sorted(key=...)` |
| `seqs.dfy` | `Seqs` | order-preserving filtering and the subsequence relation |
| `rows.dfy` | `Rows` | rows, instances, the two label encodings |
| `ordering.dfy` | `Ordering` | shuffle / sample / size-sort of `get_instances` |
| `instances.dfy` | `Instances` | the per-row loop of `get_instances`, `sentence_and_cut` |
| `dataset.dfy` | `Dataset` | the constructor and `get_instances` as a whole |
| `scenarios.dfy` | `Scenarios` | worked single-row cases |

The loop is modelled twice: `Instances.Run` follows the Python statement by
statement (increment, then decrement on rejection), and `Survivors`,
`EmitAll` and `Labels` give the declarative reference (filter, map,
histogram); `RunInstances` and `RunWeights` prove the two agree.

The tokenizer (`tokenize` followed by `convert_tokens_to_ids`) is a
parameter: an arbitrary function from text to token ids. Because the id
conversion works token by token, truncating tokens before converting them
(as `sentence_and_cut` does) is the same as truncating the ids. The
`random.shuffle` outcome is a parameter too: any sequence with the same
multiset of rows.

Behaviours of the code that a reader might not expect, all modelled as
written:

- The shuffle guard `shuffle and (n_samples or (not group_by_size and not n_samples))`
  shuffles when sampling and grouping are both on, and skips the shuffle
  only when grouping is on without sampling.
- `n_samples` is read as a truth value: 0 behaves like -1 (no cut). A negative
  count other than -1 is a Python slice bound and drops that many rows from
  the end.
- The cut to `n_samples` rows happens before the loop's filtering, so fewer
  than `n_samples` instances come out when some of the first rows are
  skipped.
- With `group_by_size`, the sort key calls `split()` on every `sentence1`
  before the loop's missing-value check, so one missing `sentence1` makes
  the whole `get_instances` fail (`Ordering.OrderError`).
- Signed mode keeps a `"neutral": 0` key in `label_factory`, so `weights`
  has a neutral entry that stays 0. The neutral pre-filter lives in the
  constructor: a direct `get_instances` call on a table with neutral rows
  would emit them with code 0.
- A missing label is not equal to `"neutral"`, so the pre-filter keeps such
  a row; the loop then skips it as an unknown label.
- Because `concat_before_return` is `False`, both modes emit pair-form
  instances tokenized with truncation; three-way mode only uses the
  untruncated token count of `sentence1` for its length check.
- The constructor calls `get_instances` with neither shuffle nor grouping.

## Model

| member | source | states |
|---|---|---|
| PySlice.TakePrefix | core/dataset.py:104 | `s[:n]` is a prefix of `s`; with `n >= 0` it has at most `n` elements and is all of `s` when shorter; with `n < 0` it lacks exactly the last `min(-n, len(s))` elements |
| PyText.SplitKeepsEveryNonSpace | core/dataset.py:106 | the words of `str.split()` are non-empty, whitespace-free, and glued together give exactly the non-whitespace characters of the text |
| PyText.WordCountIsWordStarts | core/dataset.py:106 | the size key `len(s.split())` equals the number of positions where a word begins |
| StableSort.SortBy | core/dataset.py:105-107 | `sorted(rows, key=...)` is ascending by key, a permutation of its input, and stable: for every key, the elements with that key keep their input order |
| StableSort.SortByUnique | core/dataset.py:105-107 | any list that is ascending and agrees with the input key by key is the sort's result, so sortedness plus stability fully specify it |
| Rows.ModeOf | core/dataset.py:34 | three-way (`bert_mnli`) mode is chosen exactly when `dpsa` is given as false; a missing `dpsa` means signed mode |
| Rows.LabelFactoryDecodes | core/dataset.py:35-39 | both encodings have the keys entailment, contradiction, neutral with distinct codes (each code decodes back to its label); signed maps entailment to 1 and contradiction to -1, three-way maps them to 0, 1, 2 |
| Ordering.SamplingCount | core/dataset.py:32 | a sample is taken exactly when `n_samples` is neither -1 nor 0, and then with the configured count |
| Ordering.ShuffleCondition | core/dataset.py:99-102 | the rows are shuffled exactly when shuffling is requested and either a sample is taken or grouping is off |
| Ordering.Sample | core/dataset.py:99-104 | the sampled rows are a prefix of the (possibly shuffled) rows, a sub-multiset of the table, all of it without a sample, and exactly `min(n, len)` rows for a positive count |
| Ordering.Order | core/dataset.py:99-107 | ordering fails exactly when grouping meets a missing `sentence1`; otherwise it is the sample itself, or with grouping a stable ascending rearrangement of it by word count |
| Instances.SentenceAndCut | core/dataset.py:49-55 | the truncated ids are a prefix of the full tokenization, at most `max_length` long, and the whole tokenization when shorter than `max_length` |
| Instances.InitialWeights | core/dataset.py:109 | the counts start at 0 for exactly the keys of `label_factory` |
| Instances.Step | core/dataset.py:111-146 | a row with a missing sentence, an unknown or missing label, or (three-way) a too-long `sentence1` changes neither instances nor counts; any other row appends its instance and adds one to its label's count |
| Instances.RunInstances | core/dataset.py:111-146 | the loop appends exactly one instance per surviving row, in order |
| Instances.RunWeights | core/dataset.py:120-138 | the loop raises each count by the number of surviving rows with that label, the decrement for rejected rows included |
| Instances.Process | core/dataset.py:109-146 | the instances are those of the surviving rows, each coded `label_factory[label]`; `weights` has the keys of `label_factory` and counts, for each, the surviving rows with that label |
| Instances.SurvivorsKeepOrder | core/dataset.py:111-138 | the rows that yield instances are a subsequence of the ordered rows, taken at exactly the positions where the row is kept |
| Instances.ThreeWayLengthRejection | core/dataset.py:132-138 | in three-way mode a row with both sentences and a known label is dropped exactly when its `sentence1` token count plus 2 reaches `max_length`; `sentence2` plays no part |
| Instances.InstanceTokens | core/dataset.py:127-146 | every instance's token sequences are prefixes of the full tokenizations, bounded by a non-negative `max_length`; three-way instances carry `sentence1` untruncated |
| Instances.WeightsCountEmittedCodes | core/dataset.py:120-146 | each `weights[l]` equals the number of emitted instances coded `label_factory[l]` |
| Dataset.PreFilter | core/dataset.py:35-36 | three-way mode keeps the table as is; in signed mode every remaining row comes from the table and is not labelled neutral |
| Dataset.PreFilterKeepsOtherRows | core/dataset.py:35-36 | the signed-mode pre-filter keeps, in order, exactly the rows not labelled neutral |
| Dataset.GetInstances | core/dataset.py:94-146 | `get_instances` fails exactly when the size sort meets a missing `sentence1`; otherwise its instances and counts are those of the surviving ordered rows |
| Dataset.Build | core/dataset.py:18-47 | the constructor's mode follows `dpsa`; its sample count is the configured one for the chosen split, with -1 read as none; `max_length` defaults to 512; it materialises unless `in_memory` is false; an eager dataset holds exactly the `get_instances` result (no shuffle, no grouping) over the pre-filtered table, with the three label keys; a lazy one holds the pre-filtered table |
| Dataset.ConstructorWeightsCountInstances | core/dataset.py:35-46 | for every sample count, each count of an eagerly built dataset equals the number of its instances coded with that label's code |
| Dataset.SignedModeDropsNeutral | core/dataset.py:34-37 | in signed mode the neutral count stays 0, every instance is coded 1 or -1, and a lazily kept table holds no neutral row |
| Dataset.ThreeWayCodes | core/dataset.py:38-39 | in three-way mode every instance is coded 0, 1 or 2 |
| Dataset.ConstructorSamplesFirstRows | core/dataset.py:103-104 | with a positive `n_samples` the constructor's instances are those of the first `n_samples` rows of the pre-filtered table, in order |
| Scenarios.EntailmentPair | core/dataset.py:120-146 | an entailment pair yields one instance coded 0 (three-way) or 1 (signed), counted once |
| Scenarios.MissingHypothesis | core/dataset.py:114-118 | a row with a missing `sentence2` yields nothing and leaves every count at 0 |
| Scenarios.OverLongPremise | core/dataset.py:132-138 | with `max_length` 10 a 9-token `sentence1` is rejected in three-way mode and its count taken back |

## Left out

- Reading the CSV (`pd.read_csv`), pandas row iteration and the choice of data path: the rows of the chosen file are an input, and a missing cell is `None`.
- The tokenizer's internals (`tokenize`, `convert_tokens_to_ids`): an arbitrary function from text to token ids.
- `to_tensor` and `concat_batches` from `core/utils`, which is not part of this model: an instance holds the id sequences that would be padded, and the length `to_tensor` reports for one sentence is its token count.
- The `concat_before_return` branch (lines 140-142): the flag is the constant `False`, so the branch never runs.
- The `try`/`except` around tokenization in `sentence_and_cut` and `sentence_dont_cut`: a raising tokenizer leaves `tokens` unbound; the tokenizer here never raises.
- `__getitem__`, `__len__` and the lazy (`in_memory` false) access path: the model stops at the constructor's contents.
- `random.shuffle` as an algorithm: only its outcome, a permutation, is modelled.
- `NLIDataModule` and the `DataLoader` wiring (lines 148-204): configuration glue and multi-worker loading.
- Logging and the `print` of a failing sentence.
- Instance labels are Python floats; they hold the small integers of `label_factory`, modelled as `int`.
- The `dpsa` and `in_memory` values are booleans here; other truthy or falsy Python values are not modelled.
