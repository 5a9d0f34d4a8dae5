# MiNLP tokenizer: a verified model of the text pipeline

MiNLP's tokenizer (`minlptokenizer/tokenizer.py`) splits Chinese text into
words with a neural sequence tagger. Around the tagger sits deterministic
text handling, and this project models and proves that part:

- `format_string` checks and normalises a raw text. It raises ZeroLength for a
  blank text and MaxLength (carrying the length) for an over-long one. It
  converts full-width characters to half-width code point by code point,
  strips the ends and collapses each whitespace run into one ASCII space.
  The conversion follows the code, not the comment beside it
  (minlp-tokenizer/minlptokenizer/tokenizer.py:58). The comment says every
  full-width character except the space and English punctuation is
  converted. The code converts only the full-width digits 65296–65305 and
  the range 65313–65339, which holds the capitals and '［'. Full-width
  lower-case letters 65345–65370 are left as they are.
- `tag2words` rebuilds words from one B/M/E/S/X tag per character. S, E and X
  close the current word. It then re-joins the words with spaces and re-splits
  on whitespace.
- `batch_generator` cuts a list or tuple into contiguous slices of at most
  `size` texts.
- `MiNLPTokenizer._cut` runs one batch. It fetches or lazily creates the
  granularity's inference session in the class-level cache `sess_dict`,
  normalises every text, tags the batch and decodes each text against its own
  tag row.
- `MiNLPTokenizer.cut` rejects a worker count of zero or less. It cuts a
  string as a one-text batch and a list batch by batch, in order, either in
  this process or through a pool of workers. Anything else is rejected.

The model is organised as follows:

- A Python `str` is a `seq` of code points (`Base.Text`).
- The Unicode whitespace class is a parameter `ws`, with the properties the
  conversion relies on (`Base.ValidSpace`).
- The lexicon, the vocabulary and the inference session together are one
  opaque function `Segmenter.Tagger`, from a batch of normalised texts to one
  tag row per text.
- The configured `max_string_length` and `max_batch_size` are parameters
  (`Segmenter.Settings`).
- Exceptions are the `Err` case of `Base.Result`.
- `Segmenter.Zip` (the two-list `map` of `_cut`) and `Sequencing.MapBatches`
  (the pool's order-preserving map) are plain definitions of library
  behaviour. Their laws are stated where they are used: the zip's truncation
  and pairing in `Segmenter.DecodeAllEach` and `Segmenter.BatchOutput`, the
  pool in `Sequencing.PoolMatchesChain` and `Segmenter.CutJobsIrrelevant`.
- The loops of the source (the conversion loop, the decoding loop, the index
  loop of the generator, the batch loops of `_cut` and `cut`) are methods.
  Each is proved equal to a specification function, and the properties are
  lemmas about those functions.
- `sess_dict` is a `SessionCache` object shared by all tokenizers. The methods
  of `_cut` and `cut` state exactly how they change it.

Modules:

- `Base`: code points, whitespace, errors, `strip`.
- `Normalizer`: `format_string`.
- `Batching`: `batch_generator`.
- `TagDecoder`: `tag2words`.
- `Sequencing`: `map`, `itertools.chain` and the pool's map with raising
  steps.
- `Segmenter`: `_cut`, `cut` and the cache.

Where the pipeline's properties depend on the tagger, they are stated under
one of two assumptions. `Aligned` means the tagger returns one row per text,
at least as long as the text. `Pointwise` means it tags each text on its own.

## Model

| member | source | states |
|---|---|---|
| Base.Strip | minlp-tokenizer/minlptokenizer/tokenizer.py:47 | `strip()` is empty exactly when every character is whitespace; otherwise its first and last characters are visible; it is never longer than its input |
| Base.TrimLeft | minlp-tokenizer/minlptokenizer/tokenizer.py:62 | the left half of `strip()` leaves no leading whitespace and never lengthens the text |
| Base.TrimRight | minlp-tokenizer/minlptokenizer/tokenizer.py:62 | the right half of `strip()` leaves no trailing whitespace and never lengthens the text |
| Base.TrimLeftSuffix | minlp-tokenizer/minlptokenizer/tokenizer.py:62 | the left trim keeps a suffix of its input |
| Base.TrimRightPrefix | minlp-tokenizer/minlptokenizer/tokenizer.py:62 | the right trim keeps a prefix of its input |
| Base.TrimLeftDrops | minlp-tokenizer/minlptokenizer/tokenizer.py:62 | every character the left trim drops is whitespace |
| Base.TrimRightDrops | minlp-tokenizer/minlptokenizer/tokenizer.py:62 | every character the right trim drops is whitespace |
| Base.StripVisible | minlp-tokenizer/minlptokenizer/tokenizer.py:47 | a text that is not blank strips to a non-empty text with visible ends |
| Base.StripChars | minlp-tokenizer/minlptokenizer/tokenizer.py:62 | stripping introduces no character and leaves a text with visible ends unchanged |
| Base.StripKeepsText | minlp-tokenizer/minlptokenizer/tokenizer.py:62 | stripping removes whitespace only: the visible characters are kept, in order |
| Normalizer.HalfWidthChanges | minlp-tokenizer/minlptokenizer/tokenizer.py:55-59 | the conversion changes exactly 12288 and the code points 65296–65305 and 65313–65339; converting twice is converting once; full-width lower-case letters 65345–65370 stay as they are |
| Normalizer.HalfWidthKeepsVisible | minlp-tokenizer/minlptokenizer/tokenizer.py:56-59 | the conversion never turns a visible character into whitespace |
| Normalizer.MapWidth | minlp-tokenizer/minlptokenizer/tokenizer.py:53-60 | the converted string has the input's length, and each code point is the conversion of the input's code point at that position |
| Normalizer.MapWidthUnique | minlp-tokenizer/minlptokenizer/tokenizer.py:53-60 | any string built by converting each code point in place is `MapWidth` of the input |
| Normalizer.MapWidthFixed | minlp-tokenizer/minlptokenizer/tokenizer.py:53-60 | every character of a converted string is a fixed point of the conversion |
| Normalizer.MapWidthNotBlank | minlp-tokenizer/minlptokenizer/tokenizer.py:47-60 | a text that is not blank is still not blank after the conversion |
| Normalizer.Collapse | minlp-tokenizer/minlptokenizer/tokenizer.py:62 | collapsing never lengthens a text, is empty only on the empty text, and keeps a visible first character |
| Normalizer.CollapseChars | minlp-tokenizer/minlptokenizer/tokenizer.py:62 | collapsing introduces no character other than the ASCII space |
| Normalizer.CollapseSpaces | minlp-tokenizer/minlptokenizer/tokenizer.py:62 | after collapsing, every whitespace character is an ASCII space and no two are adjacent |
| Normalizer.CollapseLast | minlp-tokenizer/minlptokenizer/tokenizer.py:62 | collapsing keeps a visible last character |
| Normalizer.CollapseKeepsText | minlp-tokenizer/minlptokenizer/tokenizer.py:62 | collapsing keeps every visible character, in order |
| Normalizer.CollapseFixed | minlp-tokenizer/minlptokenizer/tokenizer.py:62 | collapsing a single-spaced text changes nothing |
| Normalizer.CollapseCanonical | minlp-tokenizer/minlptokenizer/tokenizer.py:62 | collapsing a text with visible ends gives a non-empty, single-spaced text with visible ends |
| Normalizer.CollapseStripFixed | minlp-tokenizer/minlptokenizer/tokenizer.py:62 | strip and collapse keep a converted text a fixed point of the conversion |
| Normalizer.StripCollapseCanonical | minlp-tokenizer/minlptokenizer/tokenizer.py:62 | strip then collapse of a non-blank text gives the canonical shape |
| Normalizer.NormalizedErrors | minlp-tokenizer/minlptokenizer/tokenizer.py:47-51 | a blank text fails with ZeroLength whatever its length; a non-blank text longer than the maximum fails with MaxLength carrying its length; every other text, the maximum length itself included, succeeds |
| Normalizer.NormalizedShape | minlp-tokenizer/minlptokenizer/tokenizer.py:43-62 | a normalised text is non-empty, has no whitespace at either end, has only single ASCII spaces as separators, is no longer than the input and is a fixed point of the conversion |
| Normalizer.NormalizedIdempotent | minlp-tokenizer/minlptokenizer/tokenizer.py:43-62 | normalising a normalised text gives it back |
| Normalizer.NormalizedKeepsText | minlp-tokenizer/minlptokenizer/tokenizer.py:53-62 | normalising keeps every visible character of the converted text, in order |
| Normalizer.FormatString | minlp-tokenizer/minlptokenizer/tokenizer.py:43-62 | the checks followed by the character-by-character conversion loop, then strip and collapse, compute `Normalized` |
| Batching.BatchCountIsCeiling | minlp-tokenizer/minlptokenizer/tokenizer.py:38 | the batch count is the ceiling of n / size: the fewest slices of `size` that cover n, and 0 for no texts |
| Batching.ChunksCount | minlp-tokenizer/minlptokenizer/tokenizer.py:37-40 | the partition has ceil(n / size) slices |
| Batching.ChunksSizes | minlp-tokenizer/minlptokenizer/tokenizer.py:39-40 | every slice holds between 1 and `size` texts, and every slice but the last holds exactly `size` |
| Batching.ChunksConcat | minlp-tokenizer/minlptokenizer/tokenizer.py:39-40 | the slices concatenate back to the input |
| Batching.ChunksAt | minlp-tokenizer/minlptokenizer/tokenizer.py:39-40 | slice k starts inside the input at the k-th offset and holds the next `size` texts or what is left |
| Batching.ChunksSlice | minlp-tokenizer/minlptokenizer/tokenizer.py:40 | slice k of the partition is `xs[k*size:(k+1)*size]` with the end clamped to the length |
| Batching.SliceStartInRange | minlp-tokenizer/minlptokenizer/tokenizer.py:38-40 | every step of the index loop starts inside the input |
| Batching.BatchGenerator | minlp-tokenizer/minlptokenizer/tokenizer.py:30-40 | the index loop yields the partition for a list or a tuple and nothing for any other value |
| TagDecoder.GroupWords | minlp-tokenizer/minlptokenizer/tokenizer.py:68-75 | the words the loop emits are non-empty and concatenate to the partial word followed by the text |
| TagDecoder.GroupEnds | minlp-tokenizer/minlptokenizer/tokenizer.py:68-75 | a word ends after character i exactly when tag i is S, E or X, or i is the last character |
| TagDecoder.GroupIgnoresExtraTags | minlp-tokenizer/minlptokenizer/tokenizer.py:68-75 | the loop reads only the first len(text) tags |
| TagDecoder.JoinKeepsText | minlp-tokenizer/minlptokenizer/tokenizer.py:76 | joining with spaces adds only whitespace |
| TagDecoder.JoinEnds | minlp-tokenizer/minlptokenizer/tokenizer.py:76 | the joined text starts and ends with the characters that start and end the words |
| TagDecoder.SplitPieces | minlp-tokenizer/minlptokenizer/tokenizer.py:76 | splitting a text that ends visibly gives non-empty, whitespace-free pieces that are its visible characters, in order |
| TagDecoder.SplitJoin | minlp-tokenizer/minlptokenizer/tokenizer.py:76 | splitting the space-joined whitespace-free words gives the words back |
| TagDecoder.SplitJoinKeepsText | minlp-tokenizer/minlptokenizer/tokenizer.py:76 | re-joining and re-splitting words whose concatenation has visible ends gives whitespace-free words holding the visible characters, in order |
| TagDecoder.DecodeKeepsText | minlp-tokenizer/minlptokenizer/tokenizer.py:65-76 | for a text with visible ends and enough tags, every word is non-empty and whitespace-free, and the words concatenate to the text without its whitespace |
| TagDecoder.DecodeBoundaries | minlp-tokenizer/minlptokenizer/tokenizer.py:65-76 | for a whitespace-free text, the words are the grouped words: they concatenate to the text, and a word ends after character i exactly when tag i closes or i is last |
| TagDecoder.JoinGroupAppend | minlp-tokenizer/minlptokenizer/tokenizer.py:68-76 | grouping and joining a text in two parts gives the joined words of the first part, one space exactly when the first part's last tag closes a word, then the joined words of the second part read with its own tags |
| TagDecoder.SplitNoSpace | minlp-tokenizer/minlptokenizer/tokenizer.py:76 | a whitespace-free text splits into itself alone |
| TagDecoder.SplitAcross | minlp-tokenizer/minlptokenizer/tokenizer.py:76 | a whitespace run between two visible characters is a piece boundary: the split of the whole is the split before the run followed by the split after it, so the pieces of a text with visible ends are exactly its maximal whitespace-free runs |
| TagDecoder.DecodeAcross | minlp-tokenizer/minlptokenizer/tokenizer.py:65-76 | whitespace between two visible characters always ends a word, whatever the tags: the text decodes to the words of the part before the run followed by the words of the part after it, each decoded with its own tags |
| TagDecoder.DecodeRefinesRuns | minlp-tokenizer/minlptokenizer/tokenizer.py:65-76 | for a text with visible ends and enough tags, no word crosses whitespace: the words fall into consecutive groups that spell exactly the text's whitespace-separated runs, in order |
| TagDecoder.DecodeIgnoresExtraTags | minlp-tokenizer/minlptokenizer/tokenizer.py:65-76 | tags beyond the text's length do not change the result |
| TagDecoder.DecodeSingle | minlp-tokenizer/minlptokenizer/tokenizer.py:65-76 | a one-character visible text gives exactly one word |
| TagDecoder.Tag2Words | minlp-tokenizer/minlptokenizer/tokenizer.py:65-76 | the decoding loop with its running word buffer, then join and split, computes `Decode`, raising IndexError for a short tag row |
| Sequencing.FirstErrorNone | minlp-tokenizer/minlptokenizer/tokenizer.py:106 | there is no first error exactly when every step succeeds |
| Sequencing.FirstErrorAt | minlp-tokenizer/minlptokenizer/tokenizer.py:106 | the first error is that of the earliest failing element |
| Sequencing.FirstErrorAppend | minlp-tokenizer/minlptokenizer/tokenizer.py:106 | the first error of a concatenation is the first part's, if it has one, otherwise the second's |
| Sequencing.FirstErrorSame | minlp-tokenizer/minlptokenizer/tokenizer.py:106 | steps failing on the same inputs with the same errors have the same first error |
| Sequencing.MapAllEach | minlp-tokenizer/minlptokenizer/tokenizer.py:106 | `list(map(f, xs))` raises the first error in order, and otherwise holds every step's output at its input's position |
| Sequencing.MapAllPrefixError | minlp-tokenizer/minlptokenizer/tokenizer.py:106 | once a prefix fails, the whole map fails the same way |
| Sequencing.JoinAssociative | minlp-tokenizer/minlptokenizer/tokenizer.py:131 | chaining results is associative, errors included |
| Sequencing.CollectSnoc | minlp-tokenizer/minlptokenizer/tokenizer.py:136 | collecting one more result chains it at the end |
| Sequencing.PoolMatchesChain | minlp-tokenizer/minlptokenizer/tokenizer.py:131-136 | collecting the pool's order-preserving map gives the sequential chain over the batches |
| Sequencing.ChainAllPrefixError | minlp-tokenizer/minlptokenizer/tokenizer.py:131 | once a prefix of the batches fails, the whole chain fails the same way |
| Sequencing.JoinEach | minlp-tokenizer/minlptokenizer/tokenizer.py:131 | chaining two runs keeps the first-error and per-input promises for the joined inputs |
| Sequencing.ChainAllEach | minlp-tokenizer/minlptokenizer/tokenizer.py:131 | if each batch keeps the promise for its texts, the chain keeps it for all texts in input order |
| Segmenter.NormalizeAllEach | minlp-tokenizer/minlptokenizer/tokenizer.py:106 | normalising a batch raises the error of its first bad text, and otherwise gives each text's normal form, in order |
| Segmenter.DecodeAllEach | minlp-tokenizer/minlptokenizer/tokenizer.py:115 | decoding succeeds exactly when every row is at least as long as its text, and then gives one decode per pair; otherwise it raises IndexError |
| Segmenter.FirstErrorDecode | minlp-tokenizer/minlptokenizer/tokenizer.py:115 | decoding fails with IndexError only |
| Segmenter.BatchAbortsBeforeTagging | minlp-tokenizer/minlptokenizer/tokenizer.py:106-114 | a batch with a bad text fails with the first bad text's error before the tagger is consulted: any tagger gives the same result |
| Segmenter.BatchOutput | minlp-tokenizer/minlptokenizer/tokenizer.py:106-115 | for a batch that normalises, entry i is `tag2words(format_string(batch[i]), tags[i])`, with one entry per row-paired text; the batch raises IndexError exactly when a row is shorter than its text |
| Segmenter.TextSegments | minlp-tokenizer/minlptokenizer/tokenizer.py:106-115 | a normalised text decoded against a long enough row gives non-empty, whitespace-free words that are the visible characters of the converted raw text, in order |
| Segmenter.CollapseSplitFrom | minlp-tokenizer/minlptokenizer/tokenizer.py:62 | collapsing each whitespace run to one space, in place, moves no piece boundary: splitting from any partial piece gives the same pieces before and after |
| Segmenter.CollapseSplit | minlp-tokenizer/minlptokenizer/tokenizer.py:62 | the collapsed text splits on whitespace into exactly the pieces of the uncollapsed text |
| Segmenter.TextRuns | minlp-tokenizer/minlptokenizer/tokenizer.py:62-76 | whitespace in the raw text always separates words: the words of a normalised text fall into consecutive groups that spell the whitespace-separated runs of the stripped, half-width raw text |
| Segmenter.BatchSegments | minlp-tokenizer/minlptokenizer/tokenizer.py:106-115 | with an aligned tagger a batch raises the error of its first bad text, and otherwise has the batch's length with the segmentation of each text at its position |
| Segmenter.BatchByText | minlp-tokenizer/minlptokenizer/tokenizer.py:106-115 | with a per-text tagger, entry i of a batch's result is the pipeline's result for text i alone |
| Segmenter.TextByRow | minlp-tokenizer/minlptokenizer/tokenizer.py:106-115 | a text normalised and decoded against its own row gives the per-text pipeline's result |
| Segmenter.CutBatchesSegments | minlp-tokenizer/minlptokenizer/tokenizer.py:131 | with an aligned tagger, running the batches in order raises the error of the first bad text, and otherwise gives every text's segmentation in input order |
| Segmenter.CutRejects | minlp-tokenizer/minlptokenizer/tokenizer.py:124-138 | `n_jobs <= 0` raises ThreadNumber whatever the argument; a tuple or any other value raises UnSupported; an empty list gives an empty list |
| Segmenter.CutJobsIrrelevant | minlp-tokenizer/minlptokenizer/tokenizer.py:130-136 | every positive worker count gives the result of `n_jobs == 1` |
| Segmenter.CutString | minlp-tokenizer/minlptokenizer/tokenizer.py:126-127 | with an aligned tagger, a string fails exactly with its own normalisation error and otherwise gives its segmentation |
| Segmenter.CutList | minlp-tokenizer/minlptokenizer/tokenizer.py:128-136 | with an aligned tagger and any worker count, a list raises the error of its first bad text, and otherwise gives one segmentation per text, in input order |
| Segmenter.CutByText | minlp-tokenizer/minlptokenizer/tokenizer.py:128-136 | with a per-text tagger, `cut` on a list equals the per-text pipeline mapped over the texts, errors included: batching is invisible |
| Segmenter.NormalizeBatch | minlp-tokenizer/minlptokenizer/tokenizer.py:106 | the loop calling `format_string` on each text computes the batch's normalisation |
| Segmenter.DecodeBatch | minlp-tokenizer/minlptokenizer/tokenizer.py:115 | the loop calling `tag2words` on each text and row computes the zipped decode |
| Segmenter.SessionCache.constructor | minlp-tokenizer/minlptokenizer/tokenizer.py:80 | the cache starts with both granularities empty |
| Segmenter.SessionCache.Load | minlp-tokenizer/minlptokenizer/tokenizer.py:103-105 | an empty entry gets a fresh session of that granularity and nothing else changes; a filled entry is returned and the cache is unchanged |
| Segmenter.Tokenizer.constructor | minlp-tokenizer/minlptokenizer/tokenizer.py:82-92 | a tokenizer keeps its granularity, the shared cache and its settings |
| Segmenter.Tokenizer.CutBatch | minlp-tokenizer/minlptokenizer/tokenizer.py:96-115 | `_cut` computes `BatchResult`. Its granularity's cache entry is filled afterwards, even when a text fails; an entry it fills holds a freshly created session, and a filled entry is never replaced; the other entry is untouched |
| Segmenter.Tokenizer.CutInOrder | minlp-tokenizer/minlptokenizer/tokenizer.py:130-131 | `_cut` on each batch in turn computes the chain over the batches, with the same cache effect as soon as one batch runs |
| Segmenter.Tokenizer.Cut | minlp-tokenizer/minlptokenizer/tokenizer.py:117-138 | `cut` computes `CutResult`. Only the string path and the one-worker path over a non-empty list fill the cache, with a freshly created session, and a filled entry is never replaced |

## Left out

- The inference session is not modelled: `onnxruntime.InferenceSession`, its providers, `get_inputs`, `sess.run` and the `float32` cast are foreign numeric code. Together with the lexicon factors and the character ids they are the opaque `Tagger`, and a `Session` object carries only its granularity.
- A model file that fails to load is not modelled.
- The lexicon and vocabulary internals (`get_factor`, `get_char_ids`, `add_words`) are not shown, and neither are `set_interfere_factor` and `reset_interfere_factor`. None of them is modelled.
- Tokenizer.constructor: it does not read the vocabulary, the model path or the lexicon files (file I/O). It also does not model a granularity other than `fine` or `coarse`, which fails the configuration lookup in the source: granularity is a two-valued datatype.
- Loading `configs`, setting `os.environ` and the package path are configuration and I/O. The two limits are the `Settings` parameters.
- The pool itself is not modelled: the worker processes, their start-up and `close` are concurrency. Its map is order-preserving. When several batches fail, the model raises the first failing batch's error; a real pool may report another failing batch's error. Workers run on their own copies of the cache, so the parent's cache is left as it was.
- The exact Unicode whitespace tables are not modelled. `str.strip`, `[\p{Z}\s]` and `\s` are all the one predicate `ws`, of which only `ValidSpace` is assumed. In Python the three classes differ on a few code points.
- `cut` on a list that holds something other than strings is not modelled. List items are `Text`, so a non-`str` item, which fails inside `format_string` (minlp-tokenizer/minlptokenizer/tokenizer.py:47), does not occur.
- The `Tagger` is a total function: an exception raised by the lexicon, the vocabulary or the session while tagging a batch is not modelled.
- Tag values other than the five tags are not modelled. The session's integer outputs are the datatype `Tag`, so an unknown value (which the source treats as "not closing") does not occur.
- BatchGenerator: it requires `size > 0`. In the source, a size of zero raises ZeroDivisionError and a negative size yields no slices; neither case occurs because the configured size is positive.
- BatchGenerator: the generator's laziness is not modelled; it returns all slices at once.
- BatchCountIsCeiling: `math.ceil(len / size)` is computed in floating point in the source and modelled as exact integer ceiling division. The two differ only for lengths beyond 2^53.
- FormatString: the blank check `not ustring.strip()` is written as "every character is whitespace". This is exactly when `Strip` gives the empty text (the contract of `Base.Strip`), so the check is not weakened.
