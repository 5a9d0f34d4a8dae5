/** `MiNLPTokenizer`: the per-batch pipeline `_cut`, the dispatch `cut` and
    the class-level session cache `sess_dict`. The lexicon, the vocabulary
    and the inference session together are one opaque tagger from a batch of
    normalised texts to one tag row per text. */
module Segmenter {
  import opened Base
  import opened Normalizer
  import opened Batching
  import opened TagDecoder
  import opened Sequencing

  /** The two model granularities, the keys of the session cache. */
  datatype Granularity = Fine | Coarse

  function OtherGranularity(g: Granularity): Granularity {
    if g == Fine then Coarse else Fine
  }

  /** Lexicon factors, character ids and `sess.run`: the tag rows for a batch. */
  type Tagger = seq<Text> -> seq<seq<Tag>>

  /** What a tokenizer instance works with: the whitespace class, the two
      configured limits and the tagger of its model and lexicon. */
  datatype Settings = Settings(ws: SpaceClass, maxStringLength: nat, maxBatchSize: nat, tagger: Tagger)

  /** The value `cut` returns: one word list for a string, one word list per
      text for a list. */
  datatype Segmented = Words(words: seq<Text>) | WordLists(lists: seq<seq<Text>>)

  /** `format_string` as a step that may raise. */
  function NormalizeStep(ws: SpaceClass, maxLength: nat): Text -> Result<Text> {
    s => Normalized(ws, maxLength, s)
  }

  /** `list(map(format_string, text_batch))`. */
  function NormalizeAll(ws: SpaceClass, maxLength: nat, batch: seq<Text>): Result<seq<Text>> {
    MapAll(NormalizeStep(ws, maxLength), batch)
  }

  /** The pairs `map` draws from two lists: it stops at the shorter one. */
  function Zip(texts: seq<Text>, rows: seq<seq<Tag>>): (pairs: seq<(Text, seq<Tag>)>)
    ensures |pairs| == Min(|texts|, |rows|)
    ensures forall i :: 0 <= i < |pairs| ==> pairs[i] == (texts[i], rows[i])
  {
    seq(Min(|texts|, |rows|), i requires 0 <= i < Min(|texts|, |rows|) => (texts[i], rows[i]))
  }

  /** `lambda x, y: tag2words(x, y)` on one pair. */
  function DecodeStep(ws: SpaceClass): ((Text, seq<Tag>)) -> Result<seq<Text>> {
    (p: (Text, seq<Tag>)) => Decode(ws, p.0, p.1)
  }

  /** The value of `_cut` on one batch: normalise all texts, then tag the
      normalised batch and decode every text against its own row. */
  function BatchResult(st: Settings, batch: seq<Text>): Result<seq<seq<Text>>> {
    match NormalizeAll(st.ws, st.maxStringLength, batch)
    case Err(e) => Err(e)
    case Ok(texts) => MapAll(DecodeStep(st.ws), Zip(texts, st.tagger(texts)))
  }

  /** `self._cut` as a step on a batch. */
  function BatchStep(st: Settings): seq<Text> -> Result<seq<seq<Text>>> {
    b => BatchResult(st, b)
  }

  /** `list(chain.from_iterable([self._cut(batch) for batch in generator]))`. */
  function CutBatches(st: Settings, batches: seq<seq<Text>>): Result<seq<seq<Text>>> {
    ChainAll(BatchStep(st), batches)
  }

  /** The value of `cut(text_or_list, n_jobs)`. */
  function CutResult(st: Settings, v: Value, nJobs: int): Result<Segmented>
    requires st.maxBatchSize > 0
  {
    if nJobs <= 0 then Err(ThreadNumber)
    else
      match v
      case Str(s) =>
        (match BatchResult(st, [s])
         case Err(e) => Err(e)
         case Ok(out) => if out == [] then Err(IndexError) else Ok(Words(out[0])))
      case List(items) =>
        var batches := Chunks(items, st.maxBatchSize);
        var r := if nJobs == 1 then CutBatches(st, batches) else Collect(MapBatches(BatchStep(st), batches));
        (match r
         case Err(e) => Err(e)
         case Ok(out) => Ok(WordLists(out)))
      case _ => Err(UnSupported)
  }

  /** Whether `cut` runs `_cut` in this process, and so fills the cache. */
  predicate LoadsSession(v: Value, nJobs: int) {
    nJobs > 0 && (v.Str? || (v.List? && nJobs == 1 && v.items != []))
  }

  /* ---------------- the tagger's shape ---------------- */

  /** One row per text, each at least as long as its text (the session
      returns a padded matrix). */
  predicate Fits(texts: seq<Text>, rows: seq<seq<Tag>>) {
    |rows| == |texts| && forall i :: 0 <= i < |texts| ==> |rows[i]| >= |texts[i]|
  }

  ghost predicate Aligned(tagger: Tagger) {
    forall texts :: Fits(texts, tagger(texts))
  }

  /** A tagger that tags every text on its own, whatever else is in the batch. */
  ghost predicate Pointwise(tagger: Tagger, f: Text -> seq<Tag>) {
    forall texts :: |tagger(texts)| == |texts| && forall i :: 0 <= i < |texts| ==> tagger(texts)[i] == f(texts[i])
  }

  /** The words of one raw text: non-empty, whitespace-free, and together
      the visible characters of the text after the width conversion, in order. */
  predicate Segmentation(ws: SpaceClass, raw: Text, words: seq<Text>) {
    AllNoSpace(ws, words) && Concat(words) == RemoveSpace(ws, MapWidth(raw))
  }

  function Segments(ws: SpaceClass): (Text, seq<Text>) -> bool {
    (raw, words) => Segmentation(ws, raw, words)
  }

  /** The whole pipeline for one text on its own, with a per-text tagger. */
  function TextResult(st: Settings, f: Text -> seq<Tag>, s: Text): Result<seq<Text>> {
    match Normalized(st.ws, st.maxStringLength, s)
    case Err(e) => Err(e)
    case Ok(t) => Decode(st.ws, t, f(t))
  }

  function TextStep(st: Settings, f: Text -> seq<Tag>): Text -> Result<seq<Text>> {
    s => TextResult(st, f, s)
  }

  function ByText(st: Settings, f: Text -> seq<Tag>): (Text, seq<Text>) -> bool {
    (raw, words) => TextStep(st, f)(raw) == Ok(words)
  }

  /* ---------------- one batch ---------------- */

  /** All texts are normalised before the tagger is consulted: a batch with a
      bad text fails with the first bad text's error, whatever the tagger. */
  lemma BatchAbortsBeforeTagging(st: Settings, batch: seq<Text>, other: Tagger)
    requires FirstError(NormalizeStep(st.ws, st.maxStringLength), batch).Some?
    ensures BatchResult(st, batch) == Err(FirstError(NormalizeStep(st.ws, st.maxStringLength), batch).value)
    ensures BatchResult(st, batch) == BatchResult(st.(tagger := other), batch)
  {
    MapAllEach(NormalizeStep(st.ws, st.maxStringLength), batch);
  }

  /** `map(format_string, ...)` fails with the error of the first text that
      does not normalise, and otherwise holds each text's normal form, in order. */
  lemma NormalizeAllEach(ws: SpaceClass, maxLength: nat, batch: seq<Text>)
    ensures var fe := FirstError(NormalizeStep(ws, maxLength), batch);
      fe.Some? ==> NormalizeAll(ws, maxLength, batch) == Err(fe.value)
    ensures var fe := FirstError(NormalizeStep(ws, maxLength), batch);
      fe.None? ==>
        var r := NormalizeAll(ws, maxLength, batch);
        r.Ok? && |r.value| == |batch| && forall i :: 0 <= i < |batch| ==> Normalized(ws, maxLength, batch[i]) == Ok(r.value[i])
  {
    var f := NormalizeStep(ws, maxLength);
    MapAllEach(f, batch);
    if FirstError(f, batch).None? {
      var r := MapAll(f, batch).value;
      forall i | 0 <= i < |batch|
        ensures Normalized(ws, maxLength, batch[i]) == Ok(r[i])
      {
        assert f(batch[i]) == Ok(r[i]);
      }
    }
  }

  /** Decoding the zipped texts and rows succeeds exactly when every row is
      at least as long as its text, then holds one decode per pair, in order;
      otherwise it fails with IndexError. */
  lemma DecodeAllEach(ws: SpaceClass, texts: seq<Text>, rows: seq<seq<Tag>>)
    ensures var r := MapAll(DecodeStep(ws), Zip(texts, rows));
      r.Ok? <==> forall i :: 0 <= i < Min(|texts|, |rows|) ==> |rows[i]| >= |texts[i]|
    ensures var r := MapAll(DecodeStep(ws), Zip(texts, rows));
      r.Err? ==> r == Err(IndexError)
    ensures var r := MapAll(DecodeStep(ws), Zip(texts, rows));
      r.Ok? ==>
        && |r.value| == Min(|texts|, |rows|)
        && forall i :: 0 <= i < Min(|texts|, |rows|) ==> Decode(ws, texts[i], rows[i]) == Ok(r.value[i])
  {
    var f, pairs := DecodeStep(ws), Zip(texts, rows);
    MapAllEach(f, pairs);
    FirstErrorNone(f, pairs);
    FirstErrorDecode(ws, pairs);
    assert forall i :: 0 <= i < |pairs| ==> f(pairs[i]) == Decode(ws, texts[i], rows[i]);
  }

  /** A batch whose texts all normalise: entry i of the result is the decode
      of normalised text i against tag row i, for as many texts as there are
      rows; it fails, with IndexError, exactly when some row is shorter than its text. */
  lemma BatchOutput(st: Settings, batch: seq<Text>)
    requires FirstError(NormalizeStep(st.ws, st.maxStringLength), batch).None?
    ensures NormalizeAll(st.ws, st.maxStringLength, batch).Ok?
    ensures var texts := NormalizeAll(st.ws, st.maxStringLength, batch).value;
      |texts| == |batch| && forall i :: 0 <= i < |batch| ==> Normalized(st.ws, st.maxStringLength, batch[i]) == Ok(texts[i])
    ensures var texts := NormalizeAll(st.ws, st.maxStringLength, batch).value;
      var rows := st.tagger(texts);
      BatchResult(st, batch).Ok? <==> forall i :: 0 <= i < Min(|texts|, |rows|) ==> |rows[i]| >= |texts[i]|
    ensures BatchResult(st, batch).Err? ==> BatchResult(st, batch) == Err(IndexError)
    ensures var texts := NormalizeAll(st.ws, st.maxStringLength, batch).value;
      var rows := st.tagger(texts);
      BatchResult(st, batch).Ok? ==>
        var out := BatchResult(st, batch).value;
        |out| == Min(|batch|, |rows|) &&
        forall i :: 0 <= i < |out| ==> Decode(st.ws, texts[i], rows[i]) == Ok(out[i])
  {
    NormalizeAllEach(st.ws, st.maxStringLength, batch);
    var texts := NormalizeAll(st.ws, st.maxStringLength, batch).value;
    DecodeAllEach(st.ws, texts, st.tagger(texts));
  }

  /** Decoding fails only with IndexError. */
  lemma {:induction false} FirstErrorDecode(ws: SpaceClass, pairs: seq<(Text, seq<Tag>)>)
    ensures FirstError(DecodeStep(ws), pairs).Some? ==> FirstError(DecodeStep(ws), pairs) == Some(IndexError)
  {
    if pairs != [] {
      FirstErrorDecode(ws, pairs[1..]);
    }
  }

  /** One normalised text decoded against a long enough row gives the
      segmentation of the raw text. */
  lemma TextSegments(ws: SpaceClass, maxLength: nat, raw: Text, row: seq<Tag>)
    requires ValidSpace(ws)
    requires Normalized(ws, maxLength, raw).Ok?
    requires |row| >= |Normalized(ws, maxLength, raw).value|
    ensures Decode(ws, Normalized(ws, maxLength, raw).value, row).Ok?
    ensures Segmentation(ws, raw, Decode(ws, Normalized(ws, maxLength, raw).value, row).value)
  {
    var t := Normalized(ws, maxLength, raw).value;
    NormalizedShape(ws, maxLength, raw);
    DecodeKeepsText(ws, t, row);
    NormalizedKeepsText(ws, maxLength, raw);
  }

  /** Collapsing each whitespace run to one space moves no piece boundary:
      the text splits into the same pieces before and after. */
  lemma {:induction false} CollapseSplitFrom(ws: SpaceClass, s: Text, piece: Text)
    requires ws(32)
    ensures SplitFrom(ws, Collapse(ws, s), piece) == SplitFrom(ws, s, piece)
    decreases |s|
  {
    if s != [] {
      if ws(s[0]) {
        var rest := TrimLeft(ws, s);
        assert rest == TrimLeft(ws, s[1..]);
        var c := Collapse(ws, rest);
        CollapseSplitFrom(ws, rest, []);
        assert Collapse(ws, s) == [32] + c;
        assert ([32] + c)[0] == 32 && ([32] + c)[1..] == c;
        assert TrimLeft(ws, [32] + c) == TrimLeft(ws, c) == c;
      } else {
        var c := Collapse(ws, s[1..]);
        assert Collapse(ws, s) == [s[0]] + c;
        assert ([s[0]] + c)[0] == s[0] && ([s[0]] + c)[1..] == c;
        CollapseSplitFrom(ws, s[1..], piece + [s[0]]);
      }
    }
  }

  lemma CollapseSplit(ws: SpaceClass, s: Text)
    requires ws(32)
    ensures SplitSpace(ws, Collapse(ws, s)) == SplitSpace(ws, s)
  {
    CollapseSplitFrom(ws, s, []);
  }

  /** Whitespace in the raw text always separates words: the words of a
      normalised text fall into consecutive groups that spell, in order, the
      whitespace-separated runs of the stripped half-width raw text. */
  lemma TextRuns(ws: SpaceClass, maxLength: nat, raw: Text, row: seq<Tag>)
    requires ValidSpace(ws)
    requires Normalized(ws, maxLength, raw).Ok?
    requires |row| >= |Normalized(ws, maxLength, raw).value|
    ensures Decode(ws, Normalized(ws, maxLength, raw).value, row).Ok?
    ensures Refines(Decode(ws, Normalized(ws, maxLength, raw).value, row).value,
                    SplitSpace(ws, Strip(ws, MapWidth(raw))))
  {
    var m := Strip(ws, MapWidth(raw));
    var t := Normalized(ws, maxLength, raw).value;
    NormalizedShape(ws, maxLength, raw);
    assert t == Collapse(ws, m);
    DecodeRefinesRuns(ws, t, row);
    CollapseSplit(ws, m);
  }

  /** With a tagger whose rows fit, a batch fails with the error of its first
      text that does not normalise, and otherwise yields one segmentation
      per text, in order. */
  lemma BatchSegments(st: Settings, batch: seq<Text>)
    requires ValidSpace(st.ws) && Aligned(st.tagger)
    ensures Each(BatchResult(st, batch), batch, NormalizeStep(st.ws, st.maxStringLength), Segments(st.ws))
  {
    var ws, ml := st.ws, st.maxStringLength;
    NormalizeAllEach(ws, ml, batch);
    if FirstError(NormalizeStep(ws, ml), batch).None? {
      var texts := NormalizeAll(ws, ml, batch).value;
      var rows := st.tagger(texts);
      assert Fits(texts, rows);
      DecodeAllEach(ws, texts, rows);
      var out := BatchResult(st, batch).value;
      forall i | 0 <= i < |batch|
        ensures Segments(ws)(batch[i], out[i])
      {
        TextSegments(ws, ml, batch[i], rows[i]);
      }
    }
  }

  /** With a tagger that tags each text on its own and gives it a long enough
      row, entry i of a batch's result is the pipeline's result for text i alone. */
  lemma BatchByText(st: Settings, f: Text -> seq<Tag>, batch: seq<Text>)
    requires Pointwise(st.tagger, f) && forall t :: |f(t)| >= |t|
    ensures Each(BatchResult(st, batch), batch, NormalizeStep(st.ws, st.maxStringLength), ByText(st, f))
  {
    var ws, ml := st.ws, st.maxStringLength;
    NormalizeAllEach(ws, ml, batch);
    if FirstError(NormalizeStep(ws, ml), batch).None? {
      var texts := NormalizeAll(ws, ml, batch).value;
      var rows := st.tagger(texts);
      assert |rows| == |texts|;
      DecodeAllEach(ws, texts, rows);
      var out := BatchResult(st, batch).value;
      forall i | 0 <= i < |batch|
        ensures ByText(st, f)(batch[i], out[i])
      {
        TextByRow(st, f, batch[i], texts[i], rows[i], out[i]);
      }
    }
  }

  lemma TextByRow(st: Settings, f: Text -> seq<Tag>, raw: Text, t: Text, row: seq<Tag>, words: seq<Text>)
    requires Normalized(st.ws, st.maxStringLength, raw) == Ok(t)
    requires row == f(t) && Decode(st.ws, t, row) == Ok(words)
    ensures ByText(st, f)(raw, words)
  {
    assert TextResult(st, f, raw) == Ok(words);
    assert TextStep(st, f)(raw) == TextResult(st, f, raw);
  }

  /* ---------------- the batches of a list ---------------- */

  /** With a tagger whose rows fit, running the batches in order fails with
      the error of the first text that does not normalise, and otherwise
      yields one segmentation per text, in input order. */
  lemma CutBatchesSegments(st: Settings, batches: seq<seq<Text>>)
    requires ValidSpace(st.ws) && Aligned(st.tagger)
    ensures Each(CutBatches(st, batches), Concat(batches), NormalizeStep(st.ws, st.maxStringLength), Segments(st.ws))
  {
    forall k | 0 <= k < |batches|
      ensures Each(BatchStep(st)(batches[k]), batches[k], NormalizeStep(st.ws, st.maxStringLength), Segments(st.ws))
    {
      BatchSegments(st, batches[k]);
    }
    ChainAllEach(BatchStep(st), batches, NormalizeStep(st.ws, st.maxStringLength), Segments(st.ws));
  }

  /* ---------------- cut ---------------- */

  /** `cut` rejects a worker count of zero or less before looking at its
      argument, and any argument that is neither a string nor a list, tuples
      included; an empty list gives no results. */
  lemma CutRejects(st: Settings, v: Value, nJobs: int)
    requires st.maxBatchSize > 0
    ensures nJobs <= 0 ==> CutResult(st, v, nJobs) == Err(ThreadNumber)
    ensures nJobs > 0 && (v.Tuple? || v.Other?) ==> CutResult(st, v, nJobs) == Err(UnSupported)
    ensures nJobs > 0 && v == List([]) ==> CutResult(st, v, nJobs) == Ok(WordLists([]))
  {
  }

  /** The number of worker processes does not change the result. */
  lemma CutJobsIrrelevant(st: Settings, v: Value, nJobs: int)
    requires st.maxBatchSize > 0 && nJobs >= 1
    ensures CutResult(st, v, nJobs) == CutResult(st, v, 1)
  {
    if v.List? {
      PoolMatchesChain(BatchStep(st), Chunks(v.items, st.maxBatchSize));
    }
  }

  /** A string: with a tagger whose rows fit, it fails exactly with its own
      normalisation error, and otherwise gives its segmentation. */
  lemma CutString(st: Settings, s: Text, nJobs: int)
    requires st.maxBatchSize > 0 && nJobs > 0
    requires ValidSpace(st.ws) && Aligned(st.tagger)
    ensures Normalized(st.ws, st.maxStringLength, s).Err? ==>
      CutResult(st, Str(s), nJobs) == Err(Normalized(st.ws, st.maxStringLength, s).error)
    ensures Normalized(st.ws, st.maxStringLength, s).Ok? ==>
      CutResult(st, Str(s), nJobs).Ok? && CutResult(st, Str(s), nJobs).value.Words? &&
      Segmentation(st.ws, s, CutResult(st, Str(s), nJobs).value.words)
  {
    var ws, ml := st.ws, st.maxStringLength;
    BatchSegments(st, [s]);
    assert [s][1..] == [];
    assert FirstError(NormalizeStep(ws, ml), [s]) ==
      if Normalized(ws, ml, s).Err? then Some(Normalized(ws, ml, s).error) else None;
    if Normalized(ws, ml, s).Ok? {
      assert Segments(ws)(s, BatchResult(st, [s]).value[0]);
    }
  }

  /** A list: with a tagger whose rows fit, and for any number of workers,
      it fails with the error of the first text that does not normalise, and
      otherwise gives one segmentation per text, in input order. */
  lemma CutList(st: Settings, items: seq<Text>, nJobs: int)
    requires st.maxBatchSize > 0 && nJobs > 0
    requires ValidSpace(st.ws) && Aligned(st.tagger)
    ensures var fe := FirstError(NormalizeStep(st.ws, st.maxStringLength), items);
      fe.Some? ==> CutResult(st, List(items), nJobs) == Err(fe.value)
    ensures var fe := FirstError(NormalizeStep(st.ws, st.maxStringLength), items);
      fe.None? ==>
        var r := CutResult(st, List(items), nJobs);
        r.Ok? && r.value.WordLists? && |r.value.lists| == |items| &&
        forall i :: 0 <= i < |items| ==> Segmentation(st.ws, items[i], r.value.lists[i])
  {
    CutJobsIrrelevant(st, List(items), nJobs);
    var batches := Chunks(items, st.maxBatchSize);
    ChunksConcat(items, st.maxBatchSize);
    CutBatchesSegments(st, batches);
    var r := CutBatches(st, batches);
    if r.Ok? {
      forall i | 0 <= i < |items|
        ensures Segmentation(st.ws, items[i], r.value[i])
      {
        assert Segments(st.ws)(items[i], r.value[i]);
      }
    }
  }

  /** With a tagger that tags each text on its own and gives it a long
      enough row, batching is invisible: `cut` on a list is the pipeline
      mapped over the texts one at a time, errors included. */
  lemma CutByText(st: Settings, f: Text -> seq<Tag>, items: seq<Text>, nJobs: int)
    requires st.maxBatchSize > 0 && nJobs > 0
    requires Pointwise(st.tagger, f) && forall t :: |f(t)| >= |t|
    ensures CutResult(st, List(items), nJobs) ==
      match MapAll(TextStep(st, f), items)
      case Err(e) => Err(e)
      case Ok(out) => Ok(WordLists(out))
  {
    var ws, ml := st.ws, st.maxStringLength;
    CutJobsIrrelevant(st, List(items), nJobs);
    var batches := Chunks(items, st.maxBatchSize);
    ChunksConcat(items, st.maxBatchSize);
    forall k | 0 <= k < |batches|
      ensures Each(BatchStep(st)(batches[k]), batches[k], NormalizeStep(ws, ml), ByText(st, f))
    {
      BatchByText(st, f, batches[k]);
    }
    ChainAllEach(BatchStep(st), batches, NormalizeStep(ws, ml), ByText(st, f));
    MapAllEach(TextStep(st, f), items);
    forall i | 0 <= i < |items|
      ensures NormalizeStep(ws, ml)(items[i]).Err? == TextStep(st, f)(items[i]).Err?
      ensures NormalizeStep(ws, ml)(items[i]).Err? ==> NormalizeStep(ws, ml)(items[i]).error == TextStep(st, f)(items[i]).error
    {
    }
    FirstErrorSame(NormalizeStep(ws, ml), TextStep(st, f), items);
    var r, m := CutBatches(st, batches), MapAll(TextStep(st, f), items);
    if r.Ok? {
      assert m.Ok?;
      forall i | 0 <= i < |items|
        ensures r.value[i] == m.value[i]
      {
        assert ByText(st, f)(items[i], r.value[i]);
      }
      assert r.value == m.value;
    }
  }

  /* ---------------- the loops ---------------- */

  /** The `map(format_string, text_batch)` loop. */
  method NormalizeBatch(ws: SpaceClass, maxLength: nat, batch: seq<Text>) returns (r: Result<seq<Text>>)
    ensures r == NormalizeAll(ws, maxLength, batch)
  {
    var texts: seq<Text> := [];
    for i := 0 to |batch|
      invariant NormalizeAll(ws, maxLength, batch[..i]) == Ok(texts)
    {
      var t := FormatString(ws, maxLength, batch[i]);
      assert batch[..i + 1][..i] == batch[..i];
      if t.Err? {
        MapAllPrefixError(NormalizeStep(ws, maxLength), batch, i + 1);
        return Err(t.error);
      }
      texts := texts + [t.value];
    }
    assert batch[..|batch|] == batch;
    return Ok(texts);
  }

  /** The `map(lambda x, y: tag2words(x, y), texts, rows)` loop. */
  method DecodeBatch(ws: SpaceClass, texts: seq<Text>, rows: seq<seq<Tag>>) returns (r: Result<seq<seq<Text>>>)
    ensures r == MapAll(DecodeStep(ws), Zip(texts, rows))
  {
    var pairs := Zip(texts, rows);
    var out: seq<seq<Text>> := [];
    for i := 0 to |pairs|
      invariant MapAll(DecodeStep(ws), pairs[..i]) == Ok(out)
    {
      var d := Tag2Words(ws, texts[i], rows[i]);
      assert pairs[..i + 1][..i] == pairs[..i];
      if d.Err? {
        MapAllPrefixError(DecodeStep(ws), pairs, i + 1);
        return Err(d.error);
      }
      out := out + [d.value];
    }
    assert pairs[..|pairs|] == pairs;
    return Ok(out);
  }

  /* ---------------- the session cache and the tokenizer ---------------- */

  /** A loaded inference session for one granularity's model. */
  class Session {
    const granularity: Granularity

    constructor (g: Granularity)
      ensures granularity == g
    {
      granularity := g;
    }
  }

  /** `MiNLPTokenizer.sess_dict`: a class attribute, so one cache is shared
      by every tokenizer; each granularity's session is created on first use. */
  class SessionCache {
    var sessions: map<Granularity, Option<Session>>

    ghost predicate Valid()
      reads this
    {
      && Fine in sessions && Coarse in sessions
      && (sessions[Fine].Some? ==> sessions[Fine].value.granularity == Fine)
      && (sessions[Coarse].Some? ==> sessions[Coarse].value.granularity == Coarse)
    }

    predicate Loaded(g: Granularity)
      reads this
    {
      g in sessions && sessions[g].Some?
    }

    /** `{'fine': None, 'coarse': None}`. */
    constructor ()
      ensures Valid() && !Loaded(Fine) && !Loaded(Coarse)
    {
      sessions := map[Fine := None, Coarse := None];
    }

    /** The session for `g`: created and stored if the entry is empty, the
        stored one otherwise; no other entry changes. */
    method Load(g: Granularity) returns (s: Session)
      requires Valid()
      modifies this
      ensures Valid() && Loaded(g) && s.granularity == g
      ensures old(Loaded(g)) ==> sessions == old(sessions) && s == old(sessions[g].value)
      ensures !old(Loaded(g)) ==> fresh(s) && sessions == old(sessions)[g := Some(s)]
    {
      if sessions[g].None? {
        s := new Session(g);
        sessions := sessions[g := Some(s)];
      } else {
        s := sessions[g].value;
      }
    }
  }

  /** A tokenizer instance: its granularity, the shared session cache and the
      settings its model and lexicon work with. */
  class Tokenizer {
    const granularity: Granularity
    const cache: SessionCache
    const settings: Settings

    ghost predicate Valid()
      reads cache
    {
      cache.Valid() && ValidSpace(settings.ws) && settings.maxBatchSize > 0
    }

    constructor (granularity: Granularity, cache: SessionCache, settings: Settings)
      requires cache.Valid() && ValidSpace(settings.ws) && settings.maxBatchSize > 0
      ensures Valid()
      ensures this.granularity == granularity && this.cache == cache && this.settings == settings
    {
      this.granularity := granularity;
      this.cache := cache;
      this.settings := settings;
    }

    /** `_cut`: fetch or create the session, normalise every text, tag the
        batch, decode each text against its row. The session is loaded
        before anything else, so the cache is filled even when a text fails. */
    method CutBatch(batch: seq<Text>) returns (r: Result<seq<seq<Text>>>)
      requires Valid()
      modifies cache
      ensures Valid()
      ensures r == BatchResult(settings, batch)
      ensures cache.Loaded(granularity)
      ensures old(cache.Loaded(granularity)) ==> cache.sessions == old(cache.sessions)
      ensures !old(cache.Loaded(granularity)) ==> fresh(cache.sessions[granularity].value)
      ensures cache.sessions[OtherGranularity(granularity)] == old(cache.sessions[OtherGranularity(granularity)])
    {
      var sess := cache.Load(granularity);
      var texts := NormalizeBatch(settings.ws, settings.maxStringLength, batch);
      if texts.Err? {
        return Err(texts.error);
      }
      var rows := settings.tagger(texts.value);
      r := DecodeBatch(settings.ws, texts.value, rows);
    }

    /** The single-process path of `cut`: `_cut` on each batch in turn; the
        first batch that fails stops the run. */
    method CutInOrder(batches: seq<seq<Text>>) returns (r: Result<seq<seq<Text>>>)
      requires Valid()
      modifies cache
      ensures Valid()
      ensures r == CutBatches(settings, batches)
      ensures batches != [] ==> cache.Loaded(granularity)
      ensures batches == [] || old(cache.Loaded(granularity)) ==> cache.sessions == old(cache.sessions)
      ensures batches != [] && !old(cache.Loaded(granularity)) ==> fresh(cache.sessions[granularity].value)
      ensures cache.sessions[OtherGranularity(granularity)] == old(cache.sessions[OtherGranularity(granularity)])
    {
      var acc: seq<seq<Text>> := [];
      for k := 0 to |batches|
        invariant Valid()
        invariant CutBatches(settings, batches[..k]) == Ok(acc)
        invariant k == 0 ==> cache.sessions == old(cache.sessions)
        invariant k > 0 ==> cache.Loaded(granularity)
        invariant old(cache.Loaded(granularity)) ==> cache.sessions == old(cache.sessions)
        invariant k > 0 && !old(cache.Loaded(granularity)) ==> fresh(cache.sessions[granularity].value)
        invariant cache.sessions[OtherGranularity(granularity)] == old(cache.sessions[OtherGranularity(granularity)])
      {
        var out := CutBatch(batches[k]);
        assert batches[..k + 1][..k] == batches[..k];
        if out.Err? {
          ChainAllPrefixError(BatchStep(settings), batches, k + 1);
          return Err(out.error);
        }
        acc := acc + out.value;
      }
      assert batches[..|batches|] == batches;
      return Ok(acc);
    }

    /** `cut`: the worker-count check, then the dispatch on the argument's
        shape. A list is cut into batches of the configured size; with one
        worker they run here in order, with more they run in worker
        processes, whose copies of the cache leave this one untouched. */
    method Cut(v: Value, nJobs: int) returns (r: Result<Segmented>)
      requires Valid()
      modifies cache
      ensures Valid()
      ensures r == CutResult(settings, v, nJobs)
      ensures LoadsSession(v, nJobs) ==> cache.Loaded(granularity)
      ensures !LoadsSession(v, nJobs) || old(cache.Loaded(granularity)) ==> cache.sessions == old(cache.sessions)
      ensures LoadsSession(v, nJobs) && !old(cache.Loaded(granularity)) ==> fresh(cache.sessions[granularity].value)
      ensures cache.sessions[OtherGranularity(granularity)] == old(cache.sessions[OtherGranularity(granularity)])
    {
      if nJobs <= 0 {
        return Err(ThreadNumber);
      }
      match v {
        case Str(s) =>
          var out := CutBatch([s]);
          if out.Err? {
            return Err(out.error);
          }
          if |out.value| == 0 {
            return Err(IndexError);
          }
          return Ok(Words(out.value[0]));
        case List(items) =>
          var batches := BatchGenerator(v, settings.maxBatchSize);
          if nJobs == 1 {
            var out := CutInOrder(batches);
            if out.Err? {
              return Err(out.error);
            }
            return Ok(WordLists(out.value));
          } else {
            var collected := Collect(MapBatches(BatchStep(settings), batches));
            if collected.Err? {
              return Err(collected.error);
            }
            return Ok(WordLists(collected.value));
          }
        case Tuple(_) =>
          return Err(UnSupported);
        case Other =>
          return Err(UnSupported);
      }
    }
  }
}
