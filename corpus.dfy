/** Specifications of the pipeline stages of `SNLIData`: the vocabulary of
    `build_word_set`, the restricted table of `get_glove`, the data and
    accumulator of `load`, and the whole construction, with the properties
    that tie them together. */
module Corpus {
  import opened Vectors
  import opened Records
  import opened Accumulator

  // ---------------------------------------------------------------------
  // Vocabulary (`build_word_set`)

  /** What the record parser makes of each line of a file, in order. */
  function ParseLines(lines: seq<string>): (ps: seq<Result<Option<Record>>>)
    ensures |ps| == |lines|
  {
    seq(|lines|, k requires 0 <= k < |lines| => ParseRecord(k, lines[k]))
  }

  /** The tokens a record adds to the vocabulary. */
  function RecordWords(r: Record): set<string> {
    set w | w in r.premise + r.hypothesis
  }

  /** The tokens a parsed line adds to the vocabulary: none for a skipped
      line or a failure. */
  function LineWords(p: Result<Option<Record>>): set<string> {
    if p.Success? && p.value.Some? then RecordWords(p.value.value) else {}
  }

  /** A parsed line is a record containing token `w`. */
  predicate HasWord(p: Result<Option<Record>>, w: string) {
    p.Success? && p.value.Some? && w in RecordWords(p.value.value)
  }

  /** `update_dict` after the first `n` parsed lines of a file: the union of
      the tokens of the records among them, or the first failure. */
  function VocabPrefix(ps: seq<Result<Option<Record>>>, n: nat): Result<set<string>>
    requires n <= |ps|
  {
    if n == 0 then Success({})
    else
      match VocabPrefix(ps, n - 1)
      case Failure(e) => Failure(e)
      case Success(ws) =>
        match ps[n - 1]
        case Failure(e) => Failure(e)
        case Success(None) => Success(ws)
        case Success(Some(r)) => Success(ws + RecordWords(r))
  }

  /** `update_dict(path)` for a file with the given lines. */
  function FileVocab(lines: seq<string>): Result<set<string>> {
    VocabPrefix(ParseLines(lines), |lines|)
  }

  /** `build_word_set`: the three files in order, train, valid, test. */
  function WordSet(train: seq<string>, valid: seq<string>, test: seq<string>): Result<set<string>> {
    var a :- FileVocab(train);
    var b :- FileVocab(valid);
    var c :- FileVocab(test);
    Success(a + b + c)
  }

  /** The vocabulary of a prefix exists exactly when each of its lines parses. */
  lemma {:induction false} VocabPrefixSucceeds(ps: seq<Result<Option<Record>>>, n: nat)
    requires n <= |ps|
    ensures VocabPrefix(ps, n).Success? <==> forall k :: 0 <= k < n ==> ps[k].Success?
  {
    if n > 0 {
      VocabPrefixSucceeds(ps, n - 1);
    }
  }

  /** One more parsed line: a failure stops the vocabulary, anything else
      adds its tokens. */
  lemma VocabPrefixStep(ps: seq<Result<Option<Record>>>, n: nat)
    requires n < |ps| && VocabPrefix(ps, n).Success?
    ensures VocabPrefix(ps, n + 1).Success? <==> ps[n].Success?
    ensures ps[n].Success? ==> VocabPrefix(ps, n + 1).value == VocabPrefix(ps, n).value + LineWords(ps[n])
  {
  }

  /** A line that does not parse makes every prefix containing it fail. */
  lemma {:induction false} VocabPrefixFails(ps: seq<Result<Option<Record>>>, n: nat, k: nat)
    requires k < n <= |ps| && ps[k].Failure?
    ensures VocabPrefix(ps, n).Failure?
  {
    if k < n - 1 {
      VocabPrefixFails(ps, n - 1, k);
    }
  }

  /** The words of a prefix are exactly those of its records. */
  lemma {:induction false} VocabPrefixWords(ps: seq<Result<Option<Record>>>, n: nat, w: string)
    requires n <= |ps| && VocabPrefix(ps, n).Success?
    ensures w in VocabPrefix(ps, n).value <==> exists k :: 0 <= k < n && HasWord(ps[k], w)
  {
    if n > 0 {
      VocabPrefixWords(ps, n - 1, w);
      if exists k :: 0 <= k < n && HasWord(ps[k], w) {
        var k :| 0 <= k < n && HasWord(ps[k], w);
        if k < n - 1 {
          assert exists j :: 0 <= j < n - 1 && HasWord(ps[j], w);
        }
      }
    }
  }

  /** `update_dict` succeeds on a file exactly when each of its lines
      parses, whatever the labels say, and it collects exactly the tokens of
      the file's records. */
  lemma FileVocabMeaning(lines: seq<string>, w: string)
    ensures FileVocab(lines).Success? <==> forall k :: 0 <= k < |lines| ==> ParseRecord(k, lines[k]).Success?
    ensures FileVocab(lines).Success? ==>
      (w in FileVocab(lines).value <==> exists k :: 0 <= k < |lines| && HasWord(ParseRecord(k, lines[k]), w))
  {
    var ps := ParseLines(lines);
    assert forall k :: 0 <= k < |lines| ==> ps[k] == ParseRecord(k, lines[k]);
    VocabPrefixSucceeds(ps, |lines|);
    if FileVocab(lines).Success? {
      VocabPrefixWords(ps, |lines|, w);
    }
  }

  // ---------------------------------------------------------------------
  // Pretrained table (`get_glove`)

  /** One row of the pretrained file: its first field and its parsed vector. */
  datatype GloveRow = GloveRow(word: string, vector: Vector)

  /** The `word2vec` dictionary after the first `n` rows: a row is kept when
      its word is in the vocabulary, overwriting an earlier row of that word. */
  function GlovePrefix(rows: seq<GloveRow>, vocab: set<string>, n: nat): (t: Table)
    requires n <= |rows|
    ensures t.Keys <= vocab
  {
    if n == 0 then map[]
    else
      var t := GlovePrefix(rows, vocab, n - 1);
      if rows[n - 1].word in vocab then t[rows[n - 1].word := rows[n - 1].vector] else t
  }

  /** Every row that `get_glove` keeps, one whose word is in the
      vocabulary, has a vector of the configured dimension. */
  ghost predicate RowsDim(rows: seq<GloveRow>, vocab: set<string>, dim: nat) {
    forall k :: 0 <= k < |rows| && rows[k].word in vocab ==> |rows[k].vector| == dim
  }

  /** Every kept vector has the dimension of the rows. */
  lemma {:induction false} GlovePrefixDim(rows: seq<GloveRow>, vocab: set<string>, n: nat, dim: nat)
    requires n <= |rows| && RowsDim(rows, vocab, dim)
    ensures TableDim(GlovePrefix(rows, vocab, n), dim)
  {
    if n > 0 {
      GlovePrefixDim(rows, vocab, n - 1, dim);
    }
  }

  function GloveTable(rows: seq<GloveRow>, vocab: set<string>): (t: Table)
    ensures t.Keys <= vocab
  {
    GlovePrefix(rows, vocab, |rows|)
  }

  /** `get_glove`, which fails on an empty vocabulary when it reports the
      coverage percentage. */
  function GetGlove(rows: seq<GloveRow>, vocab: set<string>): (r: Result<Table>)
    ensures r.Success? <==> |vocab| > 0
    ensures r.Failure? ==> r.error == EmptyVocabulary
    ensures r.Success? ==> r.value.Keys <= vocab && r.value == GloveTable(rows, vocab)
  {
    var t := GloveTable(rows, vocab);
    if |vocab| == 0 then Failure(EmptyVocabulary) else Success(t)
  }

  /** A word has a pretrained entry exactly when it is in the vocabulary and
      some row carries it, and the entry is the vector of its last row. */
  lemma {:induction false} GlovePrefixAt(rows: seq<GloveRow>, vocab: set<string>, n: nat, k: nat, w: string)
    requires n <= |rows|
    ensures w in GlovePrefix(rows, vocab, n) <==> w in vocab && exists j :: 0 <= j < n && rows[j].word == w
    ensures k < n && rows[k].word in vocab && (forall j :: k < j < n ==> rows[j].word != rows[k].word) ==>
      rows[k].word in GlovePrefix(rows, vocab, n) && GlovePrefix(rows, vocab, n)[rows[k].word] == rows[k].vector
  {
    if n > 0 {
      GlovePrefixAt(rows, vocab, n - 1, k, w);
      if w in vocab && (exists j :: 0 <= j < n && rows[j].word == w) && rows[n - 1].word != w {
        var j :| 0 <= j < n && rows[j].word == w;
        assert j < n - 1;
      }
    }
  }

  // ---------------------------------------------------------------------
  // Materialising a partition (`load`)

  /** The data list of `load` and the accumulator it leaves behind. */
  datatype Loaded = Loaded(data: seq<Example>, acc: Acc)

  /** `load` over the first `n` parsed lines: one example per record, in
      file order, the accumulator run on its premise and then its
      hypothesis; or the first failure. */
  function LoadPrefix(t: Table, ps: seq<Result<Option<Record>>>, W: int, dim: nat, acc: Acc, n: nat): (r: Result<Loaded>)
    requires n <= |ps|
    ensures r.Success? && AccDim(acc, dim) ==> AccDim(r.value.acc, dim)
  {
    if n == 0 then Success(Loaded([], acc))
    else
      match LoadPrefix(t, ps, W, dim, acc, n - 1)
      case Failure(e) => Failure(e)
      case Success(l) =>
        match ExampleOf(ps[n - 1])
        case Failure(e) => Failure(e)
        case Success(None) => Success(l)
        case Success(Some(ex)) =>
          var a := AddSentence(AddSentence(l.acc, t, ex.premise, W, dim), t, ex.hypothesis, W, dim);
          Success(Loaded(l.data + [ex], a))
  }

  /** `load(path)` for a file with the given lines. */
  function Load(t: Table, lines: seq<string>, W: int, dim: nat, acc: Acc): (r: Result<Loaded>)
    ensures r.Success? && AccDim(acc, dim) ==> AccDim(r.value.acc, dim)
  {
    LoadPrefix(t, ParseLines(lines), W, dim, acc, |lines|)
  }

  /** The positions among the first `n` parsed lines that are not skipped, in order. */
  function RetainedIdx(ps: seq<Result<Option<Record>>>, n: nat): (ix: seq<nat>)
    requires n <= |ps|
    ensures forall j :: 0 <= j < |ix| ==> ix[j] < n && ps[ix[j]] != Success(None)
    ensures forall j, j' :: 0 <= j < j' < |ix| ==> ix[j] < ix[j']
    ensures forall k :: 0 <= k < n && ps[k] != Success(None) ==> k in ix
  {
    if n == 0 then []
    else RetainedIdx(ps, n - 1) + if ps[n - 1] != Success(None) then [n - 1] else []
  }

  /** The sentences `load` hands to `approximate_unseen`, in call order. */
  function Sentences(data: seq<Example>): (ss: seq<seq<string>>)
    ensures |ss| == 2 * |data|
    ensures forall j :: 0 <= j < |data| ==> ss[2 * j] == data[j].premise && ss[2 * j + 1] == data[j].hypothesis
  {
    if data == [] then []
    else Sentences(data[..|data| - 1]) + [data[|data| - 1].premise, data[|data| - 1].hypothesis]
  }

  lemma SentencesSnoc(data: seq<Example>, ex: Example)
    ensures Sentences(data + [ex]) == Sentences(data) + [ex.premise, ex.hypothesis]
  {
    assert (data + [ex])[..|data|] == data;
  }

  lemma SentencesAppend(xs: seq<Example>, ys: seq<Example>)
    ensures Sentences(xs + ys) == Sentences(xs) + Sentences(ys)
  {
    var l, r := Sentences(xs + ys), Sentences(xs) + Sentences(ys);
    forall k | 0 <= k < |l| ensures l[k] == r[k] {
      var j := k / 2;
      if j < |xs| {
        assert (xs + ys)[j] == xs[j];
      } else {
        assert (xs + ys)[j] == ys[j - |xs|];
        assert k - 2 * |xs| == 2 * (j - |xs|) + k % 2;
      }
    }
  }

  /** A prefix loads exactly when each of its lines passes the label lookup. */
  lemma {:induction false} LoadPrefixSucceeds(t: Table, ps: seq<Result<Option<Record>>>, W: int, dim: nat, acc: Acc, n: nat)
    requires n <= |ps|
    ensures LoadPrefix(t, ps, W, dim, acc, n).Success? <==> forall k :: 0 <= k < n ==> ExampleOf(ps[k]).Success?
  {
    if n > 0 {
      LoadPrefixSucceeds(t, ps, W, dim, acc, n - 1);
    }
  }

  /** A loaded prefix holds one example per line that is not skipped, in order. */
  lemma {:induction false} LoadPrefixData(t: Table, ps: seq<Result<Option<Record>>>, W: int, dim: nat, acc: Acc, n: nat)
    requires n <= |ps|
    requires LoadPrefix(t, ps, W, dim, acc, n).Success?
    ensures var l, ix := LoadPrefix(t, ps, W, dim, acc, n).value, RetainedIdx(ps, n);
      && |l.data| == |ix|
      && (forall j :: 0 <= j < |ix| ==> ExampleOf(ps[ix[j]]) == Success(Some(l.data[j])))
  {
    if n > 0 {
      LoadPrefixData(t, ps, W, dim, acc, n - 1);
    }
  }

  /** The accumulator `load` leaves is that of running `approximate_unseen`
      over the premise and then the hypothesis of each example in turn. */
  lemma {:induction false} LoadPrefixAcc(t: Table, ps: seq<Result<Option<Record>>>, W: int, dim: nat, acc: Acc, n: nat)
    requires n <= |ps|
    requires LoadPrefix(t, ps, W, dim, acc, n).Success?
    ensures var l := LoadPrefix(t, ps, W, dim, acc, n).value;
      l.acc == Accumulate(acc, t, Sentences(l.data), W, dim)
  {
    if n > 0 {
      LoadPrefixAcc(t, ps, W, dim, acc, n - 1);
      var l := LoadPrefix(t, ps, W, dim, acc, n - 1).value;
      var ex := ExampleOf(ps[n - 1]);
      if ex.value.Some? {
        var e := ex.value.value;
        SentencesSnoc(l.data, e);
        var ss := Sentences(l.data);
        AccumulateSnoc(acc, t, ss, e.premise, W, dim);
        AccumulateSnoc(acc, t, ss + [e.premise], e.hypothesis, W, dim);
        assert ss + [e.premise, e.hypothesis] == ss + [e.premise] + [e.hypothesis];
      }
    }
  }

  /** Whenever a prefix loads, its vocabulary exists and holds every token
      of every loaded example. */
  lemma {:induction false} LoadPrefixVocab(t: Table, ps: seq<Result<Option<Record>>>, W: int, dim: nat, acc: Acc, n: nat)
    requires n <= |ps|
    requires LoadPrefix(t, ps, W, dim, acc, n).Success?
    ensures VocabPrefix(ps, n).Success?
    ensures forall e, w :: e in LoadPrefix(t, ps, W, dim, acc, n).value.data && (w in e.premise || w in e.hypothesis) ==>
      w in VocabPrefix(ps, n).value
  {
    if n > 0 {
      LoadPrefixVocab(t, ps, W, dim, acc, n - 1);
      var data := LoadPrefix(t, ps, W, dim, acc, n - 1).value.data;
      var ex := ExampleOf(ps[n - 1]);
      if ex.value.Some? {
        var e := ex.value.value;
        var rec := ps[n - 1].value.value;
        assert LoadPrefix(t, ps, W, dim, acc, n).value.data == data + [e];
        assert VocabPrefix(ps, n).value == VocabPrefix(ps, n - 1).value + RecordWords(rec);
      }
    }
  }

  /** `load` fails exactly when some line is a record with too few columns
      or with a label `label_dict` lacks. */
  lemma LoadSucceeds(t: Table, lines: seq<string>, W: int, dim: nat, acc: Acc)
    ensures Load(t, lines, W, dim, acc).Success? <==> forall k :: 0 <= k < |lines| ==> ParseExample(k, lines[k]).Success?
  {
    var ps := ParseLines(lines);
    assert forall k :: 0 <= k < |lines| ==> ps[k] == ParseRecord(k, lines[k]);
    LoadPrefixSucceeds(t, ps, W, dim, acc, |lines|);
  }

  /** `load` yields exactly one example per record, in file order: the
      example of the `j`-th retained line is that line's parse. */
  lemma LoadData(t: Table, lines: seq<string>, W: int, dim: nat, acc: Acc)
    requires Load(t, lines, W, dim, acc).Success?
    ensures var data, ix := Load(t, lines, W, dim, acc).value.data, RetainedIdx(ParseLines(lines), |lines|);
      && |data| == |ix|
      && (forall j :: 0 <= j < |ix| ==> Retained(ix[j], lines[ix[j]]) && ParseExample(ix[j], lines[ix[j]]) == Success(Some(data[j])))
      && (forall k :: 0 <= k < |lines| && Retained(k, lines[k]) ==> k in ix)
  {
    var ps := ParseLines(lines);
    assert forall k :: 0 <= k < |lines| ==> ps[k] == ParseRecord(k, lines[k]);
    LoadPrefixData(t, ps, W, dim, acc, |lines|);
  }

  /** Every token of every example `load` returns is in the vocabulary
      `update_dict` builds from the same file, and `update_dict` succeeds
      whenever `load` does. */
  lemma LoadWordsInVocab(t: Table, lines: seq<string>, W: int, dim: nat, acc: Acc)
    requires Load(t, lines, W, dim, acc).Success?
    ensures FileVocab(lines).Success?
    ensures forall e, w :: e in Load(t, lines, W, dim, acc).value.data && (w in e.premise || w in e.hypothesis) ==>
      w in FileVocab(lines).value
  {
    LoadPrefixVocab(t, ParseLines(lines), W, dim, acc, |lines|);
  }

  // ---------------------------------------------------------------------
  // The whole construction (`__init__` and `get_total`)

  /** The configuration fields the core reads. */
  datatype Config = Config(embeddingDim: nat, windowSize: int)

  /** The fields of a constructed `SNLIData`. */
  datatype Snapshot = Snapshot(
    wordSet: set<string>,
    wordEmbeds: Table,
    unseenWordDict: map<string, Vector>,
    unseenWordCountDict: map<string, nat>,
    trainData: seq<Example>,
    validData: seq<Example>,
    testData: seq<Example>)

  /** `load` keeps the accumulator invariants. */
  lemma LoadValid(t: Table, lines: seq<string>, W: int, dim: nat, acc: Acc)
    requires AccValid(acc, dim)
    requires Load(t, lines, W, dim, acc).Success?
    ensures AccValid(Load(t, lines, W, dim, acc).value.acc, dim)
  {
    LoadPrefixAcc(t, ParseLines(lines), W, dim, acc, |lines|);
    AccumulateValid(acc, t, Sentences(Load(t, lines, W, dim, acc).value.data), W, dim);
  }

  /** The three partitions as `get_total` loads them. */
  datatype Loads = Loads(l1: Loaded, l2: Loaded, l3: Loaded)

  /** The three `load` calls of `get_total`, train, valid and test in that
      order, sharing one accumulator; the first failure stops the rest. */
  function LoadAll(t: Table, train: seq<string>, valid: seq<string>, test: seq<string>, W: int, dim: nat, acc: Acc): (r: Result<Loads>)
    requires AccValid(acc, dim)
    ensures r.Success? ==> AccValid(r.value.l3.acc, dim)
  {
    var l1 :- Load(t, train, W, dim, acc);
    LoadValid(t, train, W, dim, acc);
    var l2 :- Load(t, valid, W, dim, l1.acc);
    LoadValid(t, valid, W, dim, l1.acc);
    var l3 :- Load(t, test, W, dim, l2.acc);
    LoadValid(t, test, W, dim, l2.acc);
    Success(Loads(l1, l2, l3))
  }

  /** The stages of `__init__` before finalisation. */
  datatype Stages = Stages(ws: set<string>, t: Table, l1: Loaded, l2: Loaded, l3: Loaded)

  /** The rows `get_glove` keeps from the vocabulary of the three files
      have the configured dimension; nothing is asked when there is no
      vocabulary. */
  ghost predicate VocabRowsDim(cfg: Config, train: seq<string>, valid: seq<string>, test: seq<string>, rows: seq<GloveRow>) {
    WordSet(train, valid, test).Success? ==> RowsDim(rows, WordSet(train, valid, test).value, cfg.embeddingDim)
  }

  /** `build_word_set`, `get_glove` and the loads of `get_total`. */
  function RunStages(cfg: Config, train: seq<string>, valid: seq<string>, test: seq<string>, rows: seq<GloveRow>): (r: Result<Stages>)
    requires VocabRowsDim(cfg, train, valid, test, rows)
    ensures r.Success? ==> TableDim(r.value.t, cfg.embeddingDim) && AccValid(r.value.l3.acc, cfg.embeddingDim)
  {
    var dim, W := cfg.embeddingDim, cfg.windowSize;
    var ws :- WordSet(train, valid, test);
    var t :- GetGlove(rows, ws);
    GlovePrefixDim(rows, ws, |rows|, dim);
    var ls :- LoadAll(t, train, valid, test, W, dim, Empty);
    Success(Stages(ws, t, ls.l1, ls.l2, ls.l3))
  }

  /** `SNLIData(config)` on the given train, valid, test and pretrained files. */
  function Build(cfg: Config, train: seq<string>, valid: seq<string>, test: seq<string>, rows: seq<GloveRow>): Result<Snapshot>
    requires VocabRowsDim(cfg, train, valid, test, rows)
  {
    var st :- RunStages(cfg, train, valid, test, rows);
    var f := Finalize(st.t, st.l3.acc);
    Success(Snapshot(st.ws, f.embeds, f.sums, st.l3.acc.counts, st.l1.data, st.l2.data, st.l3.data))
  }

  /** `__init__` in stages: the vocabulary `ws`, its pretrained table `t`,
      then the three loads from an empty accumulator and the finalisation. */
  lemma BuildStages(cfg: Config, train: seq<string>, valid: seq<string>, test: seq<string>, rows: seq<GloveRow>,
                    ws: set<string>, t: Table)
    requires VocabRowsDim(cfg, train, valid, test, rows)
    requires WordSet(train, valid, test) == Success(ws) && GetGlove(rows, ws) == Success(t)
    ensures TableDim(t, cfg.embeddingDim)
    ensures var ls := LoadAll(t, train, valid, test, cfg.windowSize, cfg.embeddingDim, Empty);
      && (Build(cfg, train, valid, test, rows).Success? <==> ls.Success?)
      && (ls.Success? ==>
            var f := Finalize(t, ls.value.l3.acc);
            Build(cfg, train, valid, test, rows).value
              == Snapshot(ws, f.embeds, f.sums, ls.value.l3.acc.counts, ls.value.l1.data, ls.value.l2.data, ls.value.l3.data))
  {
    GlovePrefixDim(rows, ws, |rows|, cfg.embeddingDim);
  }

  /** All sentences of the three partitions, in the order `get_total` scans them. */
  function AllSentences(s: Snapshot): seq<seq<string>> {
    Sentences(s.trainData) + Sentences(s.validData) + Sentences(s.testData)
  }

  /** Every token of every example of the three partitions is in the vocabulary. */
  lemma BuildVocabComplete(cfg: Config, train: seq<string>, valid: seq<string>, test: seq<string>, rows: seq<GloveRow>)
    requires VocabRowsDim(cfg, train, valid, test, rows)
    requires Build(cfg, train, valid, test, rows).Success?
    ensures var s := Build(cfg, train, valid, test, rows).value;
      forall e, x :: (e in s.trainData || e in s.validData || e in s.testData) && (x in e.premise || x in e.hypothesis) ==>
        x in s.wordSet
  {
    var dim, W := cfg.embeddingDim, cfg.windowSize;
    var st := RunStages(cfg, train, valid, test, rows).value;
    GlovePrefixDim(rows, st.ws, |rows|, dim);
    LoadWordsInVocab(st.t, train, W, dim, Empty);
    LoadWordsInVocab(st.t, valid, W, dim, st.l1.acc);
    LoadWordsInVocab(st.t, test, W, dim, st.l2.acc);
  }

  /** The accumulator after the three loads is that of running
      `approximate_unseen` over all sentences of the corpus, in order. */
  lemma StagesAccumulate(cfg: Config, train: seq<string>, valid: seq<string>, test: seq<string>, rows: seq<GloveRow>)
    requires VocabRowsDim(cfg, train, valid, test, rows)
    requires RunStages(cfg, train, valid, test, rows).Success?
    ensures var st := RunStages(cfg, train, valid, test, rows).value;
      st.l3.acc == Accumulate(Empty, st.t, Sentences(st.l1.data) + Sentences(st.l2.data) + Sentences(st.l3.data),
                              cfg.windowSize, cfg.embeddingDim)
  {
    var dim, W := cfg.embeddingDim, cfg.windowSize;
    var st := RunStages(cfg, train, valid, test, rows).value;
    var t := st.t;
    LoadPrefixAcc(t, ParseLines(train), W, dim, Empty, |train|);
    LoadPrefixAcc(t, ParseLines(valid), W, dim, st.l1.acc, |valid|);
    LoadPrefixAcc(t, ParseLines(test), W, dim, st.l2.acc, |test|);
    var s1, s2, s3 := Sentences(st.l1.data), Sentences(st.l2.data), Sentences(st.l3.data);
    AccumulateAppend(Empty, t, s1, s2, W, dim);
    AccumulateAppend(Empty, t, s1 + s2, s3, W, dim);
  }

  /** What a successful construction promises about the embedding table:
      every pretrained key is in the vocabulary and keeps its vector; a word
      that is not pretrained has an embedding exactly when some occurrence
      of it had a pretrained neighbour in its window, and that embedding is
      the mean of all such neighbour vectors over the three partitions. */
  lemma BuildEmbeddings(cfg: Config, train: seq<string>, valid: seq<string>, test: seq<string>, rows: seq<GloveRow>, w: string)
    requires VocabRowsDim(cfg, train, valid, test, rows)
    requires Build(cfg, train, valid, test, rows).Success?
    ensures var s := Build(cfg, train, valid, test, rows).value;
      var t, ss := GloveTable(rows, s.wordSet), AllSentences(s);
      var dim, W := cfg.embeddingDim, cfg.windowSize;
      && t.Keys <= s.wordSet
      && (w in s.wordEmbeds <==> w in t || CorpusCount(t, ss, w, W) > 0)
      && (w in t ==> s.wordEmbeds[w] == t[w])
      && (w !in t && CorpusCount(t, ss, w, W) > 0 ==>
            && s.unseenWordCountDict[w] == CorpusCount(t, ss, w, W)
            && s.wordEmbeds[w] == Div(CorpusSum(t, ss, w, W, dim), CorpusCount(t, ss, w, W)))
  {
    var dim, W := cfg.embeddingDim, cfg.windowSize;
    var st := RunStages(cfg, train, valid, test, rows).value;
    var s := Build(cfg, train, valid, test, rows).value;
    var t := st.t;
    assert t == GloveTable(rows, s.wordSet);
    var ss := AllSentences(s);
    StagesAccumulate(cfg, train, valid, test, rows);
    var acc := st.l3.acc;
    assert acc == Accumulate(Empty, t, ss, W, dim);
    AccumulateSums(Empty, t, ss, W, dim, w);
    AccumulateCounts(Empty, t, ss, W, dim, w);
    AddZero(CorpusSum(t, ss, w, W, dim), dim);
    assert w in acc.sums ==> w !in t;
  }
}
