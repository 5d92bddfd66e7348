/** `SNLIData` as an object whose methods update its fields the way the
    source's methods update `self`: a vocabulary set, the embedding
    dictionary, the two accumulator dictionaries and the three data lists.
    Each method is proved against the specification functions of `Corpus`
    and `Accumulator`. File contents are passed in as sequences of lines
    (data files) or of parsed rows (the pretrained file). */
module Dataset {
  import opened Vectors
  import opened Records
  import opened Accumulator
  import opened Corpus

  class SNLIData {
    const embeddingDim: nat
    const windowSize: int
    var wordSet: set<string>
    var wordEmbeds: map<string, Vector>
    var unseenWordDict: map<string, Vector>
    var unseenWordCountDict: map<string, nat>
    var trainData: seq<Example>
    var validData: seq<Example>
    var testData: seq<Example>

    /** The two accumulator dictionaries as one value. */
    ghost function Unseen(): Acc
      reads this
    {
      Acc(unseenWordDict, unseenWordCountDict)
    }

    /** All embedding vectors have the configured dimension and the
        accumulator keeps its invariants. */
    ghost predicate Valid()
      reads this
    {
      TableDim(wordEmbeds, embeddingDim) && AccValid(Unseen(), embeddingDim)
    }

    ghost function Fields(): Snapshot
      reads this
    {
      Snapshot(wordSet, wordEmbeds, unseenWordDict, unseenWordCountDict, trainData, validData, testData)
    }

    /** The containers `__init__` starts from. */
    constructor (cfg: Config)
      ensures embeddingDim == cfg.embeddingDim && windowSize == cfg.windowSize
      ensures Fields() == Snapshot({}, map[], map[], map[], [], [], [])
      ensures Valid()
    {
      embeddingDim, windowSize := cfg.embeddingDim, cfg.windowSize;
      wordSet, wordEmbeds := {}, map[];
      unseenWordDict, unseenWordCountDict := map[], map[];
      trainData, validData, testData := [], [], [];
    }

    /** `update_dict`, the loop of `build_word_set` over one file. */
    method UpdateDict(lines: seq<string>) returns (r: Result<()>)
      modifies this`wordSet
      ensures r.Success? <==> FileVocab(lines).Success?
      ensures r.Success? ==> wordSet == old(wordSet) + FileVocab(lines).value
    {
      ghost var ps := ParseLines(lines);
      var idx := 0;
      while idx < |lines|
        invariant 0 <= idx <= |lines|
        invariant VocabPrefix(ps, idx).Success?
        invariant wordSet == old(wordSet) + VocabPrefix(ps, idx).value
      {
        assert ps[idx] == ParseRecord(idx, lines[idx]);
        r := AddLine(idx, lines[idx]);
        if r.Failure? {
          VocabPrefixFails(ps, |lines|, idx);
          return;
        }
        VocabPrefixStep(ps, idx);
        idx := idx + 1;
      }
      return Success(());
    }

    /** The body of `update_dict`'s loop for line `idx`: the header and the
        lines labelled `-` are skipped, a line short of columns fails, and
        any other line adds the tokens of its two sentences. */
    method AddLine(idx: nat, line: string) returns (r: Result<()>)
      modifies this`wordSet
      ensures var p := ParseRecord(idx, line);
        && (r.Success? <==> p.Success?)
        && (r.Failure? ==> r.error == p.error)
        && (r.Success? ==> wordSet == old(wordSet) + LineWords(p))
    {
      if idx == 0 {
        return Success(());
      }
      var cols := Columns(line);
      if cols[0] == "-" {
        return Success(());
      }
      if |cols| < 3 {
        return Failure(MissingColumn);
      }
      var premise := Tokens(cols[1]);
      var hypothesis := Tokens(cols[2]);
      AddWords(premise + hypothesis);
      return Success(());
    }

    /** The inner loop of `update_dict`: every token of `ws` (premise then hypothesis) joins the vocabulary. */
    method AddWords(ws: seq<string>)
      modifies this`wordSet
      ensures wordSet == old(wordSet) + set w | w in ws
    {
      var k := 0;
      while k < |ws|
        invariant 0 <= k <= |ws|
        invariant wordSet == old(wordSet) + set w | w in ws[..k]
      {
        assert ws[..k + 1] == ws[..k] + [ws[k]];
        wordSet := wordSet + {ws[k]};
        k := k + 1;
      }
      assert ws[..k] == ws;
    }

    /** `build_word_set`: the train, valid and test files in that order. */
    method BuildWordSet(train: seq<string>, valid: seq<string>, test: seq<string>) returns (r: Result<()>)
      modifies this`wordSet
      ensures r.Success? <==> WordSet(train, valid, test).Success?
      ensures r.Success? ==> wordSet == old(wordSet) + WordSet(train, valid, test).value
    {
      r := UpdateDict(train);
      if r.Failure? { return; }
      r := UpdateDict(valid);
      if r.Failure? { return; }
      r := UpdateDict(test);
    }

    /** `get_glove`: the rows whose word is in the vocabulary, a later row
        overwriting an earlier one; an empty vocabulary fails when the
        coverage percentage is computed. */
    method GetGlove(rows: seq<GloveRow>) returns (r: Result<Table>)
      ensures r == Corpus.GetGlove(rows, wordSet)
    {
      var word2vec: Table := map[];
      for k := 0 to |rows|
        invariant word2vec == GlovePrefix(rows, wordSet, k)
      {
        if rows[k].word in wordSet {
          word2vec := word2vec[rows[k].word := rows[k].vector];
        }
      }
      if |wordSet| == 0 {
        return Failure(EmptyVocabulary);
      }
      return Success(word2vec);
    }

    /** `approximate_unseen(sentence)`: for every token that is not
        pretrained, add its window's pretrained neighbours to its running
        sum and count. */
    method ApproximateUnseen(sentence: seq<string>)
      requires AccDim(Unseen(), embeddingDim)
      modifies this`unseenWordDict, this`unseenWordCountDict
      ensures Unseen() == AddSentence(old(Unseen()), wordEmbeds, sentence, windowSize, embeddingDim)
    {
      ghost var acc0 := Unseen();
      ghost var t, dim, W := wordEmbeds, embeddingDim, windowSize;
      var i := 0;
      while i < |sentence|
        invariant 0 <= i <= |sentence|
        invariant Unseen() == ScanPrefix(acc0, t, sentence, W, dim, i)
      {
        if sentence[i] !in wordEmbeds {
          AddWindow(sentence, i);
        }
        i := i + 1;
      }
    }

    /** The body of `approximate_unseen` for position `i` of a token that is
        not pretrained: create its sum as the zero vector if absent, then
        visit the offsets `-window_size ..= window_size` in increasing order,
        adding each pretrained neighbour's vector and counting it. */
    method AddWindow(sentence: seq<string>, i: nat)
      requires AccDim(Unseen(), embeddingDim)
      requires i < |sentence| && sentence[i] !in wordEmbeds
      modifies this`unseenWordDict, this`unseenWordCountDict
      ensures Unseen() == Window(old(Unseen()), wordEmbeds, sentence, i, windowSize, embeddingDim, windowSize + 1)
    {
      ghost var p := Unseen();
      var t, dim, W := wordEmbeds, embeddingDim, windowSize;
      var w := sentence[i];
      WindowStart(p, t, sentence, i, W, dim);
      if w !in unseenWordDict {
        unseenWordDict := unseenWordDict[w := Zero(dim)];
      }
      var r := -W;
      while r <= W
        invariant -W <= r
        invariant W < 0 ==> r == -W
        invariant W >= 0 ==> r <= W + 1
        invariant Unseen() == Window(p, t, sentence, i, W, dim, r)
        decreases W + 1 - r
      {
        WindowStep(p, t, sentence, i, W, dim, r);
        ghost var a := Window(p, t, sentence, i, W, dim, r);
        assert unseenWordDict == a.sums && unseenWordCountDict == a.counts;
        if r != 0 && 0 <= i + r < |sentence| && sentence[i + r] in t {
          unseenWordDict := unseenWordDict[w := Add(unseenWordDict[w], t[sentence[i + r]])];
          if w in unseenWordCountDict {
            unseenWordCountDict := unseenWordCountDict[w := unseenWordCountDict[w] + 1];
          } else {
            unseenWordCountDict := unseenWordCountDict[w := 1];
          }
        }
        r := r + 1;
      }
      WindowEnd(p, t, sentence, i, W, dim, r);
    }

    /** `load(path)`: one example per record in file order, the accumulator
        run on the premise and then on the hypothesis of each. */
    method Load(lines: seq<string>) returns (r: Result<seq<Example>>)
      requires Valid()
      modifies this`unseenWordDict, this`unseenWordCountDict
      ensures var spec := Corpus.Load(wordEmbeds, lines, windowSize, embeddingDim, old(Unseen()));
        && (r.Success? <==> spec.Success?)
        && (r.Success? ==> Valid() && r.value == spec.value.data && Unseen() == spec.value.acc)
    {
      ghost var acc0 := Unseen();
      ghost var ps := ParseLines(lines);
      var data: seq<Example> := [];
      var idx := 0;
      while idx < |lines|
        invariant 0 <= idx <= |lines|
        invariant Valid()
        invariant LoadPrefix(wordEmbeds, ps, windowSize, embeddingDim, acc0, idx).Success?
        invariant data == LoadPrefix(wordEmbeds, ps, windowSize, embeddingDim, acc0, idx).value.data
        invariant Unseen() == LoadPrefix(wordEmbeds, ps, windowSize, embeddingDim, acc0, idx).value.acc
      {
        assert ps[idx] == ParseRecord(idx, lines[idx]);
        if idx != 0 {
          var cols := Columns(lines[idx]);
          if cols[0] != "-" {
            if |cols| < 3 {
              LoadPrefixSucceeds(wordEmbeds, ps, windowSize, embeddingDim, acc0, |lines|);
              return Failure(MissingColumn);
            }
            var premise := Tokens(cols[1]);
            var hypothesis := Tokens(cols[2]);
            assert ps[idx] == Success(Some(Record(cols[0], premise, hypothesis)));
            var y := LabelIndex(cols[0]);
            if y.Failure? {
              LoadPrefixSucceeds(wordEmbeds, ps, windowSize, embeddingDim, acc0, |lines|);
              return Failure(y.error);
            }
            ghost var a0 := Unseen();
            ApproximateUnseen(premise);
            AddSentenceValid(a0, wordEmbeds, premise, windowSize, embeddingDim);
            ghost var a1 := Unseen();
            ApproximateUnseen(hypothesis);
            AddSentenceValid(a1, wordEmbeds, hypothesis, windowSize, embeddingDim);
            data := data + [Example(premise, hypothesis, y.value)];
          } else {
            assert ps[idx] == Success(None);
          }
        } else {
          assert ps[idx] == Success(None);
        }
        idx := idx + 1;
      }
      return Success(data);
    }

    /** `get_total`: load the three files with one shared accumulator, then
        replace each counted sum by the mean and store it as the word's
        embedding; a word without contributions gets no embedding. */
    method GetTotal(train: seq<string>, valid: seq<string>, test: seq<string>)
      returns (r: Result<(seq<Example>, seq<Example>, seq<Example>)>)
      requires Valid()
      modifies this`wordEmbeds, this`unseenWordDict, this`unseenWordCountDict
      ensures var spec := LoadAll(old(wordEmbeds), train, valid, test, windowSize, embeddingDim, old(Unseen()));
        && (r.Success? <==> spec.Success?)
        && (r.Success? ==>
              var f := Finalize(old(wordEmbeds), spec.value.l3.acc);
              && r.value == (spec.value.l1.data, spec.value.l2.data, spec.value.l3.data)
              && wordEmbeds == f.embeds
              && unseenWordDict == f.sums
              && unseenWordCountDict == spec.value.l3.acc.counts)
    {
      var trainData := Load(train);
      if trainData.Failure? { return Failure(trainData.error); }
      var validData := Load(valid);
      if validData.Failure? { return Failure(validData.error); }
      var testData := Load(test);
      if testData.Failure? { return Failure(testData.error); }
      FinalizeUnseen();
      return Success((trainData.value, validData.value, testData.value));
    }

    /** The final loop of `get_total`: every word with a running sum that
        was counted has its sum divided by its count, and that mean becomes
        its embedding. */
    method FinalizeUnseen()
      requires forall w :: w in unseenWordCountDict ==> unseenWordCountDict[w] >= 1
      modifies this`wordEmbeds, this`unseenWordDict
      ensures wordEmbeds == Finalize(old(wordEmbeds), old(Unseen())).embeds
      ensures unseenWordDict == Finalize(old(wordEmbeds), old(Unseen())).sums
    {
      ghost var t, acc := wordEmbeds, Unseen();
      var remaining := unseenWordDict.Keys;
      while remaining != {}
        invariant remaining <= acc.sums.Keys
        invariant wordEmbeds == FinalizeDone(t, acc, acc.sums.Keys - remaining).embeds
        invariant unseenWordDict == FinalizeDone(t, acc, acc.sums.Keys - remaining).sums
        decreases remaining
      {
        var w :| w in remaining;
        FinalizeStepEmbeds(t, acc, acc.sums.Keys - remaining, w);
        FinalizeStepSums(t, acc, acc.sums.Keys - remaining, w);
        assert acc.sums.Keys - (remaining - {w}) == (acc.sums.Keys - remaining) + {w};
        if w in unseenWordCountDict {
          unseenWordDict := unseenWordDict[w := Div(unseenWordDict[w], unseenWordCountDict[w])];
          wordEmbeds := wordEmbeds[w := unseenWordDict[w]];
        }
        remaining := remaining - {w};
      }
      assert acc.sums.Keys - remaining == acc.sums.Keys;
    }

    /** `SNLIData(config)`: build the vocabulary, restrict the pretrained
        table to it, then materialise the three partitions and finalise the
        unseen-word embeddings. */
    static method Create(cfg: Config, train: seq<string>, valid: seq<string>, test: seq<string>, rows: seq<GloveRow>)
      returns (r: Result<SNLIData>)
      requires VocabRowsDim(cfg, train, valid, test, rows)
      ensures r.Success? <==> Build(cfg, train, valid, test, rows).Success?
      ensures r.Success? ==> fresh(r.value) && r.value.Fields() == Build(cfg, train, valid, test, rows).value
    {
      var d := new SNLIData(cfg);
      var built := d.BuildWordSet(train, valid, test);
      if built.Failure? { return Failure(built.error); }
      var glove := d.GetGlove(rows);
      if glove.Failure? { return Failure(glove.error); }
      GlovePrefixDim(rows, d.wordSet, |rows|, cfg.embeddingDim);
      d.wordEmbeds := glove.value;
      ghost var ws, t := d.wordSet, d.wordEmbeds;
      assert d.Unseen() == Empty;
      var total := d.GetTotal(train, valid, test);
      if total.Failure? { return Failure(total.error); }
      BuildStages(cfg, train, valid, test, rows, ws, t);
      d.trainData, d.validData, d.testData := total.value.0, total.value.1, total.value.2;
      return Success(d);
    }
  }
}
