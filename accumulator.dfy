/** The out-of-vocabulary accumulator of `load`'s nested `approximate_unseen`
    and the finalisation loop of `get_total`. The accumulator is specified
    step by step, as the loops run, and proved equal, word by word, to a
    closed form: what a sentence adds to a word's running sum and count is
    a sum over that word's occurrences of the pretrained neighbours inside
    the window. */
module Accumulator {
  import opened Vectors

  type Table = map<string, Vector>

  /** The pair `unseen_word_dict` (running sums) and `unseen_word_count_dict`
      (running contribution counts). */
  datatype Acc = Acc(sums: map<string, Vector>, counts: map<string, nat>)

  const Empty: Acc := Acc(map[], map[])

  ghost predicate TableDim(t: Table, dim: nat) {
    forall w :: w in t ==> |t[w]| == dim
  }

  ghost predicate AccDim(acc: Acc, dim: nat) {
    forall w :: w in acc.sums ==> |acc.sums[w]| == dim
  }

  /** The invariants the accumulator keeps: every counted word has a sum,
      every count is at least one, and a word never contributed to still
      holds the zero vector it was created with. */
  ghost predicate AccValid(acc: Acc, dim: nat) {
    && AccDim(acc, dim)
    && acc.counts.Keys <= acc.sums.Keys
    && (forall w :: w in acc.counts ==> acc.counts[w] >= 1)
    && (forall w :: w in acc.sums && w !in acc.counts ==> acc.sums[w] == Zero(dim))
  }

  /** A word's running sum, the zero vector when it has none yet. */
  function SumOf(acc: Acc, w: string, dim: nat): (v: Vector)
    ensures AccDim(acc, dim) ==> |v| == dim
  {
    if w in acc.sums then acc.sums[w] else Zero(dim)
  }

  /** A word's running count, zero when it has none. */
  function CountOf(acc: Acc, w: string): nat {
    if w in acc.counts then acc.counts[w] else 0
  }

  /** The neighbour at offset `r` of position `i` contributes: `r != 0`, the
      position is inside the sentence and its token is pretrained. */
  predicate Contributes(t: Table, s: seq<string>, i: int, r: int) {
    r != 0 && 0 <= i + r < |s| && s[i + r] in t
  }

  /** Sum of the pretrained vectors of the contributing neighbours of
      position `i` at offsets `lo <= r < hi`, added in increasing `r`. */
  function NeighbourSum(t: Table, s: seq<string>, i: int, lo: int, hi: int, dim: nat): (v: Vector)
    ensures |v| == dim
    decreases hi - lo
  {
    if hi <= lo then Zero(dim)
    else
      var v := NeighbourSum(t, s, i, lo, hi - 1, dim);
      if Contributes(t, s, i, hi - 1) then Add(v, t[s[i + hi - 1]]) else v
  }

  /** Number of contributing neighbours of position `i` at offsets `lo <= r < hi`. */
  function NeighbourCount(t: Table, s: seq<string>, i: int, lo: int, hi: int): nat
    decreases hi - lo
  {
    if hi <= lo then 0
    else NeighbourCount(t, s, i, lo, hi - 1) + if Contributes(t, s, i, hi - 1) then 1 else 0
  }

  /** What the occurrences of `w` among positions `0 <= i < n` add to `w`'s
      sum: for each such occurrence, when `w` is not pretrained, the sum of
      its contributing neighbours at offsets `-W <= r <= W`. */
  function OccSum(t: Table, s: seq<string>, w: string, W: int, n: nat, dim: nat): (v: Vector)
    requires n <= |s|
    ensures |v| == dim
  {
    if n == 0 then Zero(dim)
    else
      var v := OccSum(t, s, w, W, n - 1, dim);
      if s[n - 1] == w && w !in t then Add(v, NeighbourSum(t, s, n - 1, -W, W + 1, dim)) else v
  }

  /** What the occurrences of `w` among positions `0 <= i < n` add to `w`'s count. */
  function OccCount(t: Table, s: seq<string>, w: string, W: int, n: nat): nat
    requires n <= |s|
  {
    if n == 0 then 0
    else
      OccCount(t, s, w, W, n - 1)
      + if s[n - 1] == w && w !in t then NeighbourCount(t, s, n - 1, -W, W + 1) else 0
  }


  /** `approximate_unseen` as it runs: the accumulator after positions
      `0 <= i < n` of `s`, taken one at a time, a pretrained token changing
      nothing and any other one running its window. */
  function ScanPrefix(acc: Acc, t: Table, s: seq<string>, W: int, dim: nat, n: nat): (r: Acc)
    requires n <= |s|
    ensures AccDim(acc, dim) ==> AccDim(r, dim)
  {
    if n == 0 then acc
    else
      var p := ScanPrefix(acc, t, s, W, dim, n - 1);
      if s[n - 1] in t then p else Window(p, t, s, n - 1, W, dim, W + 1)
  }

  /** The effect of one call `approximate_unseen(s)`. */
  function AddSentence(acc: Acc, t: Table, s: seq<string>, W: int, dim: nat): (r: Acc)
    ensures AccDim(acc, dim) ==> AccDim(r, dim)
  {
    ScanPrefix(acc, t, s, W, dim, |s|)
  }

  // ---------------------------------------------------------------------
  // Facts about the neighbour and occurrence totals

  /** A window without contributions adds nothing. */
  lemma {:induction false} NeighbourNone(t: Table, s: seq<string>, i: int, lo: int, hi: int, dim: nat)
    requires NeighbourCount(t, s, i, lo, hi) == 0
    ensures NeighbourSum(t, s, i, lo, hi, dim) == Zero(dim)
    decreases hi - lo
  {
    if lo < hi {
      NeighbourNone(t, s, i, lo, hi - 1, dim);
    }
  }

  /** Occurrences without contributions add nothing. */
  lemma {:induction false} OccNone(t: Table, s: seq<string>, w: string, W: int, n: nat, dim: nat)
    requires n <= |s|
    requires OccCount(t, s, w, W, n) == 0
    ensures OccSum(t, s, w, W, n, dim) == Zero(dim)
  {
    if n > 0 {
      OccNone(t, s, w, W, n - 1, dim);
      if s[n - 1] == w && w !in t {
        NeighbourNone(t, s, n - 1, -W, W + 1, dim);
        AddZero(Zero(dim), dim);
      }
    }
  }

  /** A word that is pretrained or does not occur among the first `n`
      positions gets nothing from them. */
  lemma {:induction false} OccOutside(t: Table, s: seq<string>, w: string, W: int, n: nat, dim: nat)
    requires n <= |s|
    requires w in t || Occurrences(s, w, n) == 0
    ensures OccCount(t, s, w, W, n) == 0
    ensures OccSum(t, s, w, W, n, dim) == Zero(dim)
  {
    if n > 0 {
      OccOutside(t, s, w, W, n - 1, dim);
    }
  }

  /** The count of offsets `lo <= r < hi` other than zero. */
  function NonZeroIn(lo: int, hi: int): nat {
    if hi <= lo then 0 else hi - lo - (if lo <= 0 < hi then 1 else 0)
  }

  /** Contributions are bounded by the non-zero offsets of the window. */
  lemma {:induction false} NeighbourCountBound(t: Table, s: seq<string>, i: int, lo: int, hi: int)
    ensures NeighbourCount(t, s, i, lo, hi) <= NonZeroIn(lo, hi)
    decreases hi - lo
  {
    if lo < hi {
      NeighbourCountBound(t, s, i, lo, hi - 1);
    }
  }

  /** One occurrence contributes at most `2 * W` neighbours, and none at all
      when `W <= 0`. */
  lemma WindowBound(t: Table, s: seq<string>, i: int, W: int)
    ensures W <= 0 ==> NeighbourCount(t, s, i, -W, W + 1) == 0
    ensures W >= 0 ==> NeighbourCount(t, s, i, -W, W + 1) <= 2 * W
  {
    NeighbourCountBound(t, s, i, -W, W + 1);
  }

  /** The number of positions among the first `n` holding `w`. */
  function Occurrences(s: seq<string>, w: string, n: nat): nat
    requires n <= |s|
  {
    if n == 0 then 0 else Occurrences(s, w, n - 1) + if s[n - 1] == w then 1 else 0
  }

  /** A word occurs among the first `n` positions exactly when it is in that prefix. */
  lemma {:induction false} OccurrencesIn(s: seq<string>, w: string, n: nat)
    requires n <= |s|
    ensures Occurrences(s, w, n) > 0 <==> w in s[..n]
  {
    if n > 0 {
      OccurrencesIn(s, w, n - 1);
      assert s[..n] == s[..n - 1] + [s[n - 1]];
    }
  }

  /** A word occurs in a sentence exactly when it is one of its tokens. */
  lemma OccurrencesInSentence(s: seq<string>, w: string)
    ensures Occurrences(s, w, |s|) > 0 <==> w in s
  {
    OccurrencesIn(s, w, |s|);
    assert s[..|s|] == s;
  }

  /** A sentence adds at most `2 * W` to a word's count per occurrence, and
      nothing when the window is empty. */
  lemma {:induction false} OccCountBound(t: Table, s: seq<string>, w: string, W: int, n: nat)
    requires n <= |s|
    ensures W <= 0 ==> OccCount(t, s, w, W, n) == 0
    ensures W >= 0 ==> OccCount(t, s, w, W, n) <= 2 * W * Occurrences(s, w, n)
  {
    if n > 0 {
      OccCountBound(t, s, w, W, n - 1);
      WindowBound(t, s, n - 1, W);
      var k := Occurrences(s, w, n - 1);
      if W >= 0 && s[n - 1] == w {
        assert Occurrences(s, w, n) == k + 1;
        assert 2 * W * (k + 1) == 2 * W * k + 2 * W;
      }
    }
  }

  /** The neighbour count is the number of contributing offsets in the window. */
  lemma {:induction false} NeighbourCountIsCardinality(t: Table, s: seq<string>, i: int, lo: int, hi: int)
    ensures NeighbourCount(t, s, i, lo, hi) == |set r | lo <= r < hi && Contributes(t, s, i, r)|
    decreases hi - lo
  {
    if hi <= lo {
      assert (set r | lo <= r < hi && Contributes(t, s, i, r)) == {};
    } else {
      NeighbourCountIsCardinality(t, s, i, lo, hi - 1);
      var a := set r | lo <= r < hi - 1 && Contributes(t, s, i, r);
      var b := set r | lo <= r < hi && Contributes(t, s, i, r);
      if Contributes(t, s, i, hi - 1) {
        assert b == a + {hi - 1};
      } else {
        assert b == a;
      }
    }
  }


  // ---------------------------------------------------------------------
  // The inner loop of `approximate_unseen`

  /** `m` with `w`'s count raised by `k`, the entry created only when `k > 0`. */
  function Bump(m: map<string, nat>, w: string, k: nat): map<string, nat> {
    if k == 0 then m else m[w := (if w in m then m[w] else 0) + k]
  }

  /** The accumulator while the inner loop of `approximate_unseen` handles
      position `i`, once the offsets `-W <= r' < r` are done: the token's sum
      (created as zero if absent) has grown by their neighbour sum, and its
      count by their neighbour count. */
  function Window(acc: Acc, t: Table, s: seq<string>, i: nat, W: int, dim: nat, r: int): (a: Acc)
    requires i < |s|
    ensures s[i] in a.sums
    ensures AccDim(acc, dim) ==> AccDim(a, dim)
  {
    var w := s[i];
    Acc(acc.sums[w := Add(SumOf(acc, w, dim), NeighbourSum(t, s, i, -W, r, dim))],
        Bump(acc.counts, w, NeighbourCount(t, s, i, -W, r)))
  }

  /** Before the first offset, the token's sum exists and nothing else has changed. */
  lemma WindowStart(acc: Acc, t: Table, s: seq<string>, i: nat, W: int, dim: nat)
    requires AccDim(acc, dim) && i < |s|
    ensures var w := s[i];
      Window(acc, t, s, i, W, dim, -W) ==
        Acc(if w in acc.sums then acc.sums else acc.sums[w := Zero(dim)], acc.counts)
  {
    AddZero(SumOf(acc, s[i], dim), dim);
  }

  /** One offset `r` of the inner loop: a contributing neighbour's vector is
      added to the token's sum and its count is created at one or raised by
      one; a neighbour that does not contribute changes nothing. */
  lemma WindowStep(acc: Acc, t: Table, s: seq<string>, i: nat, W: int, dim: nat, r: int)
    requires AccDim(acc, dim) && i < |s| && -W <= r
    ensures var a, w := Window(acc, t, s, i, W, dim, r), s[i];
      Window(acc, t, s, i, W, dim, r + 1) ==
        if Contributes(t, s, i, r) then
          Acc(a.sums[w := Add(a.sums[w], t[s[i + r]])],
              if w in a.counts then a.counts[w := a.counts[w] + 1] else a.counts[w := 1])
        else a
  {
    var w := s[i];
    var ns := NeighbourSum(t, s, i, -W, r, dim);
    if Contributes(t, s, i, r) {
      AddAssoc(SumOf(acc, w, dim), ns, t[s[i + r]]);
    }
  }

  /** A window that has passed its last offset stays as it is. */
  lemma WindowEnd(acc: Acc, t: Table, s: seq<string>, i: nat, W: int, dim: nat, r: int)
    requires AccDim(acc, dim) && i < |s|
    requires -W <= r && (r == W + 1 || (r == -W && W < 0))
    ensures Window(acc, t, s, i, W, dim, r) == Window(acc, t, s, i, W, dim, W + 1)
  {
  }


  // ---------------------------------------------------------------------
  // One sentence, word by word

  /** Which words have a sum after the first `n` positions: those that had
      one, and the tokens among them that are not pretrained. */
  lemma {:induction false} ScanPrefixKeys(acc: Acc, t: Table, s: seq<string>, W: int, dim: nat, n: nat, x: string)
    requires n <= |s|
    ensures x in ScanPrefix(acc, t, s, W, dim, n).sums <==> x in acc.sums || (x !in t && Occurrences(s, x, n) > 0)
  {
    if n > 0 {
      ScanPrefixKeys(acc, t, s, W, dim, n - 1, x);
    }
  }

  /** One position `i` changes only its own token's sum, and only when the
      token is not pretrained, adding the neighbour sum of its window. */
  lemma WindowSumOf(p: Acc, t: Table, s: seq<string>, W: int, dim: nat, i: nat, x: string)
    requires i < |s|
    ensures SumOf(if s[i] in t then p else Window(p, t, s, i, W, dim, W + 1), x, dim)
      == if s[i] !in t && x == s[i] then Add(SumOf(p, x, dim), NeighbourSum(t, s, i, -W, W + 1, dim)) else SumOf(p, x, dim)
  {
  }

  /** What the first `n` positions do to the sum of one word `x`: it has
      grown by exactly the word's occurrence total. */
  lemma {:induction false} ScanPrefixSums(acc: Acc, t: Table, s: seq<string>, W: int, dim: nat, n: nat, x: string)
    requires AccDim(acc, dim) && n <= |s|
    ensures SumOf(ScanPrefix(acc, t, s, W, dim, n), x, dim) == Add(SumOf(acc, x, dim), OccSum(t, s, x, W, n, dim))
  {
    if n == 0 {
      AddZero(SumOf(acc, x, dim), dim);
    } else {
      ScanPrefixSums(acc, t, s, W, dim, n - 1, x);
      WindowSumOf(ScanPrefix(acc, t, s, W, dim, n - 1), t, s, W, dim, n - 1, x);
      if s[n - 1] !in t && x == s[n - 1] {
        AddAssoc(SumOf(acc, x, dim), OccSum(t, s, x, W, n - 1, dim), NeighbourSum(t, s, n - 1, -W, W + 1, dim));
      }
    }
  }

  /** Which words have a count after the first `n` positions: those that
      had one, and those that got a contribution. */
  lemma {:induction false} ScanPrefixCountKeys(acc: Acc, t: Table, s: seq<string>, W: int, dim: nat, n: nat, x: string)
    requires n <= |s|
    ensures x in ScanPrefix(acc, t, s, W, dim, n).counts <==> x in acc.counts || OccCount(t, s, x, W, n) > 0
  {
    if n > 0 {
      ScanPrefixCountKeys(acc, t, s, W, dim, n - 1, x);
    }
  }

  /** What the first `n` positions do to the count of one word `x`: it has
      grown by exactly the word's occurrence total. */
  lemma {:induction false} ScanPrefixCounts(acc: Acc, t: Table, s: seq<string>, W: int, dim: nat, n: nat, x: string)
    requires n <= |s|
    ensures CountOf(ScanPrefix(acc, t, s, W, dim, n), x) == CountOf(acc, x) + OccCount(t, s, x, W, n)
  {
    if n > 0 {
      ScanPrefixCounts(acc, t, s, W, dim, n - 1, x);
    }
  }

  /** What one sentence does to one word: a token that is not pretrained
      gets a sum, a count appears once a contribution is made, and a word's
      sum and count grow by exactly the totals of its own occurrences. */
  lemma AddSentenceEffect(acc: Acc, t: Table, s: seq<string>, W: int, dim: nat, x: string)
    requires AccDim(acc, dim)
    ensures x in AddSentence(acc, t, s, W, dim).sums <==> x in acc.sums || (x in s && x !in t)
    ensures x in AddSentence(acc, t, s, W, dim).counts <==> x in acc.counts || OccCount(t, s, x, W, |s|) > 0
    ensures SumOf(AddSentence(acc, t, s, W, dim), x, dim) == Add(SumOf(acc, x, dim), OccSum(t, s, x, W, |s|, dim))
    ensures CountOf(AddSentence(acc, t, s, W, dim), x) == CountOf(acc, x) + OccCount(t, s, x, W, |s|)
  {
    ScanPrefixKeys(acc, t, s, W, dim, |s|, x);
    ScanPrefixSums(acc, t, s, W, dim, |s|, x);
    ScanPrefixCountKeys(acc, t, s, W, dim, |s|, x);
    ScanPrefixCounts(acc, t, s, W, dim, |s|, x);
    OccurrencesInSentence(s, x);
  }

  /** A pretrained word, or one absent from the sentence, keeps both its
      entries exactly. */
  lemma AddSentenceOutside(acc: Acc, t: Table, s: seq<string>, W: int, dim: nat, x: string)
    requires AccDim(acc, dim) && (x in t || x !in s)
    ensures var r := AddSentence(acc, t, s, W, dim);
      && (x in r.sums <==> x in acc.sums) && (x in r.sums ==> r.sums[x] == acc.sums[x])
      && (x in r.counts <==> x in acc.counts) && (x in r.counts ==> r.counts[x] == acc.counts[x])
  {
    AddSentenceEffect(acc, t, s, W, dim, x);
    OccurrencesInSentence(s, x);
    OccOutside(t, s, x, W, |s|, dim);
    AddZero(SumOf(acc, x, dim), dim);
  }

  /** A word with contributions from `s` occurs in `s` and is not pretrained. */
  lemma OccOutsideContra(t: Table, s: seq<string>, W: int, dim: nat, x: string)
    requires OccCount(t, s, x, W, |s|) > 0
    ensures x in s && x !in t
  {
    if !(x in s && x !in t) {
      OccurrencesInSentence(s, x);
      OccOutside(t, s, x, W, |s|, dim);
    }
  }

  /** `approximate_unseen` keeps the accumulator invariants. */
  lemma AddSentenceValid(acc: Acc, t: Table, s: seq<string>, W: int, dim: nat)
    requires AccValid(acc, dim)
    ensures AccValid(AddSentence(acc, t, s, W, dim), dim)
  {
    var r := AddSentence(acc, t, s, W, dim);
    forall x | x in r.counts
      ensures x in r.sums && r.counts[x] >= 1
    {
      AddSentenceEffect(acc, t, s, W, dim, x);
      if OccCount(t, s, x, W, |s|) > 0 {
        OccOutsideContra(t, s, W, dim, x);
      }
    }
    forall x | x in r.sums && x !in r.counts
      ensures r.sums[x] == Zero(dim)
    {
      AddSentenceEffect(acc, t, s, W, dim, x);
      OccNone(t, s, x, W, |s|, dim);
      AddZero(SumOf(acc, x, dim), dim);
    }
  }

  /** With `W <= 0` a sentence leaves all counts and existing sums alone and
      gives each new word that is not pretrained the zero vector. */
  lemma NoWindowNoContribution(acc: Acc, t: Table, s: seq<string>, W: int, dim: nat)
    requires AccDim(acc, dim) && W <= 0
    ensures AddSentence(acc, t, s, W, dim).counts == acc.counts
    ensures forall x :: x in AddSentence(acc, t, s, W, dim).sums ==>
      AddSentence(acc, t, s, W, dim).sums[x] == SumOf(acc, x, dim)
  {
    var r := AddSentence(acc, t, s, W, dim);
    forall x
      ensures (x in r.counts <==> x in acc.counts) && CountOf(r, x) == CountOf(acc, x)
    {
      AddSentenceEffect(acc, t, s, W, dim, x);
      OccCountBound(t, s, x, W, |s|);
    }
    assert r.counts == acc.counts;
    forall x | x in r.sums
      ensures r.sums[x] == SumOf(acc, x, dim)
    {
      AddSentenceEffect(acc, t, s, W, dim, x);
      OccCountBound(t, s, x, W, |s|);
      OccNone(t, s, x, W, |s|, dim);
      AddZero(SumOf(acc, x, dim), dim);
    }
  }

  // ---------------------------------------------------------------------
  // Many sentences

  /** The accumulator after `approximate_unseen` has run on each sentence of
      `ss` in order. */
  function Accumulate(acc: Acc, t: Table, ss: seq<seq<string>>, W: int, dim: nat): (r: Acc)
    ensures AccDim(acc, dim) ==> AccDim(r, dim)
  {
    if ss == [] then acc
    else AddSentence(Accumulate(acc, t, ss[..|ss| - 1], W, dim), t, ss[|ss| - 1], W, dim)
  }

  /** Everything the sentences of `ss` add to `w`'s sum. */
  function CorpusSum(t: Table, ss: seq<seq<string>>, w: string, W: int, dim: nat): (v: Vector)
    ensures |v| == dim
  {
    if ss == [] then Zero(dim)
    else
      var last := ss[|ss| - 1];
      Add(CorpusSum(t, ss[..|ss| - 1], w, W, dim), OccSum(t, last, w, W, |last|, dim))
  }

  /** Everything the sentences of `ss` add to `w`'s count: the number of
      pretrained neighbours of all of its occurrences. */
  function CorpusCount(t: Table, ss: seq<seq<string>>, w: string, W: int): nat {
    if ss == [] then 0
    else
      var last := ss[|ss| - 1];
      CorpusCount(t, ss[..|ss| - 1], w, W) + OccCount(t, last, w, W, |last|)
  }

  /** A word occurs, not pretrained, in one of the sentences. */
  ghost predicate OccursOov(t: Table, ss: seq<seq<string>>, w: string) {
    w !in t && exists k :: 0 <= k < |ss| && w in ss[k]
  }

  lemma {:induction false} AccumulateValid(acc: Acc, t: Table, ss: seq<seq<string>>, W: int, dim: nat)
    requires AccValid(acc, dim)
    ensures AccValid(Accumulate(acc, t, ss, W, dim), dim)
  {
    if ss != [] {
      AccumulateValid(acc, t, ss[..|ss| - 1], W, dim);
      AddSentenceValid(Accumulate(acc, t, ss[..|ss| - 1], W, dim), t, ss[|ss| - 1], W, dim);
    }
  }

  /** A word occurs outside the table in `ss + [last]` exactly when it does
      in `ss` or in `last`. */
  lemma OccursOovSnoc(t: Table, ss: seq<seq<string>>, x: string)
    requires ss != []
    ensures OccursOov(t, ss, x) <==> OccursOov(t, ss[..|ss| - 1], x) || (x !in t && x in ss[|ss| - 1])
  {
    var init := ss[..|ss| - 1];
    if OccursOov(t, ss, x) {
      var k :| 0 <= k < |ss| && x in ss[k];
      if k < |ss| - 1 { assert init[k] == ss[k]; }
    }
    if OccursOov(t, init, x) {
      var k :| 0 <= k < |init| && x in init[k];
      assert ss[k] == init[k];
    }
  }

  /** Running the accumulator over several sentences, for the sum of one
      word: it exists exactly when it did or the word occurs somewhere
      without being pretrained, and it grows by the word's corpus total. */
  lemma {:induction false} AccumulateSums(acc: Acc, t: Table, ss: seq<seq<string>>, W: int, dim: nat, x: string)
    requires AccDim(acc, dim)
    ensures x in Accumulate(acc, t, ss, W, dim).sums <==> x in acc.sums || OccursOov(t, ss, x)
    ensures SumOf(Accumulate(acc, t, ss, W, dim), x, dim) == Add(SumOf(acc, x, dim), CorpusSum(t, ss, x, W, dim))
  {
    if ss == [] {
      AddZero(SumOf(acc, x, dim), dim);
    } else {
      var init, last := ss[..|ss| - 1], ss[|ss| - 1];
      AccumulateSums(acc, t, init, W, dim, x);
      AddSentenceEffect(Accumulate(acc, t, init, W, dim), t, last, W, dim, x);
      AddAssoc(SumOf(acc, x, dim), CorpusSum(t, init, x, W, dim), OccSum(t, last, x, W, |last|, dim));
      OccursOovSnoc(t, ss, x);
    }
  }

  /** Running the accumulator over several sentences, for the count of one
      word: it exists exactly when it did or the word got a contribution,
      and it grows by the word's corpus total. */
  lemma {:induction false} AccumulateCounts(acc: Acc, t: Table, ss: seq<seq<string>>, W: int, dim: nat, x: string)
    ensures x in Accumulate(acc, t, ss, W, dim).counts <==> x in acc.counts || CorpusCount(t, ss, x, W) > 0
    ensures CountOf(Accumulate(acc, t, ss, W, dim), x) == CountOf(acc, x) + CorpusCount(t, ss, x, W)
  {
    if ss != [] {
      var init, last := ss[..|ss| - 1], ss[|ss| - 1];
      AccumulateCounts(acc, t, init, W, dim, x);
      ScanPrefixCountKeys(Accumulate(acc, t, init, W, dim), t, last, W, dim, |last|, x);
      ScanPrefixCounts(Accumulate(acc, t, init, W, dim), t, last, W, dim, |last|, x);
    }
  }

  /** Running over one more sentence is one more `approximate_unseen`. */
  lemma AccumulateSnoc(acc: Acc, t: Table, ss: seq<seq<string>>, s: seq<string>, W: int, dim: nat)
    ensures Accumulate(acc, t, ss + [s], W, dim) == AddSentence(Accumulate(acc, t, ss, W, dim), t, s, W, dim)
  {
    var zs := ss + [s];
    assert zs[..|zs| - 1] == ss;
  }

  /** Running over a concatenation is running over each part in turn. */
  lemma {:induction false} AccumulateAppend(acc: Acc, t: Table, xs: seq<seq<string>>, ys: seq<seq<string>>, W: int, dim: nat)
    ensures Accumulate(acc, t, xs + ys, W, dim) == Accumulate(Accumulate(acc, t, xs, W, dim), t, ys, W, dim)
    decreases |ys|
  {
    if ys == [] {
      assert xs + ys == xs;
    } else {
      var init, last := ys[..|ys| - 1], ys[|ys| - 1];
      assert ys == init + [last];
      assert xs + ys == (xs + init) + [last];
      AccumulateAppend(acc, t, xs, init, W, dim);
      AccumulateSnoc(acc, t, xs + init, last, W, dim);
      AccumulateSnoc(Accumulate(acc, t, xs, W, dim), t, init, last, W, dim);
    }
  }

  // ---------------------------------------------------------------------
  // Finalisation

  /** The state `get_total`'s final loop leaves: the embedding table and the
      (divided in place) running sums. */
  datatype Final = Final(embeds: Table, sums: map<string, Vector>)

  /** The finalisation loop after it has handled the words of `done`: each
      handled word with a count has its sum divided by its count, and that
      mean is written into the table; an uncounted word is left out. */
  function FinalizeDone(t: Table, acc: Acc, done: set<string>): (f: Final)
    requires forall w :: w in acc.counts ==> acc.counts[w] >= 1
  {
    Final(map x | x in t.Keys + (done * acc.sums.Keys * acc.counts.Keys)
                :: if x in done && x in acc.sums && x in acc.counts then Div(acc.sums[x], acc.counts[x]) else t[x],
          map x | x in acc.sums.Keys
                :: if x in done && x in acc.counts then Div(acc.sums[x], acc.counts[x]) else acc.sums[x])
  }

  /** The whole finalisation loop of `get_total`. */
  function Finalize(t: Table, acc: Acc): (f: Final)
    requires forall w :: w in acc.counts ==> acc.counts[w] >= 1
    ensures forall w :: w in f.embeds <==> w in t || (w in acc.sums && w in acc.counts)
    ensures forall w :: w in acc.sums && w in acc.counts ==> f.embeds[w] == Div(acc.sums[w], acc.counts[w])
    ensures forall w :: w in t && !(w in acc.sums && w in acc.counts) ==> f.embeds[w] == t[w]
  {
    FinalizeDone(t, acc, acc.sums.Keys)
  }

  /** Handling one more word `w` writes its mean into the table when it
      has a count and leaves the table alone otherwise. */
  lemma FinalizeStepEmbeds(t: Table, acc: Acc, done: set<string>, w: string)
    requires forall x :: x in acc.counts ==> acc.counts[x] >= 1
    requires w in acc.sums && w !in done
    ensures var e := FinalizeDone(t, acc, done).embeds;
      FinalizeDone(t, acc, done + {w}).embeds ==
        if w in acc.counts then e[w := Div(acc.sums[w], acc.counts[w])] else e
  {
    if w in acc.counts {
      FinalizeStepCounted(t, acc, done, w);
    } else {
      FinalizeStepUncounted(t, acc, done, w);
    }
  }

  /** A handled word with a count gets its mean in the table. */
  lemma FinalizeStepCounted(t: Table, acc: Acc, done: set<string>, w: string)
    requires forall x :: x in acc.counts ==> acc.counts[x] >= 1
    requires w in acc.sums && w in acc.counts && w !in done
    ensures FinalizeDone(t, acc, done + {w}).embeds
      == FinalizeDone(t, acc, done).embeds[w := Div(acc.sums[w], acc.counts[w])]
  {
    var e, e' := FinalizeDone(t, acc, done).embeds, FinalizeDone(t, acc, done + {w}).embeds;
    var m := Div(acc.sums[w], acc.counts[w]);
    assert e'.Keys == e.Keys + {w};
    forall x | x in e' ensures e'[x] == e[w := m][x] {
    }
  }

  /** A handled word without a count leaves the table alone. */
  lemma FinalizeStepUncounted(t: Table, acc: Acc, done: set<string>, w: string)
    requires forall x :: x in acc.counts ==> acc.counts[x] >= 1
    requires w !in acc.counts
    ensures FinalizeDone(t, acc, done + {w}).embeds == FinalizeDone(t, acc, done).embeds
  {
    var e, e' := FinalizeDone(t, acc, done).embeds, FinalizeDone(t, acc, done + {w}).embeds;
    assert e'.Keys == e.Keys;
    forall x | x in e' ensures e'[x] == e[x] {
    }
  }

  /** Handling one more word `w` divides its sum by its count when it has
      one and leaves the sums alone otherwise. */
  lemma FinalizeStepSums(t: Table, acc: Acc, done: set<string>, w: string)
    requires forall x :: x in acc.counts ==> acc.counts[x] >= 1
    requires w in acc.sums && w !in done
    ensures var m := FinalizeDone(t, acc, done).sums;
      && m[w] == acc.sums[w]
      && FinalizeDone(t, acc, done + {w}).sums ==
           if w in acc.counts then m[w := Div(acc.sums[w], acc.counts[w])] else m
  {
    var m, m' := FinalizeDone(t, acc, done).sums, FinalizeDone(t, acc, done + {w}).sums;
    if w in acc.counts {
      assert m' == m[w := Div(acc.sums[w], acc.counts[w])];
    } else {
      assert m' == m;
    }
  }
}
