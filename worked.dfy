/** A small corpus worked through the accumulator: window 1, two-dimensional
    vectors, pretrained `a = [1, 0]` and `c = [3, 0]`, and the sentences
    `a b c` and `x b`, where `b` and `x` are not pretrained. */
module WorkedExample {
  import opened Vectors
  import opened Accumulator

  const T: Table := map["a" := [1.0, 0.0], "c" := [3.0, 0.0]]
  const S1: seq<string> := ["a", "b", "c"]
  const S2: seq<string> := ["x", "b"]

  /** Zeros on the left change nothing either. */
  lemma AddZeroLeft(v: Vector)
    ensures Add(Zero(|v|), v) == v
  {
  }

  /** The accumulator the two sentences leave: sums `b = [4, 0]` and
      `x = [0, 0]`, and `b` counted twice. */
  const Acc2: Acc := Acc(map["b" := [4.0, 0.0], "x" := Zero(2)], map["b" := 2])

  /** `b` collects both neighbours of its first occurrence and nothing from
      its second; `x`, whose only neighbour is not pretrained, gets a zero
      sum and no count. */
  lemma TwoSentences()
    ensures Accumulate(Empty, T, [S1, S2], 1, 2) == Acc2
  {
    assert S1[0] in T && S1[1] !in T && S1[2] in T;
    assert S2[0] !in T && S2[1] !in T;
    assert NeighbourSum(T, S1, 1, -1, 0, 2) == [1.0, 0.0];
    assert NeighbourSum(T, S1, 1, -1, 1, 2) == [1.0, 0.0];
    assert NeighbourSum(T, S1, 1, -1, 2, 2) == [4.0, 0.0];
    assert NeighbourCount(T, S1, 1, -1, 2) == 2;
    AddZeroLeft([4.0, 0.0]);
    assert Window(Empty, T, S1, 1, 1, 2, 2) == Acc(map["b" := [4.0, 0.0]], map["b" := 2]);
    var a1 := AddSentence(Empty, T, S1, 1, 2);
    assert ScanPrefix(Empty, T, S1, 1, 2, 1) == Empty;
    assert ScanPrefix(Empty, T, S1, 1, 2, 2) == Acc(map["b" := [4.0, 0.0]], map["b" := 2]);
    assert a1 == Acc(map["b" := [4.0, 0.0]], map["b" := 2]);
    assert NeighbourSum(T, S2, 0, -1, 2, 2) == Zero(2);
    assert NeighbourCount(T, S2, 0, -1, 2) == 0;
    assert NeighbourSum(T, S2, 1, -1, 2, 2) == Zero(2);
    assert NeighbourCount(T, S2, 1, -1, 2) == 0;
    AddZeroLeft(Zero(2));
    assert Window(a1, T, S2, 0, 1, 2, 2) == Acc(map["b" := [4.0, 0.0], "x" := Zero(2)], map["b" := 2]);
    var p1 := Acc(map["b" := [4.0, 0.0], "x" := Zero(2)], map["b" := 2]);
    AddZero([4.0, 0.0], 2);
    assert Window(p1, T, S2, 1, 1, 2, 2) == p1;
    var a2 := AddSentence(a1, T, S2, 1, 2);
    assert ScanPrefix(a1, T, S2, 1, 2, 1) == Acc(map["b" := [4.0, 0.0], "x" := Zero(2)], map["b" := 2]);
    assert a2 == Acc(map["b" := [4.0, 0.0], "x" := Zero(2)], map["b" := 2]);
    assert [S1, S2][..1] == [S1] && [S1][..0] == [];
    assert Accumulate(Empty, T, [S1], 1, 2) == a1;
    assert Accumulate(Empty, T, [S1, S2], 1, 2) == a2;
  }

  /** Finalisation gives `b` the mean `[2, 0]` of its four-unit sum over two
      contributions; `x`, never counted, gets no embedding. */
  lemma TwoSentencesFinal()
    ensures var e := Finalize(T, Acc2).embeds;
      "b" in e && e["b"] == [2.0, 0.0] && "x" !in e
  {
    assert Div([4.0, 0.0], 2) == [2.0, 0.0];
  }
}
