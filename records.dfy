/** The record parser shared by `build_word_set` and `load`: one
    tab-separated line of an SNLI file becomes a skip, a failure or a record
    with bracket-free premise and hypothesis token lists. */
module Records {
  import opened Text

  /** The failures the pipeline can raise. `MissingColumn` is the IndexError of
      `cols[1]`/`cols[2]`, `UnknownLabel` the KeyError of `label_dict`, and
      `EmptyVocabulary` the ZeroDivisionError of the coverage percentage
      reported by `get_glove`. */
  datatype Error = MissingColumn | UnknownLabel(gold: string) | EmptyVocabulary

  datatype Result<T> = Success(value: T) | Failure(error: Error) {
    predicate IsFailure() { Failure? }
    function PropagateFailure<U>(): Result<U>
      requires Failure?
    {
      Failure(error)
    }
    function Extract(): T
      requires Success?
    {
      value
    }
  }

  /** A retained line before its label is looked up. */
  datatype Record = Record(gold: string, premise: seq<string>, hypothesis: seq<string>)

  /** One element `[premise, hypothesis, y]` of a partition's data list. */
  datatype Example = Example(premise: seq<string>, hypothesis: seq<string>, y: nat)

  const NumClasses: nat := 3

  /** `label_dict`. */
  const LabelDict: map<string, nat> := map["entailment" := 0, "contradiction" := 1, "neutral" := 2]

  /** `label_dict[label]`, failing on a label the dictionary lacks. */
  function LabelIndex(gold: string): (r: Result<nat>)
    ensures r.Success? <==> gold == "entailment" || gold == "contradiction" || gold == "neutral"
    ensures r.Success? ==> r.value < NumClasses
    ensures r.Failure? ==> r.error == UnknownLabel(gold)
    ensures gold == "entailment" ==> r == Success(0)
    ensures gold == "contradiction" ==> r == Success(1)
    ensures gold == "neutral" ==> r == Success(2)
  {
    if gold in LabelDict then Success(LabelDict[gold]) else Failure(UnknownLabel(gold))
  }

  /** Distinct known labels get distinct classes, and every class has a label. */
  lemma LabelIndexBijective(a: string, b: string, k: nat)
    ensures LabelIndex(a).Success? && LabelIndex(b).Success? && a != b ==> LabelIndex(a).value != LabelIndex(b).value
    ensures k < NumClasses ==> exists l :: LabelIndex(l) == Success(k)
  {
    if k < NumClasses {
      var l := if k == 0 then "entailment" else if k == 1 then "contradiction" else "neutral";
      assert LabelIndex(l) == Success(k);
    }
  }

  predicate IsBracket(w: string) {
    w == "(" || w == ")"
  }

  /** The token filter: every token other than `(` and `)`, in order. */
  function DropBrackets(ws: seq<string>): (r: seq<string>)
    ensures |r| <= |ws|
  {
    if ws == [] then []
    else if IsBracket(ws[|ws| - 1]) then DropBrackets(ws[..|ws| - 1])
    else DropBrackets(ws[..|ws| - 1]) + [ws[|ws| - 1]]
  }

  /** The filter keeps exactly the tokens that are not brackets. */
  lemma {:induction false} DropBracketsMembers(ws: seq<string>)
    ensures forall k :: 0 <= k < |DropBrackets(ws)| ==> !IsBracket(DropBrackets(ws)[k])
    ensures forall w :: w in DropBrackets(ws) <==> w in ws && !IsBracket(w)
    decreases |ws|
  {
    if ws != [] {
      var init, last := ws[..|ws| - 1], ws[|ws| - 1];
      assert ws == init + [last];
      DropBracketsMembers(init);
    }
  }

  /** Filtering distributes over concatenation, so relative order is kept. */
  lemma {:induction false} DropBracketsAppend(xs: seq<string>, ys: seq<string>)
    ensures DropBrackets(xs + ys) == DropBrackets(xs) + DropBrackets(ys)
    decreases |ys|
  {
    if ys != [] {
      var zs, init, last := xs + ys, ys[..|ys| - 1], ys[|ys| - 1];
      assert zs[..|zs| - 1] == xs + init;
      assert zs[|zs| - 1] == last;
      DropBracketsAppend(xs, init);
      if IsBracket(last) {
        assert DropBrackets(zs) == DropBrackets(xs + init);
        assert DropBrackets(ys) == DropBrackets(init);
      } else {
        assert DropBrackets(zs) == DropBrackets(xs + init) + [last];
        assert DropBrackets(ys) == DropBrackets(init) + [last];
      }
    } else {
      assert xs + ys == xs;
    }
  }

  /** A list without bracket tokens passes through unchanged. */
  lemma {:induction false} DropBracketsKeeps(ws: seq<string>)
    requires forall k :: 0 <= k < |ws| ==> !IsBracket(ws[k])
    ensures DropBrackets(ws) == ws
    decreases |ws|
  {
    if ws != [] {
      DropBracketsKeeps(ws[..|ws| - 1]);
      assert ws == ws[..|ws| - 1] + [ws[|ws| - 1]];
    }
  }

  /** The token list of one parse-tree column. */
  function Tokens(column: string): seq<string> {
    DropBrackets(Split(column, ' '))
  }

  /** A column written as space-separated fields yields exactly those fields,
      brackets removed and every other field (even an empty one) kept in order. */
  lemma TokensOfFields(fields: seq<string>)
    requires |fields| >= 1
    requires forall k :: 0 <= k < |fields| ==> ' ' !in fields[k]
    ensures Tokens(Join(fields, ' ')) == DropBrackets(fields)
  {
    JoinSplit(fields, ' ');
  }

  /** The columns of a line: trailing white space stripped, then split at tabs. */
  function Columns(line: string): (cols: seq<string>)
    ensures |cols| >= 1
  {
    Split(RStrip(line), '\t')
  }

  /** Whether the line at position `idx` of a file is a record (the header
      and lines labelled "-" are not). */
  predicate Retained(idx: nat, line: string) {
    idx != 0 && Columns(line)[0] != "-"
  }

  /** The record comprehensions of `build_word_set` and `load` (label not
      yet looked up). */
  function ParseRecord(idx: nat, line: string): (r: Result<Option<Record>>)
    ensures r == Success(None) <==> !Retained(idx, line)
    ensures r.Failure? <==> Retained(idx, line) && |Columns(line)| < 3
    ensures r.Failure? ==> r.error == MissingColumn
    ensures r.Success? && r.value.Some? ==>
      var cols := Columns(line);
      && r.value.value.gold == cols[0]
      && r.value.value.premise == Tokens(cols[1])
      && r.value.value.hypothesis == Tokens(cols[2])
  {
    if idx == 0 then Success(None)
    else
      var cols := Columns(line);
      if cols[0] == "-" then Success(None)
      else if |cols| < 3 then Failure(MissingColumn)
      else Success(Some(Record(cols[0], Tokens(cols[1]), Tokens(cols[2]))))
  }

  /** The label lookup `load` applies to a parsed line: a record becomes an
      example with the class of its label, a skip stays a skip, and a
      failure, or a label `label_dict` lacks, is a failure. */
  function ExampleOf(p: Result<Option<Record>>): (r: Result<Option<Example>>)
    ensures r == Success(None) <==> p == Success(None)
    ensures r.Failure? <==> p.Failure? || (p.value.Some? && LabelIndex(p.value.value.gold).Failure?)
    ensures r.Failure? ==> r.error == if p.Failure? then p.error else UnknownLabel(p.value.value.gold)
    ensures r.Success? && r.value.Some? ==>
      && p.Success? && p.value.Some?
      && r.value.value == Example(p.value.value.premise, p.value.value.hypothesis, LabelIndex(p.value.value.gold).value)
      && r.value.value.y < NumClasses
  {
    match p
    case Failure(e) => Failure(e)
    case Success(None) => Success(None)
    case Success(Some(rec)) =>
      match LabelIndex(rec.gold)
      case Failure(e) => Failure(e)
      case Success(y) => Success(Some(Example(rec.premise, rec.hypothesis, y)))
  }

  /** The per-line work of `load` before the accumulator runs: parse, then
      map the label. */
  function ParseExample(idx: nat, line: string): (r: Result<Option<Example>>)
    ensures r == Success(None) <==> !Retained(idx, line)
    ensures r.Failure? <==>
      Retained(idx, line) && (|Columns(line)| < 3 || LabelIndex(Columns(line)[0]).Failure?)
    ensures r.Success? && r.value.Some? ==>
      && r.value.value.y < NumClasses
      && LabelIndex(Columns(line)[0]) == Success(r.value.value.y)
      && ParseRecord(idx, line) == Success(Some(Record(Columns(line)[0], r.value.value.premise, r.value.value.hypothesis)))
  {
    ExampleOf(ParseRecord(idx, line))
  }

  datatype Option<T> = None | Some(value: T)
}
