/** The per-row loop of `get_instances`: skip rows with a missing sentence,
    skip rows with an unknown label, count every accepted label in
    `weights`, reject over-long rows in three-way mode (taking their count
    back), and emit a pair-form instance for the rest. */
module Instances {
  import opened Wrappers
  import opened PySlice
  import opened Seqs
  import opened Rows

  /** What the loop reads from the dataset object: the mode, its
      `label_factory`, `max_length`, and the tokenizer (its `tokenize`
      followed by `convert_tokens_to_ids`), an arbitrary function from text
      to token ids. */
  datatype Env = Env(mode: Mode, factory: map<string, int>, maxLength: int, tokenize: string -> seq<int>)

  /** The emitted instances and the per-label counts (`self.weights`). */
  datatype Output = Output(instances: seq<Instance>, weights: map<string, int>)

  /** `sentence_and_cut`: tokenize, then keep `tokens[:max_length]`. */
  function SentenceAndCut(env: Env, s: string): (ids: seq<int>)
    ensures ids <= env.tokenize(s)
    ensures env.maxLength >= 0 ==> |ids| <= env.maxLength
    ensures env.maxLength >= 0 && |ids| < env.maxLength ==> ids == env.tokenize(s)
  {
    TakePrefix(env.tokenize(s), env.maxLength)
  }

  /** The three-way length check: `len1 + 2 >= max_length`, where `len1` is
      the untruncated token count of `sentence1`. */
  predicate TooLong(env: Env, sentence1: string) {
    env.mode == ThreeWay && |env.tokenize(sentence1)| + 2 >= env.maxLength
  }

  /** The rows the loop emits an instance for. */
  predicate Kept(env: Env, row: Row) {
    && row.sentence1.Some? && row.sentence2.Some?
    && row.labelCell.Some? && row.labelCell.value in env.factory
    && !TooLong(env, row.sentence1.value)
  }

  /** The instance emitted for a kept row. */
  function Emit(env: Env, row: Row): Instance
    requires Kept(env, row)
  {
    Instance(SentenceAndCut(env, row.sentence1.value), SentenceAndCut(env, row.sentence2.value),
             env.factory[row.labelCell.value])
  }

  /** `Kept` as a filter predicate. */
  function KeptBy(env: Env): Row -> bool {
    r => Kept(env, r)
  }

  /** The rows that lead to an instance, in loop order. */
  function Survivors(env: Env, rows: seq<Row>): (kept: seq<Row>)
    ensures forall i :: 0 <= i < |kept| ==> Kept(env, kept[i])
  {
    var kept := Filter(rows, KeptBy(env));
    assert forall i :: 0 <= i < |kept| ==> kept[i] in kept && KeptBy(env)(kept[i]);
    kept
  }

  /** The instances of a sequence of kept rows, one each, in order. */
  function EmitAll(env: Env, kept: seq<Row>): (xs: seq<Instance>)
    requires forall i :: 0 <= i < |kept| ==> Kept(env, kept[i])
    ensures |xs| == |kept|
  {
    if kept == [] then [] else [Emit(env, kept[0])] + EmitAll(env, kept[1..])
  }

  lemma {:induction false} EmitAllPointwise(env: Env, kept: seq<Row>)
    requires forall i :: 0 <= i < |kept| ==> Kept(env, kept[i])
    ensures forall i :: 0 <= i < |kept| ==> EmitAll(env, kept)[i] == Emit(env, kept[i])
    decreases |kept|
  {
    if kept != [] {
      EmitAllPointwise(env, kept[1..]);
    }
  }

  /** The label column of a sequence of rows. */
  function Labels(rows: seq<Row>): seq<Option<string>> {
    seq(|rows|, i requires 0 <= i < |rows| => rows[i].labelCell)
  }

  /** `weights` before the loop: zero for every key of `label_factory`. */
  function InitialWeights(factory: map<string, int>): (w: map<string, int>)
    ensures w.Keys == factory.Keys
    ensures forall l :: l in w ==> w[l] == 0
  {
    map l | l in factory.Keys :: 0
  }

  /** One iteration of the loop, statement by statement. A missing label is
      NaN, which is never a key, so `self.weights[label] += 1` raises
      `KeyError` before it takes effect. The row is accepted exactly when it
      is `Kept`, and only then does anything change: a row with a missing
      sentence, an unknown label or (three-way) a too-long `sentence1`
      leaves the instances and every count as they were. */
  function Step(env: Env, acc: Output, row: Row): (next: Output)
    requires acc.weights.Keys == env.factory.Keys
    ensures Kept(env, row) ==>
      next == Output(acc.instances + [Emit(env, row)],
                     acc.weights[row.labelCell.value := acc.weights[row.labelCell.value] + 1])
    ensures !Kept(env, row) ==> next == acc
  {
    if row.sentence1.None? || row.sentence2.None? then acc
    else if row.labelCell.None? || row.labelCell.value !in acc.weights then acc
    else
      var l := row.labelCell.value;
      var weights := acc.weights[l := acc.weights[l] + 1];
      if env.mode == ThreeWay && |env.tokenize(row.sentence1.value)| + 2 >= env.maxLength then
        Output(acc.instances, weights[l := weights[l] - 1])
      else
        var x := Instance(SentenceAndCut(env, row.sentence1.value), SentenceAndCut(env, row.sentence2.value),
                          env.factory[l]);
        Output(acc.instances + [x], weights)
  }

  /** The loop `for row in rows`, from a given state. */
  function Run(env: Env, rows: seq<Row>, acc: Output): (out: Output)
    requires acc.weights.Keys == env.factory.Keys
    ensures out.weights.Keys == acc.weights.Keys
    decreases |rows|
  {
    if rows == [] then acc else Run(env, rows[1..], Step(env, acc, rows[0]))
  }

  lemma LabelsAppend(a: seq<Row>, b: seq<Row>)
    ensures Labels(a + b) == Labels(a) + Labels(b)
  {
  }

  lemma SurvivorsCons(env: Env, rows: seq<Row>)
    requires rows != []
    ensures Survivors(env, rows) == (if Kept(env, rows[0]) then [rows[0]] else []) + Survivors(env, rows[1..])
  {
    assert KeptBy(env)(rows[0]) == Kept(env, rows[0]);
  }

  /** The loop agrees with the reference definition on instances: it
      appends one instance per surviving row, in order. */
  lemma {:induction false} RunInstances(env: Env, rows: seq<Row>, acc: Output)
    requires acc.weights.Keys == env.factory.Keys
    ensures Run(env, rows, acc).instances == acc.instances + EmitAll(env, Survivors(env, rows))
    decreases |rows|
  {
    if rows == [] {
      assert Survivors(env, rows) == [];
    } else {
      RunInstances(env, rows[1..], Step(env, acc, rows[0]));
      SurvivorsCons(env, rows);
      if Kept(env, rows[0]) {
        RunInstancesKept(env, rows, acc);
      } else {
        assert Step(env, acc, rows[0]) == acc;
        assert Survivors(env, rows) == Survivors(env, rows[1..]);
        assert Run(env, rows, acc) == Run(env, rows[1..], acc);
      }
    }
  }

  lemma RunInstancesKept(env: Env, rows: seq<Row>, acc: Output)
    requires rows != [] && Kept(env, rows[0])
    requires acc.weights.Keys == env.factory.Keys
    requires Survivors(env, rows) == [rows[0]] + Survivors(env, rows[1..])
    requires Run(env, rows[1..], Step(env, acc, rows[0])).instances
          == Step(env, acc, rows[0]).instances + EmitAll(env, Survivors(env, rows[1..]))
    ensures Run(env, rows, acc).instances == acc.instances + EmitAll(env, Survivors(env, rows))
  {
    var tail := Survivors(env, rows[1..]);
    var x := Emit(env, rows[0]);
    RunCons(env, rows, acc);
    EmitAllCons(env, rows[0], tail);
    Associate(acc.instances, [x], EmitAll(env, tail));
  }

  lemma RunCons(env: Env, rows: seq<Row>, acc: Output)
    requires rows != [] && Kept(env, rows[0])
    requires acc.weights.Keys == env.factory.Keys
    ensures Run(env, rows, acc) == Run(env, rows[1..], Step(env, acc, rows[0]))
    ensures Step(env, acc, rows[0]).instances == acc.instances + [Emit(env, rows[0])]
  {
  }

  lemma EmitAllCons(env: Env, row: Row, tail: seq<Row>)
    requires Kept(env, row)
    requires forall i :: 0 <= i < |tail| ==> Kept(env, tail[i])
    ensures EmitAll(env, [row] + tail) == [Emit(env, row)] + EmitAll(env, tail)
  {
    assert ([row] + tail)[1..] == tail;
  }

  lemma Associate<T>(a: seq<T>, b: seq<T>, c: seq<T>)
    ensures a + b + c == a + (b + c)
  {
  }

  /** The loop agrees with the reference definition on counts: each count
      rises by the number of surviving rows carrying that label. */
  lemma {:induction false} RunWeights(env: Env, rows: seq<Row>, acc: Output)
    requires acc.weights.Keys == env.factory.Keys
    ensures forall l :: l in acc.weights ==>
      Run(env, rows, acc).weights[l] == acc.weights[l] + multiset(Labels(Survivors(env, rows)))[Some(l)]
    decreases |rows|
  {
    if rows != [] {
      var row, rest := rows[0], rows[1..];
      var next := Step(env, acc, row);
      RunWeights(env, rest, next);
      var head := if Kept(env, row) then [row] else [];
      SurvivorsCons(env, rows);
      LabelsAppend(head, Survivors(env, rest));
      var rel := Labels(head);
      assert rel == if Kept(env, row) then [row.labelCell] else [];
      forall l | l in acc.weights
        ensures next.weights[l] == acc.weights[l] + multiset(rel)[Some(l)]
      {
      }
    }
  }

  /** `get_instances` after the rows are ordered: the instances are those of
      the surviving rows, one each, in order, each carrying
      `label_factory[label]` of its row; `weights[l]` is the number of
      emitted instances whose row is labelled `l`, for every key `l` of
      `label_factory` and no other. */
  function Process(env: Env, rows: seq<Row>): (out: Output)
    ensures out.instances == EmitAll(env, Survivors(env, rows))
    ensures forall i :: 0 <= i < |out.instances| ==>
      out.instances[i].code == env.factory[Survivors(env, rows)[i].labelCell.value]
    ensures out.weights.Keys == env.factory.Keys
    ensures forall l :: l in out.weights ==> out.weights[l] == multiset(Labels(Survivors(env, rows)))[Some(l)]
  {
    RunInstances(env, rows, Output([], InitialWeights(env.factory)));
    EmitAllPointwise(env, Survivors(env, rows));
    RunWeights(env, rows, Output([], InitialWeights(env.factory)));
    Run(env, rows, Output([], InitialWeights(env.factory)))
  }

  /** The survivors are the rows at exactly the positions where `Kept`
      holds, in their original order: the instances form a subsequence of
      the ordered rows. */
  lemma SurvivorsKeepOrder(env: Env, rows: seq<Row>)
    ensures Embeds(Survivors(env, rows), rows, FilterIndices(rows, KeptBy(env)))
    ensures forall i :: 0 <= i < |rows| ==> (i in FilterIndices(rows, KeptBy(env)) <==> Kept(env, rows[i]))
  {
    FilterIsSubsequence(rows, KeptBy(env));
  }

  /** In three-way mode a row with both sentences and a known label is
      dropped exactly when its `sentence1` has at least `max_length - 2`
      tokens; `sentence2` plays no part. */
  lemma ThreeWayLengthRejection(env: Env, rows: seq<Row>, i: int)
    requires env.mode == ThreeWay && 0 <= i < |rows|
    requires rows[i].sentence1.Some? && rows[i].sentence2.Some?
    requires rows[i].labelCell.Some? && rows[i].labelCell.value in env.factory
    ensures i in FilterIndices(rows, KeptBy(env)) <==> |env.tokenize(rows[i].sentence1.value)| + 2 < env.maxLength
    ensures forall s2 :: Kept(env, rows[i].(sentence2 := Some(s2))) == Kept(env, rows[i])
  {
    SurvivorsKeepOrder(env, rows);
  }

  /** Three-way instances carry `sentence1` untruncated, since a row long
      enough to be cut is rejected first; every token sequence is a prefix
      of its untruncated tokenization and, for a non-negative `max_length`,
      at most that long. */
  lemma InstanceTokens(env: Env, rows: seq<Row>)
    ensures |Process(env, rows).instances| == |Survivors(env, rows)|
    ensures forall i :: 0 <= i < |Survivors(env, rows)| ==>
      var row, x := Survivors(env, rows)[i], Process(env, rows).instances[i];
      && x.tokens1 <= env.tokenize(row.sentence1.value)
      && x.tokens2 <= env.tokenize(row.sentence2.value)
      && (env.maxLength >= 0 ==> |x.tokens1| <= env.maxLength && |x.tokens2| <= env.maxLength)
      && (env.mode == ThreeWay ==> x.tokens1 == env.tokenize(row.sentence1.value) && |x.tokens1| + 2 < env.maxLength)
  {
    var kept := Survivors(env, rows);
    EmitAllPointwise(env, kept);
    forall i | 0 <= i < |kept|
      ensures Process(env, rows).instances[i] == Emit(env, kept[i])
    {
    }
  }

  /** The label column of a sequence of instances. */
  function Codes(xs: seq<Instance>): seq<int> {
    seq(|xs|, i requires 0 <= i < |xs| => xs[i].code)
  }

  lemma {:induction false} LabelCountIsCodeCount(env: Env, kept: seq<Row>, l: string)
    requires forall i :: 0 <= i < |kept| ==> Kept(env, kept[i])
    requires l in env.factory && DistinctCodes(env.factory)
    ensures multiset(Labels(kept))[Some(l)] == multiset(Codes(EmitAll(env, kept)))[env.factory[l]]
    decreases |kept|
  {
    if kept != [] {
      var rest := kept[1..];
      LabelCountIsCodeCount(env, rest, l);
      assert Labels(kept) == [kept[0].labelCell] + Labels(rest);
      assert EmitAll(env, kept) == [Emit(env, kept[0])] + EmitAll(env, rest);
      assert Codes(EmitAll(env, kept)) == [Emit(env, kept[0]).code] + Codes(EmitAll(env, rest));
      var f := env.factory;
      assert kept[0].labelCell == Some(l) <==> f[kept[0].labelCell.value] == f[l];
    }
  }

  /** The counts can be read off the emitted instances alone: `weights[l]`
      is the number of instances whose code is `label_factory[l]`. */
  lemma WeightsCountEmittedCodes(env: Env, rows: seq<Row>)
    requires DistinctCodes(env.factory)
    ensures forall l :: l in Process(env, rows).weights ==>
      Process(env, rows).weights[l] == multiset(Codes(Process(env, rows).instances))[env.factory[l]]
  {
    var out := Process(env, rows);
    forall l | l in out.weights
      ensures out.weights[l] == multiset(Codes(out.instances))[env.factory[l]]
    {
      LabelCountIsCodeCount(env, Survivors(env, rows), l);
    }
  }
}
