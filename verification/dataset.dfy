/** `NLIDataset`: the constructor (label mode, neutral pre-filter, sample
    count, maximum length, eager materialisation) and `get_instances`
    (ordering followed by the per-row loop). */
module Dataset {
  import opened Wrappers
  import opened Seqs
  import opened StableSort
  import opened Rows
  import opened Ordering
  import opened Instances

  /** The configuration keys the constructor reads. The data paths are
      replaced by the rows read from them. */
  datatype Config = Config(
    trainNSamples: int,
    valNSamples: int,
    dpsa: Option<bool>,
    maxLength: Option<int>,
    inMemory: Option<bool>)

  const DefaultMaxLength: int := 512

  /** `self.data` after the constructor: the instances with their counts
      when `in_memory`, otherwise the (pre-filtered) rows, left for lazy
      access. */
  datatype Contents =
    | Materialized(instances: seq<Instance>, weights: map<string, int>)
    | Unmaterialized(rows: seq<Row>)

  datatype NLIDataset = NLIDataset(mode: Mode, nSamples: Option<int>, maxLength: int, contents: Contents)

  predicate NotNeutral(r: Row) {
    r.labelCell != Some(Neutral)
  }

  /** `self.data[self.data["label"] != "neutral"]`, applied in signed mode
      only. A missing label is not equal to "neutral", so its row stays. */
  function PreFilter(m: Mode, rows: seq<Row>): (data: seq<Row>)
    ensures m == ThreeWay ==> data == rows
    ensures m == Signed ==> forall r :: r in data ==> r in rows && NotNeutral(r)
  {
    if m == Signed then Filter(rows, NotNeutral) else rows
  }

  /** The signed-mode pre-filter keeps exactly the rows not labelled
      "neutral", in their order. */
  lemma PreFilterKeepsOtherRows(rows: seq<Row>)
    ensures Embeds(PreFilter(Signed, rows), rows, FilterIndices(rows, NotNeutral))
    ensures forall i :: 0 <= i < |rows| ==> (i in FilterIndices(rows, NotNeutral) <==> rows[i].labelCell != Some(Neutral))
  {
    FilterIsSubsequence(rows, NotNeutral);
  }

  /** `get_instances(df, shuffle, group_by_size)`. It fails only when the
      size sort meets a missing `sentence1`; otherwise its instances and
      counts are those of the loop over the ordered rows. */
  function GetInstances(env: Env, rows: seq<Row>, shuffled: seq<Row>, n: Option<int>, shuffle: bool, groupBySize: bool)
    : (r: Result<Output, OrderError>)
    requires multiset(shuffled) == multiset(rows)
    ensures r.Failure? <==> groupBySize && !AllHaveSentence1(Sample(rows, shuffled, n, shuffle, groupBySize))
    ensures r.Success? ==>
      var ordered := Order(rows, shuffled, n, shuffle, groupBySize).value;
      && r.value.instances == EmitAll(env, Survivors(env, ordered))
      && r.value.weights.Keys == env.factory.Keys
      && forall l :: l in r.value.weights ==> r.value.weights[l] == multiset(Labels(Survivors(env, ordered)))[Some(l)]
  {
    var ordered :- Order(rows, shuffled, n, shuffle, groupBySize);
    Success(Process(env, ordered))
  }

  function EnvOf(config: Config, mode: Mode, tokenize: string -> seq<int>): Env {
    Env(mode, LabelFactory(mode), config.maxLength.GetOr(DefaultMaxLength), tokenize)
  }

  /** `NLIDataset(tokenizer, config, train)` over the rows of the chosen
      CSV file. The constructor calls `get_instances` with neither shuffle
      nor grouping, which cannot fail. */
  function Build(config: Config, train: bool, rows: seq<Row>, tokenize: string -> seq<int>): (d: NLIDataset)
    ensures d.mode == ThreeWay <==> config.dpsa == Some(false)
    ensures d.nSamples == NormaliseSamples(if train then config.trainNSamples else config.valNSamples)
    ensures d.nSamples.None? <==> (if train then config.trainNSamples else config.valNSamples) == -1
    ensures d.maxLength == (if config.maxLength.Some? then config.maxLength.value else 512)
    ensures d.contents.Materialized? <==> config.inMemory != Some(false)
    ensures d.contents.Materialized? ==> d.contents.weights.Keys == {Entailment, Contradiction, Neutral}
    ensures d.contents.Materialized? ==>
      GetInstances(EnvOf(config, d.mode, tokenize), PreFilter(d.mode, rows), PreFilter(d.mode, rows), d.nSamples, false, false)
        == Success(Output(d.contents.instances, d.contents.weights))
    ensures d.contents.Unmaterialized? ==> d.contents.rows == PreFilter(d.mode, rows)
  {
    var mode := ModeOf(config.dpsa);
    var n := NormaliseSamples(if train then config.trainNSamples else config.valNSamples);
    var data := PreFilter(mode, rows);
    var env := EnvOf(config, mode, tokenize);
    var contents :=
      if config.inMemory.GetOr(true) then
        var out := GetInstances(env, data, data, n, false, false).value;
        LabelFactoryDecodes(mode);
        Materialized(out.instances, out.weights)
      else
        Unmaterialized(data);
    NLIDataset(mode, n, env.maxLength, contents)
  }

  /** In signed mode no neutral row survives the constructor: its count
      stays 0, every instance is coded 1 (entailment) or -1 (contradiction),
      and a lazily kept table holds no neutral row either. */
  lemma SignedModeDropsNeutral(config: Config, train: bool, rows: seq<Row>, tokenize: string -> seq<int>)
    requires config.dpsa != Some(false)
    ensures var d := Build(config, train, rows, tokenize);
      && (d.contents.Materialized? ==>
            && d.contents.weights[Neutral] == 0
            && forall i :: 0 <= i < |d.contents.instances| ==> d.contents.instances[i].code in {1, -1})
      && (d.contents.Unmaterialized? ==> forall r :: r in d.contents.rows ==> NotNeutral(r))
  {
    var mode := ModeOf(config.dpsa);
    var n := NormaliseSamples(if train then config.trainNSamples else config.valNSamples);
    var data := PreFilter(mode, rows);
    var env := EnvOf(config, mode, tokenize);
    var ordered := Sample(data, data, n, false, false);
    var kept := Survivors(env, ordered);
    forall i | 0 <= i < |kept| ensures NotNeutral(kept[i]) {
      assert kept[i] in kept;
      assert kept[i] in ordered;
      assert ordered[..|ordered|] <= data;
    }
    assert Some(Neutral) !in Labels(kept);
    LabelFactoryDecodes(mode);
  }

  /** In three-way mode every instance is coded 0, 1 or 2. */
  lemma ThreeWayCodes(config: Config, train: bool, rows: seq<Row>, tokenize: string -> seq<int>)
    requires config.dpsa == Some(false)
    ensures var d := Build(config, train, rows, tokenize);
      d.contents.Materialized? ==>
        forall i :: 0 <= i < |d.contents.instances| ==> d.contents.instances[i].code in {0, 1, 2}
  {
    LabelFactoryDecodes(ThreeWay);
  }

  /** With a non-zero sample count the constructor builds its instances
      from the first `n_samples` rows of the (pre-filtered) table, in their
      order: the cut comes before the filtering. */
  lemma ConstructorSamplesFirstRows(config: Config, train: bool, rows: seq<Row>, tokenize: string -> seq<int>, n: nat)
    requires (if train then config.trainNSamples else config.valNSamples) == n > 0
    requires config.inMemory != Some(false)
    ensures var d := Build(config, train, rows, tokenize);
      var data := PreFilter(ModeOf(config.dpsa), rows);
      var env := EnvOf(config, ModeOf(config.dpsa), tokenize);
      d.contents.instances == EmitAll(env, Survivors(env, data[..if n <= |data| then n else |data|]))
  {
    var mode := ModeOf(config.dpsa);
    var data := PreFilter(mode, rows);
    var env := EnvOf(config, mode, tokenize);
    var ns := NormaliseSamples(n);
    assert ns == Some(n as int) && Sampled(ns) && !ShouldShuffle(false, ns, false);
    var ordered := Sample(data, data, ns, false, false);
    assert ordered == data[..if n <= |data| then n else |data|];
    assert Order(data, data, ns, false, false) == Success(ordered);
    assert GetInstances(env, data, data, ns, false, false) == Success(Process(env, ordered));
  }

  /** Whatever the sample count, an eagerly built dataset counts exactly
      what it emits: for every label of `label_factory`, its count is the
      number of instances carrying that label's code. */
  lemma ConstructorWeightsCountInstances(config: Config, train: bool, rows: seq<Row>, tokenize: string -> seq<int>)
    ensures var d := Build(config, train, rows, tokenize);
      d.contents.Materialized? ==>
        forall l :: l in d.contents.weights ==>
          d.contents.weights[l] == multiset(Codes(d.contents.instances))[LabelFactory(d.mode)[l]]
  {
    var d := Build(config, train, rows, tokenize);
    if d.contents.Materialized? {
      var data := PreFilter(d.mode, rows);
      var env := EnvOf(config, d.mode, tokenize);
      var ordered := Order(data, data, d.nSamples, false, false).value;
      LabelFactoryDecodes(d.mode);
      WeightsCountEmittedCodes(env, ordered);
      assert Output(d.contents.instances, d.contents.weights) == Process(env, ordered);
    }
  }
}
