/** Worked cases of the row pipeline, for a tokenizer known only through
    the token counts each case needs. */
module Scenarios {
  import opened Wrappers
  import opened Rows
  import opened Instances

  const Premise: string := "A man is running."
  const Hypothesis: string := "A man is outdoors."

  /** An entailment pair becomes one instance coded 0 in three-way mode and
      1 in signed mode, counted once under "entailment". */
  lemma EntailmentPair(mode: Mode, tokenize: string -> seq<int>)
    requires |tokenize(Premise)| + 2 < 512
    ensures var out := Process(Env(mode, LabelFactory(mode), 512, tokenize), [Row(Some(Premise), Some(Hypothesis), Some(Entailment))]);
      && |out.instances| == 1
      && out.instances[0].code == (if mode == ThreeWay then 0 else 1)
      && out.weights == map[Entailment := 1, Contradiction := 0, Neutral := 0]
  {
    var env := Env(mode, LabelFactory(mode), 512, tokenize);
    var row := Row(Some(Premise), Some(Hypothesis), Some(Entailment));
    assert Kept(env, row);
    assert Survivors(env, [row]) == [row];
    assert Labels([row]) == [Some(Entailment)];
    LabelFactoryDecodes(mode);
  }

  /** A pair whose `sentence2` is missing leaves no instance and no count. */
  lemma MissingHypothesis(mode: Mode, tokenize: string -> seq<int>)
    ensures Process(Env(mode, LabelFactory(mode), 512, tokenize), [Row(Some(Premise), None, Some(Entailment))])
         == Output([], map[Entailment := 0, Contradiction := 0, Neutral := 0])
  {
    var env := Env(mode, LabelFactory(mode), 512, tokenize);
    var row := Row(Some(Premise), None, Some(Entailment));
    assert Survivors(env, [row]) == [];
    LabelFactoryDecodes(mode);
  }

  /** Three-way mode with `max_length` 10: a `sentence1` of 9 tokens is
      rejected (9 + 2 >= 10) and its count is taken back. */
  lemma OverLongPremise(tokenize: string -> seq<int>)
    requires |tokenize(Premise)| == 9
    ensures Process(Env(ThreeWay, LabelFactory(ThreeWay), 10, tokenize), [Row(Some(Premise), Some(Hypothesis), Some(Contradiction))])
         == Output([], map[Entailment := 0, Contradiction := 0, Neutral := 0])
  {
    var env := Env(ThreeWay, LabelFactory(ThreeWay), 10, tokenize);
    var row := Row(Some(Premise), Some(Hypothesis), Some(Contradiction));
    assert !Kept(env, row);
    assert Survivors(env, [row]) == [];
    LabelFactoryDecodes(ThreeWay);
  }
}
