/** The entities of the NLI dataset: a CSV row, an emitted instance, and the
    two label encodings selected by the `dpsa` flag. */
module Rows {
  import opened Wrappers

  /** One row of the CSV table; `labelCell` is its `label` column. A `None`
      cell is pandas' missing value (NaN), which is what an empty CSV cell is
      read as. */
  datatype Row = Row(sentence1: Option<string>, sentence2: Option<string>, labelCell: Option<string>)

  /** A pair-form instance: the two truncated token-id sequences and the
      encoded label `code` (a Python float holding a small integer). */
  datatype Instance = Instance(tokens1: seq<int>, tokens2: seq<int>, code: int)

  /** `Signed` is `dpsa` true (`bert_mnli` false); `ThreeWay` is `bert_mnli`. */
  datatype Mode = Signed | ThreeWay

  const Entailment: string := "entailment"
  const Contradiction: string := "contradiction"
  const Neutral: string := "neutral"

  /** `bert_mnli = not config.get("dpsa", True)`. */
  function ModeOf(dpsa: Option<bool>): (m: Mode)
    ensures m == ThreeWay <==> dpsa == Some(false)
  {
    if dpsa.GetOr(true) then Signed else ThreeWay
  }

  /** `label_factory`. Signed mode keeps a `neutral` key (code 0) although
      its rows are dropped before any instance is built. */
  function LabelFactory(m: Mode): map<string, int> {
    match m
    case Signed => map[Entailment := 1, Contradiction := -1, Neutral := 0]
    case ThreeWay => map[Entailment := 0, Contradiction := 1, Neutral := 2]
  }

  /** No two labels share a code. */
  predicate DistinctCodes(f: map<string, int>) {
    forall a, b :: a in f && b in f && f[a] == f[b] ==> a == b
  }

  /** The label string a code stands for, searched in a fixed key order. */
  function DecodeLabel(m: Mode, code: int): Option<string> {
    var f := LabelFactory(m);
    if f[Entailment] == code then Some(Entailment)
    else if f[Contradiction] == code then Some(Contradiction)
    else if f[Neutral] == code then Some(Neutral)
    else None
  }

  /** Both encodings have the same three keys and give them distinct codes:
      an instance's label determines its row's label. Signed mode sends
      entailment to 1 and contradiction to -1; three-way mode sends
      entailment, contradiction, neutral to 0, 1, 2. */
  lemma LabelFactoryDecodes(m: Mode)
    ensures LabelFactory(m).Keys == {Entailment, Contradiction, Neutral}
    ensures DistinctCodes(LabelFactory(m))
    ensures forall l :: l in LabelFactory(m) ==> DecodeLabel(m, LabelFactory(m)[l]) == Some(l)
    ensures forall c: int, l :: DecodeLabel(m, c) == Some(l) ==> l in LabelFactory(m) && LabelFactory(m)[l] == c
    ensures m == Signed ==> LabelFactory(m)[Entailment] == 1 && LabelFactory(m)[Contradiction] == -1
    ensures m == ThreeWay ==> LabelFactory(m)[Entailment] == 0 && LabelFactory(m)[Contradiction] == 1
                              && LabelFactory(m)[Neutral] == 2
  {
  }
}
