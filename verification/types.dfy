/**
 * The shared result record of the analyzer (types.ts) and the small
 * Option wrapper the rest of the model uses for "absent" values.
 */
module Types {

  /** The conventional Some/None datatype, used for nullable values. */
  datatype Option<+T> = None | Some(value: T)

  /**
   * A score in basis points: 0.95 is 9500, 1.0 is 10000. Fixed-point keeps
   * every comparison and threshold of the source exact.
   */
  type Score = nat

  /**
   * One `{label, score}` record, as produced by the classifier or the
   * fallback. `label` is a Dafny keyword, so the field is called `name`.
   */
  datatype AnalysisResult = AnalysisResult(name: string, score: Score)

  /** True iff no label occurs twice in `rs`. */
  predicate UniqueLabels(rs: seq<AnalysisResult>) {
    forall i, j :: 0 <= i < j < |rs| ==> rs[i].name != rs[j].name
  }

  /** True iff some record of `rs` carries the label `name`. */
  predicate HasLabel(rs: seq<AnalysisResult>, name: string) {
    exists i :: 0 <= i < |rs| && rs[i].name == name
  }
}
