/** Small shared vocabulary: the failure-free Option type. */
module Common {

  datatype Option<+T> = None | Some(value: T)

  /** True when no element of `xs` occurs twice. */
  ghost predicate Distinct<T>(xs: seq<T>) {
    forall i, j :: 0 <= i < j < |xs| ==> xs[i] != xs[j]
  }
}
