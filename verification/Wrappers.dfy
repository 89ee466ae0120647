/** Small helpers shared by the modules below. */
module Wrappers {

  datatype Option<+T> = None | Some(value: T)

  /** Some member of a set, always the same one. */
  ghost function Pick<T>(s: set<T>): (x: T)
    requires exists y :: y in s
    ensures x in s
  {
    var y :| y in s; y
  }

  lemma SubsetSize<T>(a: set<T>, b: set<T>)
    requires a <= b
    ensures |a| <= |b| && |b - a| == |b| - |a|
  {
    assert (b - a) + a == b;
  }
}
