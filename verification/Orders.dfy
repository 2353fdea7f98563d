/** The comparators the containers are parameterised by. */
module Orders {

  /** `lt` compares, and values it does not tell apart are interchangeable. */
  ghost predicate StrictWeakOrder<T(!new)>(lt: (T, T) -> bool) {
    && (forall x :: !lt(x, x))
    && (forall x, y, z :: lt(x, y) && lt(y, z) ==> lt(x, z))
    && (forall x, y, z :: !lt(x, y) && !lt(y, z) ==> !lt(x, z))
  }

  predicate Equivalent<T>(lt: (T, T) -> bool, x: T, y: T) {
    !lt(x, y) && !lt(y, x)
  }

  ghost predicate StrictlyAscending<T>(lt: (T, T) -> bool, s: seq<T>) {
    forall i, j :: 0 <= i < j < |s| ==> lt(s[i], s[j])
  }

  datatype Option<+T> = None | Some(value: T)

  /** `v` may be taken first: it is there and nothing there precedes it. */
  ghost predicate First<T>(lt: (T, T) -> bool, v: T, s: multiset<T>) {
    v in s && forall x :: x in s ==> !lt(x, v)
  }
}
