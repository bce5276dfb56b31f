/** Small vocabulary shared by the modules: Java's null as an absent value, and
    the size of the three-element HashSet the code builds to compare names and
    words. */
module Common {

  datatype Option<+T> = None | Some(value: T)

  /** A set built from three values has three members exactly when the values
      are pairwise different. */
  lemma ThreeDistinct<T>(a: T, b: T, c: T)
    ensures |{a, b, c}| == 3 <==> a != b && b != c && a != c
  {
    if a == b || b == c || a == c {
      assert {a, b, c} == {a, c} || {a, b, c} == {a, b};
    } else {
      assert {a, b, c} == {a, b} + {c};
    }
  }
}
