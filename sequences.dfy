/** Facts about sequences shared by the other modules. */
module Sequences {

  /** Concatenation regroups freely; stating it once spares the solver the element-wise
      argument at every use. */
  lemma AppendAssoc<T>(a: seq<T>, b: seq<T>, c: seq<T>)
    ensures (a + b) + c == a + (b + c)
  {
  }
}
