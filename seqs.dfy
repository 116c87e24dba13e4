/** Small facts about sequences shared by the modules that build lists by appending. */
module Seqs {

  /** Appending one element after a concatenation. */
  lemma AppendAssoc<T>(s: seq<T>, t: seq<T>, x: T)
    ensures (s + t) + [x] == s + (t + [x])
  {
  }

  /** Putting one element in front of a concatenation. */
  lemma ConsAssoc<T>(x: T, s: seq<T>, t: seq<T>)
    ensures [x] + (s + t) == ([x] + s) + t
  {
  }
}
