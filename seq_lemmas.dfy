/** Small facts about sequence concatenation that the proofs of the trace use. */
module SeqLemmas {
  lemma AppendAssoc<T>(a: seq<T>, b: seq<T>, c: seq<T>)
    ensures (a + b) + c == a + (b + c)
  {
  }

  /** One more element extends a sequence that was `prefix + done` without `done`'s last element. */
  lemma Extend<T>(prefix: seq<T>, t: seq<T>, done: seq<T>, c: T)
    requires |done| > 0 && done[|done| - 1] == c && t == prefix + done[..|done| - 1]
    ensures t + [c] == prefix + done
  {
    assert done == done[..|done| - 1] + [c];
  }
}
