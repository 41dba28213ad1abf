/**
 What was written, in order, each write marked with whether the handler under proof sent it or
 someone else did. An earlier log stands for the instant at which it was all there was.
 */
module Logs {
  datatype Log<W> = Begin | Then(before: Log<W>, write: W, own: bool)

  /** `a` is `b` at an earlier instant, or the same one. */
  predicate Continues<W(==)>(a: Log<W>, b: Log<W>) {
    a == b || (b.Then? && Continues(a, b.before))
  }

  /** The handler's own writes. */
  function Own<W>(log: Log<W>): seq<W> {
    match log
    case Begin => []
    case Then(before, write, own) => Own(before) + if own then [write] else []
  }

  lemma {:induction false} ContinuesTransitive<W>(a: Log<W>, b: Log<W>, c: Log<W>)
    requires Continues(a, b) && Continues(b, c)
    ensures Continues(a, c)
    decreases c
  {
    if b != c {
      ContinuesTransitive(a, b, c.before);
    }
  }

  /** Own writes are only ever added. */
  lemma {:induction false} OwnGrows<W>(a: Log<W>, b: Log<W>)
    requires Continues(a, b)
    ensures Own(a) <= Own(b)
    decreases b
  {
    if a != b {
      OwnGrows(a, b.before);
    }
  }
}
