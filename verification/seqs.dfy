/** Small facts about list concatenation that proofs elsewhere chain together. */
module Seqs {

  /** The empty list is neutral for concatenation. */
  lemma AppendNil<T>(a: seq<T>)
    ensures a + [] == a && [] + a == a
  {
  }

  /** Equality of lists chains. */
  lemma Chain<T>(a: seq<T>, b: seq<T>, c: seq<T>)
    requires a == b && b == c
    ensures a == c
  {
  }

  /** Concatenation is associative. */
  lemma AppendAssoc<T>(a: seq<T>, b: seq<T>, c: seq<T>)
    ensures (a + b) + c == a + (b + c)
  {
  }

  /** Appending to a non-empty list keeps its head and appends to its tail. */
  lemma ConsAppend<T>(a: seq<T>, b: seq<T>)
    requires a != []
    ensures (a + b)[0] == a[0] && (a + b)[1..] == a[1..] + b
  {
  }

  /** An empty part drops out of a right-nested concatenation. */
  lemma SkipEmpty<T>(a: seq<T>, e: seq<T>, b: seq<T>, c: seq<T>, d: seq<T>)
    requires e == []
    ensures a + (e + (b + (c + d))) == a + ((b + c) + d)
  {
    AppendAssoc(b, c, d);
  }
}
