/** Facts about sets and sequences that several modules need. */
module Collections {

  lemma {:induction false} SubsetSize<T>(a: set<T>, b: set<T>)
    requires a <= b
    ensures |a| <= |b|
  {
    if a != {} {
      var x :| x in a;
      SubsetSize(a - {x}, b - {x});
    }
  }

  lemma ConsAppend<T>(e: T, s: seq<T>, t: seq<T>)
    ensures [e] + (s + t) == ([e] + s) + t
  {
  }
}
