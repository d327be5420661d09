/** What the two blocking queues have in common. */
module Queues {

  /** A mutex. */
  datatype Owner = Free | HeldBy(thread: nat)

  /** The elements returned by calls, without the threads that made them. */
  function Elements<T>(rs: seq<(nat, T)>): seq<T> {
    seq(|rs|, i requires 0 <= i < |rs| => rs[i].1)
  }

  lemma ElementsSnoc<T>(rs: seq<(nat, T)>, r: (nat, T))
    ensures Elements(rs + [r]) == Elements(rs) + [r.1]
  {
  }

  /** The elements of one thread, in order. */
  function By<T>(rs: seq<(nat, T)>, t: nat): seq<T> {
    if rs == [] then []
    else By(rs[..|rs| - 1], t) + if rs[|rs| - 1].0 == t then [rs[|rs| - 1].1] else []
  }

  lemma BySnoc<T>(rs: seq<(nat, T)>, r: (nat, T), t: nat)
    ensures By(rs + [r], t) == By(rs, t) + if r.0 == t then [r.1] else []
  {
    assert (rs + [r])[..|rs|] == rs;
  }
}
