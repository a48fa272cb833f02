/** Sequence helpers shared by several modules. */
module Seqs {

  /** Flattening a sequence of sequences (`itertools.chain`). */
  function Concat<T>(rs: seq<seq<T>>): seq<T>
  {
    if rs == [] then [] else Concat(rs[..|rs| - 1]) + rs[|rs| - 1]
  }

  lemma ConcatSnoc<T>(rs: seq<seq<T>>, r: seq<T>)
    ensures Concat(rs + [r]) == Concat(rs) + r
  {
    assert (rs + [r])[..|rs|] == rs;
  }

  /** Flattening distributes over putting one more sequence in front. */
  lemma {:induction false} ConcatCons<T>(r: seq<T>, rs: seq<seq<T>>)
    ensures Concat([r] + rs) == r + Concat(rs)
  {
    if rs != [] {
      var init, last := rs[..|rs| - 1], rs[|rs| - 1];
      assert rs == init + [last];
      assert [r] + rs == ([r] + init) + [last];
      ConcatCons(r, init);
      ConcatSnoc([r] + init, last);
      ConcatSnoc(init, last);
    } else {
      ConcatSnoc([], r);
    }
  }
}
