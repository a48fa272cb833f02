/** Iterable helpers of jamjam/iter.py: `ordered_set`, the two-queue lazy
    `split`, and `gather` over consecutive runs. Iterables are modelled as
    finite sequences, predicates and key functions as total Dafny functions. */
module Iter {
  import opened Wrappers
  import opened Seqs

  // ---------------------------------------------------------------------
  // ordered_set
  // ---------------------------------------------------------------------

  /** Position of the first occurrence of `x` in `xs`. */
  function FirstIndex<T(==)>(xs: seq<T>, x: T): (i: nat)
    requires x in xs
    ensures i < |xs| && xs[i] == x && x !in xs[..i]
  {
    if xs[0] == x then 0 else 1 + FirstIndex(xs[1..], x)
  }

  /** `dict.fromkeys(xs, 0).keys()`: the distinct elements of `xs`; a key
      keeps the position of its first insertion. */
  function OrderedSet<T(==)>(xs: seq<T>): (r: seq<T>)
    ensures forall i, j :: 0 <= i < j < |r| ==> r[i] != r[j]
    ensures forall i :: 0 <= i < |xs| ==> xs[i] in r
    ensures forall i :: 0 <= i < |r| ==> r[i] in xs
  {
    if xs == [] then []
    else
      var init := xs[..|xs| - 1];
      var r := OrderedSet(init);
      var x := xs[|xs| - 1];
      assert forall i :: 0 <= i < |init| ==> xs[i] == init[i];
      if x in r then r else r + [x]
  }

  lemma {:induction false} FirstIndexPrefix<T>(xs: seq<T>, ys: seq<T>, x: T)
    requires x in xs
    ensures FirstIndex(xs + ys, x) == FirstIndex(xs, x)
  {
    if xs[0] != x {
      assert (xs + ys)[1..] == xs[1..] + ys;
      FirstIndexPrefix(xs[1..], ys, x);
    }
  }

  lemma FirstIndexLast<T>(init: seq<T>, x: T)
    requires x !in init
    ensures FirstIndex(init + [x], x) == |init|
  {
  }

  /** The elements of `ordered_set(xs)` come in the order of their first
      occurrence in `xs`. */
  lemma {:induction false} OrderedSetFirstOccurrenceOrder<T>(xs: seq<T>)
    ensures forall i, j :: 0 <= i < j < |OrderedSet(xs)| ==>
      FirstIndex(xs, OrderedSet(xs)[i]) < FirstIndex(xs, OrderedSet(xs)[j])
  {
    if xs != [] {
      var init, x := xs[..|xs| - 1], xs[|xs| - 1];
      assert xs == init + [x];
      OrderedSetFirstOccurrenceOrder(init);
      var r0 := OrderedSet(init);
      var r := OrderedSet(xs);
      assert r == if x in r0 then r0 else r0 + [x];
      forall i, j | 0 <= i < j < |r|
        ensures FirstIndex(xs, r[i]) < FirstIndex(xs, r[j])
      {
        assert r[i] == r0[i] && r0[i] in init;
        FirstIndexPrefix(init, [x], r0[i]);
        if j < |r0| {
          assert r[j] == r0[j] && r0[j] in init;
          FirstIndexPrefix(init, [x], r0[j]);
          assert FirstIndex(init, r0[i]) < FirstIndex(init, r0[j]);
        } else {
          // r[j] is x, new in this prefix: its first occurrence is the last position
          assert r[j] == x && x !in init;
          FirstIndexLast(init, x);
          assert FirstIndex(init, r0[i]) < |init|;
        }
      }
    }
  }

  // ---------------------------------------------------------------------
  // split
  // ---------------------------------------------------------------------

  /** The elements `x` of `xs` with `pred(x) == side`, in input order:
      `Keep(pred, true, xs)` is what the first iterator of `split` yields,
      `Keep(pred, false, xs)` what the second yields. */
  function Keep<T>(pred: T -> bool, side: bool, xs: seq<T>): (r: seq<T>)
  {
    if xs == [] then []
    else Keep(pred, side, xs[..|xs| - 1]) + (if pred(xs[|xs| - 1]) == side then [xs[|xs| - 1]] else [])
  }

  /** Everything `Keep` selects is on the requested side. */
  lemma {:induction false} KeepSide<T>(pred: T -> bool, side: bool, xs: seq<T>)
    ensures forall i :: 0 <= i < |Keep(pred, side, xs)| ==> pred(Keep(pred, side, xs)[i]) == side
  {
    if xs != [] {
      KeepSide(pred, side, xs[..|xs| - 1]);
    }
  }

  lemma KeepSnoc<T>(pred: T -> bool, side: bool, xs: seq<T>, x: T)
    ensures Keep(pred, side, xs + [x]) == Keep(pred, side, xs) + (if pred(x) == side then [x] else [])
  {
    assert (xs + [x])[..|xs|] == xs;
  }

  /** The two sides of `split` partition the input: every element is on
      exactly one side, so nothing is lost or duplicated. */
  lemma {:induction false} KeepPartition<T>(pred: T -> bool, xs: seq<T>)
    ensures multiset(Keep(pred, true, xs)) + multiset(Keep(pred, false, xs)) == multiset(xs)
  {
    if xs != [] {
      var init, x := xs[..|xs| - 1], xs[|xs| - 1];
      assert xs == init + [x];
      KeepPartition(pred, init);
      KeepSnoc(pred, true, init, x);
      KeepSnoc(pred, false, init, x);
    }
  }

  /** The state shared by the two generators returned by `split(it, pred)`:
      the source iterator (a sequence and a cursor) and the two deques.
      The ghost fields record what each side has yielded so far. */
  class Splitter<T> {
    const source: seq<T>
    const pred: T -> bool
    var pos: nat
    var goodQ: seq<T>
    var badQ: seq<T>
    ghost var goodOut: seq<T>
    ghost var badOut: seq<T>

    /** The deque of the side `side` (True is the good side). */
    function Queue(side: bool): seq<T>
      reads this
    {
      if side then goodQ else badQ
    }

    /** What the side `side` has yielded so far. */
    ghost function Out(side: bool): seq<T>
      reads this
    {
      if side then goodOut else badOut
    }

    /** Every pulled element was either yielded by a side or is waiting in
        that side's deque, in input order; at most one deque is non-empty. */
    ghost predicate Valid()
      reads this
    {
      && pos <= |source|
      && goodOut + goodQ == Keep(pred, true, source[..pos])
      && badOut + badQ == Keep(pred, false, source[..pos])
      && (goodQ == [] || badQ == [])
    }

    /** `split(it, pred)` before either iterator is advanced. */
    constructor (it: seq<T>, p: T -> bool)
      ensures Valid()
      ensures source == it && pred == p && pos == 0
      ensures goodQ == [] && badQ == [] && goodOut == [] && badOut == []
    {
      source, pred := it, p;
      pos := 0;
      goodQ, badQ := [], [];
      goodOut, badOut := [], [];
    }

    /** `yield ours.popleft()`. */
    method PopOwn(side: bool) returns (v: T)
      requires Valid() && Queue(side) != []
      modifies this
      ensures Valid() && pos == old(pos)
      ensures v == old(Queue(side))[0] && Queue(side) == old(Queue(side))[1..]
      ensures Queue(!side) == old(Queue(!side))
      ensures pred(v) == side
      ensures Out(side) == old(Out(side)) + [v] && Out(!side) == old(Out(!side))
    {
      v := Queue(side)[0];
      assert pred(v) == side by {
        KeepSide(pred, side, source[..pos]);
        assert Out(side) + Queue(side) == Keep(pred, side, source[..pos]);
        assert v == (Out(side) + Queue(side))[|Out(side)|];
      }
      if side {
        goodQ, goodOut := goodQ[1..], goodOut + [v];
      } else {
        badQ, badOut := badQ[1..], badOut + [v];
      }
    }

    /** `v = next(iterator)` on an empty own deque, then either yield `v`
        (`mine`) or `theirs.append(v)`. */
    method Pull(side: bool) returns (v: T, mine: bool)
      requires Valid() && Queue(side) == [] && pos < |source|
      modifies this
      ensures Valid() && pos == old(pos) + 1
      ensures v == source[old(pos)] && mine == (pred(v) == side)
      ensures Queue(side) == []
      ensures Queue(!side) == old(Queue(!side)) + (if mine then [] else [v])
      ensures Out(side) == old(Out(side)) + (if mine then [v] else [])
      ensures Out(!side) == old(Out(!side))
    {
      v := source[pos];
      assert source[..pos + 1] == source[..pos] + [v];
      KeepSnoc(pred, true, source[..pos], v);
      KeepSnoc(pred, false, source[..pos], v);
      pos := pos + 1;
      mine := pred(v) == side;
      if mine {
        if side {
          goodOut := goodOut + [v];
        } else {
          badOut := badOut + [v];
        }
      } else {
        if side {
          badQ := badQ + [v];
        } else {
          goodQ := goodQ + [v];
        }
      }
    }

    /** One `next()` on the generator `splitter(ours, theirs, side=side)`:
        drain our own deque first; otherwise pull from the source, yielding
        an element of our side and queueing the others for the other side. */
    method Next(side: bool) returns (r: Option<T>)
      requires Valid()
      modifies this
      ensures Valid()
      ensures old(pos) <= pos
      ensures old(Queue(side)) != [] ==>
        r == Some(old(Queue(side))[0]) && pos == old(pos)
        && Queue(side) == old(Queue(side))[1..] && Queue(!side) == old(Queue(!side))
      ensures old(Queue(side)) == [] ==>
        Queue(side) == [] && Queue(!side) == old(Queue(!side)) + Keep(pred, !side, source[old(pos)..pos])
      ensures r.Some? ==> pred(r.value) == side && Out(side) == old(Out(side)) + [r.value]
      ensures r.Some? ==> |source| - pos + |Queue(side)| < old(|source| - pos + |Queue(side)|)
      ensures r.None? ==> pos == |source| && Queue(side) == []
      ensures r.None? ==> Out(side) == old(Out(side)) && Out(side) == Keep(pred, side, source)
      ensures Out(!side) == old(Out(!side))
    {
      // the source's `while True`: its first turn may pop our own deque
      if Queue(side) != [] {
        var v := PopOwn(side);
        return Some(v);
      }
      r := PullUntilOwn(side);
      if r.None? {
        assert source[..pos] == source;
      }
    }

    /** The rest of the generator's `while True` once our own deque is
        empty: pulling only ever appends to their deque, so every turn pulls
        a new element until one of our side turns up or the source ends. */
    method PullUntilOwn(side: bool) returns (r: Option<T>)
      requires Valid() && Queue(side) == []
      modifies this
      ensures Valid() && Queue(side) == []
      ensures old(pos) <= pos
      ensures Queue(!side) == old(Queue(!side)) + Keep(pred, !side, source[old(pos)..pos])
      ensures r.Some? ==> pos > old(pos) && pred(r.value) == side && Out(side) == old(Out(side)) + [r.value]
      ensures r.None? ==> pos == |source| && Out(side) == old(Out(side))
      ensures Out(!side) == old(Out(!side))
    {
      ghost var p0, theirs0, mine0, other0 := pos, Queue(!side), Out(side), Out(!side);
      while pos < |source|
        invariant Valid() && Queue(side) == []
        invariant p0 <= pos
        invariant Out(side) == mine0 && Out(!side) == other0
        invariant Queue(!side) == theirs0 + Keep(pred, !side, source[p0..pos])
      {
        ghost var before := pos;
        var v, mine := Pull(side);
        assert source[p0..pos] == source[p0..before] + [v];
        KeepSnoc(pred, !side, source[p0..before], v);
        if mine {
          return Some(v);
        }
      }
      return None;
    }

    /** `next(goods)`. */
    method NextGood() returns (r: Option<T>)
      requires Valid()
      modifies this
      ensures Valid() && old(pos) <= pos
      ensures r.Some? ==> pred(r.value) && goodOut == old(goodOut) + [r.value]
      ensures r.Some? ==> |source| - pos + |goodQ| < old(|source| - pos + |goodQ|)
      ensures r.None? ==> goodOut == old(goodOut) && goodOut == Keep(pred, true, source)
      ensures r.None? ==> pos == |source| && goodQ == []
      ensures badOut == old(badOut)
    {
      r := Next(true);
    }

    /** `next(bads)`. */
    method NextBad() returns (r: Option<T>)
      requires Valid()
      modifies this
      ensures Valid() && old(pos) <= pos
      ensures r.Some? ==> !pred(r.value) && badOut == old(badOut) + [r.value]
      ensures r.Some? ==> |source| - pos + |badQ| < old(|source| - pos + |badQ|)
      ensures r.None? ==> badOut == old(badOut) && badOut == Keep(pred, false, source)
      ensures r.None? ==> pos == |source| && badQ == []
      ensures goodOut == old(goodOut)
    {
      r := Next(false);
    }

    /** However the two sides have been interleaved, the pulled prefix of
        the source is exactly what has been yielded plus what is queued. */
    lemma Conservation()
      requires Valid()
      ensures multiset(goodOut + goodQ) + multiset(badOut + badQ) == multiset(source[..pos])
    {
      KeepPartition(pred, source[..pos]);
    }
  }

  /** `goods, bads = split(it, pred)` followed by `list(goods)` and then
      `list(bads)`: the first list holds exactly the elements satisfying
      `pred` and the second the rest, each in input order. */
  method SplitToLists<T>(it: seq<T>, pred: T -> bool) returns (goods: seq<T>, bads: seq<T>)
    ensures goods == Keep(pred, true, it)
    ensures bads == Keep(pred, false, it)
  {
    var s := new Splitter(it, pred);
    goods, bads := [], [];
    var r := s.NextGood();
    while r.Some?
      invariant s.Valid() && s.source == it && s.pred == pred
      invariant s.goodOut == goods + (if r.Some? then [r.value] else [])
      invariant r.None? ==> s.goodOut == Keep(pred, true, it)
      invariant s.badOut == []
      decreases |s.source| - s.pos + |s.goodQ| + (if r.Some? then 1 else 0)
    {
      goods := goods + [r.value];
      r := s.NextGood();
    }
    r := s.NextBad();
    while r.Some?
      invariant s.Valid() && s.source == it && s.pred == pred
      invariant s.badOut == bads + (if r.Some? then [r.value] else [])
      invariant r.None? ==> s.badOut == Keep(pred, false, it)
      decreases |s.source| - s.pos + |s.badQ| + (if r.Some? then 1 else 0)
    {
      bads := bads + [r.value];
      r := s.NextBad();
    }
  }

  /** The values of the test list `[0, 1, False, True, "", " "]`, with
      Python truthiness (the default `pred=bool`). */
  datatype PyValue = PyInt(i: int) | PyBool(b: bool) | PyStr(s: string)

  function Truthy(v: PyValue): (t: bool)
    ensures v.PyInt? ==> (t <==> v.i != 0)
    ensures v.PyStr? ==> (t <==> v.s != "")
  {
    match v
    case PyInt(i) => i != 0
    case PyBool(b) => b
    case PyStr(s) => |s| > 0
  }

  /** With the default predicate `bool`, split separates truthy from falsy
      values (the test of jamjam/_tests/test_iter.py). */
  lemma DefaultSplitExample()
    ensures var xs := [PyInt(0), PyInt(1), PyBool(false), PyBool(true), PyStr(""), PyStr(" ")];
      Keep(Truthy, true, xs) == [PyInt(1), PyBool(true), PyStr(" ")]
      && Keep(Truthy, false, xs) == [PyInt(0), PyBool(false), PyStr("")]
  {
    var p0: seq<PyValue> := [];
    var p1 := p0 + [PyInt(0)];
    var p2 := p1 + [PyInt(1)];
    var p3 := p2 + [PyBool(false)];
    var p4 := p3 + [PyBool(true)];
    var p5 := p4 + [PyStr("")];
    var p6 := p5 + [PyStr(" ")];
    assert !Truthy(PyInt(0)) && Truthy(PyInt(1)) && !Truthy(PyBool(false)) && Truthy(PyBool(true));
    assert Truthy(PyStr(" ")) && !Truthy(PyStr(""));
    KeepSnoc(Truthy, true, p0, PyInt(0));
    KeepSnoc(Truthy, false, p0, PyInt(0));
    KeepSnoc(Truthy, true, p1, PyInt(1));
    KeepSnoc(Truthy, false, p1, PyInt(1));
    KeepSnoc(Truthy, true, p2, PyBool(false));
    KeepSnoc(Truthy, false, p2, PyBool(false));
    KeepSnoc(Truthy, true, p3, PyBool(true));
    KeepSnoc(Truthy, false, p3, PyBool(true));
    KeepSnoc(Truthy, true, p4, PyStr(""));
    KeepSnoc(Truthy, false, p4, PyStr(""));
    KeepSnoc(Truthy, true, p5, PyStr(" "));
    KeepSnoc(Truthy, false, p5, PyStr(" "));
    assert p6 == [PyInt(0), PyInt(1), PyBool(false), PyBool(true), PyStr(""), PyStr(" ")];
  }

  // ---------------------------------------------------------------------
  // gather
  // ---------------------------------------------------------------------

  /** Every element of the run has the key `k`. */
  ghost predicate SameKey<T, K>(run: seq<T>, key: T -> K, k: K)
  {
    forall x :: x in run ==> key(x) == k
  }

  /** `itertools.groupby(xs, key)`: the maximal runs of consecutive elements
      with equal keys. */
  function Runs<T, K(==)>(xs: seq<T>, key: T -> K): (rs: seq<seq<T>>)
    ensures Concat(rs) == xs
    ensures forall i :: 0 <= i < |rs| ==> rs[i] != [] && SameKey(rs[i], key, key(rs[i][0]))
    ensures forall i :: 0 < i < |rs| ==> key(rs[i - 1][0]) != key(rs[i][0])
  {
    if xs == [] then []
    else
      var init, x := xs[..|xs| - 1], xs[|xs| - 1];
      assert xs == init + [x];
      var rs := Runs(init, key);
      if rs != [] && key(rs[|rs| - 1][0]) == key(x) then
        RunsExtend(rs, x, key);
        rs[..|rs| - 1] + [rs[|rs| - 1] + [x]]
      else
        RunsStart(rs, x, key);
        rs + [[x]]
  }

  /** An element with the last run's key joins that run. */
  lemma RunsExtend<T, K>(rs: seq<seq<T>>, x: T, key: T -> K)
    requires rs != [] && rs[|rs| - 1] != [] && key(rs[|rs| - 1][0]) == key(x)
    requires forall i :: 0 <= i < |rs| ==> rs[i] != [] && SameKey(rs[i], key, key(rs[i][0]))
    requires forall i :: 0 < i < |rs| ==> key(rs[i - 1][0]) != key(rs[i][0])
    ensures var rs' := rs[..|rs| - 1] + [rs[|rs| - 1] + [x]];
      && Concat(rs') == Concat(rs) + [x]
      && (forall i :: 0 <= i < |rs'| ==> rs'[i] != [] && SameKey(rs'[i], key, key(rs'[i][0])))
      && (forall i :: 0 < i < |rs'| ==> key(rs'[i - 1][0]) != key(rs'[i][0]))
  {
    var init, last := rs[..|rs| - 1], rs[|rs| - 1];
    var rs' := init + [last + [x]];
    assert rs == init + [last];
    ConcatSnoc(init, last);
    ConcatSnoc(init, last + [x]);
    assert forall i :: 0 <= i < |init| ==> rs'[i] == rs[i];
  }

  /** An element with another key starts a run of its own. */
  lemma RunsStart<T, K>(rs: seq<seq<T>>, x: T, key: T -> K)
    requires rs != [] ==> rs[|rs| - 1] != [] && key(rs[|rs| - 1][0]) != key(x)
    requires forall i :: 0 <= i < |rs| ==> rs[i] != [] && SameKey(rs[i], key, key(rs[i][0]))
    requires forall i :: 0 < i < |rs| ==> key(rs[i - 1][0]) != key(rs[i][0])
    ensures var rs' := rs + [[x]];
      && Concat(rs') == Concat(rs) + [x]
      && (forall i :: 0 <= i < |rs'| ==> rs'[i] != [] && SameKey(rs'[i], key, key(rs'[i][0])))
      && (forall i :: 0 < i < |rs'| ==> key(rs'[i - 1][0]) != key(rs'[i][0]))
  {
    ConcatSnoc(rs, [x]);
  }

  /** The dict comprehension over runs: later runs overwrite earlier ones. */
  function GatherRuns<T, K, R>(rs: seq<seq<T>>, key: T -> K, into: seq<T> -> R): map<K, R>
    requires forall i :: 0 <= i < |rs| ==> rs[i] != []
  {
    if rs == [] then map[]
    else GatherRuns(rs[..|rs| - 1], key, into)[key(rs[|rs| - 1][0]) := into(rs[|rs| - 1])]
  }

  /** `gather(xs, key, into)`. */
  function Gather<T, K(==), R>(xs: seq<T>, key: T -> K, into: seq<T> -> R): map<K, R>
  {
    GatherRuns(Runs(xs, key), key, into)
  }

  lemma {:induction false} GatherRunsKeys<T, K, R>(rs: seq<seq<T>>, key: T -> K, into: seq<T> -> R)
    requires forall i :: 0 <= i < |rs| ==> rs[i] != [] && SameKey(rs[i], key, key(rs[i][0]))
    ensures GatherRuns(rs, key, into).Keys == set x | x in Concat(rs) :: key(x)
  {
    if rs != [] {
      var init, last := rs[..|rs| - 1], rs[|rs| - 1];
      GatherRunsKeys(init, key, into);
      assert Concat(rs) == Concat(init) + last;
      assert (set x | x in last :: key(x)) == {key(last[0])};
    }
  }

  /** The keys of `gather`'s result are exactly the distinct keys of the input. */
  lemma GatherKeys<T, K, R>(xs: seq<T>, key: T -> K, into: seq<T> -> R)
    ensures Gather(xs, key, into).Keys == set x | x in xs :: key(x)
  {
    GatherRunsKeys(Runs(xs, key), key, into);
  }

  lemma {:induction false} GatherRunsLast<T, K, R>(rs: seq<seq<T>>, key: T -> K, into: seq<T> -> R, i: nat)
    requires forall j :: 0 <= j < |rs| ==> rs[j] != []
    requires i < |rs|
    requires forall j :: i < j < |rs| ==> key(rs[j][0]) != key(rs[i][0])
    ensures key(rs[i][0]) in GatherRuns(rs, key, into)
    ensures GatherRuns(rs, key, into)[key(rs[i][0])] == into(rs[i])
  {
    if i < |rs| - 1 {
      GatherRunsLast(rs[..|rs| - 1], key, into, i);
    }
  }

  /** Each key of `gather`'s result maps to the value built from the LAST run
      with that key: a run that recurs overwrites the earlier one. */
  lemma GatherLastRunWins<T, K, R>(xs: seq<T>, key: T -> K, into: seq<T> -> R, i: nat)
    requires i < |Runs(xs, key)|
    requires forall j :: i < j < |Runs(xs, key)| ==> key(Runs(xs, key)[j][0]) != key(Runs(xs, key)[i][0])
    ensures key(Runs(xs, key)[i][0]) in Gather(xs, key, into)
    ensures Gather(xs, key, into)[key(Runs(xs, key)[i][0])] == into(Runs(xs, key)[i])
  {
    GatherRunsLast(Runs(xs, key), key, into, i);
  }
}
