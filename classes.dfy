/** jamjam/classes.py: the `Singleton` base class (one instance per class,
    kept in the class attribute `_self` and found through the method
    resolution order), the `mk_repr` formatter and `auto_batch`. */
module Classes {
  import opened Strings
  import opened Wrappers

  // ---------------------------------------------------------------------
  // Classes and their instances
  // ---------------------------------------------------------------------

  /** A class, by identity. */
  type ClassId = nat

  /** A class hierarchy: each class's method resolution order, itself
      first. Python refuses cyclic inheritance, so a class that appears in
      another's MRO never has that other class in its own, unless the two
      are one. */
  predicate Hierarchy(h: map<ClassId, seq<ClassId>>)
  {
    forall c | c in h ::
      && h[c] != [] && h[c][0] == c
      && forall a | a in h[c] :: a in h && (c in h[a] ==> a == c)
  }

  /** An object; `cls` is `type(self)`. */
  class Instance {
    const cls: ClassId

    constructor (c: ClassId)
      ensures cls == c
    {
      cls := c;
    }
  }

  /** `isinstance(o, c)`: `c` is in the MRO of `type(o)`. */
  predicate IsInstance(h: map<ClassId, seq<ClassId>>, o: Instance, c: ClassId)
  {
    o.cls in h && c in h[o.cls]
  }

  // ---------------------------------------------------------------------
  // Singleton
  // ---------------------------------------------------------------------

  /** The `_self` class attributes of every subclass of `Singleton`.
      `own` holds the attributes set on a class itself; a class without
      one inherits the first one along its MRO, and `Singleton` itself
      starts out with `None`. */
  class SingletonCache {
    const h: map<ClassId, seq<ClassId>>
    var own: map<ClassId, Instance>

    /** Every cached instance was made by, and is exactly of, the class that
        holds it. */
    ghost predicate Valid()
      reads this
    {
      && Hierarchy(h)
      && forall c | c in own :: c in h && own[c].cls == c
    }

    constructor (hierarchy: map<ClassId, seq<ClassId>>)
      requires Hierarchy(hierarchy)
      ensures Valid() && h == hierarchy && own == map[]
    {
      h := hierarchy;
      own := map[];
    }

    /** `cls._self`: the first class along `mro` that has its own `_self`,
        and where it is in `mro`. */
    function Lookup(mro: seq<ClassId>): (r: Option<(nat, Instance)>)
      reads this
      ensures r.Some? ==> r.value.0 < |mro| && mro[r.value.0] in own && own[mro[r.value.0]] == r.value.1
      ensures r.Some? ==> forall j :: 0 <= j < r.value.0 ==> mro[j] !in own
      ensures r.None? <==> forall j :: 0 <= j < |mro| ==> mro[j] !in own
    {
      if mro == [] then None
      else if mro[0] in own then Some((0, own[mro[0]]))
      else match Lookup(mro[1..])
        case None => None
        case Some((i, o)) => Some((i + 1, o))
    }

    /** The inherited `_self` of class `c` is an instance of `c` exactly when
        `c` has its own. */
    lemma LookupOwn(c: ClassId)
      requires Valid() && c in h
      ensures var r := Lookup(h[c]);
        (r.Some? && IsInstance(h, r.value.1, c)) <==> c in own
      ensures c in own ==> Lookup(h[c]) == Some((0, own[c]))
    {
      var r := Lookup(h[c]);
      if r.Some? && IsInstance(h, r.value.1, c) {
        var a := h[c][r.value.0];
        assert a in h[c] && c in h[a];
      }
    }

    /** `Singleton.__new__(cls)`: reuse `cls._self` when it is an instance
        of `cls`, otherwise create one and store it on `cls` itself. */
    method New(c: ClassId) returns (o: Instance)
      requires Valid() && c in h
      modifies this
      ensures Valid()
      ensures o.cls == c
      ensures c in old(own) ==> o == old(own)[c] && own == old(own)
      ensures c !in old(own) ==> fresh(o) && own == old(own)[c := o]
    {
      LookupOwn(c);
      var found := Lookup(h[c]);
      if found.Some? && IsInstance(h, found.value.1, c) {
        o := found.value.1;
      } else {
        o := new Instance(c);
        own := own[c := o];
      }
    }

    /** `Singleton.is_(v)`: `cls() is v`. */
    method Is(c: ClassId, v: Instance) returns (b: bool)
      requires Valid() && c in h
      modifies this
      ensures Valid() && c in own
      ensures own.Keys == old(own).Keys + {c}
      ensures forall k | k in old(own) :: own[k] == old(own)[k]
      ensures b <==> v == own[c]
    {
      var o := New(c);
      b := o == v;
    }
  }

  /** The behaviour of tests/jamjam/test_clsutils.py's `test_singleton`:
      each class always gives back its one instance, and two different
      classes, even a class and its subclass, never share one. */
  method SingletonInstances(cache: SingletonCache, a: ClassId, b: ClassId)
      returns (a1: Instance, a2: Instance, b1: Instance)
    requires cache.Valid() && a in cache.h && b in cache.h && a != b
    modifies cache
    ensures a1 == a2 && a1 != b1
    ensures a1.cls == a && b1.cls == b
  {
    a1 := cache.New(a);
    a2 := cache.New(a);
    b1 := cache.New(b);
  }

  /** `Singleton.__repr__`: `<Qualname>`. */
  function SingletonRepr(qualname: string): string
  {
    "<" + qualname + ">"
  }

  /** The repr brackets the class's qualified name, which can be read back
      from it. */
  lemma SingletonReprReadsBack(qualname: string)
    ensures var r := SingletonRepr(qualname);
      |r| == |qualname| + 2 && r[0] == '<' && r[|r| - 1] == '>' && r[1..|r| - 1] == qualname
  {
  }

  // ---------------------------------------------------------------------
  // mk_repr
  // ---------------------------------------------------------------------

  /** A keyword argument as `mk_repr` shows it: `name=value`. */
  function KwdItem(kv: (string, string)): string
  {
    kv.0 + "=" + kv.1
  }

  function KwdItems(kwds: seq<(string, string)>): (items: seq<string>)
    ensures |items| == |kwds|
    ensures forall i :: 0 <= i < |kwds| ==> items[i] == KwdItem(kwds[i])
  {
    if kwds == [] then [] else [KwdItem(kwds[0])] + KwdItems(kwds[1..])
  }

  /** `sep.join([*map(str, args), *(f"{k}={v}" for k, v in kwds)])`, the
      body both `mk_repr` and `easy_repr` put between the parentheses.
      `args` are the positional arguments already passed through `str`, and
      `kwds` the keyword arguments in the order given. */
  function ReprBody(sep: string, args: seq<string>, kwds: seq<(string, string)>): string
  {
    Join(sep, args + KwdItems(kwds))
  }

  /** `mk_repr(v, *args, **kwds)`, where `qualname` is the qualified name of
      the type of `v`. */
  function MkRepr(qualname: string, args: seq<string>, kwds: seq<(string, string)>): string
  {
    qualname + "(" + ReprBody(", ", args, kwds) + ")"
  }

  /** With no arguments, the repr is `Qualname()`. */
  lemma MkReprNoArgs(qualname: string)
    ensures MkRepr(qualname, [], []) == qualname + "()"
  {
  }

  /** All positional arguments come before all keyword arguments, with one
      separator between the two groups. */
  lemma ReprBodyOrder(sep: string, args: seq<string>, kwds: seq<(string, string)>)
    requires args != [] && kwds != []
    ensures ReprBody(sep, args, kwds) == Join(sep, args) + sep + Join(sep, KwdItems(kwds))
  {
    JoinAppend(sep, args, KwdItems(kwds));
  }

  /** The length of the body: every item, plus one separator between each
      pair of items. */
  lemma ReprBodyLength(sep: string, args: seq<string>, kwds: seq<(string, string)>)
    requires args != [] || kwds != []
    ensures |ReprBody(sep, args, kwds)|
      == SumLengths(args + KwdItems(kwds)) + |sep| * (|args| + |kwds| - 1)
  {
    JoinLength(sep, args + KwdItems(kwds));
  }

  /** The items of the call `f("", 1, 2, hello=3, world=4)`. */
  lemma ExampleItems()
    ensures ["1", "2"] + KwdItems([("hello", "3"), ("world", "4")]) == ["1", "2", "hello=3", "world=4"]
  {
    var kwds := [("hello", "3"), ("world", "4")];
    assert kwds[1..] == [("world", "4")] && kwds[1..][1..] == [];
    assert KwdItem(("hello", "3")) == "hello=3";
    assert KwdItem(("world", "4")) == "world=4";
    assert KwdItems(kwds[1..]) == ["world=4"] + KwdItems([]);
  }

  /** tests/jamjam/test_clsutils.py: `mk_repr("", 1, 2, hello=3, world=4)`. */
  lemma MkReprExample()
    ensures MkRepr("str", ["1", "2"], [("hello", "3"), ("world", "4")])
      == "str(1, 2, hello=3, world=4)"
  {
    ExampleItems();
    JoinFour(", ", "1", "2", "hello=3", "world=4");
  }

  // ---------------------------------------------------------------------
  // auto_batch
  // ---------------------------------------------------------------------

  /** `enum.auto()`: a placeholder whose value the enum machinery assigns. */
  datatype Auto = Auto

  /** What `auto_batch` returns: one iterator of placeholders, or one per
      argument. */
  datatype Batch = Flat(items: seq<Auto>) | Grouped(groups: seq<seq<Auto>>)

  /** `(auto() for _ in range(n))`. */
  function Autos(n: int): seq<Auto>
  {
    if n <= 0 then [] else Autos(n - 1) + [Auto]
  }

  function AutoGroups(ns: seq<int>): seq<seq<Auto>>
  {
    if ns == [] then [] else [Autos(ns[0])] + AutoGroups(ns[1..])
  }

  /** `auto_batch(n, *args)`. */
  function AutoBatch(n: int, args: seq<int>): Batch
  {
    if args == [] then Flat(Autos(n)) else Grouped(AutoGroups([n] + args))
  }

  /** `range(n)` yields `n` items, or none when `n` is not positive. */
  lemma {:induction false} AutosCount(n: int)
    ensures |Autos(n)| == if n <= 0 then 0 else n
  {
    if n > 0 {
      AutosCount(n - 1);
    }
  }

  lemma {:induction false} AutoGroupsCount(ns: seq<int>)
    ensures |AutoGroups(ns)| == |ns|
    ensures forall k :: 0 <= k < |ns| ==>
      |AutoGroups(ns)[k]| == if ns[k] <= 0 then 0 else ns[k]
  {
    if ns != [] {
      AutoGroupsCount(ns[1..]);
      AutosCount(ns[0]);
    }
  }

  /** `auto_batch(n)` yields exactly `n` placeholders, none when `n` is not
      positive. */
  lemma AutoBatchFlat(n: int)
    ensures AutoBatch(n, []).Flat? && |AutoBatch(n, []).items| == if n <= 0 then 0 else n
  {
    AutosCount(n);
  }

  /** `auto_batch(n, m, ...)` yields one group per argument, each as long
      as its argument, or empty for an argument that is not positive. */
  lemma AutoBatchGroups(n: int, args: seq<int>)
    requires |args| > 0
    ensures var b := AutoBatch(n, args);
      && b.Grouped? && |b.groups| == |args| + 1
      && |b.groups[0]| == (if n <= 0 then 0 else n)
      && forall k :: 0 <= k < |args| ==> |b.groups[k + 1]| == if args[k] <= 0 then 0 else args[k]
  {
    var ns := [n] + args;
    AutoGroupsCount(ns);
    assert forall k :: 0 <= k < |args| ==> ns[k + 1] == args[k];
  }
}
