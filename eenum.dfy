/** The enum builder of jamjam/eenum.py. While a class body runs, `Auto`
    places proto-members (transient descriptors) on it; Python names each
    one through `__set_name__`, where enumerals also take the next index
    from the class-level counter `lookup_count`. The `enum` decorator then
    replaces the proto-members: it builds each enumeral with the class's
    `_create_next_`, installs the `iter` and `__repr__` methods asked for,
    checks what is left over, seals the class and drops its counter. */
module EEnum {
  import opened Wrappers

  /** A class, by identity. */
  type OwnerId = nat

  /** The type argument of `Auto[...]`: `Self`, a class name written as a
      string, or anything else. */
  datatype Hint = SelfHint | NameHint(name: string) | OtherHint

  /** The subclass of `_ProtoMember` a proto-member is an instance of:
      `_ProtoEnumeral`, `_ProtoIter`, `_ProtoRepr`, or the base class. */
  datatype Kind = EnumeralKind | IterKind | ReprKind | PlainKind

  /** A named proto-member: its kind, the hint it was made with, the class
      and attribute name it was bound to, and (for enumerals) its index. */
  datatype Proto = Proto(kind: Kind, hint: Hint, owner: OwnerId, ownerQualname: string, name: string, index: int)

  function KindName(k: Kind): string
  {
    match k
    case EnumeralKind => "_ProtoEnumeral"
    case IterKind => "_ProtoIter"
    case ReprKind => "_ProtoRepr"
    case PlainKind => "_ProtoMember"
  }

  /** `_ProtoMember.__repr__`: `Kind(Owner.name)`. */
  function ProtoRepr(p: Proto): string
  {
    KindName(p.kind) + "(" + p.ownerQualname + "." + p.name + ")"
  }

  /** The repr names the proto-member's kind, then its owner and name in
      parentheses. */
  lemma ProtoReprShape(p: Proto)
    ensures var r := ProtoRepr(p);
      var k := |KindName(p.kind)|;
      var q := |p.ownerQualname|;
      && r[..k] == KindName(p.kind) && r[k] == '('
      && r[k + 1..k + 1 + q] == p.ownerQualname && r[k + 1 + q] == '.'
      && r[k + 2 + q..|r| - 1] == p.name && r[|r| - 1] == ')'
  {
  }

  /** `_ProtoMember.__get__`. Read from the class (`obj` is None), it gives
      the attribute the owner's parent classes had under the same name,
      captured when it was named, or raises AttributeError when there was
      none. Read from an instance, it defers to the parent classes, as
      `getattr(super(owner, obj), name)`, which raises AttributeError when
      they have no such attribute. */
  function ProtoGet<A>(p: Proto, superAttr: Option<A>, fromInstance: bool, parentAttr: Option<A>): (r: Result<A>)
    ensures !fromInstance ==> (r.Success? <==> superAttr.Some?)
    ensures fromInstance ==> (r.Success? <==> parentAttr.Some?)
    ensures r.Failure? ==> r.error.AttributeError?
  {
    if !fromInstance then
      match superAttr
      case None => Failure(AttributeError("No attribute " + p.name + "."))
      case Some(a) => Success(a)
    else
      match parentAttr
      case None => Failure(AttributeError(p.name))
      case Some(a) => Success(a)
  }

  // ---------------------------------------------------------------------
  // Naming enumerals: _ProtoEnumeral.__set_name__ and lookup_count
  // ---------------------------------------------------------------------

  /** The hint check of `__set_name__`: `Self`, or the owner's own name. */
  predicate HintAccepted(hint: Hint, ownerName: string)
  {
    hint == SelfHint || hint == NameHint(ownerName)
  }

  /** `_ProtoEnumeral.lookup_count`: for each class being defined, the index
      of the last enumeral named on it. */
  class LookupCount {
    var count: map<OwnerId, int>

    constructor ()
      ensures count == map[]
    {
      count := map[];
    }

    /** `lookup_count.get(owner, -1)`. */
    function Get(owner: OwnerId): int
      reads this
    {
      if owner in count then count[owner] else -1
    }

    /** `_ProtoEnumeral.__set_name__(owner, name)`: take the next index and
        store it in the counter, and only then check the hint, so a rejected
        enumeral still uses up its index. */
    method SetName(owner: OwnerId, ownerName: string, ownerQualname: string, name: string, hint: Hint)
        returns (r: Result<Proto>)
      modifies this
      ensures count == old(count)[owner := old(Get(owner)) + 1]
      ensures HintAccepted(hint, ownerName) ==>
        r == Success(Proto(EnumeralKind, hint, owner, ownerQualname, name, old(Get(owner)) + 1))
      ensures !HintAccepted(hint, ownerName) ==> r.Failure? && r.error.TypeError?
    {
      var index := Get(owner) + 1;
      count := count[owner := index];
      if !HintAccepted(hint, ownerName) {
        return Failure(TypeError("Type-param of Auto must be `Self` or `" + ownerName + "`."));
      }
      return Success(Proto(EnumeralKind, hint, owner, ownerQualname, name, index));
    }

    /** `del lookup_count[owner]`: KeyError when there is no entry. */
    method Delete(owner: OwnerId) returns (r: Result<()>)
      modifies this
      ensures count == old(count) - {owner}
      ensures r.Success? <==> owner in old(count)
      ensures r.Failure? ==> r.error == KeyError
    {
      if owner !in count {
        return Failure(KeyError);
      }
      count := count - {owner};
      return Success(());
    }
  }

  /** Python names the attributes of a class body in the order they were
      defined. Enumerals named on a class that has no counter yet get the
      indices 0, 1, 2, ..., and the counter ends at the last index. */
  method NameEnumerals(counts: LookupCount, owner: OwnerId, ownerName: string, ownerQualname: string,
                       names: seq<string>, hint: Hint)
      returns (protos: seq<Proto>)
    requires owner !in counts.count && HintAccepted(hint, ownerName)
    modifies counts
    ensures |protos| == |names|
    ensures forall i :: 0 <= i < |names| ==>
      protos[i] == Proto(EnumeralKind, hint, owner, ownerQualname, names[i], i)
    ensures counts.Get(owner) == |names| - 1
    ensures forall o | o != owner :: counts.Get(o) == old(counts.Get(o))
  {
    protos := [];
    var i := 0;
    while i < |names|
      invariant 0 <= i <= |names| && |protos| == i
      invariant forall j :: 0 <= j < i ==>
        protos[j] == Proto(EnumeralKind, hint, owner, ownerQualname, names[j], j)
      invariant counts.Get(owner) == i - 1
      invariant forall o | o != owner :: counts.Get(o) == old(counts.Get(o))
    {
      var r := counts.SetName(owner, ownerName, ownerQualname, names[i], hint);
      protos := protos + [r.value];
      i := i + 1;
    }
  }

  // ---------------------------------------------------------------------
  // Auto
  // ---------------------------------------------------------------------

  /** A proto-enumeral as `Auto[hint].enumeral()` makes it, before it is
      named. */
  datatype Unnamed = Unnamed(kind: Kind, hint: Hint)

  /** `Auto[hint].enumeral_list(count)`. */
  function EnumeralList(hint: Hint, count: int): seq<Unnamed>
  {
    if count <= 0 then [] else EnumeralList(hint, count - 1) + [Unnamed(EnumeralKind, hint)]
  }

  /** `Auto[hint].enumeral_batch(arg0, *args)`: one list per argument. */
  function EnumeralBatch(hint: Hint, arg0: int, args: seq<int>): seq<seq<Unnamed>>
  {
    [EnumeralList(hint, arg0)] + EnumeralLists(hint, args)
  }

  function EnumeralLists(hint: Hint, ns: seq<int>): seq<seq<Unnamed>>
  {
    if ns == [] then [] else [EnumeralList(hint, ns[0])] + EnumeralLists(hint, ns[1..])
  }

  /** `Auto[hint].enumeral_table(rows, cols)`: `enumeral_batch` with `cols`
      repeated `rows` times. With no rows the call lacks `arg0` and raises
      TypeError. */
  function EnumeralTable(hint: Hint, rows: int, cols: int): Result<seq<seq<Unnamed>>>
  {
    var args := Repeat(cols, rows);
    if args == [] then Failure(TypeError("enumeral_batch() missing 1 required positional argument: 'arg0'"))
    else Success(EnumeralBatch(hint, args[0], args[1..]))
  }

  function Repeat(x: int, n: int): (r: seq<int>)
    ensures |r| == if n <= 0 then 0 else n
    ensures forall i :: 0 <= i < |r| ==> r[i] == x
  {
    if n <= 0 then [] else Repeat(x, n - 1) + [x]
  }

  /** `enumeral_list(count)` makes `count` proto-enumerals (none for a
      count that is not positive), each with the given hint. */
  lemma {:induction false} EnumeralListCount(hint: Hint, count: int)
    ensures |EnumeralList(hint, count)| == if count <= 0 then 0 else count
    ensures forall i :: 0 <= i < |EnumeralList(hint, count)| ==>
      EnumeralList(hint, count)[i] == Unnamed(EnumeralKind, hint)
  {
    if count > 0 {
      EnumeralListCount(hint, count - 1);
    }
  }

  lemma {:induction false} EnumeralListsCount(hint: Hint, ns: seq<int>)
    ensures |EnumeralLists(hint, ns)| == |ns|
    ensures forall k :: 0 <= k < |ns| ==>
      |EnumeralLists(hint, ns)[k]| == if ns[k] <= 0 then 0 else ns[k]
  {
    if ns != [] {
      EnumeralListsCount(hint, ns[1..]);
      EnumeralListCount(hint, ns[0]);
    }
  }

  /** `enumeral_batch(n, m, ...)` makes one list per argument, as long as
      the argument, or empty for an argument that is not positive. */
  lemma EnumeralBatchCount(hint: Hint, arg0: int, args: seq<int>)
    ensures |EnumeralBatch(hint, arg0, args)| == |args| + 1
    ensures |EnumeralBatch(hint, arg0, args)[0]| == if arg0 <= 0 then 0 else arg0
    ensures forall k :: 0 <= k < |args| ==>
      |EnumeralBatch(hint, arg0, args)[k + 1]| == if args[k] <= 0 then 0 else args[k]
  {
    EnumeralListCount(hint, arg0);
    EnumeralListsCount(hint, args);
  }

  /** `enumeral_table(rows, cols)` with at least one row is a `rows` by
      `cols` table, each row empty when `cols` is not positive; with no rows
      it raises TypeError. */
  lemma EnumeralTableShape(hint: Hint, rows: int, cols: int)
    ensures rows <= 0 ==>
      EnumeralTable(hint, rows, cols).Failure? && EnumeralTable(hint, rows, cols).error.TypeError?
    ensures rows > 0 ==>
      && EnumeralTable(hint, rows, cols).Success?
      && |EnumeralTable(hint, rows, cols).value| == rows
      && forall k :: 0 <= k < rows ==>
        |EnumeralTable(hint, rows, cols).value[k]| == if cols <= 0 then 0 else cols
  {
    if rows > 0 {
      var args := Repeat(cols, rows);
      EnumeralListCount(hint, cols);
      EnumeralListsCount(hint, args[1..]);
    }
  }

  // ---------------------------------------------------------------------
  // _LookupProtoMembers
  // ---------------------------------------------------------------------

  /** The proto-members of `ms` of kind `k`, in order. */
  function OfKind(ms: seq<Proto>, k: Kind): seq<Proto>
  {
    if ms == [] then []
    else OfKind(ms[..|ms| - 1], k) + (if ms[|ms| - 1].kind == k then [ms[|ms| - 1]] else [])
  }

  /** Proto-members all of one kind form that kind's group whole, and
      none of another's. */
  lemma {:induction false} OfKindUniform(ms: seq<Proto>, k: Kind)
    requires forall i :: 0 <= i < |ms| ==> ms[i].kind == k
    ensures OfKind(ms, k) == ms
    ensures forall k' | k' != k :: OfKind(ms, k') == []
  {
    if ms != [] {
      OfKindUniform(ms[..|ms| - 1], k);
    }
  }

  /** `g` groups the proto-members `ms` by kind, as `_LookupProtoMembers`
      does: one non-empty list per kind that occurs. */
  ghost predicate GroupsOf(g: map<Kind, seq<Proto>>, ms: seq<Proto>)
  {
    forall k: Kind ::
      && (k in g ==> g[k] == OfKind(ms, k) && g[k] != [])
      && (k !in g ==> OfKind(ms, k) == [])
  }

  /** `_LookupProtoMembers`: a dict from proto-member type to the list of
      proto-members of that type. */
  class ProtoGroups {
    var groups: map<Kind, seq<Proto>>

    constructor ()
      ensures groups == map[]
    {
      groups := map[];
    }

    /** `self[type(p)].append(p)`, where reading a missing key stores and
        returns a new empty list (`setdefault`). */
    method Add(p: Proto)
      modifies this
      ensures groups == old(groups)[p.kind := (if p.kind in old(groups) then old(groups)[p.kind] else []) + [p]]
    {
      var list := if p.kind in groups then groups[p.kind] else [];
      groups := groups[p.kind := list + [p]];
    }

    /** `take(k)`: `pop(k, [])`. */
    method Take(k: Kind) returns (ps: seq<Proto>)
      modifies this
      ensures ps == if k in old(groups) then old(groups)[k] else []
      ensures groups == old(groups) - {k}
    {
      ps := if k in groups then groups[k] else [];
      groups := groups - {k};
    }
  }

  // ---------------------------------------------------------------------
  // The enumerals dict
  // ---------------------------------------------------------------------

  /** A dict, as the list of its entries in insertion order. Enumerals are
      compared with the equality of their values; the wrapped `__eq__`
      (identity, else the class's own equality) and `__hash__` are that
      equality here. */
  type Dict<V> = seq<(V, Proto)>

  function Keys<V>(d: Dict<V>): (ks: seq<V>)
    ensures |ks| == |d| && forall i :: 0 <= i < |d| ==> ks[i] == d[i].0
  {
    seq(|d|, i requires 0 <= i < |d| => d[i].0)
  }

  /** Where key `k` sits in `d`, or `|d|` when it is not there. */
  function Find<V(==)>(d: Dict<V>, k: V): (i: nat)
    ensures i <= |d|
    ensures i < |d| ==> d[i].0 == k
    ensures forall j :: 0 <= j < i ==> d[j].0 != k
  {
    if d == [] then 0 else if d[0].0 == k then 0 else 1 + Find(d[1..], k)
  }

  /** `d.get(k)`. */
  function DictGet<V(==)>(d: Dict<V>, k: V): Option<Proto>
  {
    var i := Find(d, k);
    if i < |d| then Some(d[i].1) else None
  }

  /** `d[k] = p`: a key already there keeps its place and its original key
      object and takes the new value; a new key goes at the end. */
  function DictSet<V(==)>(d: Dict<V>, k: V, p: Proto): (r: Dict<V>)
    ensures |r| == |d| || r == d + [(k, p)]
  {
    var i := Find(d, k);
    if i < |d| then d[i := (d[i].0, p)] else d + [(k, p)]
  }

  predicate DistinctKeys<V(==)>(d: Dict<V>)
  {
    forall i, j :: 0 <= i < j < |d| ==> d[i].0 != d[j].0
  }

  predicate Distinct<T(==)>(s: seq<T>)
  {
    forall i, j :: 0 <= i < j < |s| ==> s[i] != s[j]
  }

  /** The dict never holds the same key twice. */
  lemma DictSetDistinct<V>(d: Dict<V>, k: V, p: Proto)
    requires DistinctKeys(d)
    ensures DistinctKeys(DictSet(d, k, p))
    ensures Keys(DictSet(d, k, p)) == if k in Keys(d) then Keys(d) else Keys(d) + [k]
  {
    var i := Find(d, k);
    if i == |d| {
      assert k !in Keys(d);
    }
  }

  /** Looking up the key of an entry finds that entry. */
  lemma DictGetAt<V>(d: Dict<V>, i: nat)
    requires DistinctKeys(d) && i < |d|
    ensures DictGet(d, d[i].0) == Some(d[i].1)
  {
    assert Find(d, d[i].0) == i;
  }

  /** A key that is not in the dict is not found. */
  lemma DictGetMissing<V>(d: Dict<V>, k: V)
    requires k !in Keys(d)
    ensures DictGet(d, k) == None
  {
  }

  // ---------------------------------------------------------------------
  // Creating the enumerals
  // ---------------------------------------------------------------------

  /** The enumerals dict after the creation loop of `enum` over the
      proto-enumerals `ps`: each one's value is `create(index, name, prev)`,
      where `prev` is `tuple(enumerals)`, the keys made so far. */
  function Created<V(==)>(create: (int, string, seq<V>) -> V, ps: seq<Proto>): Dict<V>
  {
    if ps == [] then []
    else
      var d := Created(create, ps[..|ps| - 1]);
      var p := ps[|ps| - 1];
      DictSet(d, create(p.index, p.name, Keys(d)), p)
  }

  /** The value made for each proto-enumeral, in order. */
  function Values<V(==)>(create: (int, string, seq<V>) -> V, ps: seq<Proto>): (vs: seq<V>)
    ensures |vs| == |ps|
  {
    if ps == [] then []
    else
      var p := ps[|ps| - 1];
      Values(create, ps[..|ps| - 1]) + [create(p.index, p.name, Keys(Created(create, ps[..|ps| - 1])))]
  }

  /** `setattr(cls, p.name, value)` for each proto-enumeral in turn. */
  function Bound<V>(m: map<string, V>, ps: seq<Proto>, vs: seq<V>): map<string, V>
    requires |ps| == |vs|
  {
    if ps == [] then m
    else Bound(m, ps[..|ps| - 1], vs[..|vs| - 1])[ps[|ps| - 1].name := vs[|vs| - 1]]
  }

  predicate DistinctNames(ps: seq<Proto>)
  {
    forall i, j :: 0 <= i < j < |ps| ==> ps[i].name != ps[j].name
  }

  /** The dict has no repeated key, and it is empty only when there were no
      proto-enumerals. */
  lemma {:induction false} CreatedDistinct<V>(create: (int, string, seq<V>) -> V, ps: seq<Proto>)
    ensures DistinctKeys(Created(create, ps))
    ensures |Created(create, ps)| == 0 <==> |ps| == 0
  {
    if ps != [] {
      var d := Created(create, ps[..|ps| - 1]);
      var p := ps[|ps| - 1];
      CreatedDistinct(create, ps[..|ps| - 1]);
      DictSetDistinct(d, create(p.index, p.name, Keys(d)), p);
    }
  }

  /** The values made for a prefix of the proto-enumerals are a prefix of
      the values. */
  lemma {:induction false} ValuesPrefix<V>(create: (int, string, seq<V>) -> V, ps: seq<Proto>, k: nat)
    requires k <= |ps|
    ensures Values(create, ps[..k]) == Values(create, ps)[..k]
  {
    if k < |ps| {
      assert ps[..|ps| - 1][..k] == ps[..k];
      ValuesPrefix(create, ps[..|ps| - 1], k);
    } else {
      assert ps[..k] == ps;
    }
  }

  /** When `_create_next_` makes a new value each time, the dict has one
      entry per proto-enumeral, in creation order, each pairing the value
      made with its proto-enumeral. */
  lemma {:induction false} CreatedFresh<V>(create: (int, string, seq<V>) -> V, ps: seq<Proto>)
    requires Distinct(Values(create, ps))
    ensures Keys(Created(create, ps)) == Values(create, ps)
    ensures forall i :: 0 <= i < |ps| ==> Created(create, ps)[i].1 == ps[i]
  {
    if |ps| > 0 {
      var init := ps[..|ps| - 1];
      var p := ps[|ps| - 1];
      var d := Created(create, init);
      var v := create(p.index, p.name, Keys(d));
      var vs := Values(create, ps);
      assert vs == Values(create, init) + [v];
      assert Values(create, init) == vs[..|ps| - 1];
      assert Distinct(Values(create, init));
      CreatedFresh(create, init);
      assert v == vs[|ps| - 1] && Keys(d) == vs[..|ps| - 1];
      assert v !in Keys(d);
      assert Find(d, v) == |d|;
      var c := Created(create, ps);
      assert c == d + [(v, p)];
      KeysSnoc(d, v, p);
      forall i | 0 <= i < |ps|
        ensures c[i].1 == ps[i]
      {
        if i < |init| {
          assert c[i] == d[i] && init[i] == ps[i];
        }
      }
    }
  }

  lemma KeysSnoc<V>(d: Dict<V>, k: V, p: Proto)
    ensures Keys(d + [(k, p)]) == Keys(d) + [k]
  {
  }

  /** When `_create_next_` makes a new value each time, the value for the
      i-th proto-enumeral is made from its index, its name and exactly the
      values made before it. */
  lemma CreatedPrev<V>(create: (int, string, seq<V>) -> V, ps: seq<Proto>, i: nat)
    requires Distinct(Values(create, ps)) && i < |ps|
    ensures Values(create, ps)[i] == create(ps[i].index, ps[i].name, Values(create, ps)[..i])
  {
    ValuesAt(create, ps, i);
    ValuesPrefix(create, ps, i);
    DistinctPrefix(Values(create, ps), i);
    CreatedFresh(create, ps[..i]);
  }

  /** The value for the i-th proto-enumeral is made from the keys of the
      dict built from the ones before it. */
  lemma ValuesAt<V>(create: (int, string, seq<V>) -> V, ps: seq<Proto>, i: nat)
    requires i < |ps|
    ensures Values(create, ps)[i] == create(ps[i].index, ps[i].name, Keys(Created(create, ps[..i])))
  {
    var pre := ps[..i + 1];
    ValuesLast(create, pre);
    assert pre[..|pre| - 1] == ps[..i] && pre[|pre| - 1] == ps[i];
    ValuesPrefix(create, ps, i + 1);
    assert Values(create, ps)[i] == Values(create, pre)[i];
  }

  lemma ValuesLast<V>(create: (int, string, seq<V>) -> V, ps: seq<Proto>)
    requires ps != []
    ensures var p, init := ps[|ps| - 1], ps[..|ps| - 1];
      Values(create, ps)[|ps| - 1] == create(p.index, p.name, Keys(Created(create, init)))
  {
  }

  lemma DistinctPrefix<T>(s: seq<T>, k: nat)
    requires Distinct(s) && k <= |s|
    ensures Distinct(s[..k])
  {
  }

  /** With distinct attribute names, each proto-enumeral's name ends up
      bound to the value made for it, and other names keep what they had. */
  lemma {:induction false} BoundAt<V>(m: map<string, V>, ps: seq<Proto>, vs: seq<V>)
    requires |ps| == |vs| && DistinctNames(ps)
    ensures forall i :: 0 <= i < |ps| ==> ps[i].name in Bound(m, ps, vs) && Bound(m, ps, vs)[ps[i].name] == vs[i]
    ensures forall n | n in m && (forall i :: 0 <= i < |ps| ==> ps[i].name != n) :: n in Bound(m, ps, vs) && Bound(m, ps, vs)[n] == m[n]
  {
    if ps != [] {
      BoundAt(m, ps[..|ps| - 1], vs[..|vs| - 1]);
    }
  }

  // ---------------------------------------------------------------------
  // The enum decorator
  // ---------------------------------------------------------------------

  /** A method `enum` installs in place of a proto-member. */
  datatype Installed = IterMethod | ReprMethod

  /** `setattr(cls, p.name, method)` for each proto-member in turn. */
  function Install(m: map<string, Installed>, ps: seq<Proto>, what: Installed): map<string, Installed>
  {
    if ps == [] then m
    else Install(m, ps[..|ps| - 1], what)[ps[|ps| - 1].name := what]
  }

  /** Each proto-member's name ends up naming the installed method; every
      other attribute is left as it was. */
  lemma {:induction false} InstallAt(m: map<string, Installed>, ps: seq<Proto>, what: Installed)
    ensures forall i :: 0 <= i < |ps| ==> ps[i].name in Install(m, ps, what) && Install(m, ps, what)[ps[i].name] == what
    ensures forall n | n in m && (forall i :: 0 <= i < |ps| ==> ps[i].name != n) ::
      n in Install(m, ps, what) && Install(m, ps, what)[n] == m[n]
    ensures forall n | n in Install(m, ps, what) :: n in m || exists i :: 0 <= i < |ps| && ps[i].name == n
  {
    if ps != [] {
      InstallAt(m, ps[..|ps| - 1], what);
    }
  }

  function HintsOf(ms: seq<Proto>): (hs: seq<Hint>)
    ensures |hs| == |ms| && forall i :: 0 <= i < |ms| ==> hs[i] == ms[i].hint
  {
    seq(|ms|, i requires 0 <= i < |ms| => ms[i].hint)
  }

  /** Some proto-member was made with `Auto[Self]`. */
  predicate UsesSelf(ms: seq<Proto>)
  {
    exists i :: 0 <= i < |ms| && ms[i].hint == SelfHint
  }

  /** The first loop of `enum`: group the proto-members by kind and list
      their hints. */
  method Collect(members: seq<Proto>) returns (groups: ProtoGroups, hints: seq<Hint>)
    ensures fresh(groups)
    ensures Group(groups.groups, EnumeralKind) == OfKind(members, EnumeralKind)
    ensures Group(groups.groups, IterKind) == OfKind(members, IterKind)
    ensures Group(groups.groups, ReprKind) == OfKind(members, ReprKind)
    ensures PlainKind in groups.groups <==> |OfKind(members, PlainKind)| > 0
    ensures SelfHint in hints <==> UsesSelf(members)
  {
    groups := new ProtoGroups();
    hints := [];
    var i := 0;
    while i < |members|
      invariant 0 <= i <= |members|
      invariant GroupsOf(groups.groups, members[..i])
      invariant hints == HintsOf(members[..i])
    {
      assert members[..i + 1][..i] == members[..i];
      groups.Add(members[i]);
      hints := hints + [members[i].hint];
      i := i + 1;
    }
    assert members[..i] == members;
    GroupIs(groups.groups, members, EnumeralKind);
    GroupIs(groups.groups, members, IterKind);
    GroupIs(groups.groups, members, ReprKind);
    GroupIs(groups.groups, members, PlainKind);
  }

  function Group(g: map<Kind, seq<Proto>>, k: Kind): seq<Proto>
  {
    if k in g then g[k] else []
  }

  /** The group of each kind holds the proto-members of that kind. */
  lemma GroupIs(g: map<Kind, seq<Proto>>, ms: seq<Proto>, k: Kind)
    requires GroupsOf(g, ms)
    ensures Group(g, k) == OfKind(ms, k)
    ensures k in g <==> |OfKind(ms, k)| > 0
  {
  }

  const NoMembersMessage := "Found no enum-member symbols. Use: `A = Auto[Self].enumeral()` etc."

  /** A class that `enum` decorates. `members` are the proto-members that
      `getmembers_static` reports for it, its own and inherited ones, in
      that function's order (sorted by attribute name), with their names
      distinct. `bound` holds the enumerals `enum` binds as class
      attributes, `methods` the `iter` and `__repr__` methods it installs,
      and `sealed` says whether its `__new__`, `__init__` and
      `__init_subclass__` were replaced. */
  class EnumClass<V(==)> {
    const id: OwnerId
    const name: string
    const qualname: string
    const final: bool
    var bound: map<string, V>
    var methods: map<string, Installed>
    var enumerals: Dict<V>
    var sealed: bool

    constructor (id: OwnerId, name: string, qualname: string, final: bool)
      ensures this.id == id && this.name == name && this.qualname == qualname && this.final == final
      ensures bound == map[] && methods == map[] && enumerals == [] && !sealed
    {
      this.id := id;
      this.name := name;
      this.qualname := qualname;
      this.final := final;
      bound := map[];
      methods := map[];
      enumerals := [];
      sealed := false;
    }

    /** `enum(cls)`, with `create` as the class's `_create_next_`. The
        checks come in a fixed order, each after the work before it was
        done: no proto-enumeral, a proto-member of no handled kind left
        over, `Auto[Self]` on a class not marked `@final`, and finally the
        deletion of the class's counter entry, which raises KeyError when
        no enumeral was named on the class itself. */
    method Decorate(counts: LookupCount, members: seq<Proto>, create: (int, string, seq<V>) -> V)
        returns (r: Result<()>)
      requires !sealed && enumerals == []
      modifies this, counts
      ensures enumerals == Created(create, OfKind(members, EnumeralKind))
      ensures bound == Bound(old(bound), OfKind(members, EnumeralKind), Values(create, OfKind(members, EnumeralKind)))
      ensures |OfKind(members, EnumeralKind)| == 0 ==>
        r == Failure(TypeError(NoMembersMessage)) && methods == old(methods)
      ensures |OfKind(members, EnumeralKind)| > 0 ==>
        methods == Install(Install(old(methods), OfKind(members, IterKind), IterMethod), OfKind(members, ReprKind), ReprMethod)
      ensures |OfKind(members, EnumeralKind)| > 0 && |OfKind(members, PlainKind)| > 0 ==>
        r.Failure? && r.error.AssertionError?
      ensures |OfKind(members, EnumeralKind)| > 0 && |OfKind(members, PlainKind)| == 0 && UsesSelf(members) && !final ==>
        r.Failure? && r.error.TypeError?
      ensures |OfKind(members, EnumeralKind)| > 0 && |OfKind(members, PlainKind)| == 0 && (UsesSelf(members) ==> final) ==>
        sealed && (r.Success? <==> id in old(counts.count)) && (r.Failure? ==> r.error == KeyError)
      ensures sealed ==> r.Success? || r == Failure(KeyError)
      ensures counts.count == if r.Success? then old(counts.count) - {id} else old(counts.count)
    {
      var groups, hints := Collect(members);
      ghost var g := groups.groups;
      var es := groups.Take(EnumeralKind);
      assert es == OfKind(members, EnumeralKind);
      assert Group(groups.groups, IterKind) == OfKind(members, IterKind);
      assert Group(groups.groups, ReprKind) == OfKind(members, ReprKind);
      assert PlainKind in groups.groups <==> |OfKind(members, PlainKind)| > 0;
      CreateEnumerals(es, create);
      CreatedDistinct(create, es);
      if |enumerals| == 0 {
        return Failure(TypeError(NoMembersMessage));
      }
      r := Finish(counts, groups, SelfHint in hints);
    }

    /** `enum` after the enumerals are made: install `iter` and `__repr__`,
        reject leftover proto-members, then a `Self` hint without `@final`,
        then seal the class and delete its counter entry. */
    method Finish(counts: LookupCount, groups: ProtoGroups, usesSelf: bool) returns (r: Result<()>)
      requires EnumeralKind !in groups.groups && !sealed
      modifies this, counts, groups
      ensures methods == Install(Install(old(methods), Group(old(groups.groups), IterKind), IterMethod),
                                 Group(old(groups.groups), ReprKind), ReprMethod)
      ensures bound == old(bound) && enumerals == old(enumerals)
      ensures PlainKind in old(groups.groups) ==> r.Failure? && r.error.AssertionError? && !sealed
      ensures PlainKind !in old(groups.groups) && usesSelf && !final ==> r.Failure? && r.error.TypeError? && !sealed
      ensures PlainKind !in old(groups.groups) && (usesSelf ==> final) ==>
        sealed && (r.Success? <==> id in old(counts.count)) && (r.Failure? ==> r.error == KeyError)
      ensures counts.count == if r.Success? then old(counts.count) - {id} else old(counts.count)
      ensures sealed == (r.Success? || r == Failure(KeyError))
    {
      ghost var g := groups.groups;
      var iters := groups.Take(IterKind);
      InstallAll(iters, IterMethod);
      var reprs := groups.Take(ReprKind);
      InstallAll(reprs, ReprMethod);
      assert groups.groups == g - {IterKind} - {ReprKind};
      if PlainKind in g {
        assert PlainKind in groups.groups;
      }
      if groups.groups != map[] {
        var k :| k in groups.groups;
        assert k == PlainKind;
        return Failure(AssertionError("Found unhandled proto-members"));
      }
      if usesSelf && !final {
        return Failure(TypeError("If using `Auto[Self]` you must mark " + name + " with `@final`."));
      }
      sealed := true;
      r := counts.Delete(id);
    }

    /** The creation loop: make each enumeral from the keys made so far,
        bind it under the proto-enumeral's name and record it. */
    method CreateEnumerals(es: seq<Proto>, create: (int, string, seq<V>) -> V)
      requires enumerals == []
      modifies this
      ensures enumerals == Created(create, es)
      ensures bound == Bound(old(bound), es, Values(create, es))
      ensures methods == old(methods) && sealed == old(sealed)
    {
      var j := 0;
      while j < |es|
        invariant 0 <= j <= |es|
        invariant enumerals == Created(create, es[..j])
        invariant bound == Bound(old(bound), es[..j], Values(create, es[..j]))
        invariant methods == old(methods) && sealed == old(sealed)
      {
        var p := es[j];
        assert es[..j + 1][..j] == es[..j] && es[..j + 1][j] == p;
        var v := create(p.index, p.name, Keys(enumerals));
        bound := bound[p.name := v];
        enumerals := DictSet(enumerals, v, p);
        j := j + 1;
      }
      assert es[..j] == es;
    }

    /** `setattr(cls, v.name, method)` for each proto-member taken. */
    method InstallAll(ps: seq<Proto>, what: Installed)
      modifies this
      ensures methods == Install(old(methods), ps, what)
      ensures bound == old(bound) && enumerals == old(enumerals) && sealed == old(sealed)
    {
      var j := 0;
      while j < |ps|
        invariant 0 <= j <= |ps|
        invariant methods == Install(old(methods), ps[..j], what)
        invariant bound == old(bound) && enumerals == old(enumerals) && sealed == old(sealed)
      {
        assert ps[..j + 1][..j] == ps[..j];
        methods := methods[ps[j].name := what];
        j := j + 1;
      }
      assert ps[..j] == ps;
    }

    /** What the installed `iter` class method yields: the keys of the
        enumerals dict, in insertion order. */
    function Iter(): seq<V>
      reads this
    {
      Keys(enumerals)
    }

    /** The installed `__repr__`: `<Qualname.name>` for an enumeral, the
        class's original repr for any other instance. */
    function Repr(x: V, originalRepr: string): string
      reads this
    {
      match DictGet(enumerals, x)
      case Some(p) => "<" + qualname + "." + p.name + ">"
      case None => originalRepr
    }

    /** The installed `__new__`, given the instance `x` that the original
        `__new__` and `__init__` built: the class attribute named by the
        proto-enumeral stored under `x`, or TypeError when `x` equals no
        enumeral. */
    function New(x: V): Result<V>
      reads this
    {
      match DictGet(enumerals, x)
      case Some(p) =>
        if p.name in bound then Success(bound[p.name]) else Failure(AttributeError(p.name))
      case None => Failure(TypeError("Cannot make new instance of enum " + qualname + "."))
    }

    /** `class Sub(Cls): ...`: the installed `__init_subclass__` refuses
        every subclass of a sealed class. */
    function InitSubclass(): (r: Result<()>)
      reads this
      ensures r.Failure? <==> sealed
      ensures r.Failure? ==> r.error.TypeError?
    {
      if sealed then Failure(TypeError("Cannot subclass enum-type `" + qualname + "`.")) else Success(())
    }
  }

  /** After `enum` made the enumerals `es` (with `_create_next_` making a
      new value each time, and distinct attribute names): `iter` yields the
      enumerals in creation order, calling the class with a value equal to
      an enumeral gives back that very enumeral, and its repr is
      `<Qualname.name>`. */
  lemma MembersCanonical<V>(c: EnumClass<V>, create: (int, string, seq<V>) -> V, es: seq<Proto>,
                            m0: map<string, V>, i: nat, originalRepr: string)
    requires c.enumerals == Created(create, es) && c.bound == Bound(m0, es, Values(create, es))
    requires Distinct(Values(create, es)) && DistinctNames(es) && i < |es|
    ensures c.Iter() == Values(create, es)
    ensures c.New(Values(create, es)[i]) == Success(Values(create, es)[i])
    ensures c.Repr(Values(create, es)[i], originalRepr) == "<" + c.qualname + "." + es[i].name + ">"
  {
    CreatedFresh(create, es);
    CreatedDistinct(create, es);
    DictGetAt(c.enumerals, i);
    BoundAt(m0, es, Values(create, es));
  }

  /** Calling the class with a value equal to no enumeral raises TypeError,
      and the repr of such a value is the class's original one. */
  lemma NonMemberRejected<V>(c: EnumClass<V>, x: V, originalRepr: string)
    requires x !in c.Iter()
    ensures c.New(x).Failure? && c.New(x).error.TypeError?
    ensures c.Repr(x, originalRepr) == originalRepr
  {
    DictGetMissing(c.enumerals, x);
  }

  /** The value `_create_next_` makes in the test below: the index, the
      name and how many enumerals came before. */
  function CountingCreate(i: int, n: string, prev: seq<(int, string, int)>): (int, string, int)
  {
    (i, n, |prev|)
  }

  /** Each value made by `CountingCreate` is new, since it records how many
      came before, so the dict grows by one entry per proto-enumeral. */
  lemma {:induction false} CountingCreated(ps: seq<Proto>)
    ensures |Created(CountingCreate, ps)| == |ps|
    ensures forall j :: 0 <= j < |ps| ==> Created(CountingCreate, ps)[j].0.2 == j
  {
    if ps != [] {
      var init := ps[..|ps| - 1];
      CountingCreated(init);
      var d := Created(CountingCreate, init);
      var p := ps[|ps| - 1];
      var v := CountingCreate(p.index, p.name, Keys(d));
      assert v.2 == |d|;
      assert Find(d, v) == |d| by {
        if Find(d, v) < |d| {
          assert d[Find(d, v)].0.2 < |d|;
        }
      }
    }
  }

  lemma CountingValues(ps: seq<Proto>)
    ensures forall i :: 0 <= i < |ps| ==> Values(CountingCreate, ps)[i] == (ps[i].index, ps[i].name, i)
  {
    forall i | 0 <= i < |ps|
      ensures Values(CountingCreate, ps)[i] == (ps[i].index, ps[i].name, i)
    {
      ValuesAt(CountingCreate, ps, i);
      CountingCreated(ps[..i]);
    }
  }

  /** The enumerals A, B, C of the test below, as `__set_name__` names
      them. */
  function ExampleEnumerals(): seq<Proto>
  {
    [Proto(EnumeralKind, SelfHint, 1, "MyEnum", "A", 0),
     Proto(EnumeralKind, SelfHint, 1, "MyEnum", "B", 1),
     Proto(EnumeralKind, SelfHint, 1, "MyEnum", "C", 2)]
  }

  lemma ExampleValues()
    ensures Values(CountingCreate, ExampleEnumerals()) == [(0, "A", 0), (1, "B", 1), (2, "C", 2)]
    ensures Distinct(Values(CountingCreate, ExampleEnumerals())) && DistinctNames(ExampleEnumerals())
    ensures (0, "hello", 0) !in Values(CountingCreate, ExampleEnumerals())
  {
    CountingValues(ExampleEnumerals());
  }

  /** Enumerals followed by one other proto-member: the enumerals are their
      kind's group, the other member is its own kind's group, and nothing is
      of no handled kind. */
  lemma ExampleGroups(es: seq<Proto>, m: Proto)
    requires forall i :: 0 <= i < |es| ==> es[i].kind == EnumeralKind
    requires m.kind == IterKind || m.kind == ReprKind
    ensures OfKind(es + [m], EnumeralKind) == es
    ensures OfKind(es + [m], m.kind) == [m]
    ensures OfKind(es + [m], PlainKind) == []
    ensures OfKind(es + [m], if m.kind == IterKind then ReprKind else IterKind) == []
  {
    var ms := es + [m];
    assert ms[..|ms| - 1] == es && ms[|ms| - 1] == m;
    OfKindUniform(es, EnumeralKind);
    assert OfKind(es, m.kind) == [] && OfKind(es, PlainKind) == [];
    assert OfKind(es, if m.kind == IterKind then ReprKind else IterKind) == [];
  }

  /** Installing the methods for one proto-member on a class with none. */
  lemma InstallOne(m: Proto, what: Installed)
    ensures Install(map[], [m], what) == map[m.name := what]
  {
    assert [m][..0] == [];
  }

  /** tests/jamjam/test_eenum.py `test_enum`, up to the decoration: a
      final class `MyEnum` with the enumerals A, B, C defined by
      `Auto[Self].enumeral_list(3)` and the `iter` proto-member inherited
      from `EnumMixin`, in `getmembers_static` order. The class is a
      dataclass, decorated before `enum`, so its `__repr__` is the
      generated one defined on the class itself and `getmembers_static`
      does not see the mixin's `__repr__` proto-member. `enum` succeeds,
      installs only `iter`, and seals the class. */
  method BuildExample() returns (cls: EnumClass<(int, string, int)>, r: Result<()>)
    ensures r.Success? && cls.sealed && cls.qualname == "MyEnum"
    ensures cls.enumerals == Created(CountingCreate, ExampleEnumerals())
    ensures cls.bound == Bound(map[], ExampleEnumerals(), Values(CountingCreate, ExampleEnumerals()))
    ensures cls.methods == map["iter" := IterMethod]
  {
    var counts := new LookupCount();
    var es := NameEnumerals(counts, 1, "MyEnum", "MyEnum", ["A", "B", "C"], SelfHint);
    assert es == ExampleEnumerals();
    var iter := Proto(IterKind, SelfHint, 0, "EnumMixin", "iter", 0);
    var members := es + [iter];
    ExampleGroups(es, iter);
    InstallOne(iter, IterMethod);
    assert 1 in counts.count;
    cls := new EnumClass<(int, string, int)>(1, "MyEnum", "MyEnum", true);
    r := cls.Decorate(counts, members, CountingCreate);
  }

  /** The rest of `test_enum`: `iter` yields A, B, C in that order; calling
      the class with A's value gives A itself; a value equal to no
      enumeral is refused with TypeError; and subclassing raises
      TypeError. */
  method TestEnumExample() returns (it: seq<(int, string, int)>, a: Result<(int, string, int)>,
                                    other: Result<(int, string, int)>, sub: Result<()>)
    ensures it == [(0, "A", 0), (1, "B", 1), (2, "C", 2)]
    ensures a == Success((0, "A", 0))
    ensures other.Failure? && other.error.TypeError?
    ensures sub.Failure? && sub.error.TypeError?
  {
    var cls, r := BuildExample();
    ExampleValues();
    MembersCanonical(cls, CountingCreate, ExampleEnumerals(), map[], 0, "");
    it := cls.Iter();
    a := cls.New((0, "A", 0));
    NonMemberRejected(cls, (0, "hello", 0), "");
    other := cls.New((0, "hello", 0));
    sub := cls.InitSubclass();
  }

  /** tests/jamjam/test_eenum.py `test_no_members`: a class with no
      proto-enumeral is refused with TypeError. */
  method TestNoMembers() returns (r: Result<()>)
    ensures r == Failure(TypeError(NoMembersMessage))
  {
    var counts := new LookupCount();
    var cls := new EnumClass<int>(1, "_", "_", false);
    r := cls.Decorate(counts, [], (i: int, n: string, prev: seq<int>) => 0);
  }

  /** tests/jamjam/test_eenum.py `test_not_final`: enumerals A, B made with
      `Auto[Self]` on a class not marked `@final` are refused with
      TypeError, while the same enumerals made with `Auto['MyEnum']` are
      accepted without `@final`. */
  method TestNotFinal() returns (selfHinted: Result<()>, named: Result<()>)
    ensures selfHinted.Failure? && selfHinted.error.TypeError?
    ensures named.Success?
  {
    var create := (i: int, n: string, prev: seq<int>) => i;
    var counts := new LookupCount();
    var es := NameEnumerals(counts, 1, "_", "_", ["A", "B"], SelfHint);
    OfKindUniform(es, EnumeralKind);
    assert es[0].hint == SelfHint;
    var cls := new EnumClass<int>(1, "_", "_", false);
    selfHinted := cls.Decorate(counts, es, create);

    counts := new LookupCount();
    var es2 := NameEnumerals(counts, 2, "MyEnum", "MyEnum", ["A", "B"], NameHint("MyEnum"));
    OfKindUniform(es2, EnumeralKind);
    assert !UsesSelf(es2);
    var cls2 := new EnumClass<int>(2, "MyEnum", "MyEnum", false);
    named := cls2.Decorate(counts, es2, create);
  }

  /** The value `_create_next_` makes in `test_proto_repr`, standing for
      the fresh `cls()` instance: one per enumeral index. */
  function IndexCreate(i: int, n: string, prev: seq<int>): int
  {
    i
  }

  const ReprExampleQualname: string := "test_proto_repr.<locals>.MyEnum"

  /** The one enumeral A of `test_proto_repr`, as `__set_name__` names it. */
  function ReprExampleEnumerals(): seq<Proto>
  {
    [Proto(EnumeralKind, SelfHint, 1, ReprExampleQualname, "A", 0)]
  }

  /** The mixin's `__repr__` proto-member in `test_proto_repr`. */
  function ReprExampleProto(): Proto
  {
    Proto(ReprKind, SelfHint, 0, "CustomEnumMixin", "__repr__", 0)
  }

  /** tests/jamjam/test_eenum.py `test_proto_repr`, up to the decoration:
      the final class `MyEnum` with the enumeral A and the `__repr__`
      proto-member inherited from the mixin. `enum` succeeds, installs
      `__repr__`, and seals the class. */
  method BuildReprExample() returns (cls: EnumClass<int>, r: Result<()>)
    ensures r.Success? && cls.sealed && cls.qualname == ReprExampleQualname
    ensures cls.enumerals == Created(IndexCreate, ReprExampleEnumerals())
    ensures cls.bound == Bound(map[], ReprExampleEnumerals(), Values(IndexCreate, ReprExampleEnumerals()))
    ensures cls.methods == map["__repr__" := ReprMethod]
  {
    var counts := new LookupCount();
    var es := NameEnumerals(counts, 1, "MyEnum", ReprExampleQualname, ["A"], SelfHint);
    assert es == ReprExampleEnumerals();
    var repr := ReprExampleProto();
    ExampleGroups(es, repr);
    InstallOne(repr, ReprMethod);
    assert 1 in counts.count;
    cls := new EnumClass<int>(1, "MyEnum", ReprExampleQualname, true);
    r := cls.Decorate(counts, es + [repr], IndexCreate);
  }

  /** The single enumeral of `test_proto_repr` gets the value 0. */
  lemma ReprExampleValues()
    ensures Values(IndexCreate, ReprExampleEnumerals()) == [0]
  {
    ValuesAt(IndexCreate, ReprExampleEnumerals(), 0);
  }

  /** The rest of `test_proto_repr`. Read from an instance of the mixin
      itself, the `__repr__` proto-member defers to the parent class, whose
      repr is "X". On the enum class, A's repr is `<Qualname.A>`. */
  method TestProtoRepr() returns (mixinRepr: Result<string>, enumRepr: string)
    ensures mixinRepr == Success("X")
    ensures enumRepr == "<" + ReprExampleQualname + ".A>"
  {
    mixinRepr := ProtoGet(ReprExampleProto(), Some("X"), true, Some("X"));
    var cls, r := BuildReprExample();
    ReprExampleValues();
    MembersCanonical(cls, IndexCreate, ReprExampleEnumerals(), map[], 0, "X");
    enumRepr := cls.Repr(0, "X");
    assert enumRepr == "<" + ReprExampleQualname + "." + "A" + ">";
  }
}
