/** jamjam/_lib/classes.py: a second `Singleton` base class, whose
    constructor ignores its arguments, and `easy_repr`, which joins the
    arguments with "," where `mk_repr` uses ", ". */
module LibClasses {
  import opened Strings
  import Classes

  /** `Singleton.__new__(cls, *args, **kwargs)`: the arguments are dropped,
      then the instance is found or made as in jamjam/classes.py, in the
      `_self` attributes of this class's own hierarchy. */
  method New(cache: Classes.SingletonCache, c: Classes.ClassId, args: seq<string>, kwargs: seq<(string, string)>)
      returns (o: Classes.Instance)
    requires cache.Valid() && c in cache.h
    modifies cache
    ensures cache.Valid()
    ensures o.cls == c
    ensures c in old(cache.own) ==> o == old(cache.own)[c] && cache.own == old(cache.own)
    ensures c !in old(cache.own) ==> fresh(o) && cache.own == old(cache.own)[c := o]
  {
    o := cache.New(c);
  }

  /** Constructing a class twice with different arguments gives the same
      instance, and a subclass gets its own instance, not its parent's. */
  method ArgumentsIgnored(cache: Classes.SingletonCache, parent: Classes.ClassId, child: Classes.ClassId,
                          args1: seq<string>, args2: seq<string>)
      returns (p1: Classes.Instance, p2: Classes.Instance, k: Classes.Instance)
    requires cache.Valid() && parent in cache.h && child in cache.h
    requires parent in cache.h[child] && parent != child
    modifies cache
    ensures p1 == p2 && p1 != k && k.cls == child
  {
    p1 := New(cache, parent, args1, []);
    p2 := New(cache, parent, args2, [("key", "value")]);
    k := New(cache, child, [], []);
  }

  /** `easy_repr(obj, *args, **kwargs)`, where `qualname` is the qualified
      name of the type of `obj`. */
  function EasyRepr(qualname: string, args: seq<string>, kwds: seq<(string, string)>): string
  {
    qualname + "(" + Classes.ReprBody(",", args, kwds) + ")"
  }

  /** With at most one argument the separator never shows, and `easy_repr`
      and `mk_repr` agree; with none the repr is `Qualname()`. */
  lemma EasyReprOneArgument(qualname: string, args: seq<string>, kwds: seq<(string, string)>)
    requires |args| + |kwds| <= 1
    ensures EasyRepr(qualname, args, kwds) == Classes.MkRepr(qualname, args, kwds)
    ensures |args| + |kwds| == 0 ==> EasyRepr(qualname, args, kwds) == qualname + "()"
  {
    if |args| + |kwds| == 0 {
      Classes.MkReprNoArgs(qualname);
      assert args == [] && kwds == [];
    }
  }

  /** The positional arguments come first, then the keyword arguments. */
  lemma EasyReprOrder(qualname: string, args: seq<string>, kwds: seq<(string, string)>)
    requires args != [] && kwds != []
    ensures EasyRepr(qualname, args, kwds)
      == qualname + "(" + Join(",", args) + "," + Join(",", Classes.KwdItems(kwds)) + ")"
  {
    Classes.ReprBodyOrder(",", args, kwds);
  }

  /** `s.split(sep)`. */
  function Split(sep: char, s: string): (parts: seq<string>)
    ensures parts != []
  {
    if sep !in s then [s]
    else
      var i := IndexOf(sep, s);
      [s[..i]] + Split(sep, s[i + 1..])
  }

  function IndexOf(c: char, s: string): (i: nat)
    requires c in s
    ensures i < |s| && s[i] == c && c !in s[..i]
  {
    if s[0] == c then 0 else 1 + IndexOf(c, s[1..])
  }

  /** When no argument's text holds a ",", splitting the body of an
      `easy_repr` on "," gives back the arguments, in order. */
  lemma {:induction false} SplitJoin(parts: seq<string>)
    requires parts != []
    requires forall k :: 0 <= k < |parts| ==> ',' !in parts[k]
    ensures Split(',', Join(",", parts)) == parts
  {
    if |parts| > 1 {
      var p, rest := parts[0], Join(",", parts[1..]);
      var s := p + "," + rest;
      assert s[..|p|] == p && s[|p|] == ',';
      assert IndexOf(',', s) == |p| by {
        IndexOfPrefix(p, ',', "," + rest);
      }
      assert s[|p| + 1..] == rest;
      SplitJoin(parts[1..]);
    }
  }

  lemma {:induction false} IndexOfPrefix(p: string, c: char, t: string)
    requires c !in p && t != [] && t[0] == c
    ensures c in p + t && IndexOf(c, p + t) == |p|
  {
    assert (p + t)[|p|] == c;
    if p != [] {
      assert (p + t)[1..] == p[1..] + t;
      IndexOfPrefix(p[1..], c, t);
    }
  }

  /** `easy_repr("", 1, 2, hello=3, world=4)`: no space after the commas. */
  lemma EasyReprExample()
    ensures EasyRepr("str", ["1", "2"], [("hello", "3"), ("world", "4")])
      == "str(1,2,hello=3,world=4)"
  {
    Classes.ExampleItems();
    JoinFour(",", "1", "2", "hello=3", "world=4");
  }
}
