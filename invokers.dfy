/** The argument transformation, keyword reordering and class-namespace
    building of the client generator: the parts of `_invokers.py` that run
    without the bus. The signature compiler of into-dbus-python is the
    parameter `compile`; a proxy call is returned as a `Call` descriptor. */
module Invokers {
  import opened Wrappers

  /** The ValueErrors the generated code raises. */
  datatype Error =
    | BadKeys                // keyword set differs from the declared argument names
    | WrongNumberOfObjects   // an xformer received a list of the wrong length

  function Min(a: int, b: int): int { if a <= b then a else b }

  /** Distinct elements, as in a list with no repeated entry. */
  predicate Distinct<T(==)>(s: seq<T>) {
    forall i, j :: 0 <= i < j < |s| ==> s[i] != s[j]
  }

  /** `frozenset(s)`. */
  function Elements<T(==)>(s: seq<T>): set<T> {
    set x | x in s
  }

  /** A list has as many distinct elements as entries exactly when no entry repeats. */
  lemma {:induction false} ElementsSize<T>(s: seq<T>)
    ensures |Elements(s)| <= |s|
    ensures |Elements(s)| == |s| <==> Distinct(s)
  {
    if s != [] {
      var t := s[1..];
      ElementsSize(t);
      assert Elements(s) == {s[0]} + Elements(t);
      if s[0] in t {
        assert Elements(s) == Elements(t);
        var k :| 0 <= k < |t| && t[k] == s[0];
        assert s[0] == s[k + 1];
      } else {
        assert |Elements(s)| == |Elements(t)| + 1;
        if Distinct(t) {
          forall i, j | 0 <= i < j < |s| ensures s[i] != s[j] {
            if i > 0 { assert s[i] == t[i - 1] && s[j] == t[j - 1]; }
            else { assert s[j] == t[j - 1]; }
          }
        } else {
          var i, j :| 0 <= i < j < |t| && t[i] == t[j];
          assert s[i + 1] == s[j + 1];
        }
      }
    }
  }

  // ------------------------------------------------------------ _option_to_tuple

  /** `_option_to_tuple`: a presence flag and the value, or the default when
      the value is None. */
  function OptionToTuple<T>(value: Option<T>, default: T): (r: (bool, T))
    ensures r.0 ==> value == Some(r.1)
    ensures !r.0 ==> value == None && r.1 == default
  {
    if value.None? then (false, default) else (true, value.value)
  }

  // ------------------------------------------------------------ _info_to_xformer

  /** An output converter of into-dbus-python: a native value to a wire value
      and its variant level. */
  type Converter<!V> = V -> (V, int)

  /** The signature compiler `xformers`: for a signature, one pair of
      converter and single-type signature per complete type in it. */
  type Compiler<!V> = string -> seq<(Converter<V>, string)>

  /** One of a method's specs: the argument name, its input transform and its
      signature fragment. */
  datatype ArgSpec<!V> = ArgSpec(name: string, inxform: V -> V, signature: string)

  /** `"".join(z for (_, _, z) in specs)`: every character of the joined
      signature comes from some spec's fragment, and every fragment's
      characters are in it. */
  function JoinSignatures<V>(specs: seq<ArgSpec<V>>): (sig: string)
    ensures forall c :: c in sig <==> exists i :: 0 <= i < |specs| && c in specs[i].signature
  {
    if specs == [] then ""
    else
      var rest := JoinSignatures(specs[1..]);
      assert forall i :: 1 <= i < |specs| ==> specs[i] == specs[1..][i - 1];
      specs[0].signature + rest
  }

  /** Joining the specs of two lists is joining each and concatenating. */
  lemma {:induction false} JoinSignaturesAppend<V>(a: seq<ArgSpec<V>>, b: seq<ArgSpec<V>>)
    ensures JoinSignatures(a + b) == JoinSignatures(a) + JoinSignatures(b)
  {
    if a != [] {
      assert (a + b)[1..] == a[1..] + b;
      JoinSignaturesAppend(a[1..], b);
    } else {
      assert a + b == b;
    }
  }

  /** `[n for (n, _, _) in specs]`. */
  function ArgNames<V>(specs: seq<ArgSpec<V>>): (names: seq<string>)
    ensures |names| == |specs|
    ensures forall i :: 0 <= i < |specs| ==> names[i] == specs[i].name
  {
    seq(|specs|, i requires 0 <= i < |specs| => specs[i].name)
  }

  /** The closure `xformer`, as the values it captures. */
  datatype Xformer<!V> = Xformer(inxforms: seq<V -> V>, outxforms: seq<Converter<V>>, expectedLength: nat)

  /** `_info_to_xformer`: input transforms in spec order, the converters the
      compiler gives for the joined signature, and the number of specs. */
  function InfoToXformer<V>(specs: seq<ArgSpec<V>>, compile: Compiler<V>): (x: Xformer<V>)
    ensures x.expectedLength == |specs| && |x.inxforms| == |specs|
    ensures forall i :: 0 <= i < |specs| ==> x.inxforms[i] == specs[i].inxform
    ensures |x.outxforms| == |compile(JoinSignatures(specs))|
    ensures forall i :: 0 <= i < |x.outxforms| ==> x.outxforms[i] == compile(JoinSignatures(specs))[i].0
  {
    var compiled := compile(JoinSignatures(specs));
    Xformer(seq(|specs|, i requires 0 <= i < |specs| => specs[i].inxform),
            seq(|compiled|, i requires 0 <= i < |compiled| => compiled[i].0),
            |specs|)
  }

  /** The comprehension over `zip(zip(outxforms, inxforms), objects)`, which
      stops at the shortest of the three lists. */
  function ZipApply<V>(outxforms: seq<Converter<V>>, inxforms: seq<V -> V>, objects: seq<V>): (r: seq<V>)
    ensures |r| == Min(Min(|outxforms|, |inxforms|), |objects|)
    ensures forall i :: 0 <= i < |r| ==> r[i] == outxforms[i](inxforms[i](objects[i])).0
  {
    if outxforms == [] || inxforms == [] || objects == [] then []
    else [outxforms[0](inxforms[0](objects[0])).0] + ZipApply(outxforms[1..], inxforms[1..], objects[1..])
  }

  /** Calling the closure `xformer` on `objects`. */
  function ApplyXformer<V>(x: Xformer<V>, objects: seq<V>): (r: Result<seq<V>, Error>)
    ensures r.Failure? <==> |objects| != x.expectedLength
    ensures r.Failure? ==> r.error == WrongNumberOfObjects
  {
    if |objects| != x.expectedLength then Failure(WrongNumberOfObjects)
    else Success(ZipApply(x.outxforms, x.inxforms, objects))
  }

  /** What the xformer built from `specs` does with `objects`: it rejects a
      list whose length is not the number of specs, and otherwise keeps, in
      order, the first component of converter i applied to input transform i
      of object i, for as many objects as there are converters. */
  lemma XformerOfSpecs<V>(specs: seq<ArgSpec<V>>, compile: Compiler<V>, objects: seq<V>)
    ensures var r := ApplyXformer(InfoToXformer(specs, compile), objects);
            var outs := compile(JoinSignatures(specs));
            && (r == Failure(WrongNumberOfObjects) <==> |objects| != |specs|)
            && (r.Success? ==>
                  && |r.value| == Min(|outs|, |specs|)
                  && forall i :: 0 <= i < |r.value| ==> r.value[i] == outs[i].0(specs[i].inxform(objects[i])).0)
  {
  }

  // ------------------------------------------------------------ _xformers

  /** `_xformers`: for every key, the argument names in spec order paired
      with the xformer for those specs. */
  function Xformers<K, V>(keyToSig: map<K, seq<ArgSpec<V>>>, compile: Compiler<V>): (r: map<K, (seq<string>, Xformer<V>)>)
    ensures r.Keys == keyToSig.Keys
    ensures forall k :: k in r ==>
              && |r[k].0| == |keyToSig[k]|
              && (forall i :: 0 <= i < |keyToSig[k]| ==> r[k].0[i] == keyToSig[k][i].name)
              && r[k].1 == InfoToXformer(keyToSig[k], compile)
  {
    map k | k in keyToSig :: (ArgNames(keyToSig[k]), InfoToXformer(keyToSig[k], compile))
  }

  // ------------------------------------------------------------ keyword reordering

  /** Keyword arguments: the items of a Python dict, in insertion order. */
  type Kwargs<V> = seq<(string, V)>

  /** `kwargs.keys()`, in insertion order. */
  function KeysOf<V>(kwargs: Kwargs<V>): (keys: seq<string>)
    ensures |keys| == |kwargs|
    ensures forall i :: 0 <= i < |kwargs| ==> keys[i] == kwargs[i].0
  {
    seq(|kwargs|, i requires 0 <= i < |kwargs| => kwargs[i].0)
  }

  /** The mapping the items denote; a later item for a key replaces an
      earlier one. */
  function ToMap<V>(kwargs: Kwargs<V>): (m: map<string, V>)
    ensures m.Keys == Elements(KeysOf(kwargs))
  {
    if kwargs == [] then map[]
    else
      var init := kwargs[..|kwargs| - 1];
      assert KeysOf(kwargs) == KeysOf(init) + [kwargs[|kwargs| - 1].0];
      ToMap(init)[kwargs[|kwargs| - 1].0 := kwargs[|kwargs| - 1].1]
  }

  /** With distinct keys, every item is what the mapping holds for its key. */
  lemma {:induction false} ToMapAt<V>(kwargs: Kwargs<V>, i: nat)
    requires Distinct(KeysOf(kwargs)) && i < |kwargs|
    ensures kwargs[i].0 in ToMap(kwargs) && ToMap(kwargs)[kwargs[i].0] == kwargs[i].1
  {
    var n := |kwargs| - 1;
    if i < n {
      var init := kwargs[..n];
      assert KeysOf(init) == KeysOf(kwargs)[..n];
      assert kwargs[i].0 == KeysOf(kwargs)[i] != KeysOf(kwargs)[n] == kwargs[n].0;
      ToMapAt(init, i);
    }
  }

  /** `names.index(k)`: the position of the first occurrence of `k`. */
  function IndexOf(names: seq<string>, k: string): (i: nat)
    requires k in names
    ensures i < |names| && names[i] == k
    ensures forall j :: 0 <= j < i ==> names[j] != k
  {
    if names[0] == k then 0 else 1 + IndexOf(names[1..], k)
  }

  /** Every key is one of `names`, so `names.index` does not raise. */
  ghost predicate KeysIn<V>(names: seq<string>, s: Kwargs<V>) {
    forall y :: y in s ==> y.0 in names
  }

  /** The position in `names` of an item's key. */
  ghost function Rank<V>(names: seq<string>, y: (string, V)): int {
    if y.0 in names then IndexOf(names, y.0) else -1
  }

  /** The items are in strictly increasing order of their keys' positions. */
  ghost predicate Ascending<V>(names: seq<string>, s: Kwargs<V>) {
    forall i, j :: 0 <= i < j < |s| ==> Rank(names, s[i]) < Rank(names, s[j])
  }

  /** Inserts `x` before the first item whose key is not earlier in `names`. */
  function Insert<V>(names: seq<string>, x: (string, V), ys: Kwargs<V>): (r: Kwargs<V>)
    requires x.0 in names && KeysIn(names, ys)
    ensures multiset(r) == multiset(ys) + multiset{x}
  {
    if ys == [] || IndexOf(names, x.0) <= IndexOf(names, ys[0].0) then [x] + ys
    else
      assert ys == [ys[0]] + ys[1..];
      [ys[0]] + Insert(names, x, ys[1..])
  }

  /** An item ranked before every item of an ascending list can lead it. */
  lemma AscendingCons<V>(names: seq<string>, a: (string, V), s: Kwargs<V>)
    requires Ascending(names, s) && forall y :: y in s ==> Rank(names, a) < Rank(names, y)
    ensures Ascending(names, [a] + s)
  {
  }

  /** Inserting an item whose key is new keeps the items ascending. */
  lemma {:induction false} InsertAscending<V>(names: seq<string>, x: (string, V), ys: Kwargs<V>)
    requires x.0 in names && KeysIn(names, ys)
    requires Ascending(names, ys) && forall y :: y in ys ==> y.0 != x.0
    ensures Ascending(names, Insert(names, x, ys))
  {
    if ys != [] {
      assert ys[0] in ys;
      AscendingTail(names, ys);
    }
    if ys == [] || IndexOf(names, x.0) <= IndexOf(names, ys[0].0) {
      if ys != [] {
        assert Rank(names, x) != Rank(names, ys[0]);
      }
      AscendingCons(names, x, ys);
    } else {
      var tail := ys[1..];
      assert ys == [ys[0]] + tail;
      var rest := Insert(names, x, tail);
      InsertAscending(names, x, tail);
      forall y | y in rest ensures Rank(names, ys[0]) < Rank(names, y) {
        assert y in multiset(rest);
      }
      AscendingCons(names, ys[0], rest);
    }
  }

  /** `sorted(kwargs.items(), key=lambda x: names.index(x[0]))`, written as
      an insertion sort. */
  function SortByIndex<V>(names: seq<string>, kwargs: Kwargs<V>): (r: Kwargs<V>)
    requires KeysIn(names, kwargs)
    ensures multiset(r) == multiset(kwargs)
  {
    if kwargs == [] then []
    else
      assert kwargs == [kwargs[0]] + kwargs[1..];
      var rest := SortByIndex(names, kwargs[1..]);
      SameItems(rest, kwargs[1..]);
      Insert(names, kwargs[0], rest)
  }

  /** Lists with equal multisets have the same items. */
  lemma SameItems<T>(a: seq<T>, b: seq<T>)
    requires multiset(a) == multiset(b)
    ensures forall y :: y in a ==> y in b
  {
    forall y | y in a ensures y in b { assert y in multiset(a); }
  }

  /** The first key of a list with distinct keys occurs nowhere in the rest,
      and the rest has distinct keys. */
  lemma FirstKeyIsNew<V>(kwargs: Kwargs<V>)
    requires kwargs != [] && Distinct(KeysOf(kwargs))
    ensures Distinct(KeysOf(kwargs[1..]))
    ensures forall y :: y in kwargs[1..] ==> y.0 != kwargs[0].0
  {
    var tail := kwargs[1..];
    assert KeysOf(tail) == KeysOf(kwargs)[1..];
    forall y | y in tail ensures y.0 != kwargs[0].0 {
      var j :| 0 <= j < |tail| && tail[j] == y;
      assert KeysOf(kwargs)[0] != KeysOf(kwargs)[j + 1];
    }
  }

  /** With distinct keys, the sorted items are ascending. */
  lemma {:induction false} SortAscending<V>(names: seq<string>, kwargs: Kwargs<V>)
    requires KeysIn(names, kwargs) && Distinct(KeysOf(kwargs))
    ensures Ascending(names, SortByIndex(names, kwargs))
  {
    if kwargs != [] {
      var tail := kwargs[1..];
      assert kwargs == [kwargs[0]] + tail;
      FirstKeyIsNew(kwargs);
      SortAscending(names, tail);
      var rest := SortByIndex(names, tail);
      SameItems(rest, tail);
      InsertAscending(names, kwargs[0], rest);
    }
  }

  /** The argument list `args` of the generated method: the values of the
      sorted items. */
  function Reorder<V>(names: seq<string>, kwargs: Kwargs<V>): (args: seq<V>)
    requires KeysIn(names, kwargs)
    ensures |args| == |kwargs|
  {
    var sorted := SortByIndex(names, kwargs);
    assert |sorted| == |multiset(sorted)| == |kwargs|;
    seq(|sorted|, i requires 0 <= i < |sorted| => sorted[i].1)
  }

  /** The reference order: the value for each declared name, in declaration order. */
  function InDeclaredOrder<V>(names: seq<string>, m: map<string, V>): (args: seq<V>)
    requires Elements(names) <= m.Keys
  {
    seq(|names|, i requires 0 <= i < |names| => m[names[i]])
  }

  /** In a list ascending by rank with ranks from 0, item i has rank at least i. */
  lemma {:induction false} RankAtLeast<V>(names: seq<string>, t: Kwargs<V>, i: nat)
    requires i < |t| && Ascending(names, t)
    requires forall j :: 0 <= j < |t| ==> 0 <= Rank(names, t[j])
    ensures Rank(names, t[i]) >= i
  {
    if i > 0 { RankAtLeast(names, t, i - 1); }
  }

  /** In a list ascending by rank with ranks below its length, item i has
      rank at most i. */
  lemma {:induction false} RankAtMost<V>(names: seq<string>, t: Kwargs<V>, i: nat)
    requires i < |t| && Ascending(names, t)
    requires forall j :: 0 <= j < |t| ==> Rank(names, t[j]) < |t|
    decreases |t| - i
    ensures Rank(names, t[i]) <= i
  {
    if i < |t| - 1 { RankAtMost(names, t, i + 1); }
  }

  /** The keyword check gives `names.index` a key it can find. */
  lemma KeysInOfKeyCheck<V>(names: seq<string>, kwargs: Kwargs<V>)
    requires Elements(KeysOf(kwargs)) == Elements(names)
    ensures KeysIn(names, kwargs)
  {
    forall y | y in kwargs ensures y.0 in names {
      var i :| 0 <= i < |kwargs| && kwargs[i] == y;
      assert KeysOf(kwargs)[i] in Elements(KeysOf(kwargs));
    }
  }

  /** Every sorted item is one of the keyword items. */
  lemma SortedItemsAreItems<V>(names: seq<string>, kwargs: Kwargs<V>)
    requires KeysIn(names, kwargs)
    ensures |SortByIndex(names, kwargs)| == |kwargs|
    ensures forall i :: 0 <= i < |kwargs| ==>
              exists j :: 0 <= j < |kwargs| && kwargs[j] == SortByIndex(names, kwargs)[i]
  {
    var t := SortByIndex(names, kwargs);
    assert |t| == |multiset(t)| == |kwargs|;
    forall i | 0 <= i < |t| ensures exists j :: 0 <= j < |kwargs| && kwargs[j] == t[i] {
      assert t[i] in multiset(kwargs);
    }
  }

  /** Every sorted item's key has a position in `names`. */
  lemma SortedRanksInRange<V>(names: seq<string>, kwargs: Kwargs<V>)
    requires KeysIn(names, kwargs)
    ensures |SortByIndex(names, kwargs)| == |kwargs|
    ensures forall i :: 0 <= i < |SortByIndex(names, kwargs)| ==>
              0 <= Rank(names, SortByIndex(names, kwargs)[i]) < |names|
  {
    var t := SortByIndex(names, kwargs);
    assert |t| == |multiset(t)| == |kwargs|;
    SameItems(t, kwargs);
    forall i | 0 <= i < |t| ensures 0 <= Rank(names, t[i]) < |names| {
      assert t[i] in t;
    }
  }

  /** Distinct keys that are exactly the distinct names are as many as the names. */
  lemma SameCount<V>(names: seq<string>, kwargs: Kwargs<V>)
    requires Distinct(names) && Distinct(KeysOf(kwargs))
    requires Elements(KeysOf(kwargs)) == Elements(names)
    ensures |kwargs| == |names|
  {
    ElementsSize(names);
    ElementsSize(KeysOf(kwargs));
  }

  /** With distinct names and a keyword set equal to them, sorted item i has
      its key at position i of `names`. */
  lemma SortedRanks<V>(names: seq<string>, kwargs: Kwargs<V>)
    requires Distinct(names) && Distinct(KeysOf(kwargs))
    requires Elements(KeysOf(kwargs)) == Elements(names)
    ensures KeysIn(names, kwargs)
    ensures |SortByIndex(names, kwargs)| == |names|
    ensures forall i :: 0 <= i < |names| ==> Rank(names, SortByIndex(names, kwargs)[i]) == i
  {
    KeysInOfKeyCheck(names, kwargs);
    var t := SortByIndex(names, kwargs);
    SortAscending(names, kwargs);
    SortedRanksInRange(names, kwargs);
    SameCount(names, kwargs);
    forall i | 0 <= i < |names| ensures Rank(names, t[i]) == i {
      RankAtLeast(names, t, i);
      RankAtMost(names, t, i);
    }
  }

  /** The main reordering property: with distinct declared names and a
      keyword set equal to them, the sorted values are the value of each
      declared name, in declaration order. */
  lemma ReorderInDeclaredOrder<V>(names: seq<string>, kwargs: Kwargs<V>)
    requires Distinct(names) && Distinct(KeysOf(kwargs))
    requires Elements(KeysOf(kwargs)) == Elements(names)
    ensures KeysIn(names, kwargs) && Elements(names) <= ToMap(kwargs).Keys
    ensures Reorder(names, kwargs) == InDeclaredOrder(names, ToMap(kwargs))
  {
    SortedRanks(names, kwargs);
    SortedItemsAreItems(names, kwargs);
    var t := SortByIndex(names, kwargs);
    forall i | 0 <= i < |names| ensures t[i].0 == names[i] && t[i].1 == ToMap(kwargs)[names[i]] {
      var j :| 0 <= j < |kwargs| && kwargs[j] == t[i];
      assert kwargs[j] in kwargs;
      ToMapAt(kwargs, j);
    }
  }

  /** The tail of an ascending list is ascending, ranked after its head, and
      holds every item but the head. */
  lemma AscendingTail<V>(names: seq<string>, s: Kwargs<V>)
    requires s != [] && Ascending(names, s)
    ensures Ascending(names, s[1..])
    ensures forall y :: y in s[1..] ==> y in s && Rank(names, s[0]) < Rank(names, y)
    ensures forall y :: y in s ==> y == s[0] || y in s[1..]
  {
    var tail := s[1..];
    assert s == [s[0]] + tail;
    forall i, j | 0 <= i < j < |tail| ensures Rank(names, tail[i]) < Rank(names, tail[j]) {
      assert tail[i] == s[i + 1] && tail[j] == s[j + 1];
    }
    forall y | y in tail ensures Rank(names, s[0]) < Rank(names, y) {
      var k :| 0 <= k < |tail| && tail[k] == y;
      assert s[k + 1] == y;
    }
  }

  /** Two ascending lists with the same items start with the same item. */
  lemma SameHead<V>(names: seq<string>, s: Kwargs<V>, t: Kwargs<V>)
    requires s != [] && t != [] && Ascending(names, s) && Ascending(names, t)
    requires forall y :: y in s <==> y in t
    ensures s[0] == t[0]
  {
    assert s[0] in s && t[0] in t;
    var k :| 0 <= k < |t| && t[k] == s[0];
    var l :| 0 <= l < |s| && s[l] == t[0];
    assert Rank(names, s[0]) <= Rank(names, s[l]);
    assert Rank(names, t[0]) <= Rank(names, t[k]);
    assert k == 0;
  }

  /** Two ascending lists with the same items and the same head have tails
      with the same items. */
  lemma SameTailItems<V>(names: seq<string>, s: Kwargs<V>, t: Kwargs<V>)
    requires s != [] && t != [] && Ascending(names, s) && Ascending(names, t)
    requires (forall y :: y in s <==> y in t) && s[0] == t[0]
    ensures forall y :: y in s[1..] <==> y in t[1..]
  {
    AscendingTail(names, s);
    AscendingTail(names, t);
  }

  /** A list ascending by rank is fixed by the items it holds. */
  lemma {:induction false} AscendingUnique<V>(names: seq<string>, s: Kwargs<V>, t: Kwargs<V>)
    requires Ascending(names, s) && Ascending(names, t)
    requires forall y :: y in s <==> y in t
    ensures s == t
    decreases |s|
  {
    if s == [] || t == [] {
      assert Elements(s) == Elements(t);
      ElementsSize(s);
      ElementsSize(t);
    } else {
      SameHead(names, s, t);
      SameTailItems(names, s, t);
      AscendingTail(names, s);
      AscendingTail(names, t);
      AscendingUnique(names, s[1..], t[1..]);
      assert s == [s[0]] + s[1..] && t == [t[0]] + t[1..];
    }
  }

  /** Two item lists with distinct keys that denote the same mapping hold the
      same items. */
  lemma SameMappingSameItems<V>(kwargs1: Kwargs<V>, kwargs2: Kwargs<V>)
    requires Distinct(KeysOf(kwargs1)) && Distinct(KeysOf(kwargs2))
    requires ToMap(kwargs1) == ToMap(kwargs2)
    ensures forall y :: y in kwargs1 ==> y in kwargs2
  {
    forall y | y in kwargs1 ensures y in kwargs2 {
      var i :| 0 <= i < |kwargs1| && kwargs1[i] == y;
      ToMapAt(kwargs1, i);
      assert y.0 in Elements(KeysOf(kwargs2));
      var j :| 0 <= j < |kwargs2| && KeysOf(kwargs2)[j] == y.0;
      ToMapAt(kwargs2, j);
    }
  }

  /** The reordered list does not depend on the insertion order of the
      keyword arguments, only on the mapping they denote. This holds whether
      or not names repeat. */
  lemma ReorderIgnoresInsertionOrder<V>(names: seq<string>, kwargs1: Kwargs<V>, kwargs2: Kwargs<V>)
    requires Distinct(KeysOf(kwargs1)) && Distinct(KeysOf(kwargs2))
    requires Elements(KeysOf(kwargs1)) == Elements(names)
    requires ToMap(kwargs1) == ToMap(kwargs2)
    ensures KeysIn(names, kwargs1) && KeysIn(names, kwargs2)
    ensures Reorder(names, kwargs1) == Reorder(names, kwargs2)
  {
    KeysInOfKeyCheck(names, kwargs1);
    KeysInOfKeyCheck(names, kwargs2);
    var s1, s2 := SortByIndex(names, kwargs1), SortByIndex(names, kwargs2);
    SortAscending(names, kwargs1);
    SortAscending(names, kwargs2);
    SameItems(s1, kwargs1);
    SameItems(kwargs1, s1);
    SameItems(s2, kwargs2);
    SameItems(kwargs2, s2);
    SameMappingSameItems(kwargs1, kwargs2);
    SameMappingSameItems(kwargs2, kwargs1);
    AscendingUnique(names, s1, s2);
  }

  /** When a name is declared twice the keyword check can still pass, but
      the reordered list is shorter than the declared list. */
  lemma ReorderShortOnRepeatedNames<V>(names: seq<string>, kwargs: Kwargs<V>)
    requires !Distinct(names) && Distinct(KeysOf(kwargs))
    requires Elements(KeysOf(kwargs)) == Elements(names)
    ensures KeysIn(names, kwargs)
    ensures |Reorder(names, kwargs)| < |names|
  {
    KeysInOfKeyCheck(names, kwargs);
    ElementsSize(names);
    ElementsSize(KeysOf(kwargs));
  }

  // ------------------------------------------------------------ generated methods

  /** A proxy call the generated code would make. `PropertyGet` is the call
      `Get(interfaceName, propertyName)` on the standard properties interface. */
  datatype Call<V> =
    | MethodCall(dbusInterface: string, member: string, args: seq<V>)
    | PropertyGet(interfaceName: string, propertyName: string)

  /** The generated method body `dbus_func`: the keyword check, the reorder,
      the xformer, and the call of the method on the interface. */
  function CallMethod<V>(interfaceName: string, methodName: string, names: seq<string>,
                         xformer: Xformer<V>, kwargs: Kwargs<V>): (r: Result<Call<V>, Error>)
    ensures r == Failure(BadKeys) <==> Elements(names) != Elements(KeysOf(kwargs))
    ensures r.Success? ==>
              r.value.MethodCall? && r.value.dbusInterface == interfaceName && r.value.member == methodName
  {
    if Elements(names) != Elements(KeysOf(kwargs)) then Failure(BadKeys)
    else
      KeysInOfKeyCheck(names, kwargs);
      match ApplyXformer(xformer, Reorder(names, kwargs))
      case Failure(e) => Failure(e)
      case Success(xformed) => Success(MethodCall(interfaceName, methodName, xformed))
  }

  /** A method generated from `specs` with distinct argument names, called
      with exactly those keywords in any order, dispatches one call whose
      argument i is converter i applied to input transform i of the value
      given for argument name i. */
  lemma CallMethodDispatchesDeclaredOrder<V>(interfaceName: string, methodName: string,
                                             specs: seq<ArgSpec<V>>, compile: Compiler<V>, kwargs: Kwargs<V>)
    requires Distinct(ArgNames(specs)) && Distinct(KeysOf(kwargs))
    requires Elements(KeysOf(kwargs)) == Elements(ArgNames(specs))
    ensures var r := CallMethod(interfaceName, methodName, ArgNames(specs), InfoToXformer(specs, compile), kwargs);
            var outs := compile(JoinSignatures(specs));
            && r.Success?
            && r.value.MethodCall? && r.value.dbusInterface == interfaceName && r.value.member == methodName
            && |r.value.args| == Min(|outs|, |specs|)
            && Elements(ArgNames(specs)) <= ToMap(kwargs).Keys
            && forall i :: 0 <= i < |r.value.args| ==>
                 r.value.args[i] == outs[i].0(specs[i].inxform(ToMap(kwargs)[specs[i].name])).0
  {
    var names := ArgNames(specs);
    ReorderInDeclaredOrder(names, kwargs);
    var args := Reorder(names, kwargs);
    assert args == InDeclaredOrder(names, ToMap(kwargs));
    XformerOfSpecs(specs, compile, args);
  }

  /** A method whose specs repeat an argument name passes the keyword check
      on the distinct names, and then the xformer rejects the shorter list. */
  lemma CallMethodRepeatedNames<V>(interfaceName: string, methodName: string,
                                   specs: seq<ArgSpec<V>>, compile: Compiler<V>, kwargs: Kwargs<V>)
    requires !Distinct(ArgNames(specs)) && Distinct(KeysOf(kwargs))
    requires Elements(KeysOf(kwargs)) == Elements(ArgNames(specs))
    ensures CallMethod(interfaceName, methodName, ArgNames(specs), InfoToXformer(specs, compile), kwargs)
            == Failure(WrongNumberOfObjects)
  {
    ReorderShortOnRepeatedNames(ArgNames(specs), kwargs);
  }

  // ------------------------------------------------------------ class namespaces

  /** A method element of the interface: its identity and its name. */
  datatype Method = Method(id: nat, name: string)

  /** A property element of the interface: its identity and its name. */
  datatype Property = Property(id: nat, name: string)

  /** What the builders read from the interface class `spec`. */
  datatype InterfaceSpec<!V> = InterfaceSpec(
    interfaceName: string,                             // INTERFACE_NAME
    methods: seq<Method>,                              // MethodNames
    properties: seq<Property>,                         // PropertyNames
    xformers: map<Method, (seq<string>, Xformer<V>)>)  // XFORMERS

  /** Every listed method has its entry in XFORMERS. */
  ghost predicate MethodsCompiled<V>(spec: InterfaceSpec<V>) {
    forall m :: m in spec.methods ==> m in spec.xformers
  }

  /** A value placed in a class namespace: a generated method, a property
      getter, or the nested `Properties` class given by its own namespace. */
  datatype Entry<!V> =
    | MethodEntry(interfaceName: string, methodName: string, names: seq<string>, xformer: Xformer<V>)
    | Getter(interfaceName: string, propertyName: string)
    | PropertiesClass(namespace: map<string, Entry<V>>)

  /** Calling a generated method: it raises "Bad keys" exactly when the
      keywords differ from its argument names, and otherwise calls its own
      method on its own interface. */
  function InvokeMethod<V>(e: Entry<V>, kwargs: Kwargs<V>): (r: Result<Call<V>, Error>)
    requires e.MethodEntry?
    ensures r == Failure(BadKeys) <==> Elements(e.names) != Elements(KeysOf(kwargs))
    ensures r.Success? ==> r.value.MethodCall? && r.value.dbusInterface == e.interfaceName
                           && r.value.member == e.methodName
  {
    CallMethod(e.interfaceName, e.methodName, e.names, e.xformer, kwargs)
  }

  /** Calling a property getter: a `Get` of its own property of its own
      interface, through the properties interface, never a method call. */
  function InvokeGetter<V>(e: Entry<V>): (c: Call<V>)
    requires e.Getter?
    ensures c.PropertyGet? && c.interfaceName == e.interfaceName && c.propertyName == e.propertyName
  {
    PropertyGet(e.interfaceName, e.propertyName)
  }

  /** `build_method(method)`, as the values its closure captures: the
      interface name, the method's name, and the names and xformer XFORMERS
      holds for `m`. */
  function MethodEntryFor<V>(spec: InterfaceSpec<V>, m: Method): (e: Entry<V>)
    requires m in spec.xformers
    ensures e.MethodEntry? && e.interfaceName == spec.interfaceName && e.methodName == m.name
    ensures (e.names, e.xformer) == spec.xformers[m]
  {
    MethodEntry(spec.interfaceName, m.name, spec.xformers[m].0, spec.xformers[m].1)
  }

  /** The names of a list of method elements. */
  function MethodNames(ms: seq<Method>): set<string> {
    set m | m in ms :: m.name
  }

  /** The property names of a list of property elements. */
  function PropertyNames(ps: seq<Property>): set<string> {
    set p | p in ps :: p.name
  }

  /** The entries the method loop assigns, one after another, for `ms`. */
  function MethodEntries<V>(spec: InterfaceSpec<V>, ms: seq<Method>): (ns: map<string, Entry<V>>)
    requires forall m :: m in ms ==> m in spec.xformers
    ensures ns.Keys == MethodNames(ms)
    ensures forall n :: n in ns ==>
              && ns[n].MethodEntry?
              && ns[n].interfaceName == spec.interfaceName
              && ns[n].methodName == n
  {
    if ms == [] then map[]
    else
      var init, last := ms[..|ms| - 1], ms[|ms| - 1];
      assert ms == init + [last];
      assert MethodNames(ms) == MethodNames(init) + {last.name};
      MethodEntries(spec, init)[last.name := MethodEntryFor(spec, last)]
  }

  /** When several methods share a name, the entry is that of the last one. */
  lemma {:induction false} LastMethodWins<V>(spec: InterfaceSpec<V>, ms: seq<Method>, j: nat)
    requires forall m :: m in ms ==> m in spec.xformers
    requires j < |ms| && forall k :: j < k < |ms| ==> ms[k].name != ms[j].name
    ensures ms[j].name in MethodEntries(spec, ms)
    ensures MethodEntries(spec, ms)[ms[j].name] == MethodEntryFor(spec, ms[j])
  {
    var init := ms[..|ms| - 1];
    if j < |ms| - 1 {
      LastMethodWins(spec, init, j);
    }
  }

  /** The getters the property loop assigns, one after another, for `ps`. */
  function PropertyEntries<V>(interfaceName: string, ps: seq<Property>): (ns: map<string, Entry<V>>)
    ensures ns.Keys == PropertyNames(ps)
    ensures forall n :: n in ns ==> ns[n].Getter? && InvokeGetter(ns[n]) == PropertyGet(interfaceName, n)
  {
    if ps == [] then map[]
    else
      var init, last := ps[..|ps| - 1], ps[|ps| - 1];
      assert ps == init + [last];
      assert PropertyNames(ps) == PropertyNames(init) + {last.name};
      PropertyEntries(interfaceName, init)[last.name := Getter(interfaceName, last.name)]
  }

  /** End to end: when XFORMERS is `_xformers` of the method specs, the
      namespace entry for a method name is the last method of that name, and
      calling it with exactly its (distinct) argument names dispatches that
      method on the interface with the converted values in declared order. */
  lemma GeneratedMethodDispatch<V>(spec: InterfaceSpec<V>, keyToSig: map<Method, seq<ArgSpec<V>>>,
                                   compile: Compiler<V>, j: nat, kwargs: Kwargs<V>)
    requires spec.xformers == Xformers(keyToSig, compile) && MethodsCompiled(spec)
    requires j < |spec.methods| && forall k :: j < k < |spec.methods| ==> spec.methods[k].name != spec.methods[j].name
    requires Distinct(ArgNames(keyToSig[spec.methods[j]])) && Distinct(KeysOf(kwargs))
    requires Elements(KeysOf(kwargs)) == Elements(ArgNames(keyToSig[spec.methods[j]]))
    ensures var m := spec.methods[j];
            var specs := keyToSig[m];
            var outs := compile(JoinSignatures(specs));
            var ns := MethodEntries(spec, spec.methods);
            && m.name in ns
            && var r := InvokeMethod(ns[m.name], kwargs);
               && r.Success?
               && r.value == MethodCall(spec.interfaceName, m.name, r.value.args)
               && |r.value.args| == Min(|outs|, |specs|)
               && Elements(ArgNames(specs)) <= ToMap(kwargs).Keys
               && forall i :: 0 <= i < |r.value.args| ==>
                    r.value.args[i] == outs[i].0(specs[i].inxform(ToMap(kwargs)[specs[i].name])).0
  {
    var m := spec.methods[j];
    LastMethodWins(spec, spec.methods, j);
    assert spec.xformers[m].0 == ArgNames(keyToSig[m]);
    CallMethodDispatchesDeclaredOrder(spec.interfaceName, m.name, keyToSig[m], compile, kwargs);
  }

  /** The specs of a one-argument method `Create(name: s)` with the identity
      as input transform. */
  function CreateSpecs(): seq<ArgSpec<string>> {
    [ArgSpec("name", (v: string) => v, "s")]
  }

  /** A signature compiler whose converters keep the value at variant level 0. */
  function PlainCompiler(): Compiler<string> {
    (sig: string) => [((v: string) => (v, 0), sig)]
  }

  /** Calling `Create` with `name = "x"` dispatches `Create("x")` on its interface. */
  lemma CreateExample()
    ensures CallMethod("com.example.Pool", "Create", ArgNames(CreateSpecs()),
                       InfoToXformer(CreateSpecs(), PlainCompiler()), [("name", "x")])
            == Success(MethodCall("com.example.Pool", "Create", ["x"]))
  {
    var kwargs := [("name", "x")];
    assert ArgNames(CreateSpecs()) == ["name"];
    assert KeysOf(kwargs) == ["name"];
    assert Elements(["name"]) == {"name"};
    KeysInOfKeyCheck(["name"], kwargs);
    assert SortByIndex(["name"], kwargs) == kwargs;
    assert Reorder(["name"], kwargs) == ["x"];
    var x := InfoToXformer(CreateSpecs(), PlainCompiler());
    assert JoinSignatures(CreateSpecs()) == "s";
    assert x.outxforms[0]("x") == ("x", 0);
    assert x.inxforms[0]("x") == "x";
    var r := ZipApply(x.outxforms, x.inxforms, ["x"]);
    assert |r| == 1 && r[0] == "x";
    assert r == ["x"];
  }

  /** Assigning into a namespace extended by `b` is extending by the updated `b`. */
  lemma UnionUpdate<K, W>(a: map<K, W>, b: map<K, W>, k: K, v: W)
    ensures (a + b)[k := v] == a + b[k := v]
  {
  }

  /** The namespace dict a class body is executed in. */
  class Namespace<V> {
    var entries: map<string, Entry<V>>

    constructor ()
      ensures entries == map[]
    {
      entries := map[];
    }
  }

  /** The closure `builder` of `_prop_builder(spec)`: one getter per property,
      a later property of the same name replacing an earlier one. */
  method BuildProperties<V>(spec: InterfaceSpec<V>, namespace: Namespace<V>)
    modifies namespace
    ensures namespace.entries == old(namespace.entries) + PropertyEntries(spec.interfaceName, spec.properties)
  {
    for i := 0 to |spec.properties|
      invariant namespace.entries == old(namespace.entries) + PropertyEntries(spec.interfaceName, spec.properties[..i])
    {
      var prop := spec.properties[i];
      assert spec.properties[..i + 1][..i] == spec.properties[..i];
      UnionUpdate(old(namespace.entries), PropertyEntries<V>(spec.interfaceName, spec.properties[..i]),
                  prop.name, Getter(spec.interfaceName, prop.name));
      namespace.entries := namespace.entries[prop.name := Getter(spec.interfaceName, prop.name)];
    }
    assert spec.properties[..|spec.properties|] == spec.properties;
  }

  /** The closure `builder` of `_iface_builder(spec)`: one generated method
      per method element, a later one of the same name replacing an earlier
      one, and last the `Properties` class built from a fresh namespace, which
      replaces any method named `Properties`. */
  method BuildMethods<V>(spec: InterfaceSpec<V>, namespace: Namespace<V>)
    requires MethodsCompiled(spec)
    modifies namespace
    ensures namespace.entries ==
              (old(namespace.entries) + MethodEntries(spec, spec.methods))
                ["Properties" := PropertiesClass(PropertyEntries(spec.interfaceName, spec.properties))]
  {
    for i := 0 to |spec.methods|
      invariant namespace.entries == old(namespace.entries) + MethodEntries(spec, spec.methods[..i])
    {
      var m := spec.methods[i];
      assert spec.methods[..i + 1][..i] == spec.methods[..i];
      UnionUpdate(old(namespace.entries), MethodEntries(spec, spec.methods[..i]), m.name, MethodEntryFor(spec, m));
      namespace.entries := namespace.entries[m.name := MethodEntryFor(spec, m)];
    }
    assert spec.methods[..|spec.methods|] == spec.methods;
    var properties := new Namespace<V>();
    BuildProperties(spec, properties);
    assert properties.entries == PropertyEntries(spec.interfaceName, spec.properties);
    namespace.entries := namespace.entries["Properties" := PropertiesClass(properties.entries)];
  }
}
