/** The query over the result of GetManagedObjects() that the client generator
    builds for an interface (`_managed_objects_readers.py`): the objects that
    implement the interface and whose properties equal every value of a
    filter, produced one at a time. */
module ManagedObjects {
  import opened Wrappers

  /** The DPClientRuntimeErrors of the query builder and of the query. */
  datatype QueryError =
    | NoInterfaceName                          // "No name for interface."
    | NoPropertyName                           // "No name for interface property."
    | UnknownProperty(interfaceName: string)   // "Unknown property for interface %s"
    | BadData(interfaceName: string)           // "Bad data for interface %s"

  /** An interface element: its attributes and the attributes of each of its
      `property` children, in document order. */
  datatype InterfaceElement = InterfaceElement(attrib: map<string, string>, properties: seq<map<string, string>>)

  /** What the query closure `the_func` captures. */
  datatype Query = Query(interfaceName: string, propertyNames: set<string>)

  /** `gmo_query_builder`: the interface name and the set of declared
      property names, or the error for the first missing name attribute. */
  function BuildQuery(spec: InterfaceElement): (r: Result<Query, QueryError>)
    ensures r == Failure(NoInterfaceName) <==> "name" !in spec.attrib
    ensures r == Failure(NoPropertyName) <==>
              "name" in spec.attrib && exists p :: p in spec.properties && "name" !in p
    ensures r.Success? <==> "name" in spec.attrib && forall p :: p in spec.properties ==> "name" in p
    ensures r.Success? ==>
              && r.value.interfaceName == spec.attrib["name"]
              && forall n :: n in r.value.propertyNames <==>
                   exists p :: p in spec.properties && "name" in p && p["name"] == n
  {
    if "name" !in spec.attrib then Failure(NoInterfaceName)
    else if exists p :: p in spec.properties && "name" !in p then Failure(NoPropertyName)
    else Success(Query(spec.attrib["name"], set p | p in spec.properties :: p["name"]))
  }

  /** The data of one object: interface name to property name to value. */
  type ObjectData<V> = map<string, map<string, V>>

  /** The items of a GetManagedObjects() result: object path and data, in
      dict order. */
  type Managed<V> = seq<(string, ObjectData<V>)>

  /** The items of the `props` filter, in dict order. */
  type Filter<V> = seq<(string, V)>

  /** The keys of the filter. */
  function FilterKeys<V>(props: Filter<V>): set<string> {
    set i | 0 <= i < |props| :: props[i].0
  }

  /** How the `all(...)` test over the filter ends: true, false at the first
      differing value, or a KeyError at the first absent key. */
  datatype Verdict = Match | Mismatch | Missing

  /** `all(table[key] == value for (key, value) in props)`, walked in filter
      order and stopped at the first absent key or differing value. */
  function CheckProps<V(==)>(table: map<string, V>, props: Filter<V>): (r: Verdict)
    ensures r == Missing ==> exists n :: 0 <= n < |props| && props[n].0 !in table
    ensures r == Mismatch ==> exists n :: 0 <= n < |props| && props[n].0 in table && table[props[n].0] != props[n].1
  {
    if props == [] then Match
    else if props[0].0 !in table then Missing
    else if table[props[0].0] != props[0].1 then Mismatch
    else
      assert forall n :: 0 <= n < |props[1..]| ==> props[1..][n] == props[n + 1];
      CheckProps(table, props[1..])
  }

  /** Every filter key is present with the filter's value. */
  ghost predicate Satisfies<V>(table: map<string, V>, props: Filter<V>) {
    forall i :: 0 <= i < |props| ==> props[i].0 in table && table[props[i].0] == props[i].1
  }

  /** The test is true exactly when every filter item holds (conjunction). */
  lemma {:induction false} CheckPropsMatch<V>(table: map<string, V>, props: Filter<V>)
    ensures CheckProps(table, props) == Match <==> Satisfies(table, props)
  {
    if props != [] {
      CheckPropsMatch(table, props[1..]);
      if Satisfies(table, props) {
        assert Satisfies(table, props[1..]) by {
          forall i | 0 <= i < |props[1..]| ensures props[1..][i].0 in table && table[props[1..][i].0] == props[1..][i].1 {
            assert props[1..][i] == props[i + 1];
          }
        }
      }
      if CheckProps(table, props) == Match {
        forall i | 0 <= i < |props| ensures props[i].0 in table && table[props[i].0] == props[i].1 {
          if i > 0 { assert props[i] == props[1..][i - 1]; }
        }
      }
    }
  }

  /** The test raises KeyError exactly when, walking the filter in order, an
      absent key comes before any differing value. */
  lemma {:induction false} CheckPropsMissing<V>(table: map<string, V>, props: Filter<V>)
    ensures CheckProps(table, props) == Missing <==>
              exists n :: 0 <= n < |props| && Satisfies(table, props[..n]) && props[n].0 !in table
  {
    if props != [] {
      var tail := props[1..];
      CheckPropsMissing(table, tail);
      if CheckProps(table, props) == Missing {
        if props[0].0 !in table {
          assert Satisfies(table, props[..0]);
        } else {
          var n :| 0 <= n < |tail| && Satisfies(table, tail[..n]) && tail[n].0 !in table;
          var pre := props[..n + 1];
          assert Satisfies(table, pre) by {
            forall i | 0 <= i < |pre| ensures pre[i].0 in table && table[pre[i].0] == pre[i].1 {
              if i > 0 { assert pre[i] == tail[..n][i - 1]; }
            }
          }
          assert props[n + 1] == tail[n];
        }
      } else {
        forall n | 0 <= n < |props| && Satisfies(table, props[..n])
          ensures props[n].0 in table
        {
          if n > 0 {
            assert props[..n][0] == props[0];
            var pre := tail[..n - 1];
            assert Satisfies(table, pre) by {
              forall i | 0 <= i < |pre| ensures pre[i].0 in table && table[pre[i].0] == pre[i].1 {
                assert pre[i] == props[..n][i + 1];
              }
            }
            assert props[n] == tail[n - 1];
          }
        }
      }
    }
  }

  /** What the generator produces: the items yielded before it stops, and
      the error it raises, if any. */
  datatype Run<V> = Run(yielded: Managed<V>, error: Option<QueryError>)

  /** The loop over `gmo.items()` for a filter already known to be valid. */
  function Scan<V(==)>(interfaceName: string, gmo: Managed<V>, props: Filter<V>): (r: Run<V>)
    ensures r.error.Some? ==> r.error.value == BadData(interfaceName)
  {
    if gmo == [] then Run([], None)
    else
      var rest := Scan(interfaceName, gmo[1..], props);
      var data := gmo[0].1;
      if interfaceName !in data then rest
      else
        match CheckProps(data[interfaceName], props)
        case Missing => Run([], Some(BadData(interfaceName)))
        case Mismatch => rest
        case Match => Run([gmo[0]] + rest.yielded, rest.error)
  }

  /** The whole query `the_func(gmo, props)`: None stands for the empty
      filter, an undeclared filter key fails before anything is yielded,
      and otherwise the scan runs. */
  function Select<V(==)>(q: Query, gmo: Managed<V>, props: Option<Filter<V>>): (r: Run<V>)
    ensures r.error == Some(UnknownProperty(q.interfaceName)) <==> !(FilterKeys(props.GetOr([])) <= q.propertyNames)
    ensures r.error == Some(UnknownProperty(q.interfaceName)) ==> r.yielded == []
  {
    var p := props.GetOr([]);
    if !(FilterKeys(p) <= q.propertyNames) then Run([], Some(UnknownProperty(q.interfaceName)))
    else Scan(q.interfaceName, gmo, p)
  }

  /** The generator `the_func`, run to its end: the loop appends each yielded
      item to `yielded` and stops at the first error. */
  method RunQuery<V(==)>(q: Query, gmo: Managed<V>, props: Option<Filter<V>>)
    returns (yielded: Managed<V>, error: Option<QueryError>)
    ensures Run(yielded, error) == Select(q, gmo, props)
  {
    var p := if props.None? then [] else props.value;
    if !(FilterKeys(p) <= q.propertyNames) {
      return [], Some(UnknownProperty(q.interfaceName));
    }
    yielded, error := [], None;
    var i := 0;
    while i < |gmo|
      invariant 0 <= i <= |gmo|
      invariant error == None
      invariant var rest := Scan(q.interfaceName, gmo[i..], p);
                Scan(q.interfaceName, gmo, p) == Run(yielded + rest.yielded, rest.error)
    {
      assert gmo[i..][1..] == gmo[i + 1..];
      var (op, data) := gmo[i];
      if q.interfaceName in data {
        var verdict := CheckProps(data[q.interfaceName], p);
        if verdict == Missing {
          return yielded, Some(BadData(q.interfaceName));
        }
        if verdict == Match {
          yielded := yielded + [(op, data)];
        }
      }
      i := i + 1;
    }
  }

  /** Calling the query without a filter is calling it with the empty one. */
  lemma SelectNoneIsEmpty<V>(q: Query, gmo: Managed<V>)
    ensures Select(q, gmo, None) == Select(q, gmo, Some([]))
  {
  }

  // ------------------------------------------------------------ reference definitions

  /** The objects of `gmo` that implement the interface, in order. */
  function Implementing<V>(interfaceName: string, gmo: Managed<V>): Managed<V> {
    if gmo == [] then []
    else (if interfaceName in gmo[0].1 then [gmo[0]] else []) + Implementing(interfaceName, gmo[1..])
  }

  /** The objects of `gmo` that implement the interface and satisfy every
      filter item, in order. */
  ghost function Matching<V>(interfaceName: string, gmo: Managed<V>, props: Filter<V>): Managed<V> {
    if gmo == [] then []
    else
      (if interfaceName in gmo[0].1 && Satisfies(gmo[0].1[interfaceName], props) then [gmo[0]] else [])
      + Matching(interfaceName, gmo[1..], props)
  }

  /** `a` is `b` with some items left out, the rest in their order. */
  ghost predicate IsSubsequence<T>(a: seq<T>, b: seq<T>) {
    if a == [] then true
    else if b == [] then false
    else (a[0] == b[0] && IsSubsequence(a[1..], b[1..])) || IsSubsequence(a, b[1..])
  }

  // ------------------------------------------------------------ properties of the scan

  /** An object without the interface is never yielded and never causes an
      error: removing it changes nothing. */
  lemma {:induction false} ScanSkipsOtherObjects<V>(interfaceName: string, before: Managed<V>,
                                                       x: (string, ObjectData<V>), after: Managed<V>, props: Filter<V>)
    requires interfaceName !in x.1
    ensures Scan(interfaceName, before + [x] + after, props) == Scan(interfaceName, before + after, props)
  {
    if before == [] {
      assert before + [x] + after == [x] + after && before + after == after;
      assert ([x] + after)[1..] == after;
    } else {
      ScanSkipsOtherObjects(interfaceName, before[1..], x, after, props);
      assert (before + [x] + after)[1..] == before[1..] + [x] + after;
      assert (before + after)[1..] == before[1..] + after;
    }
  }

  /** With an empty filter every object implementing the interface is
      yielded, in order, and nothing is raised. */
  lemma {:induction false} ScanWithoutFilter<V>(interfaceName: string, gmo: Managed<V>)
    ensures Scan(interfaceName, gmo, []) == Run(Implementing(interfaceName, gmo), None)
  {
    if gmo != [] {
      ScanWithoutFilter(interfaceName, gmo[1..]);
    }
  }

  /** The yielded items are items of `gmo`, unchanged and in their order. */
  lemma {:induction false} ScanIsSubsequence<V>(interfaceName: string, gmo: Managed<V>, props: Filter<V>)
    ensures IsSubsequence(Scan(interfaceName, gmo, props).yielded, gmo)
  {
    if gmo != [] {
      ScanIsSubsequence(interfaceName, gmo[1..], props);
      var r := Scan(interfaceName, gmo, props);
      var rest := Scan(interfaceName, gmo[1..], props);
      if r.yielded != [] && r.yielded != rest.yielded {
        assert r.yielded == [gmo[0]] + rest.yielded;
        assert r.yielded[1..] == rest.yielded;
      }
    }
  }

  /** Every yielded item implements the interface and satisfies every filter
      item (conjunctive semantics). */
  lemma {:induction false} ScanYieldsOnlyMatches<V>(interfaceName: string, gmo: Managed<V>, props: Filter<V>)
    ensures forall x :: x in Scan(interfaceName, gmo, props).yielded ==>
              x in gmo && interfaceName in x.1 && Satisfies(x.1[interfaceName], props)
  {
    if gmo != [] {
      ScanYieldsOnlyMatches(interfaceName, gmo[1..], props);
      if interfaceName in gmo[0].1 {
        CheckPropsMatch(gmo[0].1[interfaceName], props);
      }
      forall x | x in Scan(interfaceName, gmo[1..], props).yielded ensures x in gmo {
        assert x in gmo[1..];
      }
    }
  }

  /** When nothing is raised, the yielded items are exactly the objects that
      implement the interface and satisfy every filter item, in order. */
  lemma {:induction false} ScanYieldsAllMatches<V>(interfaceName: string, gmo: Managed<V>, props: Filter<V>)
    requires Scan(interfaceName, gmo, props).error == None
    ensures Scan(interfaceName, gmo, props).yielded == Matching(interfaceName, gmo, props)
  {
    if gmo != [] {
      var data := gmo[0].1;
      if interfaceName in data {
        CheckPropsMatch(data[interfaceName], props);
      }
      ScanYieldsAllMatches(interfaceName, gmo[1..], props);
    }
  }

  /** An object implementing the interface on which the filter test raises. */
  ghost predicate BadObject<V>(interfaceName: string, x: (string, ObjectData<V>), props: Filter<V>) {
    interfaceName in x.1 && CheckProps(x.1[interfaceName], props) == Missing
  }

  /** "Bad data" is raised exactly when some object implementing the
      interface reaches an absent filter key before any differing value. */
  lemma {:induction false} ScanBadData<V>(interfaceName: string, gmo: Managed<V>, props: Filter<V>)
    ensures Scan(interfaceName, gmo, props).error.Some? <==>
              exists j :: 0 <= j < |gmo| && BadObject(interfaceName, gmo[j], props)
  {
    if gmo != [] {
      var tail := gmo[1..];
      ScanBadData(interfaceName, tail, props);
      if !BadObject(interfaceName, gmo[0], props) {
        forall j | 0 <= j < |tail| && BadObject(interfaceName, tail[j], props)
          ensures BadObject(interfaceName, gmo[j + 1], props)
        {
          assert tail[j] == gmo[j + 1];
        }
        forall j | 0 < j < |gmo| && BadObject(interfaceName, gmo[j], props)
          ensures BadObject(interfaceName, tail[j - 1], props)
        {
          assert tail[j - 1] == gmo[j];
        }
      }
    }
  }

  /** `gmo[j]` is the first object on which the filter test raises. */
  ghost predicate FirstBad<V>(interfaceName: string, gmo: Managed<V>, props: Filter<V>, j: int) {
    && 0 <= j < |gmo| && BadObject(interfaceName, gmo[j], props)
    && forall k :: 0 <= k < j ==> !BadObject(interfaceName, gmo[k], props)
  }

  /** Putting a harmless object in front moves the first bad object one
      place on. */
  lemma FirstBadShift<V>(interfaceName: string, gmo: Managed<V>, props: Filter<V>, j: int)
    requires gmo != [] && !BadObject(interfaceName, gmo[0], props)
    requires FirstBad(interfaceName, gmo[1..], props, j)
    ensures FirstBad(interfaceName, gmo, props, j + 1)
  {
    forall k | 0 <= k < j + 1 ensures !BadObject(interfaceName, gmo[k], props) {
      if k > 0 { assert gmo[k] == gmo[1..][k - 1]; }
    }
  }

  /** When "Bad data" is raised, the matching objects before the first
      object that raises it stay yielded, and nothing after it is. */
  lemma {:induction false} ScanBadDataKeepsEarlierMatches<V>(interfaceName: string, gmo: Managed<V>, props: Filter<V>)
    requires Scan(interfaceName, gmo, props).error.Some?
    ensures exists j :: FirstBad(interfaceName, gmo, props, j)
                        && Scan(interfaceName, gmo, props).yielded == Matching(interfaceName, gmo[..j], props)
  {
    var tail := gmo[1..];
    if BadObject(interfaceName, gmo[0], props) {
      assert gmo[..0] == [];
      assert FirstBad(interfaceName, gmo, props, 0);
    } else {
      ScanBadDataKeepsEarlierMatches(interfaceName, tail, props);
      var j :| FirstBad(interfaceName, tail, props, j)
               && Scan(interfaceName, tail, props).yielded == Matching(interfaceName, tail[..j], props);
      FirstBadShift(interfaceName, gmo, props, j);
      assert gmo[..j + 1][1..] == tail[..j];
      if interfaceName in gmo[0].1 {
        CheckPropsMatch(gmo[0].1[interfaceName], props);
      }
      assert Scan(interfaceName, gmo, props).yielded == Matching(interfaceName, gmo[..j + 1], props);
    }
  }
}
