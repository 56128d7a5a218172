# dbus-python-client-gen: argument reordering and managed-objects query

This project models two parts of dbus-python-client-gen, a library that
generates client classes for invoking D-Bus methods and reading D-Bus
properties. Neither part needs the bus, and both are proved here in Dafny.

- **Invokers** (`invokers.dfy`, module `Invokers`) covers the generated
  methods and namespaces of `_invokers.py`:
  - the option encoder `_option_to_tuple`;
  - the argument transformer built by `_info_to_xformer`. It checks the
    length of its input, then applies a per-argument input transform and a
    per-type output converter;
  - the table `_xformers`, which pairs each method's argument names with
    its transformer;
  - the body of a generated method. It checks the keyword set, sorts the
    keyword items into declared order with `names.index`, transforms them
    and dispatches;
  - the two class-body builders. They fill a namespace dict with one
    generated method per method name, one getter per property, and finally
    a `Properties` class.

  The namespace dict is a `Namespace` class whose builders are loop methods
  that update its `entries` map. A proxy call is returned as a `Call` value
  naming the D-Bus interface, the member and the arguments.
- **ManagedObjects** (`managed_objects.dfy`, module `ManagedObjects`)
  covers `gmo_query_builder` of `_managed_objects_readers.py` and the
  generator it returns. The generator filters a GetManagedObjects() result
  (object path → interface name → property name → value). It keeps the
  objects that implement one interface and whose properties equal every
  item of a filter. It fails on an undeclared filter key before yielding anything. It fails
  mid-stream on an implementing object when the filter test, walking the
  filter in order, reaches a key the object lacks before any differing
  value; an earlier difference ends the test with false and no error. The generator is a loop
  method, `RunQuery`. Its result is the yielded items together with the
  error raised, if any, and it is proved equal to the function `Select`.
- `wrappers.dfy` (module `Wrappers`) holds `Option` for Python's None and
  `Result` for raised exceptions.

Modelling choices:
- Keyword arguments and the filter are sequences of (key, value) pairs, the
  items of a Python dict in insertion order. This is how the model can state
  that the reorder is independent of insertion order.
- Values have a type parameter `V`.
- The signature compiler of into-dbus-python is a function parameter
  `compile`.
- The errors of `_errors.py` are datatype tags:
  - `Invokers.Error` stands for the ValueErrors `"Bad keys"` and
    `"wrong number of objects"`;
  - `ManagedObjects.QueryError` stands for the DPClientRuntimeErrors.

Facts about the code that the model keeps:
- The generated code raises plain ValueError with no context for a bad
  keyword set or a wrong number of arguments. It has no separate keyword,
  marshalling or invocation error.
- The property builder makes getters only. There are no setters, and the
  `access` attribute is not read.
- No timeout is passed to the proxy.

## Model

| member | source | states |
|---|---|---|
| Invokers.JoinSignatures | src/dbus_python_client_gen/_invokers.py:33 | A character is in the joined signature exactly when it is in some spec's signature fragment. |
| Invokers.JoinSignaturesAppend | src/dbus_python_client_gen/_invokers.py:33 | Joining the specs of two lists is joining each list and concatenating the results. |
| Invokers.ArgNames | src/dbus_python_client_gen/_invokers.py:65 | One name per spec, and name i is the name of spec i. |
| Invokers.OptionToTuple | src/dbus_python_client_gen/_invokers.py:11-20 | The flag is true exactly for a present value, and the second component then recovers it. When the flag is false the value was None and the second component is the default. |
| Invokers.InfoToXformer | src/dbus_python_client_gen/_invokers.py:23-34 | Its expected length is the number of specs. The input transforms are those of the specs, in order. The output converters are the first components of what `compile` returns for the joined signature. |
| Invokers.ZipApply | src/dbus_python_client_gen/_invokers.py:48-50 | The result is as long as the shortest of the three zipped lists. Element i is the first component of converter i applied to input transform i of object i. |
| Invokers.ApplyXformer | src/dbus_python_client_gen/_invokers.py:36-50 | The xformer fails exactly when the input length differs from the expected length, and then the error is "wrong number of objects". |
| Invokers.XformerOfSpecs | src/dbus_python_client_gen/_invokers.py:32-50 | The xformer of `specs` raises exactly on a list whose length is not the number of specs. Otherwise it returns min(#converters, #specs) values. Value i is `outxforms[i](inxforms[i](objects[i]))[0]`. |
| Invokers.Xformers | src/dbus_python_client_gen/_invokers.py:55-66 | The key set is the input's key set. Each key maps to the argument names in spec order, paired with the xformer of that key's specs. |
| Invokers.IndexOf | src/dbus_python_client_gen/_invokers.py:139 | `names.index(k)` is a position holding `k`, and no earlier position holds `k`. |
| Invokers.Insert | src/dbus_python_client_gen/_invokers.py:137-139 | One insertion step of the sort. The result holds the old items plus the new one: a multiset equality. |
| Invokers.InsertAscending | src/dbus_python_client_gen/_invokers.py:137-139 | Inserting an item with a new key into items ascending by `names.index` keeps them ascending. |
| Invokers.SortByIndex | src/dbus_python_client_gen/_invokers.py:137-139 | The sorted items are a permutation of the keyword items: a multiset equality. |
| Invokers.SortAscending | src/dbus_python_client_gen/_invokers.py:137-139 | When the keys are distinct, the sorted items are strictly ascending by the position of their key in `names`. |
| Invokers.Reorder | src/dbus_python_client_gen/_invokers.py:137-139 | The argument list has one value per keyword item. |
| Invokers.ReorderInDeclaredOrder | src/dbus_python_client_gen/_invokers.py:137-139 | Main lemma. Assume the names are distinct and the keyword set equals them. Then the reordered list is exactly `[kwargs[names[i]] for i in range(len(names))]`. |
| Invokers.AscendingUnique | src/dbus_python_client_gen/_invokers.py:137-139 | Two lists strictly ascending by `names.index` of their keys that hold the same items are equal: the sort's output depends only on the items. |
| Invokers.ReorderIgnoresInsertionOrder | src/dbus_python_client_gen/_invokers.py:137-139 | Two keyword dicts with the same contents, in any insertion order, give the same reordered list. This holds also when declared names repeat. |
| Invokers.ReorderShortOnRepeatedNames | src/dbus_python_client_gen/_invokers.py:135-139 | Assume a name repeats while the key check passes. Then the reordered list is shorter than the declared names. |
| Invokers.CallMethod | src/dbus_python_client_gen/_invokers.py:131-145 | A generated method raises "Bad keys" exactly when the keyword key set differs from the set of declared names. A successful call targets the method on the spec's interface. |
| Invokers.CallMethodDispatchesDeclaredOrder | src/dbus_python_client_gen/_invokers.py:131-145 | Assume distinct argument names and exactly those keywords, in any order. Then the call succeeds with min(#converters, #specs) arguments. Argument i is converter i applied to input transform i of the value given for name i. |
| Invokers.CallMethodRepeatedNames | src/dbus_python_client_gen/_invokers.py:135-140 | Assume the specs repeat a name and the keywords are exactly the distinct names. Then the key check passes, but the xformer raises "wrong number of objects". |
| Invokers.CreateExample | src/dbus_python_client_gen/_invokers.py:131-145 | `Create(name)` with identity conversions, called with `name="x"`, dispatches `Create("x")` on its interface. |
| Invokers.InvokeMethod | src/dbus_python_client_gen/_invokers.py:131-145 | Calling a generated method raises "Bad keys" exactly when the keywords differ from its argument names. Otherwise it calls its own method on its own interface. |
| Invokers.InvokeGetter | src/dbus_python_client_gen/_invokers.py:90-98 | A getter issues `Get` of its own property name on its own interface through the properties interface. It never calls a method. |
| Invokers.MethodEntryFor | src/dbus_python_client_gen/_invokers.py:123-147 | `build_method(method)` captures the interface name, the method's name, and the names and xformer that XFORMERS holds for the method. |
| Invokers.MethodEntries | src/dbus_python_client_gen/_invokers.py:149-150 | The method loop leaves exactly one entry per method name. Each entry is a generated method for the spec's interface under that name. |
| Invokers.LastMethodWins | src/dbus_python_client_gen/_invokers.py:149-150 | When several methods share a name, the entry is the one built from the last of them. |
| Invokers.PropertyEntries | src/dbus_python_client_gen/_invokers.py:83-103 | The property loop leaves exactly one entry per property name. Each is a getter issuing `Get(INTERFACE_NAME, name)`. |
| Invokers.GeneratedMethodDispatch | src/dbus_python_client_gen/_invokers.py:123-150 | End to end. Take the namespace entry for a method name, where XFORMERS comes from `_xformers`, and call it with exactly its distinct argument names. It dispatches the last method of that name, with the converted values in declared order. |
| Invokers.BuildProperties | src/dbus_python_client_gen/_invokers.py:76-103 | The new namespace is the old one extended by the getters of all properties. A later property of the same name replaces an earlier one. |
| Invokers.BuildMethods | src/dbus_python_client_gen/_invokers.py:116-157 | The new namespace is the old one extended by one generated method per name, last one winning. Then `Properties` is set to the class built from an empty namespace, replacing any method named `Properties`. |
| ManagedObjects.BuildQuery | src/dbus_python_client_gen/_managed_objects_readers.py:23-32 | Fails with "No name for interface." exactly when the interface has no name. Fails with "No name for interface property." exactly when it has a name but some property does not. It succeeds exactly when the interface and every property have a name, and then captures the name and exactly the set of property names. |
| ManagedObjects.CheckProps | src/dbus_python_client_gen/_managed_objects_readers.py:65-66 | The test raises KeyError only when some filter key is absent from the object's properties. It is false only when some filter key is present with a different value. |
| ManagedObjects.CheckPropsMatch | src/dbus_python_client_gen/_managed_objects_readers.py:65-66 | The `all(...)` test is true exactly when every filter key is present with the filter's value (conjunction). |
| ManagedObjects.CheckPropsMissing | src/dbus_python_client_gen/_managed_objects_readers.py:64-71 | The test raises KeyError exactly when, walking the filter in order, an absent key comes before any differing value. |
| ManagedObjects.Scan | src/dbus_python_client_gen/_managed_objects_readers.py:60-71 | The only error the loop raises is "Bad data" for the query's interface. |
| ManagedObjects.Select | src/dbus_python_client_gen/_managed_objects_readers.py:53-58 | "Unknown property" is raised exactly when a filter key is not a declared property name, and then nothing is yielded. None counts as the empty filter. |
| ManagedObjects.RunQuery | src/dbus_python_client_gen/_managed_objects_readers.py:34-71 | The generator loop yields, and raises, exactly what `Select` describes. |
| ManagedObjects.SelectNoneIsEmpty | src/dbus_python_client_gen/_managed_objects_readers.py:53 | `props=None` behaves exactly like `props={}`. |
| ManagedObjects.ScanSkipsOtherObjects | src/dbus_python_client_gen/_managed_objects_readers.py:61-62 | Removing an object that lacks the interface changes neither what is yielded nor what is raised. |
| ManagedObjects.ScanWithoutFilter | src/dbus_python_client_gen/_managed_objects_readers.py:48-49 | With an empty filter, every object implementing the interface is yielded, in order, and nothing is raised. |
| ManagedObjects.ScanIsSubsequence | src/dbus_python_client_gen/_managed_objects_readers.py:60-67 | The yielded items are an order-preserving subsequence of the `gmo` items. Each is an object's full, unchanged entry. |
| ManagedObjects.ScanYieldsOnlyMatches | src/dbus_python_client_gen/_managed_objects_readers.py:46-47 | Every yielded object implements the interface and satisfies every filter item. This holds even when an error follows. |
| ManagedObjects.ScanYieldsAllMatches | src/dbus_python_client_gen/_managed_objects_readers.py:60-67 | When nothing is raised, the yielded items are exactly the implementing objects that satisfy every filter item, in order. |
| ManagedObjects.ScanBadData | src/dbus_python_client_gen/_managed_objects_readers.py:64-71 | "Bad data" is raised exactly when some implementing object reaches an absent filter key before any difference. |
| ManagedObjects.ScanBadDataKeepsEarlierMatches | src/dbus_python_client_gen/_managed_objects_readers.py:60-71 | When "Bad data" is raised there is a first object that raises it. The yielded items are exactly the matching objects before it, and nothing from it onwards is yielded. |

## Left out

- The D-Bus dispatch itself is not modelled: `getattr(proxy_object, name)(..., dbus_interface=...)` and `proxy_object.Get(..., dbus_interface=dbus.PROPERTIES_IFACE)`. The model returns the call as a `Call` value, and what the bus does with it is out of scope.
- The signature compiler `xformers` of into-dbus-python is the function parameter `compile`, and it is total. Three things the source may raise from are therefore not modelled: `xformers(sig)` itself on a bad signature (`_invokers.py:33`, run when the XFORMERS table is built), a converter `f` on a bad value, and an input transform `g` (line 49). An exception from `f` or `g` would propagate unchanged out of the xformer; one from `xformers(sig)` out of `_info_to_xformer`, when the table is built.
- `types.new_class` and `staticmethod` are not modelled. The `Properties` class is the entry `PropertiesClass` holding the namespace its body fills, and a generated method is an entry holding the values its closure captures.
- Method and property elements are compared by an `id` field, which stands in for Python object identity as keys of XFORMERS.
- Invokers.BuildMethods requires every listed method to have an XFORMERS entry. A missing entry would raise KeyError, and the model does not capture that.
- ManagedObjects.CheckProps: filter values are compared with Dafny equality on `V`, which is reflexive. Python's `==` at `_managed_objects_readers.py:65` need not be: a property equal to `float('nan')`, filtered by `nan`, compares false in Python and the object is skipped, while the model yields it.
- Invokers.CallMethod: Python's argument binding of `dbus_func(proxy_object, **kwargs)` (`_invokers.py:131`) is not modelled. A method with a declared argument named `proxy_object` cannot be called in Python (TypeError, multiple values for the argument), while the model dispatches it.
- The error classes of `_errors.py` are tags. The message texts appear only as comments, with the interface name as a field where a message includes it.
- Laziness of the generator is not modelled: `RunQuery` runs to its end or to its first error. A consumer that stops early sees a prefix of `yielded`. Restarting the query is calling it again, and gives the same result because `Select` is a function.
- Package metadata (`__init__.py`, `_version.py`, `setup.py`) and the tests' `make_class`, `method_builder` and `prop_builder`, with their setters and `access`, are not part of this model. They do not exist in the modelled `_invokers.py`.
