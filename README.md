# AppComponentsContainerImpl in Dafny

A model of `AppComponentsContainerImpl`, the small dependency-injection container of the
`hw13-di` module, together with proofs about how it builds and finds its components.

The container's constructor takes a configuration class and does the following:
- It checks that the class carries `@AppComponentsContainerConfig`.
- It instantiates the class.
- It rejects a class that declares no methods.
- It puts every `@AppComponent(order, name)` method into a `TreeMap` under the key `order + "&&&&" + name`.
- It walks that map in key order. For each method it resolves every parameter to the first already-built bean that is an instance of the parameter's type, and invokes the method. It appends the result to `appComponents` and stores it in `appComponentsByName` under `key.split("&&&&")[1]`.

Two lookups then read the state: the first bean whose class is an instance of a type, and the bean stored under a name.

Reflection is replaced by data:
- A `ConfigClass` records whether the class is annotated and whether its constructor succeeds. It also holds its declared methods in declaration order.
- A `FactoryMethod` records its optional `AppComponent(order, name)`, the type ids of its parameters, the runtime type of the object it returns, and whether its body throws.
- `Class.isInstance` is a given relation `isInstance(runtimeType, requestedType)`.
- A `Bean` records the index of the factory that built it, its runtime type and the beans passed to that factory. This lets the proofs state which earlier beans a factory received.

Files:
- `wrappers.dfy`: `Option`, `Result` and `Outcome`.
- `java_strings.dfy`: the parts of `java.lang` the container relies on:
  - `String.compareTo` as `Less`;
  - `Integer.toString` as `DecimalString`;
  - `String.split` with a literal separator, i.e. leftmost non-overlapping matches, a string without a match comes back whole, and trailing empty strings are removed.
- `tree_maps.dfy`: `TreeMap<String, V>` as its own iteration sequence, i.e. entries strictly sorted by key. `Put` inserts or replaces.
- `container.dfy`: the container itself:
  - the specification functions `MethodsMapSpec`, `TreeOf`, `FirstInstance`, `ResolveParameters`, `CreateBean`, `Build` and `Construct`;
  - the class `AppComponentsContainerImpl`, whose methods update its two indexes in loops proved against those functions.
- `properties.dfy`: what construction guarantees: build order, the overwriting of equal keys, name recovery, parameter visibility, and when construction fails.
- `scenario.dfy`: the test configuration `TestAppConfig1` and the two lookups its tests make.

## Model

| member | source | states |
|---|---|---|
| AppComponentsContainer.AppComponentsContainerImpl.New | hw13-di/src/main/java/ru/otus/appcontainer/AppComponentsContainerImpl.java:19-21 | The constructor either fails with exactly the error of `Construct`, or yields a fresh, valid container. That container holds `Construct`'s beans and name index and has its configuration object. |
| AppComponentsContainer.AppComponentsContainerImpl.Empty | hw13-di/src/main/java/ru/otus/appcontainer/AppComponentsContainerImpl.java:14-17 | The field initialisers: an empty bean list, an empty name index and no configuration object. |
| AppComponentsContainer.AppComponentsContainerImpl.ProcessConfig | hw13-di/src/main/java/ru/otus/appcontainer/AppComponentsContainerImpl.java:23-38 | On a fresh container, the outcome is `Construct`'s, and on success the state is `Construct`'s registry. The configuration object exists exactly when the class is annotated and instantiable. A rejected class or one without methods leaves both indexes empty. |
| AppComponentsContainer.AppComponentsContainerImpl.CheckConfigClass | hw13-di/src/main/java/ru/otus/appcontainer/AppComponentsContainerImpl.java:89-93 | Passes exactly when the class carries the marker annotation, and otherwise fails with `NotConfig`. |
| AppComponentsContainer.AppComponentsContainerImpl.CreateMethodsMap | hw13-di/src/main/java/ru/otus/appcontainer/AppComponentsContainerImpl.java:40-53 | The loop of `put`s yields a sorted map whose contents are `MethodsMapSpec`: for each key, the last annotated method put under it. |
| AppComponentsContainer.AppComponentsContainerImpl.CreateBeans | hw13-di/src/main/java/ru/otus/appcontainer/AppComponentsContainerImpl.java:55-62 | The loop's outcome is that of `Build` on the map's entries, and on success both indexes equal `Build`'s registry. Every named bean is in the list. |
| AppComponentsContainer.AppComponentsContainerImpl.GetAppComponentByType | hw13-di/src/main/java/ru/otus/appcontainer/AppComponentsContainerImpl.java:95-100 | None (the `NoSuchElementException`) exactly when no bean in the list is an instance of the type. Otherwise it is the first bean in list order that is one. It only reads the state. |
| AppComponentsContainer.AppComponentsContainerImpl.GetAppComponentByName | hw13-di/src/main/java/ru/otus/appcontainer/AppComponentsContainerImpl.java:102-107 | Found exactly when the name is a key of the index. The result is the bean stored under it, and that bean is in the list. |
| AppComponentsContainer.TreeOf | hw13-di/src/main/java/ru/otus/appcontainer/AppComponentsContainerImpl.java:41-50 | The TreeMap built by the `put`s is strictly sorted, and its contents are `MethodsMapSpec`. |
| AppComponentsContainer.FirstInstance | hw13-di/src/main/java/ru/otus/appcontainer/AppComponentsContainerImpl.java:97 | `filter(isInstance).findFirst()`: None exactly when nothing matches. Otherwise it is a matching bean with no match before it. |
| AppComponentsContainer.ResolveParameters | hw13-di/src/main/java/ru/otus/appcontainer/AppComponentsContainerImpl.java:73 | Succeeds exactly when every parameter type has an instance among the visible beans. Then each argument is the first such instance. Otherwise it fails with `UnresolvedParameter` of a type that has no instance. |
| AppComponentsContainer.CreateBeanSpec | hw13-di/src/main/java/ru/otus/appcontainer/AppComponentsContainerImpl.java:64-79 | Succeeds exactly when the body does not throw and every parameter resolves. The bean then has the factory's runtime type and the resolved arguments. A failure is `FactoryThrew`, or `UnresolvedParameter` of a type with no instance. Parameters are resolved before the body is invoked, so any unresolved parameter gives `UnresolvedParameter`, and `FactoryThrew` happens only when every parameter resolved. |
| AppComponentsContainer.BuildLast | hw13-di/src/main/java/ru/otus/appcontainer/AppComponentsContainerImpl.java:56-61 | Unfolding step of `Build`, used by the proofs: a successful run is a successful run of all entries but the last, then one iteration that recovers a name, appends the bean and stores it under the name. |
| AppComponentsContainer.BuildLength | hw13-di/src/main/java/ru/otus/appcontainer/AppComponentsContainerImpl.java:56-59 | One bean is appended per entry. |
| AppComponentsContainer.BuildExtend | hw13-di/src/main/java/ru/otus/appcontainer/AppComponentsContainerImpl.java:56-61 | Unfolding step of `Build`, used by the proofs: after a successful prefix, the next entry succeeds exactly when its name is recovered and its bean is created. |
| AppComponentsContainer.BuildStep | hw13-di/src/main/java/ru/otus/appcontainer/AppComponentsContainerImpl.java:56-61 | Unfolding step of `Build` that carries the `CreateBeans` loop: the run over the first `i + 1` entries is one registration of entry `i` on top of the run over the first `i`. |
| AppComponentsContainer.BuildFailurePersists | hw13-di/src/main/java/ru/otus/appcontainer/AppComponentsContainerImpl.java:56-58 | An exception in one iteration aborts createBeans with that exception. |
| ContainerProperties.BuildBeanAt | hw13-di/src/main/java/ru/otus/appcontainer/AppComponentsContainerImpl.java:56-79 | After success, bean `i` is what entry `i`'s factory yields from the beans built before it. |
| ContainerProperties.BuildBeans | hw13-di/src/main/java/ru/otus/appcontainer/AppComponentsContainerImpl.java:56-79 | Bean `i` comes from entry `i`: it has that factory and its runtime type, the body did not throw, and each argument is the first instance of its parameter type among beans `0..i-1`. |
| ContainerProperties.ArgumentsBuiltEarlier | hw13-di/src/main/java/ru/otus/appcontainer/AppComponentsContainerImpl.java:58-73 | Every argument passed to a factory is a bean built before it. |
| ContainerProperties.SameTypeSameBean | hw13-di/src/main/java/ru/otus/appcontainer/AppComponentsContainerImpl.java:73-97 | Two parameters of the same type receive the same bean. |
| ContainerProperties.BuildNameRecovered | hw13-di/src/main/java/ru/otus/appcontainer/AppComponentsContainerImpl.java:57-60 | After success, entry `i`'s name was recovered and is a key of the name index. |
| ContainerProperties.BuildNamesRecovered | hw13-di/src/main/java/ru/otus/appcontainer/AppComponentsContainerImpl.java:57-60 | After success every entry's name was recovered and is a key of the name index. |
| ContainerProperties.NameOwnerIndex | hw13-di/src/main/java/ru/otus/appcontainer/AppComponentsContainerImpl.java:57-60 | For a name in the index: the position of the entry whose bean the name holds. That entry recovered the name, and no later entry did. |
| ContainerProperties.BuildNameOwner | hw13-di/src/main/java/ru/otus/appcontainer/AppComponentsContainerImpl.java:57-60 | A name holds the bean of the last entry, in build order, whose key yields that name. |
| ContainerProperties.LastWithNameExtend | hw13-di/src/main/java/ru/otus/appcontainer/AppComponentsContainerImpl.java:60 | Appending an entry with another name keeps an entry the last one with its name. |
| ContainerProperties.InstanceAmongBuilt | hw13-di/src/main/java/ru/otus/appcontainer/AppComponentsContainerImpl.java:73-97 | A type finds a bean among those built exactly when some built entry's runtime type is an instance of it. |
| ContainerProperties.ProvidedPrefix | hw13-di/src/main/java/ru/otus/appcontainer/AppComponentsContainerImpl.java:73-97 | What the entries before position `i` provide does not depend on later entries. |
| ContainerProperties.BuildableUpTo | hw13-di/src/main/java/ru/otus/appcontainer/AppComponentsContainerImpl.java:56-79 | Whether an entry can be built depends only on the entries up to it: cutting the list after it changes nothing. |
| ContainerProperties.AllBuildableExtend | hw13-di/src/main/java/ru/otus/appcontainer/AppComponentsContainerImpl.java:56-79 | Every entry is buildable exactly when those before the last are, and the last is too. |
| ContainerProperties.BuildableLast | hw13-di/src/main/java/ru/otus/appcontainer/AppComponentsContainerImpl.java:56-79 | After a successful prefix, the last entry succeeds exactly when it is buildable from the entries before it. |
| ContainerProperties.BuildSucceedsIff | hw13-di/src/main/java/ru/otus/appcontainer/AppComponentsContainerImpl.java:56-79 | createBeans succeeds exactly when, for every entry, its name is recoverable, its body does not throw, and each parameter type has an instance among the runtime types of strictly earlier entries. |
| ContainerProperties.BuildErrors | hw13-di/src/main/java/ru/otus/appcontainer/AppComponentsContainerImpl.java:55-79 | createBeans fails only with a missing name, an unresolved parameter or a throwing factory. |
| ContainerProperties.FirstUnprovidedFails | hw13-di/src/main/java/ru/otus/appcontainer/AppComponentsContainerImpl.java:56-79 | If every entry before `i` can be built, entry `i` has a name, and one of its parameter types is produced by no earlier entry, then construction fails. The error is `UnresolvedParameter` of a parameter type of entry `i` that no earlier entry produces, even when entry `i`'s body would throw. |
| ContainerProperties.ConstructRejections | hw13-di/src/main/java/ru/otus/appcontainer/AppComponentsContainerImpl.java:24-34 | `NotConfig` exactly when the marker is missing. `InstantiationFailed` exactly when the class is marked but not instantiable. `EmptyConfig` exactly when it is marked, instantiable and has no declared methods. |
| ContainerProperties.MethodsMapKeys | hw13-di/src/main/java/ru/otus/appcontainer/AppComponentsContainerImpl.java:42-50 | A key is in the methods map exactly when some annotated method has it. Unannotated methods contribute nothing. |
| ContainerProperties.MethodsMapLastWins | hw13-di/src/main/java/ru/otus/appcontainer/AppComponentsContainerImpl.java:42-50 | The method under a key has that key, and no method declared after it has the same key: a later `put` replaces an earlier one. |
| ContainerProperties.UnannotatedConfigIsEmpty | hw13-di/src/main/java/ru/otus/appcontainer/AppComponentsContainerImpl.java:31-45 | A marked, instantiable class with methods none of which is annotated is not rejected. It yields an empty container. |
| ContainerProperties.BuildOrder | hw13-di/src/main/java/ru/otus/appcontainer/AppComponentsContainerImpl.java:56 | The keys in iteration order; there are as many as the map has entries. |
| ContainerProperties.BuildOrderSorted | hw13-di/src/main/java/ru/otus/appcontainer/AppComponentsContainerImpl.java:41-56 | The iteration order holds every key of the methods map exactly once, in strictly ascending String order. |
| ContainerProperties.ConstructInKeyOrder | hw13-di/src/main/java/ru/otus/appcontainer/AppComponentsContainerImpl.java:41-61 | After success there is one bean per key, in key order. Each bean comes from an annotated method with that key, and no method declared after it has the same key. |
| ContainerProperties.TextualOrderOfKeys | hw13-di/src/main/java/ru/otus/appcontainer/AppComponentsContainerImpl.java:41-49 | Keys compare as text, not as numbers: order 10 precedes order 2, whatever the names. |
| ContainerProperties.EqualOrdersByName | hw13-di/src/main/java/ru/otus/appcontainer/AppComponentsContainerImpl.java:41-49 | With equal orders, keys compare exactly as the names do. |
| ContainerProperties.KeyInjective | hw13-di/src/main/java/ru/otus/appcontainer/AppComponentsContainerImpl.java:47-49 | Two annotations share a key only when they have the same order and the same name. |
| ContainerProperties.FindSeparatorInKey | hw13-di/src/main/java/ru/otus/appcontainer/AppComponentsContainerImpl.java:49-57 | In a key, the first separator directly follows the digits of the order. |
| ContainerProperties.SplitKey | hw13-di/src/main/java/ru/otus/appcontainer/AppComponentsContainerImpl.java:49-57 | Splitting a key gives the order's digits, followed by the pieces of the name. |
| ContainerProperties.NameOfKey | hw13-di/src/main/java/ru/otus/appcontainer/AppComponentsContainerImpl.java:49-57 | A non-empty name without the separator is recovered from its key unchanged. |
| ContainerProperties.EmptyNameIsMissing | hw13-di/src/main/java/ru/otus/appcontainer/AppComponentsContainerImpl.java:49-57 | An empty name leaves `split` with a single piece, so index 1 is out of bounds (`MissingName`). |
| ContainerProperties.SplitAtHead | hw13-di/src/main/java/ru/otus/appcontainer/AppComponentsContainerImpl.java:57 | A name `head + "&&&&" + tail` in which no separator starts inside `head` (ampersands in `head` are allowed) splits into `head` followed by the pieces of `tail`. |
| ContainerProperties.NameIsCutAtSeparator | hw13-di/src/main/java/ru/otus/appcontainer/AppComponentsContainerImpl.java:49-57 | A name `head + "&&&&" + tail` with `head` non-empty and no separator starting inside `head` is stored under `head`, whatever `tail` holds. |
| ContainerProperties.AmpersandBeforeSeparator | hw13-di/src/main/java/ru/otus/appcontainer/AppComponentsContainerImpl.java:49-57 | The name "a&b&&&&c" is stored under "a&b": ampersands before the first separator are kept. |
| ContainerProperties.SeparatorNameIsMissing | hw13-di/src/main/java/ru/otus/appcontainer/AppComponentsContainerImpl.java:49-57 | The name "&&&&" leaves only empty pieces after the order, which `split` drops, so index 1 is out of bounds (`MissingName`). |
| ContainerProperties.NoAmpersandNoSeparator | hw13-di/src/main/java/ru/otus/appcontainer/AppComponentsContainerImpl.java:16 | A name without `&` contains no separator. |
| ContainerProperties.ConstructRegistersEachName | hw13-di/src/main/java/ru/otus/appcontainer/AppComponentsContainerImpl.java:47-60 | After success every declared component with a non-empty, separator-free name can be looked up under that name. |
| TreeMaps.Put | hw13-di/src/main/java/ru/otus/appcontainer/AppComponentsContainerImpl.java:49 | `TreeMap.put` keeps the entries sorted and the map becomes the old one updated at the key. No entry other than the new one appears. |
| TreeMaps.PutReplace | hw13-di/src/main/java/ru/otus/appcontainer/AppComponentsContainerImpl.java:49 | Putting an existing key replaces its value in place. |
| TreeMaps.PutFront | hw13-di/src/main/java/ru/otus/appcontainer/AppComponentsContainerImpl.java:49 | Putting a key smaller than all others adds it in front. |
| TreeMaps.PutBehind | hw13-di/src/main/java/ru/otus/appcontainer/AppComponentsContainerImpl.java:49 | Putting a key after the first entry keeps that entry in front. |
| TreeMaps.ToMapKeys | hw13-di/src/main/java/ru/otus/appcontainer/AppComponentsContainerImpl.java:41 | A key is in the map exactly when some entry has it. |
| TreeMaps.ToMapTail | hw13-di/src/main/java/ru/otus/appcontainer/AppComponentsContainerImpl.java:41 | In a sorted map, the first key does not recur among the later entries. |
| TreeMaps.ToMapAt | hw13-di/src/main/java/ru/otus/appcontainer/AppComponentsContainerImpl.java:56 | Every entry visited by the iteration is the map's value under its key. |
| TreeMaps.ToMapSize | hw13-di/src/main/java/ru/otus/appcontainer/AppComponentsContainerImpl.java:41-56 | The iteration visits exactly as many entries as the map has keys. |
| TreeMaps.SortedDetermined | hw13-di/src/main/java/ru/otus/appcontainer/AppComponentsContainerImpl.java:41-56 | A sorted map's iteration order is determined by its contents. |
| JavaStrings.LessIrreflexive | hw13-di/src/main/java/ru/otus/appcontainer/AppComponentsContainerImpl.java:41 | No key sorts before itself. |
| JavaStrings.LessTransitive | hw13-di/src/main/java/ru/otus/appcontainer/AppComponentsContainerImpl.java:41 | The key order is transitive. |
| JavaStrings.LessAsymmetric | hw13-di/src/main/java/ru/otus/appcontainer/AppComponentsContainerImpl.java:41 | The key order is asymmetric. |
| JavaStrings.LessTotal | hw13-di/src/main/java/ru/otus/appcontainer/AppComponentsContainerImpl.java:41 | Any two different keys are ordered, one way or the other. |
| JavaStrings.LessCommonPrefix | hw13-di/src/main/java/ru/otus/appcontainer/AppComponentsContainerImpl.java:41-49 | A common prefix does not change how two strings compare. |
| JavaStrings.DecimalStringHasNoAmpersand | hw13-di/src/main/java/ru/otus/appcontainer/AppComponentsContainerImpl.java:49 | The text of an order never contains `&`. |
| JavaStrings.DigitsInjective | hw13-di/src/main/java/ru/otus/appcontainer/AppComponentsContainerImpl.java:49 | Different magnitudes have different digit strings. |
| JavaStrings.DecimalStringInjective | hw13-di/src/main/java/ru/otus/appcontainer/AppComponentsContainerImpl.java:49 | Different orders have different texts. |
| JavaStrings.FindIsLeftmost | hw13-di/src/main/java/ru/otus/appcontainer/AppComponentsContainerImpl.java:57 | The separator search reports an occurrence exactly when there is one, and then the leftmost. |
| JavaStrings.FindLeftmost | hw13-di/src/main/java/ru/otus/appcontainer/AppComponentsContainerImpl.java:57 | An occurrence with none before it is the one reported. |
| JavaStrings.FindAbsent | hw13-di/src/main/java/ru/otus/appcontainer/AppComponentsContainerImpl.java:57 | A string without an occurrence reports none. |
| JavaStrings.StripKeepsNonEmpty | hw13-di/src/main/java/ru/otus/appcontainer/AppComponentsContainerImpl.java:57 | Removing trailing empty pieces keeps every non-empty piece and every piece before it. |
| JavaStrings.StripTrailingEmpty | hw13-di/src/main/java/ru/otus/appcontainer/AppComponentsContainerImpl.java:57 | The pieces kept are a prefix of all pieces and do not end with an empty piece. |
| TestAppConfig1Scenario.TestAppConfig1Builds | hw13-di/src/test/java/ru/otus/appcontainer/TestAppConfig1.java:7-18 | The test configuration builds the I/O service first, from no arguments. The preparer then receives it. They are stored under "testBean1" and "testBean2". |
| TestAppConfig1Scenario.SwappedOrdersFail | hw13-di/src/test/java/ru/otus/appcontainer/TestAppConfig1.java:9-16 | With the two orders swapped, the preparer is built first and construction fails on its IOService parameter. |
| TestAppConfig1Scenario.TextualOrderFails | hw13-di/src/test/java/ru/otus/appcontainer/TestAppConfig1.java:9-16 | With the preparer at order 10 and the I/O service at order 2, the preparer is built first and construction fails. |
| TestAppConfig1Scenario.PreparerFirstFails | hw13-di/src/test/java/ru/otus/appcontainer/TestAppConfig1.java:9-12 | Whenever the preparer's key sorts first, construction fails with `UnresolvedParameter("IOService")`. |
| TestAppConfig1Scenario.TreeOfTwo | hw13-di/src/main/java/ru/otus/appcontainer/AppComponentsContainerImpl.java:41-50 | Two methods whose keys are declared in descending order are iterated in ascending order. |
| TestAppConfig1Scenario.TreeOfTwoInOrder | hw13-di/src/main/java/ru/otus/appcontainer/AppComponentsContainerImpl.java:41-50 | Two methods whose keys are declared in ascending order keep that order. |
| TestAppConfig1Scenario.BuildIoService | hw13-di/src/test/java/ru/otus/appcontainer/TestAppConfig1.java:14-17 | The I/O service alone builds from no arguments and is stored under "testBean1". |
| TestAppConfig1Scenario.CreatePreparerAfterIo | hw13-di/src/test/java/ru/otus/appcontainer/TestAppConfig1.java:9-12 | With the I/O service built, the preparer's factory receives it as its one argument. |
| TestAppConfig1Scenario.CreatePreparerFirst | hw13-di/src/test/java/ru/otus/appcontainer/TestAppConfig1.java:9-12 | With nothing built, the preparer fails with `UnresolvedParameter("IOService")`. |
| TestAppConfig1Scenario.RegisterPreparer | hw13-di/src/test/java/ru/otus/appcontainer/TestAppConfig1.java:9-12 | Registering the preparer after the I/O service appends it and stores it under "testBean2". |
| TestAppConfig1Scenario.BuildPreparerAlone | hw13-di/src/test/java/ru/otus/appcontainer/TestAppConfig1.java:9-12 | Building the preparer before anything else fails on its parameter. |
| TestAppConfig1Scenario.ScenarioLookupsByType | hw13-di/src/test/java/ru/otus/appcontainer/AppComponentsContainerImplTest.java:21-24 | In the built list, IOService first matches the I/O service and EquationPreparer first matches the preparer. |
| TestAppConfig1Scenario.ScenarioNames | hw13-di/src/test/java/ru/otus/appcontainer/TestAppConfig1.java:9-14 | The names "testBean1" and "testBean2" are recovered from their keys, whatever the orders. |
| TestAppConfig1Scenario.KeysByFirstDigit | hw13-di/src/main/java/ru/otus/appcontainer/AppComponentsContainerImpl.java:41-49 | A key whose order text starts with a smaller character sorts first, whatever the names. |
| TestAppConfig1Scenario.GetAppComponentByInterface | hw13-di/src/test/java/ru/otus/appcontainer/AppComponentsContainerImplTest.java:21-24 | Looking up IOService yields an IOServiceConsole. Looking up EquationPreparer yields an EquationPreparerImpl. |
| TestAppConfig1Scenario.GetAppComponentByDeclaredName | hw13-di/src/test/java/ru/otus/appcontainer/AppComponentsContainerImplTest.java:26-32 | "testBean2" yields the preparer, an EquationPreparer. "testBean1" yields the I/O service, an IOService. |

## Left out

- Reflection is replaced by input data: `getDeclaredMethods`, the annotations, `setAccessible`, `Method.invoke` and `getDeclaredConstructors()[0].newInstance()`. Whether construction and each factory body succeed are flags. What a factory's object contains is not modelled.
- Resolving a parameter through `getTypeName()` and `Class.forName` (lines 73 and 81-87) is not modelled, because a parameter is already a type id here. `Class.forName` throws `ClassNotFoundException` for generic parameter types (`java.util.List<java.lang.String>`), primitive types (`int`) and array types (`java.lang.String[]`). A factory with such a parameter always fails in Java, and the model does not capture that failure.
- `Class.isInstance` is a given relation over type ids. No class hierarchy is modelled.
- Exception classes and their wrapping in `RuntimeException` become distinct `ContainerError` values.
- Java declares no order for `getDeclaredMethods`. The model takes declaration order, and the overwrite of equal keys is stated relative to that order.
- `String.compareTo` compares UTF-16 code units, and `Less` compares Dafny characters (Unicode scalar values). The two agree on the Basic Multilingual Plane only.
- `AppComponent.order` is a Java `int`. The model's `int` is unbounded, and `DecimalString` follows `Integer.toString` on any integer.
- `String.split` takes a regular expression. Only the literal separator `&&&&`, which has no regex metacharacters, is modelled.
- The state of a container whose constructor threw is not observable in Java, since the object is discarded. `New` returns only the error. `ProcessConfig` promises only the validity invariant and the pre-instantiation facts in that case.
- `HashMap` iteration order in `getAppComponent(String)` does not matter: at most one key equals the name. The lookup is modelled as map membership.
- Null beans returned by a factory are not modelled. `filter(isInstance)` would skip them.
- AppComponentsContainer.AppComponentsContainerImpl.GetAppComponentByType: the unchecked cast to `C` is not modelled. The result is the bean itself.
