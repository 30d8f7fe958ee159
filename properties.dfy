/**
 * What construction guarantees: which methods become beans, in which order, what each
 * bean received as arguments, what ends up under which name, and when construction fails.
 */
module ContainerProperties {
  import opened Wrappers
  import opened JavaStrings
  import opened TreeMaps
  import opened AppComponentsContainer

  /** `b` is what the factory of entry `e` yields when the beans built before it are `earlier`. */
  predicate BuiltFrom(e: Entry<Decl>, earlier: seq<Bean>, b: Bean, isInstance: InstanceOf)
  {
    var fm := e.value.declared;
    && b.factory == e.value.index
    && b.runtimeType == fm.runtimeType
    && !fm.throws
    && |b.args| == |fm.params|
    && forall k :: 0 <= k < |fm.params| ==> FirstInstance(earlier, fm.params[k], isInstance) == Some(b.args[k])
  }

  /** Bean `i` is what entry `i`'s factory yields from the beans built before it. */
  lemma {:induction false} BuildBeanAt(entries: seq<Entry<Decl>>, isInstance: InstanceOf, i: nat)
    requires Build(entries, isInstance).Success?
    requires i < |entries|
    ensures var beans := Build(entries, isInstance).value.beans;
            i < |beans| && BuiltFrom(entries[i], beans[..i], beans[i], isInstance)
    decreases |entries|
  {
    var n := |entries| - 1;
    var prefix := entries[..n];
    BuildLast(entries, isInstance);
    BuildLength(prefix, isInstance);
    var before := Build(prefix, isInstance).value.beans;
    var beans := Build(entries, isInstance).value.beans;
    var b := CreateBean(entries[n].value, before, isInstance).value;
    assert beans == before + [b];
    if i < n {
      BuildBeanAt(prefix, isInstance, i);
      assert beans[..i] == before[..i] && beans[i] == before[i] && entries[i] == prefix[i];
    } else {
      CreateBeanSpec(entries[n].value, before, isInstance);
      assert beans[..i] == before && beans[i] == b;
    }
  }

  /** createBeans appends exactly one bean per entry, in the entries' order. */
  lemma BuildBeans(entries: seq<Entry<Decl>>, isInstance: InstanceOf)
    requires Build(entries, isInstance).Success?
    ensures |Build(entries, isInstance).value.beans| == |entries|
    ensures var beans := Build(entries, isInstance).value.beans;
            forall i :: 0 <= i < |entries| ==> BuiltFrom(entries[i], beans[..i], beans[i], isInstance)
  {
    BuildLength(entries, isInstance);
    var beans := Build(entries, isInstance).value.beans;
    forall i | 0 <= i < |entries| ensures BuiltFrom(entries[i], beans[..i], beans[i], isInstance) {
      BuildBeanAt(entries, isInstance, i);
    }
  }

  /** Only beans built earlier are passed to a factory. */
  lemma ArgumentsBuiltEarlier(entries: seq<Entry<Decl>>, isInstance: InstanceOf, i: nat, k: nat)
    requires Build(entries, isInstance).Success?
    requires i < |entries| && k < |entries[i].value.declared.params|
    ensures var beans := Build(entries, isInstance).value.beans;
            i < |beans| && k < |beans[i].args| && beans[i].args[k] in beans[..i]
  {
    BuildBeans(entries, isInstance);
  }

  /** Two parameters of the same type receive the same bean. */
  lemma SameTypeSameBean(entries: seq<Entry<Decl>>, isInstance: InstanceOf, i: nat, k1: nat, k2: nat)
    requires Build(entries, isInstance).Success?
    requires i < |entries|
    requires var params := entries[i].value.declared.params;
             k1 < |params| && k2 < |params| && params[k1] == params[k2]
    ensures var beans := Build(entries, isInstance).value.beans;
            i < |beans| && k1 < |beans[i].args| && k2 < |beans[i].args| && beans[i].args[k1] == beans[i].args[k2]
  {
    BuildBeans(entries, isInstance);
  }

  /** No entry after the `i`th recovers the same name. */
  predicate LastWithName(entries: seq<Entry<Decl>>, i: nat, name: string)
  {
    forall j :: i < j < |entries| ==> NameOf(entries[j].key) != Some(name)
  }

  /** A successful iteration of createBeans keeps every name already stored. */
  lemma BuildNamesGrow(entries: seq<Entry<Decl>>, isInstance: InstanceOf)
    requires entries != [] && Build(entries, isInstance).Success?
    ensures Build(entries[..|entries| - 1], isInstance).Success?
    ensures Build(entries[..|entries| - 1], isInstance).value.byName.Keys <= Build(entries, isInstance).value.byName.Keys
  {
    BuildLast(entries, isInstance);
  }

  /** An earlier entry's registered name stays registered after one more entry. */
  lemma BuildNameKept(entries: seq<Entry<Decl>>, isInstance: InstanceOf, i: nat)
    requires entries != [] && Build(entries, isInstance).Success? && i < |entries| - 1
    requires Build(entries[..|entries| - 1], isInstance).Success?
    requires var prefix := entries[..|entries| - 1];
             NameOf(prefix[i].key).Some? && NameOf(prefix[i].key).value in Build(prefix, isInstance).value.byName
    ensures NameOf(entries[i].key).Some? && NameOf(entries[i].key).value in Build(entries, isInstance).value.byName
  {
    assert entries[i] == entries[..|entries| - 1][i];
    BuildNamesGrow(entries, isInstance);
  }

  /** The last entry's name is recovered and registered. */
  lemma BuildNameLast(entries: seq<Entry<Decl>>, isInstance: InstanceOf)
    requires entries != [] && Build(entries, isInstance).Success?
    ensures NameOf(entries[|entries| - 1].key).Some?
    ensures NameOf(entries[|entries| - 1].key).value in Build(entries, isInstance).value.byName
  {
    BuildLast(entries, isInstance);
  }

  /** The name of entry `i` is recovered and is a key of `appComponentsByName`. */
  lemma {:induction false} BuildNameRecovered(entries: seq<Entry<Decl>>, isInstance: InstanceOf, i: nat)
    requires Build(entries, isInstance).Success?
    requires i < |entries|
    ensures NameOf(entries[i].key).Some? && NameOf(entries[i].key).value in Build(entries, isInstance).value.byName
    decreases |entries|
  {
    if i < |entries| - 1 {
      BuildNamesGrow(entries, isInstance);
      BuildNameRecovered(entries[..|entries| - 1], isInstance, i);
      BuildNameKept(entries, isInstance, i);
    } else {
      BuildNameLast(entries, isInstance);
    }
  }

  /** Every entry's name is recovered and is a key of `appComponentsByName`. */
  lemma BuildNamesRecovered(entries: seq<Entry<Decl>>, isInstance: InstanceOf)
    requires Build(entries, isInstance).Success?
    ensures var reg := Build(entries, isInstance).value;
            forall i :: 0 <= i < |entries| ==> NameOf(entries[i].key).Some? && NameOf(entries[i].key).value in reg.byName
  {
    forall i | 0 <= i < |entries|
      ensures NameOf(entries[i].key).Some? && NameOf(entries[i].key).value in Build(entries, isInstance).value.byName
    {
      BuildNameRecovered(entries, isInstance, i);
    }
  }

  /** An entry that is last with its name stays so when an entry with another name is appended. */
  lemma LastWithNameExtend(entries: seq<Entry<Decl>>, i: nat, name: string)
    requires i < |entries| - 1
    requires LastWithName(entries[..|entries| - 1], i, name)
    requires NameOf(entries[|entries| - 1].key) != Some(name)
    ensures LastWithName(entries, i, name)
  {
    var prefix := entries[..|entries| - 1];
    forall j | i < j < |entries| ensures NameOf(entries[j].key) != Some(name) {
      if j < |prefix| {
        assert entries[j] == prefix[j];
      }
    }
  }

  /** The index of the entry whose bean a name holds. */
  lemma {:induction false} NameOwnerIndex(entries: seq<Entry<Decl>>, isInstance: InstanceOf, name: string) returns (i: nat)
    requires Build(entries, isInstance).Success?
    requires name in Build(entries, isInstance).value.byName
    ensures i < |entries| && NameOf(entries[i].key) == Some(name) && LastWithName(entries, i, name)
    ensures var reg := Build(entries, isInstance).value;
            i < |reg.beans| && reg.byName[name] == reg.beans[i]
    decreases |entries|
  {
    var n := |entries| - 1;
    var prefix := entries[..n];
    BuildLast(entries, isInstance);
    BuildLength(prefix, isInstance);
    var before := Build(prefix, isInstance).value;
    var b := CreateBean(entries[n].value, before.beans, isInstance).value;
    if NameOf(entries[n].key) == Some(name) {
      i := n;
    } else {
      i := NameOwnerIndex(prefix, isInstance, name);
      assert entries[i] == prefix[i];
      assert (before.beans + [b])[i] == before.beans[i];
      LastWithNameExtend(entries, i, name);
    }
  }

  /** A name holds the bean of the last entry that recovered it. */
  lemma BuildNameOwner(entries: seq<Entry<Decl>>, isInstance: InstanceOf, name: string)
    requires Build(entries, isInstance).Success?
    requires name in Build(entries, isInstance).value.byName
    ensures var reg := Build(entries, isInstance).value;
            exists i :: 0 <= i < |entries| && i < |reg.beans| && NameOf(entries[i].key) == Some(name)
                        && reg.byName[name] == reg.beans[i] && LastWithName(entries, i, name)
  {
    var i := NameOwnerIndex(entries, isInstance, name);
  }

  /** Some entry before the `i`th has a runtime type that is an instance of `t`. */
  predicate Provided(entries: seq<Entry<Decl>>, i: nat, t: TypeId, isInstance: InstanceOf)
    requires i <= |entries|
  {
    exists j :: 0 <= j < i && isInstance(entries[j].value.declared.runtimeType, t)
  }

  /**
   * The entry at `i` can be built from what precedes it: its name is recoverable, its body
   * does not throw, and each of its parameter types has an instance among the runtime
   * types of earlier entries.
   */
  predicate Buildable(entries: seq<Entry<Decl>>, i: nat, isInstance: InstanceOf)
    requires i < |entries|
  {
    var fm := entries[i].value.declared;
    && NameOf(entries[i].key).Some?
    && !fm.throws
    && forall k :: 0 <= k < |fm.params| ==> Provided(entries, i, fm.params[k], isInstance)
  }

  /** A parameter finds a bean exactly when some entry built so far provides it. */
  lemma InstanceAmongBuilt(entries: seq<Entry<Decl>>, isInstance: InstanceOf, t: TypeId)
    requires Build(entries, isInstance).Success?
    ensures FirstInstance(Build(entries, isInstance).value.beans, t, isInstance).Some? <==>
            Provided(entries, |entries|, t, isInstance)
  {
    BuildBeans(entries, isInstance);
  }

  /** What is provided before `i` does not depend on the entries after it. */
  lemma ProvidedPrefix(entries: seq<Entry<Decl>>, m: nat, i: nat, t: TypeId, isInstance: InstanceOf)
    requires i <= m <= |entries|
    ensures Provided(entries, i, t, isInstance) <==> Provided(entries[..m], i, t, isInstance)
  {
    assert forall j :: 0 <= j < i ==> entries[j] == entries[..m][j];
  }

  /** Whether an entry can be built does not depend on the entries after it. */
  lemma BuildableUpTo(entries: seq<Entry<Decl>>, m: nat, i: nat, isInstance: InstanceOf)
    requires i < m <= |entries|
    ensures Buildable(entries, i, isInstance) <==> Buildable(entries[..m], i, isInstance)
  {
    assert entries[i] == entries[..m][i];
    var fm := entries[i].value.declared;
    forall k | 0 <= k < |fm.params|
      ensures Provided(entries, i, fm.params[k], isInstance) <==> Provided(entries[..m], i, fm.params[k], isInstance)
    {
      ProvidedPrefix(entries, m, i, fm.params[k], isInstance);
    }
  }

  /** Every entry is buildable exactly when every entry but the last is, and the last is too. */
  lemma AllBuildableExtend(entries: seq<Entry<Decl>>, isInstance: InstanceOf)
    requires entries != []
    ensures var n := |entries| - 1;
            (forall i :: 0 <= i < |entries| ==> Buildable(entries, i, isInstance)) <==>
            (forall i :: 0 <= i < n ==> Buildable(entries[..n], i, isInstance)) && Buildable(entries, n, isInstance)
  {
    var n := |entries| - 1;
    forall i | 0 <= i < n ensures Buildable(entries, i, isInstance) <==> Buildable(entries[..n], i, isInstance) {
      BuildableUpTo(entries, n, i, isInstance);
    }
  }

  /** After a successful prefix, construction succeeds exactly when the last entry is buildable. */
  lemma BuildableLast(entries: seq<Entry<Decl>>, isInstance: InstanceOf)
    requires entries != [] && Build(entries[..|entries| - 1], isInstance).Success?
    ensures Build(entries, isInstance).Success? <==> Buildable(entries, |entries| - 1, isInstance)
  {
    var n := |entries| - 1;
    var prefix := entries[..n];
    var before := Build(prefix, isInstance).value;
    var fm := entries[n].value.declared;
    BuildExtend(entries, isInstance);
    forall k | 0 <= k < |fm.params|
      ensures FirstInstance(before.beans, fm.params[k], isInstance).Some? <==> Provided(entries, n, fm.params[k], isInstance)
    {
      InstanceAmongBuilt(prefix, isInstance, fm.params[k]);
      ProvidedPrefix(entries, n, n, fm.params[k], isInstance);
    }
  }

  /**
   * The dependency rule: construction from the methods map succeeds exactly when every
   * entry's parameters are produced by strictly earlier entries (and its name and body
   * are sound). A parameter produced only later is a failure.
   */
  lemma {:induction false} BuildSucceedsIff(entries: seq<Entry<Decl>>, isInstance: InstanceOf)
    ensures Build(entries, isInstance).Success? <==>
            forall i :: 0 <= i < |entries| ==> Buildable(entries, i, isInstance)
    decreases |entries|
  {
    if entries != [] {
      var n := |entries| - 1;
      var prefix := entries[..n];
      BuildSucceedsIff(prefix, isInstance);
      AllBuildableExtend(entries, isInstance);
      if Build(prefix, isInstance).Success? {
        BuildableLast(entries, isInstance);
      } else {
        BuildFailurePersists(entries, n, isInstance);
        assert prefix == entries[..n];
      }
    }
  }

  /**
   * The error of a failing construction: when every entry before `i` can be built, entry
   * `i` has a name, and one of its parameter types is produced by no earlier entry, the
   * construction fails with the wrapped NoSuchElementException of a parameter type of
   * entry `i` that no earlier entry produces.
   */
  lemma FirstUnprovidedFails(entries: seq<Entry<Decl>>, isInstance: InstanceOf, i: nat, k: nat)
    requires i < |entries|
    requires forall j :: 0 <= j < i ==> Buildable(entries, j, isInstance)
    requires NameOf(entries[i].key).Some?
    requires k < |entries[i].value.declared.params|
    requires !Provided(entries, i, entries[i].value.declared.params[k], isInstance)
    ensures Build(entries, isInstance).Failure?
    ensures var params := entries[i].value.declared.params;
            exists k' :: 0 <= k' < |params| && Build(entries, isInstance).error == UnresolvedParameter(params[k'])
                         && !Provided(entries, i, params[k'], isInstance)
  {
    var prefix := entries[..i];
    forall j | 0 <= j < i ensures Buildable(prefix, j, isInstance) {
      BuildableUpTo(entries, i, j, isInstance);
    }
    BuildSucceedsIff(prefix, isInstance);
    var before := Build(prefix, isInstance).value;
    var d := entries[i].value;
    var params := d.declared.params;
    InstanceAmongBuilt(prefix, isInstance, params[k]);
    ProvidedPrefix(entries, i, i, params[k], isInstance);
    CreateBeanSpec(d, before.beans, isInstance);
    var r := CreateBean(d, before.beans, isInstance);
    var k' :| 0 <= k' < |params| && r.error == UnresolvedParameter(params[k'])
              && FirstInstance(before.beans, params[k'], isInstance).None?;
    InstanceAmongBuilt(prefix, isInstance, params[k']);
    ProvidedPrefix(entries, i, i, params[k'], isInstance);
    BuildStep(entries, i, isInstance);
    BuildFailurePersists(entries, i + 1, isInstance);
  }

  // ----- the methods map -----

  /** A key is in the methods map exactly when some annotated method has it. */
  lemma {:induction false} MethodsMapKeys(ms: seq<FactoryMethod>, k: string)
    ensures k in MethodsMapSpec(ms) <==> exists i :: 0 <= i < |ms| && HasKey(ms[i], k)
    decreases |ms|
  {
    if ms != [] {
      var n := |ms| - 1;
      var prefix := ms[..n];
      MethodsMapKeys(prefix, k);
      var m := MethodsMapSpec(prefix);
      assert MethodsMapSpec(ms) == (if ms[n].annotation.Some? then m[Key(ms[n].annotation.value) := Decl(n, ms[n])] else m);
      if k in MethodsMapSpec(ms) && !HasKey(ms[n], k) {
        assert k in m;
        var i :| 0 <= i < n && HasKey(prefix[i], k);
        assert prefix[i] == ms[i];
      }
      if exists i :: 0 <= i < |ms| && HasKey(ms[i], k) {
        var i :| 0 <= i < |ms| && HasKey(ms[i], k);
        if i < n {
          assert prefix[i] == ms[i];
          assert k in m;
        }
      }
    }
  }

  /**
   * The value under a key is the last declared method with that key: a later `put`
   * with the same key replaces an earlier one.
   */
  lemma {:induction false} MethodsMapLastWins(ms: seq<FactoryMethod>, k: string)
    requires k in MethodsMapSpec(ms)
    ensures var d := MethodsMapSpec(ms)[k];
            d.index < |ms| && d.declared == ms[d.index] && HasKey(ms[d.index], k)
            && forall j :: d.index < j < |ms| ==> !HasKey(ms[j], k)
    decreases |ms|
  {
    var n := |ms| - 1;
    var prefix := ms[..n];
    var m := MethodsMapSpec(prefix);
    assert MethodsMapSpec(ms) == (if ms[n].annotation.Some? then m[Key(ms[n].annotation.value) := Decl(n, ms[n])] else m);
    if !HasKey(ms[n], k) {
      assert k in m && MethodsMapSpec(ms)[k] == m[k];
      MethodsMapLastWins(prefix, k);
      assert forall i :: 0 <= i < n ==> prefix[i] == ms[i];
    }
  }

  /** createBeans fails only for a missing name, an unresolved parameter or a throwing factory. */
  lemma {:induction false} BuildErrors(entries: seq<Entry<Decl>>, isInstance: InstanceOf)
    ensures var r := Build(entries, isInstance);
            r.Failure? ==> r.error.MissingName? || r.error.UnresolvedParameter? || r.error.FactoryThrew?
    decreases |entries|
  {
    if entries != [] {
      BuildErrors(entries[..|entries| - 1], isInstance);
    }
  }

  /**
   * The configuration checks come first and in this order: the marker annotation, then the
   * instantiation, then the presence of declared methods. Each of their errors arises
   * exactly when its check fails.
   */
  lemma ConstructRejections(cfg: ConfigClass, isInstance: InstanceOf)
    ensures Construct(cfg, isInstance) == Failure(NotConfig) <==> !cfg.annotated
    ensures Construct(cfg, isInstance) == Failure(InstantiationFailed) <==> cfg.annotated && !cfg.instantiable
    ensures Construct(cfg, isInstance) == Failure(EmptyConfig) <==> cfg.annotated && cfg.instantiable && cfg.methods == []
  {
    BuildErrors(TreeOf(cfg.methods), isInstance);
  }

  /** A config whose methods carry no @AppComponent builds an empty container. */
  lemma UnannotatedConfigIsEmpty(cfg: ConfigClass, isInstance: InstanceOf)
    requires cfg.annotated && cfg.instantiable && cfg.methods != []
    requires forall i :: 0 <= i < |cfg.methods| ==> cfg.methods[i].annotation.None?
    ensures Construct(cfg, isInstance) == Success(Registry([], map[]))
  {
    var ms := cfg.methods;
    forall k ensures k !in MethodsMapSpec(ms) {
      MethodsMapKeys(ms, k);
    }
    assert MethodsMapSpec(ms) == map[];
    ToMapSize(TreeOf(ms));
  }

  /** The key strings of the methods map, in the order the beans are built. */
  function BuildOrder(ms: seq<FactoryMethod>): (keys: seq<string>)
    ensures |keys| == |TreeOf(ms)|
  {
    var tree := TreeOf(ms);
    seq(|tree|, i requires 0 <= i < |tree| => tree[i].key)
  }

  /** The build order lists each key of the methods map once, in ascending String order. */
  lemma BuildOrderSorted(ms: seq<FactoryMethod>)
    ensures var keys := BuildOrder(ms);
            && |keys| == |MethodsMapSpec(ms)|
            && (forall i, j :: 0 <= i < j < |keys| ==> Less(keys[i], keys[j]))
            && (forall k :: k in MethodsMapSpec(ms) <==> k in keys)
  {
    var tree := TreeOf(ms);
    var keys := BuildOrder(ms);
    ToMapSize(tree);
    forall k ensures k in MethodsMapSpec(ms) <==> k in keys {
      ToMapKeys(tree, k);
      if k in MethodsMapSpec(ms) {
        var i :| 0 <= i < |tree| && tree[i].key == k;
        assert keys[i] == k;
      }
    }
  }

  /**
   * A successful construction builds one bean per distinct key, in ascending String
   * order of the keys; each bean comes from the last annotated method declared with its key.
   */
  lemma ConstructInKeyOrder(cfg: ConfigClass, isInstance: InstanceOf)
    requires Construct(cfg, isInstance).Success?
    ensures var beans := Construct(cfg, isInstance).value.beans;
            var keys := BuildOrder(cfg.methods);
            && |beans| == |keys|
            && forall i :: 0 <= i < |beans| ==>
                 && beans[i].factory < |cfg.methods|
                 && HasKey(cfg.methods[beans[i].factory], keys[i])
                 && forall j :: beans[i].factory < j < |cfg.methods| ==> !HasKey(cfg.methods[j], keys[i])
  {
    var ms := cfg.methods;
    var tree := TreeOf(ms);
    var keys := BuildOrder(ms);
    var beans := Construct(cfg, isInstance).value.beans;
    BuildBeans(tree, isInstance);
    forall i | 0 <= i < |beans|
      ensures && beans[i].factory < |ms|
              && HasKey(ms[beans[i].factory], keys[i])
              && forall j :: beans[i].factory < j < |ms| ==> !HasKey(ms[j], keys[i])
    {
      ToMapAt(tree, i);
      MethodsMapLastWins(ms, tree[i].key);
    }
  }

  // ----- keys and names -----

  /** Build order compares key text, not numbers: order 10 is built before order 2. */
  lemma TextualOrderOfKeys(x: string, y: string)
    ensures Less(Key(AppComponent(10, x)), Key(AppComponent(2, y)))
  {
    assert DecimalString(10) == "10" && DecimalString(2) == "2";
    assert Key(AppComponent(10, x))[0] == '1' && Key(AppComponent(2, y))[0] == '2';
  }

  /** Equal orders are built in String order of their names. */
  lemma EqualOrdersByName(order: int, a: string, b: string)
    ensures Less(Key(AppComponent(order, a)), Key(AppComponent(order, b))) <==> Less(a, b)
  {
    var p := DecimalString(order) + OrderNameSeparator;
    assert Key(AppComponent(order, a)) == p + a && Key(AppComponent(order, b)) == p + b;
    LessCommonPrefix(p, a, b);
  }

  /** Two annotations share a key exactly when they have the same order and name. */
  lemma KeyInjective(c1: AppComponent, c2: AppComponent)
    requires Key(c1) == Key(c2)
    ensures c1 == c2
  {
    var s1, s2 := DecimalString(c1.order), DecimalString(c2.order);
    var key := Key(c1);
    DecimalStringHasNoAmpersand(c1.order);
    DecimalStringHasNoAmpersand(c2.order);
    assert key[|s1|] == '&' && key[|s2|] == '&';
    assert forall j :: 0 <= j < |s1| ==> key[j] == s1[j];
    assert forall j :: 0 <= j < |s2| ==> key[j] == s2[j];
    assert |s1| == |s2|;
    assert s1 == key[..|s1|] == s2;
    DecimalStringInjective(c1.order, c2.order);
    assert c1.name == key[|s1| + 4..] == c2.name;
  }

  /** The name contains no occurrence of the separator. */
  ghost predicate NoSeparator(name: string)
  {
    forall j: nat :: !OccursAt(name, OrderNameSeparator, j)
  }

  /** The separator is found right after the order's digits. */
  lemma FindSeparatorInKey(c: AppComponent)
    ensures Find(Key(c), OrderNameSeparator) == Some(|DecimalString(c.order)|)
  {
    var s := DecimalString(c.order);
    var key := Key(c);
    DecimalStringHasNoAmpersand(c.order);
    assert key[|s|..|s| + 4] == OrderNameSeparator;
    assert OccursAt(key, OrderNameSeparator, |s|);
    forall j: nat | j < |s| ensures !OccursAt(key, OrderNameSeparator, j) {
      assert key[j] == s[j];
    }
    FindLeftmost(key, OrderNameSeparator, |s|);
  }

  /** Splitting a key yields the order's digits, then the pieces of the name. */
  lemma SplitKey(c: AppComponent)
    ensures SplitAll(Key(c), OrderNameSeparator) == [DecimalString(c.order)] + SplitAll(c.name, OrderNameSeparator)
  {
    var s := DecimalString(c.order);
    var key := Key(c);
    FindSeparatorInKey(c);
    assert key[..|s|] == s && key[|s| + 4..] == c.name;
  }

  /** A non-empty name free of the separator is recovered from its key unchanged. */
  lemma NameOfKey(c: AppComponent)
    requires c.name != "" && NoSeparator(c.name)
    ensures NameOf(Key(c)) == Some(c.name)
  {
    SplitKey(c);
    FindAbsent(c.name, OrderNameSeparator);
    assert SplitAll(c.name, OrderNameSeparator) == [c.name];
  }

  /** An empty name leaves nothing after the separator: `split(...)[1]` is out of bounds. */
  lemma EmptyNameIsMissing(order: int)
    ensures NameOf(Key(AppComponent(order, ""))) == None
  {
    var s := DecimalString(order);
    SplitKey(AppComponent(order, ""));
    assert SplitAll("", OrderNameSeparator) == [""];
    assert |s| >= 1;
    assert StripTrailingEmpty([s, ""]) == [s];
  }

  /**
   * The first piece of a name is the text before its first separator: `head` may hold
   * ampersands, but no occurrence of the separator may start inside it.
   */
  lemma SplitAtHead(head: string, tail: string)
    requires forall j: nat :: j < |head| ==> !OccursAt(head + OrderNameSeparator + tail, OrderNameSeparator, j)
    ensures var name := head + OrderNameSeparator + tail;
            SplitAll(name, OrderNameSeparator) == [head] + SplitAll(tail, OrderNameSeparator)
  {
    var name := head + OrderNameSeparator + tail;
    assert name[|head|..|head| + 4] == OrderNameSeparator;
    FindLeftmost(name, OrderNameSeparator, |head|);
    assert name[..|head|] == head && name[|head| + 4..] == tail;
  }

  /**
   * A name with the separator inside is stored under the non-empty text before its first
   * separator, whatever follows it.
   */
  lemma NameIsCutAtSeparator(order: int, head: string, tail: string)
    requires head != ""
    requires forall j: nat :: j < |head| ==> !OccursAt(head + OrderNameSeparator + tail, OrderNameSeparator, j)
    ensures NameOf(Key(AppComponent(order, head + OrderNameSeparator + tail))) == Some(head)
  {
    var name := head + OrderNameSeparator + tail;
    SplitKey(AppComponent(order, name));
    SplitAtHead(head, tail);
    var all := [DecimalString(order), head] + SplitAll(tail, OrderNameSeparator);
    assert SplitAll(Key(AppComponent(order, name)), OrderNameSeparator) == all;
    var parts := StripTrailingEmpty(all);
    assert |parts| > 1 && parts[1] == head by {
      StripKeepsNonEmpty(all, 1);
    }
  }

  /** Ampersands before the first separator stay in the name: "a&b&&&&c" is stored as "a&b". */
  lemma AmpersandBeforeSeparator(order: int)
    ensures NameOf(Key(AppComponent(order, "a&b&&&&c"))) == Some("a&b")
  {
    var name := "a&b" + OrderNameSeparator + "c";
    assert name == "a&b&&&&c";
    forall j: nat | j < 3 ensures !OccursAt(name, OrderNameSeparator, j) {
      var d := if j == 1 then 1 else 0;
      assert name[j..j + 4][d] == name[j + d] != '&';
    }
    NameIsCutAtSeparator(order, "a&b", "c");
  }

  /**
   * A name that is only the separator leaves empty pieces after the order, which `split`
   * drops: `split(...)[1]` is out of bounds.
   */
  lemma SeparatorNameIsMissing(order: int)
    ensures NameOf(Key(AppComponent(order, OrderNameSeparator))) == None
  {
    var s := DecimalString(order);
    SplitKey(AppComponent(order, OrderNameSeparator));
    SplitAtHead("", "");
    assert "" + OrderNameSeparator + "" == OrderNameSeparator;
    assert SplitAll("", OrderNameSeparator) == [""];
    assert |s| >= 1;
    assert [s, "", ""][..2] == [s, ""] && [s, ""][..1] == [s];
    assert StripTrailingEmpty([s, "", ""]) == StripTrailingEmpty([s, ""]) == [s];
  }

  /** A name without an ampersand cannot contain the separator. */
  lemma NoAmpersandNoSeparator(name: string)
    requires forall i :: 0 <= i < |name| ==> name[i] != '&'
    ensures NoSeparator(name)
  {
    forall j: nat ensures !OccursAt(name, OrderNameSeparator, j) {
      if j + 4 <= |name| {
        assert name[j..j + 4][0] == name[j];
      }
    }
  }

  /**
   * After a successful construction, every declared component whose name is non-empty and
   * free of the separator can be looked up under its declared name.
   */
  lemma ConstructRegistersEachName(cfg: ConfigClass, isInstance: InstanceOf, m: nat)
    requires Construct(cfg, isInstance).Success?
    requires m < |cfg.methods| && cfg.methods[m].annotation.Some?
    requires var c := cfg.methods[m].annotation.value; c.name != "" && NoSeparator(c.name)
    ensures cfg.methods[m].annotation.value.name in Construct(cfg, isInstance).value.byName
  {
    var c := cfg.methods[m].annotation.value;
    var tree := TreeOf(cfg.methods);
    MethodsMapKeys(cfg.methods, Key(c));
    ToMapKeys(tree, Key(c));
    var i :| 0 <= i < |tree| && tree[i].key == Key(c);
    BuildNamesRecovered(tree, isInstance);
    NameOfKey(c);
  }
}
