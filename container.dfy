/**
 * The construction and lookup algorithm of AppComponentsContainerImpl, a small
 * dependency-injection container.
 *
 * Reflection is replaced by data: a configuration class is a record saying whether it
 * carries @AppComponentsContainerConfig, whether its constructor succeeds, and its
 * declared methods in declaration order; a factory method says whether it carries
 * @AppComponent(order, name), the type ids of its parameters, the runtime type of the
 * object it returns and whether its body throws. A bean is identified by the index of the
 * factory method that built it, its runtime type and the beans passed to that factory.
 * `Class.isInstance` is a given relation `isInstance(runtimeType, requestedType)`.
 */
module AppComponentsContainer {
  import opened Wrappers
  import opened JavaStrings
  import opened TreeMaps

  type TypeId = string

  /** `isInstance(r, t)`: an object whose class is `r` is an instance of `t`. */
  type InstanceOf = (TypeId, TypeId) -> bool

  /** The attributes of an @AppComponent annotation. */
  datatype AppComponent = AppComponent(order: int, name: string)

  datatype FactoryMethod = FactoryMethod(
    annotation: Option<AppComponent>,
    params: seq<TypeId>,
    runtimeType: TypeId,
    throws: bool)

  datatype ConfigClass = ConfigClass(annotated: bool, instantiable: bool, methods: seq<FactoryMethod>)

  /** A value of the methods map: a declared method and its position among the declared methods. */
  datatype Decl = Decl(index: nat, declared: FactoryMethod)

  datatype Bean = Bean(factory: nat, runtimeType: TypeId, args: seq<Bean>)

  /** The container's two indexes: `appComponents` and `appComponentsByName`. */
  datatype Registry = Registry(beans: seq<Bean>, byName: map<string, Bean>)

  datatype ContainerError =
    | NotConfig                             // IllegalArgumentException "Given class is not config"
    | InstantiationFailed                   // RuntimeException around the constructor's failure
    | EmptyConfig                           // IllegalArgumentException "Empty config class"
    | MissingName(key: string)              // split(...)[1] out of bounds
    | UnresolvedParameter(paramType: TypeId) // RuntimeException around NoSuchElementException
    | FactoryThrew(index: nat)              // RuntimeException around the factory's exception

  const OrderNameSeparator: string := "&&&&"

  /** The methods-map key of an annotated method: `order + "&&&&" + name`. */
  function Key(c: AppComponent): string
  {
    DecimalString(c.order) + (OrderNameSeparator + c.name)
  }

  predicate HasKey(m: FactoryMethod, k: string)
  {
    m.annotation.Some? && Key(m.annotation.value) == k
  }

  /** `orderName.split("&&&&")[1]`, or None where that index is out of bounds. */
  function NameOf(key: string): Option<string>
  {
    var parts := Split(key, OrderNameSeparator);
    if |parts| > 1 then Some(parts[1]) else None
  }

  /** What createMethodsMap puts in its TreeMap: for each key, the last annotated method put under it. */
  function MethodsMapSpec(ms: seq<FactoryMethod>): map<string, Decl>
    decreases |ms|
  {
    if ms == [] then map[]
    else
      var m := MethodsMapSpec(ms[..|ms| - 1]);
      match ms[|ms| - 1].annotation
      case None => m
      case Some(c) => m[Key(c) := Decl(|ms| - 1, ms[|ms| - 1])]
  }

  /** The methods map in its iteration order. */
  function TreeOf(ms: seq<FactoryMethod>): (tree: seq<Entry<Decl>>)
    ensures StrictlySorted(tree)
    ensures ToMap(tree) == MethodsMapSpec(ms)
    decreases |ms|
  {
    if ms == [] then []
    else
      var t := TreeOf(ms[..|ms| - 1]);
      match ms[|ms| - 1].annotation
      case None => t
      case Some(c) => Put(t, Key(c), Decl(|ms| - 1, ms[|ms| - 1]))
  }

  /** `beans.stream().filter(t::isInstance).findFirst()`. */
  function FirstInstance(beans: seq<Bean>, t: TypeId, isInstance: InstanceOf): (r: Option<Bean>)
    ensures r.None? <==> forall i :: 0 <= i < |beans| ==> !isInstance(beans[i].runtimeType, t)
    ensures r.Some? ==> exists i :: 0 <= i < |beans| && beans[i] == r.value && isInstance(r.value.runtimeType, t)
                          && forall j :: 0 <= j < i ==> !isInstance(beans[j].runtimeType, t)
    decreases |beans|
  {
    if beans == [] then None
    else if isInstance(beans[0].runtimeType, t) then Some(beans[0])
    else
      var r := FirstInstance(beans[1..], t, isInstance);
      FirstInstanceBehindHead(beans, t, isInstance, r);
      r
  }

  lemma FirstInstanceBehindHead(beans: seq<Bean>, t: TypeId, isInstance: InstanceOf, r: Option<Bean>)
    requires beans != [] && !isInstance(beans[0].runtimeType, t)
    requires r.Some? ==> exists i :: 0 <= i < |beans[1..]| && beans[1..][i] == r.value && isInstance(r.value.runtimeType, t)
                           && forall j :: 0 <= j < i ==> !isInstance(beans[1..][j].runtimeType, t)
    ensures r.Some? ==> exists i :: 0 <= i < |beans| && beans[i] == r.value && isInstance(r.value.runtimeType, t)
                          && forall j :: 0 <= j < i ==> !isInstance(beans[j].runtimeType, t)
  {
    if r.Some? {
      var i :| 0 <= i < |beans[1..]| && beans[1..][i] == r.value && isInstance(r.value.runtimeType, t)
               && forall j :: 0 <= j < i ==> !isInstance(beans[1..][j].runtimeType, t);
      assert beans[i + 1] == r.value;
      assert forall j :: 0 < j <= i ==> beans[j] == beans[1..][j - 1];
    }
  }

  /** Resolves the parameters left to right; the first one without an instance aborts. */
  function ResolveParameters(params: seq<TypeId>, visible: seq<Bean>, isInstance: InstanceOf): (r: Result<seq<Bean>, ContainerError>)
    ensures r.Success? <==> forall k :: 0 <= k < |params| ==> FirstInstance(visible, params[k], isInstance).Some?
    ensures r.Success? ==> |r.value| == |params|
    ensures r.Success? ==> forall k :: 0 <= k < |params| ==> FirstInstance(visible, params[k], isInstance) == Some(r.value[k])
    ensures r.Failure? ==> exists k :: 0 <= k < |params| && r.error == UnresolvedParameter(params[k])
                             && FirstInstance(visible, params[k], isInstance).None?
    decreases |params|
  {
    if params == [] then Success([])
    else
      match FirstInstance(visible, params[0], isInstance)
      case None => Failure(UnresolvedParameter(params[0]))
      case Some(b) =>
        var rest := ResolveParameters(params[1..], visible, isInstance);
        ResolvedBehindHead(params, visible, isInstance, b, rest);
        match rest
        case Failure(e) => Failure(e)
        case Success(args) => Success([b] + args)
  }

  lemma ResolvedBehindHead(params: seq<TypeId>, visible: seq<Bean>, isInstance: InstanceOf, b: Bean,
                           rest: Result<seq<Bean>, ContainerError>)
    requires params != [] && FirstInstance(visible, params[0], isInstance) == Some(b)
    requires rest.Success? <==> forall k :: 0 <= k < |params[1..]| ==> FirstInstance(visible, params[1..][k], isInstance).Some?
    requires rest.Success? ==> |rest.value| == |params[1..]|
    requires rest.Success? ==> forall k :: 0 <= k < |params[1..]| ==> FirstInstance(visible, params[1..][k], isInstance) == Some(rest.value[k])
    requires rest.Failure? ==> exists k :: 0 <= k < |params[1..]| && rest.error == UnresolvedParameter(params[1..][k])
                                  && FirstInstance(visible, params[1..][k], isInstance).None?
    ensures rest.Success? <==> forall k :: 0 <= k < |params| ==> FirstInstance(visible, params[k], isInstance).Some?
    ensures rest.Success? ==> forall k :: 0 <= k < |params| ==> FirstInstance(visible, params[k], isInstance) == Some(([b] + rest.value)[k])
    ensures rest.Failure? ==> exists k :: 0 <= k < |params| && rest.error == UnresolvedParameter(params[k])
                                && FirstInstance(visible, params[k], isInstance).None?
  {
    assert forall k :: 0 < k < |params| ==> params[k] == params[1..][k - 1];
    if rest.Failure? {
      var k :| 0 <= k < |params[1..]| && rest.error == UnresolvedParameter(params[1..][k])
               && FirstInstance(visible, params[1..][k], isInstance).None?;
      assert params[k + 1] == params[1..][k];
    }
  }

  /**
   * createBean: resolve every parameter among the beans built so far, then invoke the
   * factory; the new bean has the factory's runtime type and records the arguments it got.
   */
  function CreateBean(d: Decl, visible: seq<Bean>, isInstance: InstanceOf): Result<Bean, ContainerError>
  {
    match ResolveParameters(d.declared.params, visible, isInstance)
    case Failure(e) => Failure(e)
    case Success(args) =>
      if d.declared.throws then Failure(FactoryThrew(d.index))
      else Success(Bean(d.index, d.declared.runtimeType, args))
  }

  /**
   * createBean succeeds exactly when the body does not throw and every parameter has an
   * instance among the visible beans; the bean then carries the first such instances.
   * Parameters are resolved before the body runs, so an unresolved parameter is the
   * error even when the body would throw.
   */
  lemma CreateBeanSpec(d: Decl, visible: seq<Bean>, isInstance: InstanceOf)
    ensures var r := CreateBean(d, visible, isInstance);
            r.Success? <==> !d.declared.throws
                            && forall k :: 0 <= k < |d.declared.params| ==> FirstInstance(visible, d.declared.params[k], isInstance).Some?
    ensures var r := CreateBean(d, visible, isInstance);
            r.Success? ==> r.value.factory == d.index && r.value.runtimeType == d.declared.runtimeType
                           && |r.value.args| == |d.declared.params|
                           && forall k :: 0 <= k < |d.declared.params| ==>
                                FirstInstance(visible, d.declared.params[k], isInstance) == Some(r.value.args[k])
    ensures var r := CreateBean(d, visible, isInstance);
            r.Failure? ==> r.error == FactoryThrew(d.index)
                           || exists k :: 0 <= k < |d.declared.params| && r.error == UnresolvedParameter(d.declared.params[k])
                                          && FirstInstance(visible, d.declared.params[k], isInstance).None?
    ensures (exists k :: 0 <= k < |d.declared.params| && FirstInstance(visible, d.declared.params[k], isInstance).None?) ==>
              var r := CreateBean(d, visible, isInstance);
              r.Failure? && r.error.UnresolvedParameter?
    ensures var r := CreateBean(d, visible, isInstance);
            r.Failure? && r.error.FactoryThrew? ==>
              forall k :: 0 <= k < |d.declared.params| ==> FirstInstance(visible, d.declared.params[k], isInstance).Some?
  {
    var params := d.declared.params;
    var resolved := ResolveParameters(params, visible, isInstance);
    if resolved.Success? && !d.declared.throws {
      assert CreateBean(d, visible, isInstance) == Success(Bean(d.index, d.declared.runtimeType, resolved.value));
    }
  }

  /** One iteration of createBeans: recover the name, build the bean, append it and index it by name. */
  function Register(reg: Registry, e: Entry<Decl>, isInstance: InstanceOf): Result<Registry, ContainerError>
  {
    match NameOf(e.key)
    case None => Failure(MissingName(e.key))
    case Some(name) =>
      match CreateBean(e.value, reg.beans, isInstance)
      case Failure(err) => Failure(err)
      case Success(b) => Success(Registry(reg.beans + [b], reg.byName[name := b]))
  }

  /** createBeans over the methods map in iteration order, starting from empty indexes. */
  function Build(entries: seq<Entry<Decl>>, isInstance: InstanceOf): Result<Registry, ContainerError>
    decreases |entries|
  {
    if entries == [] then Success(Registry([], map[]))
    else
      match Build(entries[..|entries| - 1], isInstance)
      case Failure(err) => Failure(err)
      case Success(reg) => Register(reg, entries[|entries| - 1], isInstance)
  }

  /** A successful construction is a successful construction of all but the last entry, then one registration. */
  lemma BuildLast(entries: seq<Entry<Decl>>, isInstance: InstanceOf)
    requires entries != [] && Build(entries, isInstance).Success?
    ensures Build(entries[..|entries| - 1], isInstance).Success?
    ensures var before := Build(entries[..|entries| - 1], isInstance).value;
            var e := entries[|entries| - 1];
            var b := CreateBean(e.value, before.beans, isInstance);
            && NameOf(e.key).Some? && b.Success?
            && Build(entries, isInstance).value == Registry(before.beans + [b.value], before.byName[NameOf(e.key).value := b.value])
  {
  }

  /** createBeans adds exactly one bean per entry. */
  lemma {:induction false} BuildLength(entries: seq<Entry<Decl>>, isInstance: InstanceOf)
    requires Build(entries, isInstance).Success?
    ensures |Build(entries, isInstance).value.beans| == |entries|
    decreases |entries|
  {
    if entries != [] {
      BuildLast(entries, isInstance);
      BuildLength(entries[..|entries| - 1], isInstance);
    }
  }

  /** After a successful prefix, the last entry registers exactly when its name is recovered and its bean is created. */
  lemma BuildExtend(entries: seq<Entry<Decl>>, isInstance: InstanceOf)
    requires entries != [] && Build(entries[..|entries| - 1], isInstance).Success?
    ensures var before := Build(entries[..|entries| - 1], isInstance).value;
            var e := entries[|entries| - 1];
            Build(entries, isInstance).Success? <==>
              NameOf(e.key).Some? && CreateBean(e.value, before.beans, isInstance).Success?
  {
  }

  /** One iteration of createBeans: the first `i + 1` entries are the first `i` and one registration. */
  lemma BuildStep(entries: seq<Entry<Decl>>, i: nat, isInstance: InstanceOf)
    requires i < |entries| && Build(entries[..i], isInstance).Success?
    ensures Build(entries[..i + 1], isInstance) == Register(Build(entries[..i], isInstance).value, entries[i], isInstance)
  {
    assert entries[..i + 1][..i] == entries[..i];
  }

  /** Once an iteration of createBeans throws, the whole construction fails with that error. */
  lemma {:induction false} BuildFailurePersists(entries: seq<Entry<Decl>>, n: nat, isInstance: InstanceOf)
    requires n <= |entries|
    requires Build(entries[..n], isInstance).Failure?
    ensures Build(entries, isInstance) == Build(entries[..n], isInstance)
    decreases |entries|
  {
    if n == |entries| {
      assert entries[..n] == entries;
    } else {
      var prefix := entries[..|entries| - 1];
      assert prefix[..n] == entries[..n];
      BuildFailurePersists(prefix, n, isInstance);
    }
  }

  /** processConfig as a whole: the outcome of `new AppComponentsContainerImpl(configClass)`. */
  function Construct(cfg: ConfigClass, isInstance: InstanceOf): Result<Registry, ContainerError>
  {
    if !cfg.annotated then Failure(NotConfig)
    else if !cfg.instantiable then Failure(InstantiationFailed)
    else if |cfg.methods| == 0 then Failure(EmptyConfig)
    else Build(TreeOf(cfg.methods), isInstance)
  }

  class AppComponentsContainerImpl {
    var appComponents: seq<Bean>
    var appComponentsByName: map<string, Bean>
    /** Whether the configuration object has been created (`configInstance != null`). */
    var configInstance: bool
    const isInstance: InstanceOf

    /** Every bean reachable by name is also in the list. */
    ghost predicate Valid()
      reads this
    {
      forall n :: n in appComponentsByName ==> appComponentsByName[n] in appComponents
    }

    function Snapshot(): Registry
      reads this
    {
      Registry(appComponents, appComponentsByName)
    }

    /** The field initialisers: both indexes empty, no configuration object yet. */
    constructor Empty(isInstance: InstanceOf)
      ensures this.isInstance == isInstance && Valid()
      ensures appComponents == [] && appComponentsByName == map[] && !configInstance
    {
      this.isInstance := isInstance;
      appComponents := [];
      appComponentsByName := map[];
      configInstance := false;
    }

    /** `new AppComponentsContainerImpl(configClass)`: a container, or the error its constructor throws. */
    static method New(cfg: ConfigClass, isInstance: InstanceOf) returns (r: Result<AppComponentsContainerImpl, ContainerError>)
      ensures r.ToOutcome() == Construct(cfg, isInstance).ToOutcome()
      ensures r.Success? ==> fresh(r.value) && r.value.Valid() && r.value.isInstance == isInstance
                             && r.value.configInstance
                             && r.value.Snapshot() == Construct(cfg, isInstance).value
    {
      var c := new AppComponentsContainerImpl.Empty(isInstance);
      var outcome := c.ProcessConfig(cfg);
      if outcome.Fail? {
        return Failure(outcome.error);
      }
      return Success(c);
    }

    static function CheckConfigClass(cfg: ConfigClass): (r: Outcome<ContainerError>)
      ensures r.Pass? <==> cfg.annotated
      ensures r.Fail? ==> r.error == NotConfig
    {
      if !cfg.annotated then Fail(NotConfig) else Pass
    }

    method ProcessConfig(cfg: ConfigClass) returns (outcome: Outcome<ContainerError>)
      requires appComponents == [] && appComponentsByName == map[] && !configInstance
      modifies this
      ensures Valid()
      ensures outcome == Construct(cfg, isInstance).ToOutcome()
      ensures outcome.Pass? ==> Snapshot() == Construct(cfg, isInstance).value
      ensures configInstance <==> cfg.annotated && cfg.instantiable
      ensures !cfg.annotated || !cfg.instantiable || cfg.methods == [] ==>
                appComponents == [] && appComponentsByName == map[]
    {
      outcome := CheckConfigClass(cfg);
      if outcome.Fail? {
        return;
      }
      if !cfg.instantiable {
        return Fail(InstantiationFailed);
      }
      configInstance := true;
      var methods := cfg.methods;
      if |methods| == 0 {
        return Fail(EmptyConfig);
      }
      var methodsMap := CreateMethodsMap(methods);
      SortedDetermined(methodsMap, TreeOf(methods));
      outcome := CreateBeans(methodsMap);
    }

    /** createMethodsMap: put every annotated method under its key, in declaration order. */
    static method CreateMethodsMap(methods: seq<FactoryMethod>) returns (methodsMap: seq<Entry<Decl>>)
      ensures StrictlySorted(methodsMap)
      ensures ToMap(methodsMap) == MethodsMapSpec(methods)
    {
      methodsMap := [];
      for i := 0 to |methods|
        invariant StrictlySorted(methodsMap)
        invariant ToMap(methodsMap) == MethodsMapSpec(methods[..i])
      {
        assert methods[..i + 1][..i] == methods[..i];
        var fm := methods[i];
        if fm.annotation.Some? {
          var c := fm.annotation.value;
          methodsMap := Put(methodsMap, Key(c), Decl(i, fm));
        }
      }
      assert methods[..|methods|] == methods;
    }

    /** createBeans: build the beans in the methods map's order, appending and naming each one. */
    method CreateBeans(methodsMap: seq<Entry<Decl>>) returns (outcome: Outcome<ContainerError>)
      requires appComponents == [] && appComponentsByName == map[]
      modifies this`appComponents, this`appComponentsByName
      ensures Valid()
      ensures outcome == Build(methodsMap, isInstance).ToOutcome()
      ensures outcome.Pass? ==> Snapshot() == Build(methodsMap, isInstance).value
    {
      var i := 0;
      while i < |methodsMap|
        invariant 0 <= i <= |methodsMap|
        invariant Valid()
        invariant Build(methodsMap[..i], isInstance) == Success(Snapshot())
      {
        var entry := methodsMap[i];
        BuildStep(methodsMap, i, isInstance);
        var name := NameOf(entry.key);
        if name.None? {
          BuildFailurePersists(methodsMap, i + 1, isInstance);
          return Fail(MissingName(entry.key));
        }
        var bean := CreateBean(entry.value, appComponents, isInstance);
        if bean.Failure? {
          BuildFailurePersists(methodsMap, i + 1, isInstance);
          return Fail(bean.error);
        }
        appComponents := appComponents + [bean.value];
        appComponentsByName := appComponentsByName[name.value := bean.value];
        i := i + 1;
      }
      assert methodsMap[..|methodsMap|] == methodsMap;
      outcome := Pass;
    }

    /** getAppComponent(Class): the first bean, in build order, that is an instance of `t`. */
    function GetAppComponentByType(t: TypeId): (r: Option<Bean>)
      reads this
      ensures r.None? <==> forall i :: 0 <= i < |appComponents| ==> !isInstance(appComponents[i].runtimeType, t)
      ensures r.Some? ==> exists i :: 0 <= i < |appComponents| && appComponents[i] == r.value
                            && isInstance(r.value.runtimeType, t)
                            && forall j :: 0 <= j < i ==> !isInstance(appComponents[j].runtimeType, t)
    {
      FirstInstance(appComponents, t, isInstance)
    }

    /** getAppComponent(String): the bean stored under exactly that name. */
    function GetAppComponentByName(name: string): (r: Option<Bean>)
      reads this
      ensures r.Some? <==> name in appComponentsByName
      ensures r.Some? ==> r.value == appComponentsByName[name]
      ensures Valid() && r.Some? ==> r.value in appComponents
    {
      if name in appComponentsByName then Some(appComponentsByName[name]) else None
    }
  }
}
