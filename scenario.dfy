/**
 * TestAppConfig1: an IOService built from no arguments (order 1, "testBean1") and an
 * EquationPreparer that takes an IOService (order 2, "testBean2"), declared in that
 * source order with the preparer first.
 */
module TestAppConfig1Scenario {
  import opened Wrappers
  import opened JavaStrings
  import opened TreeMaps
  import opened AppComponentsContainer
  import opened ContainerProperties

  /** The class hierarchy of the example services: each implementation is an instance of its interface. */
  predicate IsInstance(runtimeType: TypeId, t: TypeId)
  {
    || runtimeType == t
    || (runtimeType == "IOServiceConsole" && t == "IOService")
    || (runtimeType == "EquationPreparerImpl" && t == "EquationPreparer")
  }

  function EquationPreparerMethod(order: int): FactoryMethod
  {
    FactoryMethod(Some(AppComponent(order, "testBean2")), ["IOService"], "EquationPreparerImpl", false)
  }

  function IoServiceMethod(order: int): FactoryMethod
  {
    FactoryMethod(Some(AppComponent(order, "testBean1")), [], "IOServiceConsole", false)
  }

  /** The configuration with the given orders for the preparer and the I/O service. */
  function Config(preparerOrder: int, ioOrder: int): ConfigClass
  {
    ConfigClass(true, true, [EquationPreparerMethod(preparerOrder), IoServiceMethod(ioOrder)])
  }

  const TestAppConfig1: ConfigClass := Config(2, 1)

  /** The I/O service is built by the second declared method, with no arguments. */
  const IoBean: Bean := Bean(1, "IOServiceConsole", [])

  /** The preparer is built by the first declared method and receives the I/O service. */
  const PreparerBean: Bean := Bean(0, "EquationPreparerImpl", [IoBean])

  /** A key whose order's first digit is smaller sorts first, whatever the names. */
  lemma KeysByFirstDigit(c1: AppComponent, c2: AppComponent)
    requires DecimalString(c1.order)[0] < DecimalString(c2.order)[0]
    ensures Less(Key(c1), Key(c2))
  {
    assert Key(c1)[0] == DecimalString(c1.order)[0] && Key(c2)[0] == DecimalString(c2.order)[0];
  }

  /** The methods map of two annotated methods, the second's key sorting first. */
  lemma TreeOfTwo(first: FactoryMethod, second: FactoryMethod)
    requires first.annotation.Some? && second.annotation.Some?
    requires Less(Key(second.annotation.value), Key(first.annotation.value))
    ensures TreeOf([first, second]) ==
            [Entry(Key(second.annotation.value), Decl(1, second)), Entry(Key(first.annotation.value), Decl(0, first))]
  {
    var ms := [first, second];
    assert ms[..1] == [first] && ms[..1][..0] == [];
    assert TreeOf(ms[..1]) == [Entry(Key(first.annotation.value), Decl(0, first))];
    assert TreeOf(ms) == Put(TreeOf(ms[..1]), Key(second.annotation.value), Decl(1, second));
    LessIrreflexive(Key(second.annotation.value));
  }

  /** The methods map of two annotated methods whose keys are already in ascending order. */
  lemma TreeOfTwoInOrder(first: FactoryMethod, second: FactoryMethod)
    requires first.annotation.Some? && second.annotation.Some?
    requires Less(Key(first.annotation.value), Key(second.annotation.value))
    ensures TreeOf([first, second]) ==
            [Entry(Key(first.annotation.value), Decl(0, first)), Entry(Key(second.annotation.value), Decl(1, second))]
  {
    var ms := [first, second];
    var k1, k2 := Key(first.annotation.value), Key(second.annotation.value);
    assert ms[..1] == [first] && ms[..1][..0] == [];
    assert TreeOf(ms[..1]) == [Entry(k1, Decl(0, first))];
    assert TreeOf(ms) == Put(TreeOf(ms[..1]), k2, Decl(1, second));
    LessIrreflexive(k1);
    LessAsymmetric(k1, k2);
    assert [Entry(k1, Decl(0, first))][1..] == [];
  }

  /** The scenario's names are recovered from their keys. */
  lemma ScenarioNames(preparerOrder: int, ioOrder: int)
    ensures NameOf(Key(AppComponent(preparerOrder, "testBean2"))) == Some("testBean2")
    ensures NameOf(Key(AppComponent(ioOrder, "testBean1"))) == Some("testBean1")
  {
    NoAmpersandNoSeparator("testBean2");
    NoAmpersandNoSeparator("testBean1");
    NameOfKey(AppComponent(preparerOrder, "testBean2"));
    NameOfKey(AppComponent(ioOrder, "testBean1"));
  }

  /** The methods map of the configuration when the I/O service's key sorts first. */
  lemma ScenarioTree(preparerOrder: int, ioOrder: int)
    requires Less(Key(AppComponent(ioOrder, "testBean1")), Key(AppComponent(preparerOrder, "testBean2")))
    ensures TreeOf(Config(preparerOrder, ioOrder).methods) ==
            [Entry(Key(AppComponent(ioOrder, "testBean1")), Decl(1, IoServiceMethod(ioOrder))),
             Entry(Key(AppComponent(preparerOrder, "testBean2")), Decl(0, EquationPreparerMethod(preparerOrder)))]
  {
    TreeOfTwo(EquationPreparerMethod(preparerOrder), IoServiceMethod(ioOrder));
  }

  /** Building the I/O service alone. */
  lemma BuildIoService(ioOrder: int)
    ensures var e := Entry(Key(AppComponent(ioOrder, "testBean1")), Decl(1, IoServiceMethod(ioOrder)));
            Build([e], IsInstance) == Success(Registry([IoBean], map["testBean1" := IoBean]))
  {
    ScenarioNames(0, ioOrder);
    var e := Entry(Key(AppComponent(ioOrder, "testBean1")), Decl(1, IoServiceMethod(ioOrder)));
    assert [e][..0] == [];
    assert CreateBean(e.value, [], IsInstance) == Success(IoBean);
    assert NameOf(e.key) == Some("testBean1");
    assert [] + [IoBean] == [IoBean];
    assert Register(Registry([], map[]), e, IsInstance) == Success(Registry([IoBean], map["testBean1" := IoBean]));
  }

  /** With the I/O service built, the preparer's factory receives it. */
  lemma CreatePreparerAfterIo(preparerOrder: int)
    ensures CreateBean(Decl(0, EquationPreparerMethod(preparerOrder)), [IoBean], IsInstance) == Success(PreparerBean)
  {
    assert IsInstance("IOServiceConsole", "IOService");
    assert FirstInstance([IoBean], "IOService", IsInstance) == Some(IoBean);
    var params := EquationPreparerMethod(preparerOrder).params;
    assert params == ["IOService"] && params[1..] == [];
    assert ResolveParameters([], [IoBean], IsInstance) == Success([]);
    assert [IoBean] + [] == [IoBean];
    assert ResolveParameters(params, [IoBean], IsInstance) == Success([IoBean]);
  }

  /** Registering the preparer after the I/O service. */
  lemma RegisterPreparer(preparerOrder: int)
    ensures var e := Entry(Key(AppComponent(preparerOrder, "testBean2")), Decl(0, EquationPreparerMethod(preparerOrder)));
            Register(Registry([IoBean], map["testBean1" := IoBean]), e, IsInstance) ==
            Success(Registry([IoBean, PreparerBean], map["testBean1" := IoBean, "testBean2" := PreparerBean]))
  {
    ScenarioNames(preparerOrder, 0);
    CreatePreparerAfterIo(preparerOrder);
    assert [IoBean] + [PreparerBean] == [IoBean, PreparerBean];
  }

  /** With nothing built yet, the preparer's IOService parameter has no candidate. */
  lemma CreatePreparerFirst(preparerOrder: int)
    ensures CreateBean(Decl(0, EquationPreparerMethod(preparerOrder)), [], IsInstance) == Failure(UnresolvedParameter("IOService"))
  {
    var params := EquationPreparerMethod(preparerOrder).params;
    assert params == ["IOService"];
    assert FirstInstance([], "IOService", IsInstance) == None;
    assert ResolveParameters(params, [], IsInstance) == Failure(UnresolvedParameter("IOService"));
  }

  /**
   * Constructing the container from TestAppConfig1 builds the I/O service first and hands it
   * to the preparer; each is stored under its declared name.
   */
  lemma TestAppConfig1Builds()
    ensures Construct(TestAppConfig1, IsInstance) ==
            Success(Registry([IoBean, PreparerBean], map["testBean1" := IoBean, "testBean2" := PreparerBean]))
  {
    var io, prep := AppComponent(1, "testBean1"), AppComponent(2, "testBean2");
    KeysByFirstDigit(io, prep);
    ScenarioTree(2, 1);
    BuildIoService(1);
    RegisterPreparer(2);
    var tree := TreeOf(TestAppConfig1.methods);
    assert tree[..1] == [tree[0]];
  }

  /**
   * With the orders swapped the preparer comes first in the methods map, when no bean is
   * an IOService yet, and construction fails on its parameter.
   */
  lemma SwappedOrdersFail()
    ensures Construct(Config(1, 2), IsInstance) == Failure(UnresolvedParameter("IOService"))
  {
    var io, prep := AppComponent(2, "testBean1"), AppComponent(1, "testBean2");
    KeysByFirstDigit(prep, io);
    PreparerFirstFails(1, 2);
  }

  /**
   * Order 10 sorts before order 2, so a preparer at order 10 is built before the I/O
   * service at order 2 and cannot find it.
   */
  lemma TextualOrderFails()
    ensures Construct(Config(10, 2), IsInstance) == Failure(UnresolvedParameter("IOService"))
  {
    TextualOrderOfKeys("testBean2", "testBean1");
    PreparerFirstFails(10, 2);
  }

  /** Whenever the preparer's key sorts first, construction fails on its IOService parameter. */
  lemma PreparerFirstFails(preparerOrder: int, ioOrder: int)
    requires Less(Key(AppComponent(preparerOrder, "testBean2")), Key(AppComponent(ioOrder, "testBean1")))
    ensures Construct(Config(preparerOrder, ioOrder), IsInstance) == Failure(UnresolvedParameter("IOService"))
  {
    TreeOfTwoInOrder(EquationPreparerMethod(preparerOrder), IoServiceMethod(ioOrder));
    var tree := TreeOf(Config(preparerOrder, ioOrder).methods);
    BuildPreparerAlone(preparerOrder);
    assert tree[..1] == [tree[0]];
    BuildFailurePersists(tree, 1, IsInstance);
  }

  /** Building the preparer before anything else fails on its parameter. */
  lemma BuildPreparerAlone(preparerOrder: int)
    ensures var e := Entry(Key(AppComponent(preparerOrder, "testBean2")), Decl(0, EquationPreparerMethod(preparerOrder)));
            Build([e], IsInstance) == Failure(UnresolvedParameter("IOService"))
  {
    ScenarioNames(preparerOrder, 0);
    CreatePreparerFirst(preparerOrder);
    var e := Entry(Key(AppComponent(preparerOrder, "testBean2")), Decl(0, EquationPreparerMethod(preparerOrder)));
    assert [e][..0] == [];
    assert Build([], IsInstance) == Success(Registry([], map[]));
  }

  /** In the built container, each interface is first matched by its implementation. */
  lemma ScenarioLookupsByType()
    ensures FirstInstance([IoBean, PreparerBean], "IOService", IsInstance) == Some(IoBean)
    ensures FirstInstance([IoBean, PreparerBean], "EquationPreparer", IsInstance) == Some(PreparerBean)
  {
    assert IsInstance("IOServiceConsole", "IOService");
    assert !IsInstance("IOServiceConsole", "EquationPreparer");
    assert IsInstance("EquationPreparerImpl", "EquationPreparer");
    assert [IoBean, PreparerBean][1..] == [PreparerBean];
  }

  /** Looking the services up by interface yields the two implementations. */
  method GetAppComponentByInterface() returns (io: Option<Bean>, preparer: Option<Bean>)
    ensures io.Some? && io.value.runtimeType == "IOServiceConsole"
    ensures preparer.Some? && preparer.value.runtimeType == "EquationPreparerImpl"
  {
    TestAppConfig1Builds();
    ScenarioLookupsByType();
    var r := AppComponentsContainerImpl.New(TestAppConfig1, IsInstance);
    var container := r.value;
    io := container.GetAppComponentByType("IOService");
    preparer := container.GetAppComponentByType("EquationPreparer");
  }

  /** Looking the services up by name: "testBean2" is the preparer and "testBean1" the I/O service. */
  method GetAppComponentByDeclaredName() returns (component1: Option<Bean>, component2: Option<Bean>)
    ensures component1 == Some(PreparerBean) && IsInstance(component1.value.runtimeType, "EquationPreparer")
    ensures component2 == Some(IoBean) && IsInstance(component2.value.runtimeType, "IOService")
  {
    TestAppConfig1Builds();
    var r := AppComponentsContainerImpl.New(TestAppConfig1, IsInstance);
    var container := r.value;
    component1 := container.GetAppComponentByName("testBean2");
    component2 := container.GetAppComponentByName("testBean1");
  }
}
