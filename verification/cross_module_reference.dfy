/**
 The three cross-module reference checkers the module filter consults, kept
 abstract, and the union of their answers that becomes the set of affected
 test cases.
 */
module CrossModuleReference {

  /** The checker variants, each scanning its own kind of reusable artifact. */
  datatype CheckerKind = Constraint | TestStep | Page

  /** The order in which the filter consults the checkers. */
  const CheckerOrder: seq<CheckerKind> := [Constraint, TestStep, Page]

  /**
   The checkers' `getCrossModuleReference` queries. Each one answers with the
   keys (test-case class names) of the test cases that use an artifact of the
   queried module. Their internals are not part of this model. The Page
   checker is built with the whole module-filter list (and the Constraint
   checker), so its query is a function of that list as well as of the module.
   */
  datatype Checkers = Checkers(
    constraint: string -> set<string>,
    testStep: string -> set<string>,
    page: (seq<string>, string) -> set<string>)

  /** The answer of one checker, built for `filters`, about one module. */
  function Query(ck: Checkers, kind: CheckerKind, filters: seq<string>, mod: string): set<string>
  {
    match kind
    case Constraint => ck.constraint(mod)
    case TestStep => ck.testStep(mod)
    case Page => ck.page(filters, mod)
  }

  /** Some checker among `kinds`, asked about some module among `modules`,
      reports the test case `key`. This is the order-free meaning of the
      merged result. */
  ghost predicate Reported(ck: Checkers, filters: seq<string>, kinds: seq<CheckerKind>,
                           modules: seq<string>, key: string)
  {
    exists kind, mod :: kind in kinds && mod in modules && key in Query(ck, kind, filters, mod)
  }

  /** Some checker of any kind, asked about some module of the filter list,
      reports the test case `key`: what membership in the affected set of
      the non-strict path means. */
  ghost predicate AnyCheckerReports(ck: Checkers, filters: seq<string>, key: string)
  {
    exists kind, mod :: mod in filters && key in Query(ck, kind, filters, mod)
  }

  /** The keys one checker reports over `modules`, merged left to right. */
  function GatherModules(ck: Checkers, kind: CheckerKind, filters: seq<string>,
                         modules: seq<string>): set<string>
  {
    if |modules| == 0 then {}
    else
      GatherModules(ck, kind, filters, modules[..|modules| - 1])
      + Query(ck, kind, filters, modules[|modules| - 1])
  }

  /** The keys all of `kinds` report over `modules`, checker by checker, as
      the nested loops of the filter merge them. */
  function Gather(ck: Checkers, filters: seq<string>, kinds: seq<CheckerKind>,
                  modules: seq<string>): set<string>
  {
    if |kinds| == 0 then {}
    else
      Gather(ck, filters, kinds[..|kinds| - 1], modules)
      + GatherModules(ck, kinds[|kinds| - 1], filters, modules)
  }

  /** A key is merged from one checker exactly when the checker reports it
      for some module. */
  lemma {:induction false} GatherModulesMembership(ck: Checkers, kind: CheckerKind, filters: seq<string>,
                                                   modules: seq<string>)
    ensures forall key :: key in GatherModules(ck, kind, filters, modules) <==>
              exists mod :: mod in modules && key in Query(ck, kind, filters, mod)
  {
    if |modules| > 0 {
      var prefix := modules[..|modules| - 1];
      GatherModulesMembership(ck, kind, filters, prefix);
      assert forall m :: m in modules <==> m in prefix || m == modules[|modules| - 1];
    }
  }

  /** A key is in the merged set exactly when some checker among `kinds`
      reports it for some module among `modules`. */
  lemma {:induction false} GatherMembership(ck: Checkers, filters: seq<string>, kinds: seq<CheckerKind>,
                                            modules: seq<string>)
    ensures forall key :: key in Gather(ck, filters, kinds, modules) <==>
              Reported(ck, filters, kinds, modules, key)
  {
    if |kinds| > 0 {
      var prefix := kinds[..|kinds| - 1];
      var last := kinds[|kinds| - 1];
      GatherMembership(ck, filters, prefix, modules);
      GatherModulesMembership(ck, last, filters, modules);
      assert forall k :: k in kinds <==> k in prefix || k == last;
    }
  }

  /** The merged key set does not depend on the order (or repetition) in which
      the checkers and the modules are visited. */
  lemma GatherOrderIrrelevant(ck: Checkers, filters: seq<string>,
                              kinds: seq<CheckerKind>, kinds': seq<CheckerKind>,
                              modules: seq<string>, modules': seq<string>)
    requires forall k :: k in kinds <==> k in kinds'
    requires forall m :: m in modules <==> m in modules'
    ensures Gather(ck, filters, kinds, modules) == Gather(ck, filters, kinds', modules')
  {
    var a := Gather(ck, filters, kinds, modules);
    var b := Gather(ck, filters, kinds', modules');
    GatherMembership(ck, filters, kinds, modules);
    GatherMembership(ck, filters, kinds', modules');
    forall key
      ensures key in a <==> key in b
    {
      assert Reported(ck, filters, kinds, modules, key) <==> Reported(ck, filters, kinds', modules', key);
    }
  }

  /** One more module adds that module's answer. */
  lemma GatherModulesStep(ck: Checkers, kind: CheckerKind, filters: seq<string>, modules: seq<string>)
    requires |modules| > 0
    ensures GatherModules(ck, kind, filters, modules)
            == GatherModules(ck, kind, filters, modules[..|modules| - 1])
               + Query(ck, kind, filters, modules[|modules| - 1])
  {
  }

  /** One more checker adds that checker's answers. */
  lemma GatherStep(ck: Checkers, filters: seq<string>, kinds: seq<CheckerKind>, modules: seq<string>)
    requires |kinds| > 0
    ensures Gather(ck, filters, kinds, modules)
            == Gather(ck, filters, kinds[..|kinds| - 1], modules)
               + GatherModules(ck, kinds[|kinds| - 1], filters, modules)
  {
  }

  /** Visiting every checker kind over the same modules, in any order,
      merges what `init`'s fixed order merges. */
  lemma AnyCompleteOrder(ck: Checkers, filters: seq<string>,
                         kinds: seq<CheckerKind>, modules: seq<string>)
    requires forall k :: k in kinds
    requires forall m :: m in modules <==> m in filters
    ensures Gather(ck, filters, kinds, modules) == Gather(ck, filters, CheckerOrder, filters)
  {
    forall k
      ensures k in CheckerOrder <==> k in kinds
    {
      assert k == Constraint || k == TestStep || k == Page;
    }
    GatherOrderIrrelevant(ck, filters, CheckerOrder, kinds, filters, modules);
  }

  /** Every checker kind is in `CheckerOrder`, so the merge over that order
      covers every checker. */
  lemma EveryKindConsulted(ck: Checkers, filters: seq<string>, affected: set<string>)
    requires affected == Gather(ck, filters, CheckerOrder, filters)
    ensures forall key :: key in affected <==> AnyCheckerReports(ck, filters, key)
  {
    GatherMembership(ck, filters, CheckerOrder, filters);
    forall key, kind, mod | mod in filters && key in Query(ck, kind, filters, mod)
      ensures key in affected
    {
      assert kind in CheckerOrder;
    }
  }

  /**
   The affected-test-case computation of the filter's non-strict path: for
   every checker, for every filter module, merge the checker's answer into the
   accumulated set. The result is exactly the keys some checker reports for
   some filter module.
   */
  method CollectAffected(ck: Checkers, filters: seq<string>) returns (affected: set<string>)
    ensures forall key :: key in affected <==> AnyCheckerReports(ck, filters, key)
    ensures affected == Gather(ck, filters, CheckerOrder, filters)
  {
    affected := {};
    var c := 0;
    while c < |CheckerOrder|
      invariant 0 <= c <= |CheckerOrder|
      invariant affected == Gather(ck, filters, CheckerOrder[..c], filters)
    {
      var kind := CheckerOrder[c];
      var m := 0;
      while m < |filters|
        invariant 0 <= m <= |filters|
        invariant affected == Gather(ck, filters, CheckerOrder[..c], filters)
                              + GatherModules(ck, kind, filters, filters[..m])
      {
        GatherModulesStep(ck, kind, filters, filters[..m + 1]);
        assert filters[..m + 1][..m] == filters[..m];
        affected := affected + Query(ck, kind, filters, filters[m]);
        m := m + 1;
      }
      assert filters[..m] == filters;
      GatherStep(ck, filters, CheckerOrder[..c + 1], filters);
      assert CheckerOrder[..c + 1][..c] == CheckerOrder[..c];
      c := c + 1;
    }
    assert CheckerOrder[..c] == CheckerOrder;
    EveryKindConsulted(ck, filters, affected);
  }
}
