/**
 Properties of the module filter: what a configuration selects, that the
 selection is an order-preserving subsequence of the catalogue, that applying
 it twice changes nothing, and how the settings string relates to the
 filter list.
 */
module ModuleFilterProperties {
  import opened Wrappers
  import opened Php
  import opened CrossModuleReference
  import opened TestClassModuleFilter
  import opened Subsequences

  /* ---------------------------------------------------------------------- */
  /* Configuration                                                          */
  /* ---------------------------------------------------------------------- */

  /** A truthy setting is parsed into the filter list. */
  lemma InitParses(settings: Settings, ck: Checkers)
    requires Truthy(settings.moduleFilter)
    ensures Init(settings, ck).moduleFilters == ParseModuleFilters(settings.moduleFilter.value)
  {
  }

  /** Each filter is the corresponding comma-separated piece, trimmed. */
  lemma ParsedPiece(setting: string, i: int)
    requires 0 <= i < |Explode(',', setting)|
    ensures ParseModuleFilters(setting)[i] == Trim(Explode(',', setting)[i])
  {
  }

  /** An unset, empty or `"0"` module filter disables filtering: every
      catalogue is returned unchanged, whatever the strict flag. */
  lemma FalsySettingKeepsCatalogue(settings: Settings, ck: Checkers,
                                   mapModule: string -> string, cases: seq<TestCase>)
    requires !Truthy(settings.moduleFilter)
    ensures ApplyFilter(Init(settings, ck), mapModule, cases) == cases
  {
  }

  /** A truthy module filter always yields a non-empty filter list (so the
      second emptiness test of `init` never fires), and the allowed modules
      are exactly the trimmed comma-separated pieces of the setting. */
  lemma AllowedModulesAreThePieces(settings: Settings, ck: Checkers)
    requires Truthy(settings.moduleFilter)
    ensures var st := Init(settings, ck);
            var parts := Explode(',', settings.moduleFilter.value);
            && |st.moduleFilters| == |parts|
            && forall m :: m in st.affectedModules <==>
                 exists i :: 0 <= i < |parts| && m == Trim(parts[i])
  {
    var st := Init(settings, ck);
    var parts := Explode(',', settings.moduleFilter.value);
    var filters := ParseModuleFilters(settings.moduleFilter.value);
    InitParses(settings, ck);
    forall m
      ensures m in st.affectedModules <==> exists i :: 0 <= i < |parts| && m == Trim(parts[i])
    {
      if m in st.affectedModules {
        var i :| 0 <= i < |filters| && filters[i] == m;
        ParsedPiece(settings.moduleFilter.value, i);
      }
      if exists i :: 0 <= i < |parts| && m == Trim(parts[i]) {
        var i :| 0 <= i < |parts| && m == Trim(parts[i]);
        ParsedPiece(settings.moduleFilter.value, i);
        assert filters[i] == m;
      }
    }
  }

  /** A non-empty setting made of blanks only is truthy: it turns filtering
      on with the one module name `""`, rather than disabling it. */
  lemma BlankSettingFiltersOnEmptyName(settings: Settings, ck: Checkers)
    requires settings.moduleFilter.Some? && settings.moduleFilter.value != []
    requires forall i :: 0 <= i < |settings.moduleFilter.value| ==> IsBlank(settings.moduleFilter.value[i])
    ensures Init(settings, ck).moduleFilters == [""]
  {
    var v := settings.moduleFilter.value;
    assert Truthy(settings.moduleFilter) by {
      assert v[0] != '0';
    }
    assert ParseModuleFilters(v) == [""] by {
      assert ',' !in v;
      ExplodeSinglePiece(',', v);
      ParsedPiece(v, 0);
      var t := Trim(v);
      if t != [] {
        assert false;
      }
    }
    InitParses(settings, ck);
  }

  /** The elements of a sequence, each once. */
  predicate Distinct(xs: seq<string>)
  {
    forall i, j :: 0 <= i < j < |xs| ==> xs[i] != xs[j]
  }

  /** Flipping the filter list collapses repeated names: the allowed-module
      set is never larger than the list, and is as large exactly when no
      name repeats. */
  lemma {:induction false} FlipCollapsesDuplicates(filters: seq<string>)
    ensures |Flip(filters)| <= |filters|
    ensures |Flip(filters)| == |filters| <==> Distinct(filters)
  {
    if |filters| > 0 {
      var prefix := filters[..|filters| - 1];
      var last := filters[|filters| - 1];
      FlipCollapsesDuplicates(prefix);
      assert Flip(filters) == Flip(prefix) + {last};
      if last in prefix {
        assert Flip(filters) == Flip(prefix);
        var k :| 0 <= k < |prefix| && prefix[k] == last;
        assert filters[k] == filters[|filters| - 1];
      } else {
        assert |Flip(filters)| == |Flip(prefix)| + 1;
        if Distinct(prefix) {
          assert Distinct(filters);
        }
      }
    }
  }

  /** Parsing a join of trimmed, comma-free names gives the names back. */
  lemma ParseOfJoin(names: seq<string>)
    requires |names| >= 1
    requires forall i :: 0 <= i < |names| ==> IsTrimmed(names[i]) && ',' !in names[i]
    ensures ParseModuleFilters(Implode(',', names)) == names
  {
    var setting := Implode(',', names);
    ExplodeImplode(',', names);
    forall i | 0 <= i < |names|
      ensures ParseModuleFilters(setting)[i] == names[i]
    {
      ParsedPiece(setting, i);
      TrimTrimmed(names[i]);
    }
  }

  /** Joining trimmed, comma-free module names with `,` and parsing the result
      gives the names back, provided the joined string is truthy. */
  lemma ParseJoinedNames(names: seq<string>, strict: Option<string>, ck: Checkers)
    requires |names| >= 1
    requires forall i :: 0 <= i < |names| ==> IsTrimmed(names[i]) && ',' !in names[i]
    requires Truthy(Some(Implode(',', names)))
    ensures Init(Settings(Some(Implode(',', names)), strict), ck).moduleFilters == names
  {
    ParseOfJoin(names);
    InitParses(Settings(Some(Implode(',', names)), strict), ck);
  }

  /** Conversely, when the setting has no blanks around its pieces, joining the
      parsed filter list with `,` restores the setting. */
  lemma JoinParsedFilters(setting: string, strict: Option<string>, ck: Checkers)
    requires Truthy(Some(setting))
    requires forall i :: 0 <= i < |Explode(',', setting)| ==> IsTrimmed(Explode(',', setting)[i])
    ensures Implode(',', Init(Settings(Some(setting), strict), ck).moduleFilters) == setting
  {
    var parts := Explode(',', setting);
    assert ParseModuleFilters(setting) == parts by {
      forall i | 0 <= i < |parts|
        ensures ParseModuleFilters(setting)[i] == parts[i]
      {
        ParsedPiece(setting, i);
        TrimTrimmed(parts[i]);
      }
    }
    InitParses(Settings(Some(setting), strict), ck);
    ImplodeExplode(',', setting);
  }

  /** In non-strict mode the affected test cases are the merge of `init`. */
  lemma InitGathers(settings: Settings, ck: Checkers)
    requires Truthy(settings.moduleFilter) && !Truthy(settings.moduleFilterStrict)
    ensures var st := Init(settings, ck);
            st.affectedTestCases == Gather(ck, st.moduleFilters, CheckerOrder, st.moduleFilters)
  {
  }

  /** The affected test cases do not depend on the order in which `init`
      visits the checkers and the filter modules: any visiting order of the
      same checkers and modules merges the same keys. */
  lemma AffectedSetOrderIndependent(settings: Settings, ck: Checkers,
                                    kinds: seq<CheckerKind>, modules: seq<string>)
    requires Truthy(settings.moduleFilter) && !Truthy(settings.moduleFilterStrict)
    requires forall k :: k in kinds
    requires forall m :: m in modules <==> m in Init(settings, ck).moduleFilters
    ensures Init(settings, ck).affectedTestCases
            == Gather(ck, Init(settings, ck).moduleFilters, kinds, modules)
  {
    InitGathers(settings, ck);
    AnyCompleteOrder(ck, Init(settings, ck).moduleFilters, kinds, modules);
  }

  /* ---------------------------------------------------------------------- */
  /* Selection                                                              */
  /* ---------------------------------------------------------------------- */

  /** In strict mode no cross-module reference counts: an entry survives
      exactly when its class maps to a module in the filter list. */
  lemma StrictSelection(settings: Settings, ck: Checkers,
                        mapModule: string -> string, cases: seq<TestCase>)
    requires Truthy(settings.moduleFilter) && Truthy(settings.moduleFilterStrict)
    ensures Init(settings, ck).affectedTestCases == {}
    ensures forall t :: t in ApplyFilter(Init(settings, ck), mapModule, cases) <==>
              t in cases && mapModule(t.className) in Init(settings, ck).moduleFilters
  {
  }

  /** In non-strict mode an entry survives exactly when its class maps to a
      filter module or some checker reports its lookup key (the class name
      behind one backslash) for some filter module. */
  lemma NonStrictSelection(settings: Settings, ck: Checkers,
                           mapModule: string -> string, cases: seq<TestCase>)
    requires Truthy(settings.moduleFilter) && !Truthy(settings.moduleFilterStrict)
    ensures var st := Init(settings, ck);
            forall t :: t in ApplyFilter(st, mapModule, cases) <==>
              && t in cases
              && (|| mapModule(t.className) in st.moduleFilters
                  || AnyCheckerReports(ck, st.moduleFilters, "\\" + t.className))
  {
  }

  /** An entry whose class maps to a filter module is kept in both modes. */
  lemma AllowedModuleAlwaysKept(settings: Settings, ck: Checkers,
                                mapModule: string -> string, cases: seq<TestCase>, t: TestCase)
    requires t in cases
    requires mapModule(t.className) in Init(settings, ck).moduleFilters
    ensures t in ApplyFilter(Init(settings, ck), mapModule, cases)
  {
  }

  /** A class name that already starts with a backslash is looked up with two
      in front: whether it is kept depends on its module and on the doubled
      key alone, so a checker answer that names it as written does not keep it. */
  lemma LeadingBackslashIsDoubled(st: FilterState, mapModule: string -> string,
                                  cases: seq<TestCase>, t: TestCase)
    requires st.moduleFilters != []
    requires |t.className| > 0 && t.className[0] == '\\'
    ensures LookupKey(t.className)[..2] == "\\\\"
    ensures t in ApplyFilter(st, mapModule, cases) <==>
              t in cases && (mapModule(t.className) in st.affectedModules
                             || "\\" + t.className in st.affectedTestCases)
  {
  }

  /** The keep-or-drop decision of `applyFilter` as a predicate on entries. */
  function Selection(st: FilterState, mapModule: string -> string): TestCase -> bool
  {
    t => Selected(st, mapModule, t)
  }

  /** The loop over the catalogue visits every entry once and decides each one
      by its own class alone: it is an order-preserving filter. */
  lemma {:induction false} FilterCasesIsFilter(st: FilterState, mapModule: string -> string,
                                               cases: seq<TestCase>)
    requires st.moduleFilters != []
    ensures FilterCases(st, mapModule, cases) == Filter(Selection(st, mapModule), cases)
  {
    if |cases| > 0 {
      FilterCasesIsFilter(st, mapModule, cases[..|cases| - 1]);
    }
  }

  /** An empty filter list selects everything, and filtering with a predicate
      that accepts everything is the identity. */
  lemma {:induction false} FilterAcceptingAll(st: FilterState, mapModule: string -> string,
                                              cases: seq<TestCase>)
    requires st.moduleFilters == []
    ensures Filter(Selection(st, mapModule), cases) == cases
  {
    if |cases| > 0 {
      FilterAcceptingAll(st, mapModule, cases[..|cases| - 1]);
      assert cases[..|cases| - 1] + [cases[|cases| - 1]] == cases;
    }
  }

  /** `applyFilter` keeps, in catalogue order, exactly the selected entries. */
  lemma ApplyFilterIsFilter(st: FilterState, mapModule: string -> string, cases: seq<TestCase>)
    ensures ApplyFilter(st, mapModule, cases) == Filter(Selection(st, mapModule), cases)
  {
    if st.moduleFilters == [] {
      FilterAcceptingAll(st, mapModule, cases);
    } else {
      FilterCasesIsFilter(st, mapModule, cases);
    }
  }

  /** Applying the filter a second time with the same state changes nothing. */
  lemma ApplyFilterIdempotent(st: FilterState, mapModule: string -> string, cases: seq<TestCase>)
    ensures ApplyFilter(st, mapModule, ApplyFilter(st, mapModule, cases))
            == ApplyFilter(st, mapModule, cases)
  {
    ApplyFilterIsFilter(st, mapModule, cases);
    ApplyFilterIsFilter(st, mapModule, ApplyFilter(st, mapModule, cases));
    FilterIdempotent(Selection(st, mapModule), cases);
  }

  /** The catalogue positions that survive `applyFilter` (the keys the PHP
      array keeps when the catalogue is indexed from 0), ascending. The result
      of the filter is the catalogue read at exactly these positions, and a
      position is among them exactly when its entry is selected; so nothing is
      added, duplicated or reordered. */
  function SurvivingPositions(st: FilterState, mapModule: string -> string,
                              cases: seq<TestCase>): (pos: seq<nat>)
    ensures SubsequenceAt(ApplyFilter(st, mapModule, cases), cases, pos)
    ensures forall j :: 0 <= j < |cases| ==> (j in pos <==> Selected(st, mapModule, cases[j]))
  {
    ApplyFilterIsFilter(st, mapModule, cases);
    FilterAtPositions(Selection(st, mapModule), cases);
    Positions(Selection(st, mapModule), cases)
  }

  /** Two states with the same allowed modules and affected test cases, both
      filtering, select the same entries. */
  lemma {:induction false} FilterCasesCongruent(st: FilterState, st': FilterState,
                                                mapModule: string -> string, cases: seq<TestCase>)
    requires st.affectedModules == st'.affectedModules
    requires st.affectedTestCases == st'.affectedTestCases
    ensures FilterCases(st, mapModule, cases) == FilterCases(st', mapModule, cases)
  {
    if |cases| > 0 {
      FilterCasesCongruent(st, st', mapModule, cases[..|cases| - 1]);
    }
  }

  /** Two module-filter settings naming the same set of modules (for example
      `moduleA,moduleA` and `moduleA`) select the same entries in strict mode;
      in non-strict mode they do so when the Page checker, which sees the whole
      list, answers alike for both lists. */
  lemma SameModulesSameSelection(s1: Settings, s2: Settings, ck: Checkers,
                                 mapModule: string -> string, cases: seq<TestCase>)
    requires Truthy(s1.moduleFilter) && Truthy(s2.moduleFilter)
    requires forall m :: m in Init(s1, ck).moduleFilters <==> m in Init(s2, ck).moduleFilters
    requires Truthy(s1.moduleFilterStrict) == Truthy(s2.moduleFilterStrict)
    requires !Truthy(s1.moduleFilterStrict) ==>
               forall m :: ck.page(Init(s1, ck).moduleFilters, m) == ck.page(Init(s2, ck).moduleFilters, m)
    ensures ApplyFilter(Init(s1, ck), mapModule, cases) == ApplyFilter(Init(s2, ck), mapModule, cases)
  {
    var st1 := Init(s1, ck);
    var st2 := Init(s2, ck);
    assert st1.affectedModules == st2.affectedModules;
    if !Truthy(s1.moduleFilterStrict) {
      SameQueriesSameAffected(ck, st1.moduleFilters, st2.moduleFilters,
                              st1.affectedTestCases, st2.affectedTestCases);
    }
    FilterCasesCongruent(st1, st2, mapModule, cases);
  }

  /** Two affected sets merged from filter lists with the same modules agree
      when the Page checker answers alike for both lists. */
  lemma SameQueriesSameAffected(ck: Checkers, f1: seq<string>, f2: seq<string>,
                                a1: set<string>, a2: set<string>)
    requires forall m :: m in f1 <==> m in f2
    requires forall m :: ck.page(f1, m) == ck.page(f2, m)
    requires forall key :: key in a1 <==> AnyCheckerReports(ck, f1, key)
    requires forall key :: key in a2 <==> AnyCheckerReports(ck, f2, key)
    ensures a1 == a2
  {
    forall key
      ensures key in a1 <==> key in a2
    {
      if key in a1 {
        var kind, mod :| mod in f1 && key in Query(ck, kind, f1, mod);
        assert Query(ck, kind, f1, mod) == Query(ck, kind, f2, mod);
      }
      if key in a2 {
        var kind, mod :| mod in f2 && key in Query(ck, kind, f2, mod);
        assert Query(ck, kind, f1, mod) == Query(ck, kind, f2, mod);
      }
    }
  }

  /** In strict mode, naming more modules can only keep more entries. */
  lemma StrictSelectionMonotone(s1: Settings, s2: Settings, ck: Checkers,
                                mapModule: string -> string, cases: seq<TestCase>)
    requires Truthy(s1.moduleFilter) && Truthy(s2.moduleFilter)
    requires Truthy(s1.moduleFilterStrict) && Truthy(s2.moduleFilterStrict)
    requires forall m :: m in Init(s1, ck).moduleFilters ==> m in Init(s2, ck).moduleFilters
    ensures forall t :: t in ApplyFilter(Init(s1, ck), mapModule, cases) ==>
              t in ApplyFilter(Init(s2, ck), mapModule, cases)
  {
  }

  /** An affected set merged over a larger filter list contains one merged
      over a smaller list, when the Page checker, which sees the whole list,
      reports at least as much for each module of the smaller list. */
  lemma MoreQueriesMoreAffected(ck: Checkers, f1: seq<string>, f2: seq<string>,
                                a1: set<string>, a2: set<string>)
    requires forall m :: m in f1 ==> m in f2
    requires forall m :: m in f1 ==> ck.page(f1, m) <= ck.page(f2, m)
    requires forall key :: key in a1 <==> AnyCheckerReports(ck, f1, key)
    requires forall key :: key in a2 <==> AnyCheckerReports(ck, f2, key)
    ensures a1 <= a2
  {
    forall key | key in a1
      ensures key in a2
    {
      var kind, mod :| mod in f1 && key in Query(ck, kind, f1, mod);
      assert Query(ck, kind, f1, mod) <= Query(ck, kind, f2, mod);
      assert AnyCheckerReports(ck, f2, key);
    }
  }

  /** In non-strict mode, naming more modules keeps at least the same entries,
      provided the Page checker reports at least as much for the longer list.
      The earlier setting may also be strict, which reports nothing. */
  lemma NonStrictSelectionGrows(s1: Settings, s2: Settings, ck: Checkers,
                                mapModule: string -> string, cases: seq<TestCase>)
    requires Truthy(s1.moduleFilter) && Truthy(s2.moduleFilter)
    requires !Truthy(s2.moduleFilterStrict)
    requires forall m :: m in Init(s1, ck).moduleFilters ==> m in Init(s2, ck).moduleFilters
    requires !Truthy(s1.moduleFilterStrict) ==>
               forall m :: m in Init(s1, ck).moduleFilters ==>
                 ck.page(Init(s1, ck).moduleFilters, m) <= ck.page(Init(s2, ck).moduleFilters, m)
    ensures forall t :: t in ApplyFilter(Init(s1, ck), mapModule, cases) ==>
              t in ApplyFilter(Init(s2, ck), mapModule, cases)
  {
    var st1 := Init(s1, ck);
    var st2 := Init(s2, ck);
    assert st1.affectedTestCases <= st2.affectedTestCases by {
      if !Truthy(s1.moduleFilterStrict) {
        MoreQueriesMoreAffected(ck, st1.moduleFilters, st2.moduleFilters,
                                st1.affectedTestCases, st2.affectedTestCases);
      }
    }
    forall t | t in ApplyFilter(st1, mapModule, cases)
      ensures t in ApplyFilter(st2, mapModule, cases)
    {
      ApplyFilterKeepsExactlySelected(st1, mapModule, cases, t);
      ApplyFilterKeepsExactlySelected(st2, mapModule, cases, t);
    }
  }

  /* ---------------------------------------------------------------------- */
  /* A worked catalogue                                                     */
  /* ---------------------------------------------------------------------- */

  /** Three test cases of modules `A`, `B` and `C` (the module is the first
      letter of the class name); the `C` test uses a constraint of module `A`,
      which the Constraint checker reports under the backslash-prefixed name. */
  const ExampleCases: seq<TestCase> := [TestCase(0, "A1"), TestCase(1, "B2"), TestCase(2, "C3")]

  const ExampleCheckers: Checkers :=
    Checkers(m => if m == "A" then {"\\C3"} else {}, m => {}, (l, m) => {})

  function FirstLetter(className: string): string
  {
    if |className| > 0 then [className[0]] else ""
  }

  /** A single trimmed, comma-free module name parses to itself. */
  lemma ParseSingleName(name: string)
    requires IsTrimmed(name) && ',' !in name
    ensures ParseModuleFilters(name) == [name]
  {
    ExplodeSinglePiece(',', name);
    ParsedPiece(name, 0);
    TrimTrimmed(name);
  }

  /** Filtering on `A` non-strictly keeps the `A` test and the `C` test that
      references module `A`; the `B` test is dropped and order is kept. */
  lemma ExampleNonStrict()
    ensures ApplyFilter(Init(Settings(Some("A"), None), ExampleCheckers), FirstLetter, ExampleCases)
            == [TestCase(0, "A1"), TestCase(2, "C3")]
  {
    ParseSingleName("A");
    var st := Init(Settings(Some("A"), None), ExampleCheckers);
    assert st.moduleFilters == ["A"];
    assert st.affectedModules == {"A"};
    assert "\\C3" in Query(ExampleCheckers, Constraint, ["A"], "A");
    assert "\\B2" !in st.affectedTestCases;
    ExampleFilter(st, [TestCase(0, "A1"), TestCase(2, "C3")]);
  }

  /** Filtering on `A` strictly keeps only the `A` test. */
  lemma ExampleStrict()
    ensures ApplyFilter(Init(Settings(Some("A"), Some("1")), ExampleCheckers), FirstLetter, ExampleCases)
            == [TestCase(0, "A1")]
  {
    ParseSingleName("A");
    var st := Init(Settings(Some("A"), Some("1")), ExampleCheckers);
    assert st.moduleFilters == ["A"];
    assert st.affectedModules == {"A"};
    ExampleFilter(st, [TestCase(0, "A1")]);
  }

  /** Filtering the example catalogue, entry by entry. */
  lemma ExampleFilter(st: FilterState, expected: seq<TestCase>)
    requires st.moduleFilters != [] && st.affectedModules == {"A"}
    requires "\\B2" !in st.affectedTestCases
    requires expected == [TestCase(0, "A1")] + (if "\\C3" in st.affectedTestCases then [TestCase(2, "C3")] else [])
    ensures ApplyFilter(st, FirstLetter, ExampleCases) == expected
  {
    var c := ExampleCases;
    assert c[..2][..1] == [TestCase(0, "A1")];
    assert c[..2] == [TestCase(0, "A1"), TestCase(1, "B2")];
    assert FirstLetter("A1") == "A";
    assert FirstLetter("B2") == "B" && LookupKey("B2") == "\\B2";
    assert FirstLetter("C3") == "C" && LookupKey("C3") == "\\C3";
    assert Keeps(st, FirstLetter, "A1");
    assert !Keeps(st, FirstLetter, "B2");
    assert FilterCases(st, FirstLetter, c[..2][..1]) == [TestCase(0, "A1")];
    assert FilterCases(st, FirstLetter, c[..2]) == [TestCase(0, "A1")];
  }
}
