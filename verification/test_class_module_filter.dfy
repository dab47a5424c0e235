/**
 The module filter that decides which test cases of a catalogue run.

 `Init` turns the two settings (`module_filter`, a comma-separated list of
 module names, and `module_filter_strict`) into a `FilterState`: the filter
 list, the set of allowed modules and, unless strict, the set of test cases
 that the cross-module reference checkers report as affected by those
 modules. `ApplyFilter` then keeps a catalogue entry when its class belongs to
 an allowed module or its lookup key is an affected test case.
 */
module TestClassModuleFilter {
  import opened Wrappers
  import opened Php
  import opened CrossModuleReference

  /** The values of the `module_filter` and `module_filter_strict` settings,
      `None` when the variable is unset. */
  datatype Settings = Settings(moduleFilter: Option<string>, moduleFilterStrict: Option<string>)

  /** What initialisation leaves in the filter object. */
  datatype FilterState = FilterState(
    moduleFilters: seq<string>,      // the trimmed pieces of the setting, in order
    affectedModules: set<string>,    // every test case of these modules is allowed
    affectedTestCases: set<string>)  // lookup keys of individually allowed test cases

  /** A catalogue entry: its key in the catalogue and its test-case class name. */
  datatype TestCase = TestCase(index: int, className: string)

  /* ---------------------------------------------------------------------- */
  /* Initialisation                                                         */
  /* ---------------------------------------------------------------------- */

  /** The setting split on `,`, each piece trimmed. There is at least one
      piece, and no piece holds a comma or a blank at either end. */
  function ParseModuleFilters(setting: string): (filters: seq<string>)
    ensures |filters| == |Explode(',', setting)| >= 1
    ensures forall i :: 0 <= i < |filters| ==> IsTrimmed(filters[i]) && ',' !in filters[i]
    ensures forall i :: 0 <= i < |filters| ==> filters[i] == Trim(Explode(',', setting)[i])
  {
    var parts := Explode(',', setting);
    var filters := seq(|parts|, i requires 0 <= i < |parts| => Trim(parts[i]));
    assert forall i :: 0 <= i < |filters| ==> ',' !in filters[i] by {
      forall i | 0 <= i < |filters|
        ensures ',' !in filters[i]
      {
        if ',' in filters[i] {
          TrimKeepsCharacters(parts[i], ',');
        }
      }
    }
    filters
  }

  /** `array_flip` of the filter list, used as a set of allowed modules. */
  function Flip(filters: seq<string>): set<string>
  {
    set m | m in filters
  }

  /**
   The filter's `init`. A falsy `module_filter` leaves the filter list empty.
   Otherwise the list is the parsed setting, the allowed modules are its
   elements, and the affected test cases are empty in strict mode and
   otherwise the union of what every checker reports for every filter module.
   */
  function Init(settings: Settings, ck: Checkers): (st: FilterState)
    ensures st.moduleFilters == [] <==> !Truthy(settings.moduleFilter)
    ensures Truthy(settings.moduleFilter) ==> st.moduleFilters == ParseModuleFilters(settings.moduleFilter.value)
    ensures forall m :: m in st.affectedModules <==> m in st.moduleFilters
    ensures Truthy(settings.moduleFilterStrict) ==> st.affectedTestCases == {}
    ensures !Truthy(settings.moduleFilterStrict) ==>
              forall key :: key in st.affectedTestCases <==> AnyCheckerReports(ck, st.moduleFilters, key)
  {
    if !Truthy(settings.moduleFilter) then
      FilterState([], {}, {})
    else
      var filters := ParseModuleFilters(settings.moduleFilter.value);
      if filters == [] then
        FilterState(filters, {}, {})
      else
        var allowed := Flip(filters);
        if Truthy(settings.moduleFilterStrict) then
          FilterState(filters, allowed, {})
        else
          EveryKindConsulted(ck, filters, Gather(ck, filters, CheckerOrder, filters));
          FilterState(filters, allowed, Gather(ck, filters, CheckerOrder, filters))
  }

  /* ---------------------------------------------------------------------- */
  /* Selection                                                              */
  /* ---------------------------------------------------------------------- */

  /**
   The key a test case is looked up under among the affected test cases.
   The guard meant to prepend a backslash only when missing asks for the
   position of the class name inside the one-character string `\`; that
   position is `false` or `0`, so its negation always holds and the key is
   always the class name with one more backslash in front.
   */
  function LookupKey(className: string): (key: string)
    ensures key == "\\" + className
  {
    StrposInOneCharIsFalsy("\\", className);
    if Falsy(Strpos("\\", className)) then "\\" + className else className
  }

  /** The keep decision for one class once filtering is active:
      `mapModule` is the module resolver. */
  predicate Keeps(st: FilterState, mapModule: string -> string, className: string)
  {
    mapModule(className) in st.affectedModules || LookupKey(className) in st.affectedTestCases
  }

  /** Whether `applyFilter` keeps the entry `t` in state `st`. */
  predicate Selected(st: FilterState, mapModule: string -> string, t: TestCase)
  {
    st.moduleFilters == [] || Keeps(st, mapModule, t.className)
  }

  /** The loop of `applyFilter`: visit the entries in order and unset those
      not kept. */
  function FilterCases(st: FilterState, mapModule: string -> string, cases: seq<TestCase>): (kept: seq<TestCase>)
    ensures |kept| <= |cases|
    ensures forall t :: t in kept <==> t in cases && Keeps(st, mapModule, t.className)
  {
    if |cases| == 0 then []
    else
      var prefix := cases[..|cases| - 1];
      var last := cases[|cases| - 1];
      assert forall t :: t in cases <==> t in prefix || t == last;
      if Keeps(st, mapModule, last.className) then FilterCases(st, mapModule, prefix) + [last]
      else FilterCases(st, mapModule, prefix)
  }

  /** `applyFilter`: the catalogue unchanged when the filter list is empty,
      otherwise the entries that are kept. */
  function ApplyFilter(st: FilterState, mapModule: string -> string, cases: seq<TestCase>): (kept: seq<TestCase>)
    ensures st.moduleFilters == [] ==> kept == cases
    ensures |kept| <= |cases|
  {
    if st.moduleFilters == [] then cases else FilterCases(st, mapModule, cases)
  }

  /** The entries `applyFilter` returns are exactly the selected entries of
      the catalogue. */
  lemma ApplyFilterKeepsExactlySelected(st: FilterState, mapModule: string -> string,
                                        cases: seq<TestCase>, t: TestCase)
    ensures t in ApplyFilter(st, mapModule, cases) <==> t in cases && Selected(st, mapModule, t)
  {
  }
}
