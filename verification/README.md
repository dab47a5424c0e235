# Module-scoped test selection filter

This project models the test-case module filter of the functional testing
framework (`Mtf\Util\TestClassModuleFilter`) in Dafny and proves properties of
the model.

The filter reads two settings:

- `module_filter`: a comma-separated list of module names.
- `module_filter_strict`: a flag.

`init` turns the settings into a filter state:

- The filter list is the setting split on `,`, with each piece trimmed.
- The allowed modules are the names in that list.
- Unless strict mode is on, the affected test cases are the union of what the
  Constraint, TestStep and Page cross-module reference checkers report for
  every filter module.

`applyFilter` then walks the test-case catalogue. It keeps an entry when the
entry's class belongs to an allowed module, or when its lookup key is an
affected test case. It drops every other entry.

Layout:

- `wrappers.dfy` (`Wrappers`): `Option`. It stands for PHP's `false` returned by
  `getenv` and `strpos`.
- `php.dfy` (`Php`): the PHP builtins the filter relies on, modelled on strings.
  These are truthiness of a string-or-false value, `trim` with its default
  character list, `explode` with a one-character delimiter (and `implode`, its
  inverse, used to state the round trip), and
  `strpos` with `!` applied to its result.
- `cross_module_reference.dfy` (`CrossModuleReference`): the three checkers as
  abstract query functions, and the merge of their answers. This file holds
  both the functional `Gather` and the loop `CollectAffected` that mirrors
  `init`'s nested loops.
- `test_class_module_filter.dfy` (`TestClassModuleFilter`): `Settings`,
  `FilterState`, `TestCase`, `Init`, `LookupKey` and `ApplyFilter`.
- `subsequences.dfy` (`Subsequences`): a generic order-preserving filter and the
  positions it reads.
- `module_filter_properties.dfy` (`ModuleFilterProperties`): the properties of
  the filter, plus a worked three-entry catalogue.

Modelling choices:

- The environment is not read. The two settings are `Option<string>` inputs,
  and `None` means the variable is unset.
- `mapClassNameToModule` is inherited from the cross-module reference base
  class, which is not part of this model. It becomes a parameter
  `mapModule: string -> string`.
- The checkers' `getCrossModuleReference` queries become the fields of a
  `Checkers` value:
  - Constraint and TestStep are functions of the module.
  - Page is a function of the whole filter list and the module, because the
    Page checker is built with that list.
- The checkers' results and the affected set are sets of string keys. A key's
  presence is what `isset` tests.
- A catalogue is a sequence of `(index, className)` entries. Entries keep their
  index, because `unset` leaves the other keys alone.

Behaviour of the code a reader might not expect.
The model follows the code in each case:

- The lookup key is always the class name with one backslash prepended. The
  guard at line 88 passes its arguments to `strpos` in the wrong order, so it
  asks where the class name occurs inside the one-character string `\`. That
  answer is `false` or `0`, so the negation always holds. A class name that
  already starts with a backslash is therefore looked up with two backslashes
  and never matches a checker's answer that names it as written
  (`LeadingBackslashIsDoubled`).
- Any strict-flag value other than unset, `""` or `"0"` turns strict mode on.
  An unrecognised value is not reported as an error.
- A non-empty setting of blanks only (`" "`, `"\t"`, `"  "`, …) is truthy. Filtering is then ON, with the
  single module name `""`; it is not disabled (`BlankSettingFiltersOnEmptyName`).
  By contrast, `"0"` disables filtering even though it could name a module.
- The second emptiness test in `init` (lines 117-119) can never fire.
  `explode` always yields at least one piece (`Php.Explode`).
- The affected set is not claimed to grow when modules are added. The Page
  checker sees the whole list, so its answers for the same module may differ
  between lists. Growth and duplicate-insensitivity are proved for strict mode
  (`StrictSelectionMonotone`, `SameModulesSameSelection`). Non-strict mode gets
  each only under an explicit hypothesis about the Page checker: equal answers
  for duplicate-insensitivity (`SameModulesSameSelection`), and answers that
  only grow for growth (`NonStrictSelectionGrows`).

## Model

| member | source | states |
|---|---|---|
| Php.Truthy | Mtf/Util/TestClassModuleFilter.php:111-124 | a `getenv` value is truthy exactly when it is set and is neither `""` nor `"0"`; `empty` at line 111 is its negation and the strict test at line 124 is the value itself |
| Php.Trim | Mtf/Util/TestClassModuleFilter.php:115 | each filter piece is trimmed: the result has no blank at either end and is the slice of the piece between its leading and trailing blanks, which are blanks only |
| Php.TrimIdempotent | Mtf/Util/TestClassModuleFilter.php:115 | trimming an already trimmed piece changes nothing |
| Php.Explode | Mtf/Util/TestClassModuleFilter.php:115 | splitting the setting on `,` yields at least one piece and no piece contains a comma |
| Php.ImplodeExplode | Mtf/Util/TestClassModuleFilter.php:115 | joining the pieces with `,` gives back the setting exactly |
| Php.ExplodeImplode | Mtf/Util/TestClassModuleFilter.php:115 | comma-free pieces joined with `,` split back into the same pieces |
| Php.Strpos | Mtf/Util/TestClassModuleFilter.php:88 | `strpos` answers the first offset where the needle occurs, and `false` when it occurs nowhere or is empty |
| TestClassModuleFilter.ParseModuleFilters | Mtf/Util/TestClassModuleFilter.php:115 | the filter list has one entry per comma-separated piece (at least one), in order; entry i is piece i trimmed, hence trimmed and comma-free |
| TestClassModuleFilter.Init | Mtf/Util/TestClassModuleFilter.php:107-152 | the filter list is empty exactly when the setting is unset, `""` or `"0"`, and otherwise is the parsed setting; the allowed modules are exactly the listed names; strict mode leaves no affected test cases; otherwise a key is affected exactly when some checker reports it for some filter module |
| TestClassModuleFilter.Flip | Mtf/Util/TestClassModuleFilter.php:121 | `array_flip` of the filter list, read only through `isset`, is the set of the listed names, repeated names collapsing into one key (`FlipCollapsesDuplicates`) |
| TestClassModuleFilter.Keeps | Mtf/Util/TestClassModuleFilter.php:91-97 | once filtering is active an entry is kept when its class's module is an allowed module or its lookup key is an affected test case, and unset otherwise |
| TestClassModuleFilter.LookupKey | Mtf/Util/TestClassModuleFilter.php:87-90 | because of the swapped `strpos` arguments the guard always holds, so the key is always the class name with one backslash in front |
| TestClassModuleFilter.FilterCases | Mtf/Util/TestClassModuleFilter.php:85-98 | the loop never lengthens the catalogue and keeps exactly the entries whose module is allowed or whose lookup key is affected |
| TestClassModuleFilter.ApplyFilter | Mtf/Util/TestClassModuleFilter.php:79-100 | an empty filter list returns the catalogue unchanged; the result is never longer than the catalogue |
| TestClassModuleFilter.ApplyFilterKeepsExactlySelected | Mtf/Util/TestClassModuleFilter.php:81-99 | an entry is in the result exactly when it is in the catalogue and filtering is off or the entry is kept |
| CrossModuleReference.GatherModulesMembership | Mtf/Util/TestClassModuleFilter.php:147-150 | merging one checker's answers over the modules yields exactly the keys it reports for some module |
| CrossModuleReference.AnyCheckerReports | Mtf/Util/TestClassModuleFilter.php:141-151 | some checker of the three kinds, asked about some module of the filter list, reports the key: the meaning of an affected test case |
| CrossModuleReference.GatherMembership | Mtf/Util/TestClassModuleFilter.php:141-151 | merging over checkers and modules yields exactly the keys some checker reports for some module |
| CrossModuleReference.GatherOrderIrrelevant | Mtf/Util/TestClassModuleFilter.php:141-151 | the merged key set depends only on which checkers and modules are visited, not on their order or repetition |
| CrossModuleReference.EveryKindConsulted | Mtf/Util/TestClassModuleFilter.php:141-145 | the checker list covers all three checkers, so the merge holds exactly the keys any checker reports for a filter module |
| CrossModuleReference.CollectAffected | Mtf/Util/TestClassModuleFilter.php:141-151 | the nested loops merge exactly the keys some checker reports for some filter module, and agree with the functional merge |
| ModuleFilterProperties.FalsySettingKeepsCatalogue | Mtf/Util/TestClassModuleFilter.php:109-113 | an unset, `""` or `"0"` module filter returns every catalogue unchanged in both modes |
| ModuleFilterProperties.AllowedModulesAreThePieces | Mtf/Util/TestClassModuleFilter.php:115-121 | a truthy setting gives one filter per piece, and the allowed modules are exactly the trimmed pieces |
| ModuleFilterProperties.BlankSettingFiltersOnEmptyName | Mtf/Util/TestClassModuleFilter.php:111-115 | every non-empty setting made only of blanks is truthy and filters on the single name `""` |
| ModuleFilterProperties.FlipCollapsesDuplicates | Mtf/Util/TestClassModuleFilter.php:121 | the allowed-module set is never larger than the filter list, and is as large exactly when no name repeats |
| ModuleFilterProperties.ParseSingleName | Mtf/Util/TestClassModuleFilter.php:115 | a single trimmed, comma-free name parses to the one-entry list of itself |
| ModuleFilterProperties.ParseJoinedNames | Mtf/Util/TestClassModuleFilter.php:115 | trimmed comma-free names joined with `,` (if truthy) parse back to the same list |
| ModuleFilterProperties.JoinParsedFilters | Mtf/Util/TestClassModuleFilter.php:115 | a setting without blanks around its pieces is restored by joining its filter list with `,` |
| ModuleFilterProperties.AffectedSetOrderIndependent | Mtf/Util/TestClassModuleFilter.php:141-151 | the affected set equals the merge in any visiting order of all checkers and the filter modules |
| ModuleFilterProperties.StrictSelection | Mtf/Util/TestClassModuleFilter.php:123-126 | in strict mode the affected set is empty and an entry survives exactly when its module is in the filter list |
| ModuleFilterProperties.NonStrictSelection | Mtf/Util/TestClassModuleFilter.php:88-97 | in non-strict mode an entry survives exactly when its module is listed or some checker reports its backslash-prefixed class for some filter module |
| ModuleFilterProperties.AllowedModuleAlwaysKept | Mtf/Util/TestClassModuleFilter.php:91-92 | an entry whose module is listed is kept in both modes |
| ModuleFilterProperties.LeadingBackslashIsDoubled | Mtf/Util/TestClassModuleFilter.php:87-93 | a class already starting with a backslash is looked up with two, and is kept exactly when its module is allowed or the doubled key is affected, so an affected entry naming it as written does not keep it |
| ModuleFilterProperties.FilterCasesIsFilter | Mtf/Util/TestClassModuleFilter.php:85-98 | the loop is an order-preserving filter deciding each entry by itself |
| ModuleFilterProperties.ApplyFilterIsFilter | Mtf/Util/TestClassModuleFilter.php:81-99 | the result is the catalogue filtered, in order, by the keep decision |
| ModuleFilterProperties.ApplyFilterIdempotent | Mtf/Util/TestClassModuleFilter.php:85-98 | filtering the result again with the same state returns it unchanged |
| ModuleFilterProperties.SurvivingPositions | Mtf/Util/TestClassModuleFilter.php:85-99 | the result is the catalogue read at strictly increasing positions, and these are exactly the positions of kept entries: nothing is added, duplicated or reordered |
| ModuleFilterProperties.FilterCasesCongruent | Mtf/Util/TestClassModuleFilter.php:91-97 | the loop depends only on the allowed modules and the affected set |
| ModuleFilterProperties.SameQueriesSameAffected | Mtf/Util/TestClassModuleFilter.php:133-151 | filter lists naming the same modules give the same affected set when the Page checker answers alike for both |
| ModuleFilterProperties.SameModulesSameSelection | Mtf/Util/TestClassModuleFilter.php:121-151 | settings naming the same modules (such as `moduleA,moduleA` and `moduleA`) select the same entries in strict mode, and in non-strict mode when the Page checker answers alike |
| ModuleFilterProperties.MoreQueriesMoreAffected | Mtf/Util/TestClassModuleFilter.php:133-151 | a filter list naming at least the modules of another gives a superset of affected test cases when the Page checker reports at least as much for each of the smaller list's modules |
| ModuleFilterProperties.NonStrictSelectionGrows | Mtf/Util/TestClassModuleFilter.php:121-151 | with the later setting non-strict, naming more modules keeps every entry kept before, provided the Page checker's answers grow with the list |
| ModuleFilterProperties.StrictSelectionMonotone | Mtf/Util/TestClassModuleFilter.php:121-126 | in strict mode, listing more modules only keeps more entries |
| ModuleFilterProperties.ExampleNonStrict | Mtf/Util/TestClassModuleFilter.php:79-100 | on a three-entry catalogue where the `C` test uses a constraint of `A`, filtering on `A` keeps the `A` and `C` tests in order |
| ModuleFilterProperties.ExampleStrict | Mtf/Util/TestClassModuleFilter.php:123-126 | on the same catalogue, strict filtering on `A` keeps only the `A` test |

## Left out

- `Mtf/Client/Driver/Selenium/Element/SelectElement.php`: browser-driver plumbing over remote elements and XPath, not selection logic.
- `Mtf/App/State/StateFactory.php`: object construction through the object manager, with a type check; it holds no selection logic.
- Reading the environment (`getenv`, lines 109-110): the two settings are inputs.
- Building the checkers through the object manager (lines 128-139): the checkers are given as functions. The Page checker's dependence on the Constraint checker is folded into its abstract query.
- The internals of `mapClassNameToModule` and of the three checkers: their source is not part of this model, so they stay abstract. Any error they raise is not modelled either.
- `isset` on a present key whose value is `null`, and `array_merge` renumbering integer keys: checker results and the affected set are modelled as sets of string keys.
- The one-time initialisation in the constructor (line 70): `Init` is a function, and `ApplyFilter` takes its result, so every call sees the same state.
- PHP's warning for an empty `strpos` needle: only its `false` result is modelled.
- TestClassModuleFilter.ApplyFilter: catalogue keys are modelled as the `int` index carried by each entry, not as PHP's general int-or-string array keys.
- Non-strict growth of the affected set when modules are added is not claimed unconditionally, because the Page checker sees the whole module list; it is proved only when the Page checker's answers grow with the list (`NonStrictSelectionGrows`).
- PHP strings are byte strings, while a Dafny `string` is a sequence of characters: `trim`'s character set, the `,` delimiter and the one-character `strpos` haystack are all ASCII, so on UTF-8 input the model agrees with PHP's byte-level behaviour.
