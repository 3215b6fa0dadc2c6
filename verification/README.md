# Verified model of the SELinux policy compiler, its access vector cache and the image tools

This project models, in Dafny, the algorithmic parts of the repository and proves what they
compute. Four groups and two small ones:

- **What a policy grants.** `Policy` defines one meaning: which permissions a rule list over
  types and attributes grants to a concrete source, target and class, under an assignment to
  the conditionals. `TypeMaps` builds the map from attributes to types. `Expand` rewrites the
  rule table to concrete types, and `ExpandMeaning` says what that keeps. `Assertion` decides
  and reports neverallow rules, `AssertionXperms` those on ioctl numbers. `Hierarchy`, `Bounds`
  and `BoundsRecords` decide whether a child type stays inside its parent, and what is
  recorded when it does not. All of them are proved against that meaning. `Avtab` is the hash
  table underneath.
- **Linking and conditionals.** `Linker` is the sweep that finds the enabled blocks,
  `RoleAttributes` the restart loop that flattens role attributes. `CondExpr` evaluates
  postfix expressions, `CondNormalize` normalises and compares them, `CondState` keeps the
  rules in step with the booleans, `CondToCil` translates the expressions, and `CilMeaning`
  reads the texts back.
- **Data structures and texts.** `Ebitmap` is the sparse bitmap; `MlsRuns`, `MlsPrint` and
  `MlsParse` are the printer, length calculator and parser of sensitivity ranges.
- **The userspace cache.** `Avc`, with its node pool, reclaim and revocation.
- **Images.** `BootImage` repacks and extracts, `BootBytes` looks at the bytes, and `Crc` (with
  `CrcWords`) is the checksum.

Code that works on state is written as methods on classes or arrays and proved against
functions on values; the properties are lemmas about those functions.

Conventions. A 32-bit access vector, a 64-bit bitmap word, a specifier and a truth table are
the sets of their set bits. Counters that cannot wrap in practice are unbounded. Hash
functions are arbitrary functions into the bucket range. The order in which a table presents
its entries is an arbitrary sequence. Where the code calls something outside (the security
server, the file system), its answer is a parameter.

Some results show where the code does less than one might expect:

- An entry whose branch is enabled at the time of the check escapes neverallow rules
  (`Assertion.MarkedEntryEscapes`); the compiler evaluates the conditionals just before
  (jni/libsepol-N/src/expand.c:3119-3121). `Assertion.CheckIsExact` gives the exact condition.
- A neverallow rule with self and other targets as well is checked for self alone
  (`Assertion.SelfRuleMisses`, `Assertion.RuleIsExact`), although such a rule means both
  (jni/libsepol-N/src/expand.c:1893-1918, jni/libsepol-N/src/module_to_cil.c:1083-1098) and
  both are kept for it (jni/libsepol-N/src/expand.c:2594-2680). The report for a rule with
  self may name pairs of other types and leave violations out (`Assertion.SelfReportExact`).
- The check of ioctl numbers lets the last pair of attributes overwrite what earlier pairs
  have found (`AssertionXperms.PairIsExact`, `AssertionXperms.OverwrittenExample`). The
  report would find it in the same table (`AssertionXperms.ReportPairIsRight`), but is only
  asked for when the check has found something (jni/libsepol-N/src/assertion.c:541-549), and
  is never told which table: report_assertion_failures leaves `args.avtab` unset
  (jni/libsepol-N/src/assertion.c:295-309), so that for ioctl rules the search at line 168
  goes through an indeterminate pointer. In the model the table is a parameter.
- The entries of conditional rules are looked up in the conditional table, which has no ioctl
  rules, so that no ioctl rule clears them (`AssertionXperms.SilentTableFlags`).
- The bounds check compares permission sets as wholes (`Bounds.SplitGrantIsRecorded`).
- Comparing conditionals by truth table relies on the order in which the booleans were
  recorded, which is not compared (`CondNormalize.OrderDecides`, `CondNormalize.OrderExample`).
- Normalising a list that is not the postfix of one tree may select the other branch
  (`CondNormalize.NormalizeKeepsChoice` says exactly when).
- A category set with an absent 64-bit word inside a run is printed wrongly
  (`MlsRuns.ItemsFaithful` says exactly when, `MlsParse.AbsentWordExample` shows one).
- The range parser accepts a third level and ignores it (jni/libsepol-N/src/mls.c:424-434,
  modelled in `MlsParse.Parse`).
- A device tree of a kind the extractor does not know is packed but not unpacked
  (`BootImage.RoundTrip`).
- Positions behind the header are compared with the size of the whole file, so that a device
  tree that is cut off may pass in an image that lies behind other bytes
  (`BootBytes.ExtractBehind` says exactly when).

## Model

| member | source | states |
|---|---|---|
| TypeMaps.BuildMaps | jni/libsepol-N/src/expand.c:3133-3150 | after all table entries, in any order, every index holds the types behind it and every type the attributes that list it |
| TypeMaps.Maps.AddType | jni/libsepol-N/src/expand.c:2309-2345 | one table entry carries both maps from the first n entries to the first n + 1 |
| TypeMaps.BuiltIsValid | jni/libsepol-N/src/expand.c:2309-2345 | the finished map is well formed: an individual type stands for itself alone, an attribute for individual types |
| TypeMaps.MapsAreInverse | jni/libsepol-N/src/expand.c:2309-2345 | the two maps are inverse relations, except that every index is its own attribute |
| TypeMaps.BuiltMeans | jni/libsepol-N/src/expand.c:2309-2345 | an attribute stands for just the types it lists, each of which lists it, and a type for itself |
| Expand.FindRule | jni/libsepol-N/src/expand.c:3180-3199 | finds the first node for the same triple and an overlapping specifier, Enabled marks masked off, with the same kind and driver for extended permissions; nothing exactly when there is none |
| Expand.ExpandAvtabInsert | jni/libsepol-N/src/expand.c:3171-3230 | a rule that is absent, or present under another Enabled mark, gets a node of its own; a present one takes the datum in, a type rule is refused; without marks the table stays in agreement with the map from identities to data |
| Expand.Accumulate | jni/libsepol-N/src/expand.c:3210-3227 | whatever the mark, allow and auditallow data are united, auditdeny intersected, extended permission sets united; a type rule has no merge |
| Expand.ExpandAvtabNode | jni/libsepol-N/src/expand.c:3239-3305 | one entry yields exactly one instance per pair of a source and a target behind it, and stops only at a conflict of type rules |
| Expand.ExpandAvtab | jni/libsepol-N/src/expand.c:3307-3319 | fails exactly when two instances give the same type rule; otherwise the new table holds one entry per concrete rule, with the union (for auditdeny the intersection) of all entries whose type sets contain it, a type rule with the datum of its source |
| Expand.TypeRuleHasOneSource | jni/libsepol-N/src/expand.c:3224-3227 | two source entries that yield the same type rule make the expansion fail |
| Expand.MergedKeys | jni/libsepol-N/src/expand.c:3201-3227 | after any series of inserts the entries present are exactly those inserted |
| Expand.MergedData | jni/libsepol-N/src/expand.c:3210-3227 | after any series of inserts each entry is the union (auditdeny: the intersection) of what was inserted under its identity |
| Expand.MergedTypeDatum | jni/libsepol-N/src/expand.c:3201-3227 | a type rule keeps the datum it was inserted with |
| Expand.NoTypeRuleTwice | jni/libsepol-N/src/expand.c:3224-3227 | a series of inserts that went through contains no type rule twice |
| Expand.NodesAreRules | jni/libsepol-N/src/expand.c:3307-3319 | the nodes of the new table are exactly the entries of the map, each once |
| Expand.ExpansionPreservesGrants | jni/libsepol-N/src/expand.c:3307-3319 | for every concrete source, target, class and permission the new table grants it exactly when the old one did |
| ExpandMeaning.ExpansionKeepsNumbers | jni/libsepol-N/src/expand.c:3180-3219 | for allowxperm, auditallowxperm and dontauditxperm rules alike, every kind of block, driver and number: an entry of the new table holds it for a source, target and class exactly when some rule that covers them does |
| ExpandMeaning.ExpansionKeepsVectors | jni/libsepol-N/src/expand.c:3210-3219 | for allow and auditallow the one entry has what some covering rule has, for auditdeny what all of them have; there is an entry exactly when some rule covers |
| ExpandMeaning.ExpansionKeepsTypes | jni/libsepol-N/src/expand.c:3220-3227 | the entries for transition, member and change rules have the data of the covering rules |
| Expand.ExpansionIgnoresOrder | jni/libsepol-N/src/expand.c:3307-3319 | two tables with the same entries in any bucket order expand to the same data, type rules included |
| Assertion.MatchAnyClassPermissions | jni/libsepol-N/src/assertion.c:65-76 | true exactly when some permission node has the class and shares a permission |
| Assertion.CheckAssertionAvtabMatch | jni/libsepol-N/src/assertion.c:450-501 | an entry is flagged exactly when it is an allow entry without Enabled mark that grants some concrete source, target, class and permission that is looked for |
| Assertion.CheckAssertion | jni/libsepol-N/src/assertion.c:503-522 | over both tables a rule is flagged exactly when one of their entries is |
| Assertion.CheckIsExact | jni/libsepol-N/src/assertion.c:450-522 | table by table: the check is right about every rule without self, and about every rule whose targets self covers, if and only if every grant is made by an entry without an Enabled mark |
| Assertion.RuleIsExact | jni/libsepol-N/src/assertion.c:464-482 | rule by rule: a rule over individual types is judged rightly on all unmarked tables if and only if it has no self, or no source has a listed target other than itself |
| Assertion.SelfRuleMisses | jni/libsepol-N/src/assertion.c:468-479 | a rule with self and another target lets an allow rule to that target pass |
| Assertion.FlaggedIsViolated | jni/libsepol-N/src/assertion.c:450-522 | what is flagged is a violation, for every rule and table |
| Assertion.UnmarkedCheckIsExact | jni/libsepol-N/src/assertion.c:450-522 | without Enabled marks a rule whose targets self covers is flagged exactly when the policy violates it |
| Assertion.MarkedEntryEscapes | jni/libsepol-N/src/assertion.c:458-459 | a violating conditional entry whose branch is enabled is not flagged |
| Assertion.CheckAgreesOnExpansion | jni/libsepol-N/src/assertion.c:503-522 | on the expanded table the answer is the same, and so is what it should be |
| Assertion.GrantsUnderSome | jni/libsepol-N/src/assertion.c:503-522 | what the two tables together grant is what the policy grants under some assignment to its conditionals |
| Assertion.FlaggedUnderSome | jni/libsepol-N/src/assertion.c:503-522 | over both tables without marks a rule is flagged exactly when some assignment makes the policy violate it |
| Assertion.ReportAssertionAvtabMatches | jni/libsepol-N/src/assertion.c:211-293 | the failures printed for an entry are the tuples of a violated permission node, a matching source and a matching target, each once |
| Assertion.ReportAssertionFailures | jni/libsepol-N/src/assertion.c:295-321 | the errors returned are as many as the failures printed, which are those of all entries of both tables |
| Assertion.ReportAgreesWithCheck | jni/libsepol-N/src/assertion.c:211-321 | over both tables the report finds an error exactly when the check flags the rule |
| Assertion.ReportedIsViolation | jni/libsepol-N/src/assertion.c:259-276 | which reported tuples are violations, and which violations are reported: for a rule with self the two sets may differ either way |
| Assertion.ReportCountsViolations | jni/libsepol-N/src/assertion.c:259-276 | for a rule without self the failures printed are exactly the violations, and as many |
| Assertion.SelfReportExact | jni/libsepol-N/src/assertion.c:243-276 | for a rule with self the failures printed are the violations if and only if, at each violated entry, the listed targets are matching sources and either all reported targets are listed or there is a single source |
| Assertion.SelfReportCount | jni/libsepol-N/src/assertion.c:243-276 | if self covers the targets, at least the violations are counted, and the count is right if and only if the report is exact |
| AssertionXperms.CheckDecides | jni/libsepol-N/src/assertion.c:88-107 | the test of two blocks finds a shared ioctl number whenever there is one, and on blocks that are not empty only then |
| AssertionXperms.ExtendedPermissionsViolated | jni/libsepol-N/src/assertion.c:109-137 | the block printed for a violation holds exactly the numbers both blocks hold |
| AssertionXperms.BuiltAttrsFit | jni/libsepol-N/src/expand.c:2309-2345 | the map from types to attributes built from the type table is the one the lookups need |
| AssertionXperms.CheckExtendedPermissionsAvtab | jni/libsepol-N/src/assertion.c:323-364 | for a source and a target the last pair of attributes that has ioctl rules decides; without any the answer is a violation |
| AssertionXperms.LookupMeaning | jni/libsepol-N/src/assertion.c:366-381 | no rule found, or some rule caught: that is just when a number the rule is about is permitted |
| AssertionXperms.PairIsExact | jni/libsepol-N/src/assertion.c:323-364 | the answer for a source and a target is right if and only if no later pair of attributes overwrites one that was caught |
| AssertionXperms.CheckAssertionExtendedPermissions | jni/libsepol-N/src/assertion.c:382-448 | an entry found by the plain check stays flagged exactly when some matching source and target are not cleared |
| AssertionXperms.CheckXpermsAvtabMatch | jni/libsepol-N/src/assertion.c:450-501 | an entry is flagged exactly when the plain check finds it and the lookups do not clear it |
| AssertionXperms.CheckXpermsAssertion | jni/libsepol-N/src/assertion.c:503-522 | a rule is flagged exactly when some entry is, looked up in the table it stands in |
| AssertionXperms.XpermsCheckIsExact | jni/libsepol-N/src/assertion.c:323-501 | over an unmarked table the check is right about all rules without self on these ioctls if and only if no answer about a granted source, target and class is overwritten |
| AssertionXperms.XpermsSelfIsExact | jni/libsepol-N/src/assertion.c:323-501 | the check is right about all rules with self that covers their targets if and only if no answer about a type and itself is overwritten and what is found for two sources of an entry is violated by one of them on itself |
| AssertionXperms.XpermsAnySelfIsExact | jni/libsepol-N/src/assertion.c:323-501 | it is right about all rules with self if and only if, besides, every source violated on some target is violated on itself |
| AssertionXperms.OverwrittenEscapes | jni/libsepol-N/src/assertion.c:343-361 | each overwritten answer lets a violation pass |
| AssertionXperms.OverwrittenExample | jni/libsepol-N/src/assertion.c:343-361 | a policy of three rules in which that happens |
| AssertionXperms.ExpandedXpermsExact | jni/libsepol-N/src/assertion.c:323-501 | when the ioctl rules are between individual types the check is right about rules without self |
| AssertionXperms.ExpandedSelfExact | jni/libsepol-N/src/assertion.c:323-501 | and about rules with self exactly when different sources of an entry, and targets listed besides, make no difference |
| AssertionXperms.SilentTableFlags | jni/libsepol-N/src/assertion.c:503-519 | in a table without ioctl rules every entry the plain check finds stays flagged, whatever the other table permits |
| AssertionXperms.ReportExtendedPermissions | jni/libsepol-N/src/assertion.c:139-209 | for a source and a target one failure is counted for each block that is caught, or a single one if there is no block |
| AssertionXperms.ReportPairIsRight | jni/libsepol-N/src/assertion.c:139-209 | given the table, the report, which counts instead of overwriting, finds something exactly when there is a violation |
| AssertionXperms.ReportXpermsAvtabMatches | jni/libsepol-N/src/assertion.c:211-293 | given the table, the errors of an entry are the sum over the pairs of the plain report, each pair once |
| AssertionXperms.ReportEntryIsRight | jni/libsepol-N/src/assertion.c:211-293 | they are none exactly when no pair violates the rule |
| Hierarchy.OrInto | jni/libsepol-N/src/hierarchy.c:42-54 | the table comes to cover exactly the given permissions more for the given triple |
| Hierarchy.BoundsInsertRule | jni/libsepol-N/src/hierarchy.c:56-95 | the branch table gains the rule, and the global table gains what both branches now have of it |
| Hierarchy.BoundsExpandRule | jni/libsepol-N/src/hierarchy.c:97-138 | the tables gain the rule for every type behind its other side, as source and as target |
| Hierarchy.BoundsExpandCondRules | jni/libsepol-N/src/hierarchy.c:140-157 | the tables gain all rules of a branch, whatever their specifier |
| Hierarchy.BoundsExpandParentRules | jni/libsepol-N/src/hierarchy.c:199-259 | the global table covers the unconditional gains of the parent and what both branches of each conditional give it; each branch table covers its own branch |
| Hierarchy.BoundsNotCovered | jni/libsepol-N/src/hierarchy.c:261-274 | what is left after the current and the global table have been taken away |
| Hierarchy.BoundsCheckRule | jni/libsepol-N/src/hierarchy.c:295-360 | records one leftover for each type that is covered neither on itself nor on its bound |
| Hierarchy.BoundsCheckCondRules | jni/libsepol-N/src/hierarchy.c:362-387 | records the leftovers of the allow rules of one branch |
| Hierarchy.BoundsCheckChildRules | jni/libsepol-N/src/hierarchy.c:411-451 | records the leftovers of the unconditional rules and of all branches, in the order of the code |
| Hierarchy.BoundsCheckType | jni/libsepol-N/src/hierarchy.c:453-471 | what is recorded, and its number, is the list of leftovers against the parent tables |
| BoundsRecords.RecordsAreMissing | jni/libsepol-N/src/hierarchy.c:295-471 | a record names exactly a rule of the child in force always or in a branch, its source, target and class, and the permissions the parent does not always have on the bound of the other type or, if that has none, on the type |
| Bounds.CoverageIsAlways | jni/libsepol-N/src/hierarchy.c:199-274 | the two tables consulted for a branch hold exactly what the parent is granted under every assignment that selects the branch |
| Bounds.BoundsExact | jni/libsepol-N/src/hierarchy.c:295-451 | nothing is recorded if and only if, for each rule of the child, the parent always has all its permissions on the type or all of them on the bound of the type |
| Bounds.BoundsSoundAsSource | jni/libsepol-N/src/hierarchy.c:295-451 | when nothing is recorded, under every assignment whatever the child may do to a type the parent may do to it or to its bound |
| Bounds.BoundsSoundAsTarget | jni/libsepol-N/src/hierarchy.c:295-360 | the same with the child as target |
| Bounds.SplitGrantIsRecorded | jni/libsepol-N/src/hierarchy.c:295-360 | permissions split between a type and its bound are recorded although each of them is bounded |
| Bounds.AuditRuleIsCounted | jni/libsepol-N/src/hierarchy.c:140-157 | why the lists must hold allow rules: an auditallow rule of the parent counts as if it allowed |
| Avtab.InsertKeepsSorted | jni/libsepol-N/src/avtab.c:135-210 | a chain in order of source, target and class stays so when a node is put at its insert position |
| Avtab.InsertPositionBounds | jni/libsepol-N/src/avtab.c:150-166 | at the insert position nothing before is greater, nothing after is less, and a match can only be there |
| Avtab.AllMatchesExact | jni/libsepol-N/src/avtab.c:278-304 | the enumerated positions are all the matching ones, each once, in order |
| Avtab.TogglingChangesNoSearch | jni/libsepol-N/src/avtab.c:226-240 | turning Enabled bits on or off, in the key or in the table, changes no search |
| Avtab.Table.SearchNode | jni/libsepol-N/src/avtab.c:247-276 | the search that stops early finds what a scan of everything would, and nothing only if no node of the table matches |
| Avtab.Table.SearchNodeNext | jni/libsepol-N/src/avtab.c:278-304 | the continued search finds the next match after a node |
| Avtab.Table.Enumerate | jni/libsepol-N/src/avtab.c:247-304 | search and repeated search-next give exactly the matching nodes |
| Avtab.Table.Insert | jni/libsepol-N/src/avtab.c:135-172 | refused exactly when a node with an overlapping key is present and the rule is not an extended one, or the table is not allocated; otherwise the node goes to its position |
| Avtab.Table.InsertNonunique | jni/libsepol-N/src/avtab.c:179-210 | inserts next to matching nodes, and fails only on a table not allocated |
| Avtab.MatchesMeans | jni/libsepol-N/src/avtab.c:226-240 | a node matches a key of the same source, target and class that shares a flag other than Enabled with it |
| Linker.LinkState.IsIdEnabled | jni/libsepol-N/src/avrule_block.c:153-172 | true exactly when the symbol is declared by an enabled declaration |
| Linker.LinkState.IsPermEnabled | jni/libsepol-N/src/avrule_block.c:177-201 | true exactly when the class is enabled and it or its common has the permission |
| Linker.LinkState.IsDeclRequiresMet | jni/libsepol-N/src/link.c:1984-2076 | met exactly when every required symbol and permission is enabled; an error exactly when the requirements are met up to a permission of a class without scope |
| Linker.JudgeMeans | jni/libsepol-N/src/link.c:1984-2076 | that judgement in terms of what is declared: met exactly if all is; the error exactly if all symbols are and the first permission that is not is of a class without scope |
| Linker.MetIsMonotone | jni/libsepol-N/src/link.c:1984-2076 | more enabled declarations meet more requirements |
| Linker.GreatestIsConsistent | jni/libsepol-N/src/link.c:2194-2245 | the union of all sets of blocks that support themselves supports itself, so there is a greatest one |
| Linker.LinkState.Sweep | jni/libsepol-N/src/link.c:2218-2244 | a sweep disables only blocks outside the greatest set, and changes nothing only on a set that supports itself |
| Linker.LinkState.EnableElse | jni/libsepol-N/src/link.c:2256-2263 | adds the else branch of one block exactly when its head is off and it has one |
| Linker.LinkState.EnableElses | jni/libsepol-N/src/link.c:2256-2263 | adds exactly the else branches of the disabled blocks |
| Linker.LinkState.EnableAvrules | jni/libsepol-N/src/link.c:2194-2270 | terminates with the greatest set of blocks whose requirements are met within the set, plus else branches; fails for missing requirements exactly when that set lacks a block that is not optional; the result, errors included, is that of the sweeps |
| Linker.SettleErr | jni/libsepol-N/src/link.c:1998-2076 | the error result is only given when some block is stuck at a class without scope although all blocks are enabled |
| Linker.StuckFails | jni/libsepol-N/src/link.c:1998-2076 | a block that is stuck in the greatest set keeps linking from going through |
| Linker.OptionalSettle | jni/libsepol-N/src/link.c:2218-2244 | with optional blocks only, linking never fails for missing requirements |
| Linker.GreatestIsSupported | jni/libsepol-N/src/link.c:1984-2076 | the enabled blocks are the largest set whose required symbols are declared by members, and whose required permissions belong to the class or its common with the class declared by a member |
| Linker.AllDeclaredLinks | jni/libsepol-N/src/link.c:2194-2245 | all blocks are enabled, and linking goes through, exactly when what they require is so declared by their heads |
| Linker.UndeclaredFails | jni/libsepol-N/src/link.c:2194-2245 | a block that is not optional and requires what no head declares keeps linking from going through |
| Linker.ElsesKeepMet | jni/libsepol-N/src/link.c:2247-2263 | else branches never unmeet the requirements of an enabled block |
| Linker.OrderDoesNotMatter | jni/libsepol-N/src/link.c:2218-2244 | the greatest set depends on the set of blocks, not on their order |
| RoleAttributes.HasIsContains | jni/libsepol-N/src/link.c:2408-2462 | the recursive and the path description of "regular role contained in an attribute" agree |
| RoleAttributes.UnfoldStep | jni/libsepol-N/src/link.c:2431-2457 | replacing a sub-attribute by its roles lowers the weight of what is left to expand and keeps the roles contained |
| RoleAttributes.RolePolicy.ExpandRoleAttributes | jni/libsepol-N/src/link.c:2408-2462 | the restart loop ends, leaving the attribute with exactly the regular roles it contains |
| RoleAttributes.RolePolicy.ExpandAll | jni/libsepol-N/src/link.c:2408-2462 | all attributes end up flat whatever the order in which they are visited; other roles are untouched |
| CondExpr.EvaluateElem | jni/libsepol-N/src/conditional.c:220-262 | one element does to the array and its pointer what it does to the stack |
| CondExpr.EvaluateExpr | jni/libsepol-N/src/conditional.c:210-267 | the array with its stack pointer computes the value of the stack machine, -1 when it breaks off or the list is empty |
| CondExpr.RunTree | jni/libsepol-N/src/conditional.c:210-267 | running the postfix of a tree pushes its value exactly when the stack has room for its height |
| CondExpr.EvalTree | jni/libsepol-N/src/conditional.c:210-267 | on the postfix of a tree the result is its value, or -1 exactly when its height exceeds ten |
| CondExpr.EvalBool | jni/libsepol-N/src/conditional.c:222-227 | a boolean has the value of its state |
| CondExpr.EvalNot | jni/libsepol-N/src/conditional.c:228-232 | negation turns 1 and 0 round |
| CondExpr.EvalOperator | jni/libsepol-N/src/conditional.c:233-261 | each of the five operators, in terms of the values of its operands |
| CondExpr.EvalBottom | jni/libsepol-N/src/conditional.c:210-267 | of several values left on the stack the first one counts |
| CondExpr.EvalBreaks | jni/libsepol-N/src/conditional.c:228-264 | an operator without operands and an unknown element make the list undefined, and so does the empty list |
| CondExpr.UndefinedForAll | jni/libsepol-N/src/conditional.c:210-267 | whether the result is undefined does not depend on the booleans |
| CondNormalize.BoolPresent | jni/libsepol-N/src/conditional.c:61-75 | true exactly when the boolean is recorded and at most five are counted |
| CondNormalize.CountBools | jni/libsepol-N/src/conditional.c:389-407 | counts and records the different booleans in order of first use, exactly if there are at most five |
| CondNormalize.CountIsExact | jni/libsepol-N/src/conditional.c:389-407 | the count exceeds five exactly when there are more than five different booleans |
| CondNormalize.Precompute | jni/libsepol-N/src/conditional.c:410-440 | bit k of the table is set exactly when the expression holds under assignment k, and the live states are put back; an undefined expression is refused, and then leaves every listed boolean false |
| CondNormalize.StripNot | jni/libsepol-N/src/conditional.c:349-387 | a closing Not is dropped and both pairs of lists change places; a lone Not is refused |
| CondNormalize.NormalizeExpr | jni/libsepol-N/src/conditional.c:344-441 | succeeds exactly on expressions with a value (or more than five booleans) other than a lone Not, with all states as found |
| CondNormalize.NormalizeKeepsChoice | jni/libsepol-N/src/conditional.c:362-387 | the selected list stays the same if and only if it is not the case that the list ends in Not and leaves several values on the stack |
| CondNormalize.NormalizeKeepsTree | jni/libsepol-N/src/conditional.c:344-441 | on the postfix of any tree the selected list stays the same for every assignment |
| CondNormalize.NumberFor | jni/libsepol-N/src/conditional.c:418-425 | every assignment agrees with a numbered one on the recorded booleans |
| CondNormalize.UnderIsBit | jni/libsepol-N/src/conditional.c:418-425 | the recorded booleans are the bits of the number from the lowest on |
| CondNormalize.CheckSameBools | jni/libsepol-N/src/conditional.c:77-92 | true exactly when the records have the same length and each boolean of one is in the other |
| CondNormalize.ExprEqual | jni/libsepol-N/src/conditional.c:97-134 | compares tables and boolean sets up to five booleans, and element by element beyond |
| CondNormalize.JudgedNeeds | jni/libsepol-N/src/conditional.c:77-134 | expressions judged equal mention the same booleans, and beyond five are the same list |
| CondNormalize.JudgedIsEquivalent | jni/libsepol-N/src/conditional.c:97-113 | with the booleans recorded in the same order, expressions are judged equal if and only if they agree under every assignment |
| CondNormalize.OrderDecides | jni/libsepol-N/src/conditional.c:77-113 | for two orders of the same booleans the comparison is right about all expressions if and only if the orders are equal |
| CondNormalize.OrderExample | jni/libsepol-N/src/conditional.c:77-113 | x && !y and y && !x are judged equal and are not |
| CondState.Policy.EvaluateCondNode | jni/libsepol-N/src/conditional.c:308-338 | one conditional takes its current value, its lists show it, and no other conditional is disturbed |
| CondState.Policy.EvaluateConds | jni/libsepol-N/src/conditional.c:443-454 | afterwards every conditional is in step with the booleans; rules change in their Enabled bits only |
| CondState.Policy.BoolUpdate | jni/libsepol-N/src/booleans.c:14-52 | refuses exactly unknown names and values other than 0 and 1, and changes one boolean otherwise |
| CondState.Policy.BoolSet | jni/libsepol-N/src/booleans.c:82-104 | after a setting every conditional is in step; after a refusal nothing has changed |
| CondState.Policy.RunSets | jni/libsepol-N/src/booleans.c:82-104 | any sequence of settings, refused ones included, keeps every conditional in step with the booleans it leads to |
| CondState.OnIffSelected | jni/libsepol-N/src/conditional.c:308-338 | in step, a listed rule is enabled exactly when the current booleans select its branch |
| CondState.OnByValue | jni/libsepol-N/src/conditional.c:308-338 | in step, the true list is enabled exactly when the expression is true, the false list exactly when it is false |
| CondState.Policy.ComputeAv | jni/libsepol-N/src/conditional.c:878-904 | the search loop folds in every matching node of the table |
| CondState.UpToExact | jni/libsepol-N/src/conditional.c:888-902 | allow and auditallow add up over the enabled matching rules, auditdeny keeps what all of them keep |
| CondState.DecisionFromBooleans | jni/libsepol-N/src/conditional.c:878-904 | what is allowed, audited and not silenced depends on the current booleans alone, not on how they were reached: exactly the rules of the selected branches add and take away |
| CondState.Optimize | jni/libsepol-N/src/conditional.c:30-48 | type rules come first, reversed, then the others in order |
| CondState.OptimizeKeepsRules | jni/libsepol-N/src/conditional.c:30-48 | reordering neither loses nor adds a rule |
| CondState.OptimizeOrder | jni/libsepol-N/src/conditional.c:30-48 | of any two rules: type rules come to stand before others, change places among themselves, and others do not |
| CondToCil.Stack.Push | jni/libsepol-N/src/module_to_cil.c:430-450 | the stack grows as needed and keeps what it holds |
| CondToCil.Stack.Pop | jni/libsepol-N/src/module_to_cil.c:452-460 | gives back the last push, or nothing when empty |
| CondToCil.FormatOperator | jni/libsepol-N/src/module_to_cil.c:1189-1210 | the computed buffer length is the length of the text and its closing zero, so formatting never fails |
| CondToCil.FormatBool | jni/libsepol-N/src/module_to_cil.c:1136-1152 | the same for a boolean name |
| CondToCil.ExprToCil | jni/libsepol-N/src/module_to_cil.c:1114-1255 | succeeds exactly on the postfix of a tree, and prints that tree in prefix behind tunableif or booleanif |
| CondToCil.BuildIsPost | jni/libsepol-N/src/module_to_cil.c:1131-1236 | a list is read as one tree exactly when it is the postfix of that tree |
| CondToCil.TextDetermines | jni/libsepol-N/src/module_to_cil.c:1134-1209 | no two trees have the same text, not even one as the beginning of the other |
| CilMeaning.ReadText | jni/libsepol-N/src/module_to_cil.c:1114-1255 | a reader of the prefix texts, in which or, and, xor, eq, neq and not mean what they say, reads a printed tree as its value |
| CilMeaning.TranslationMeans | jni/libsepol-N/src/module_to_cil.c:1114-1255 | the text printed for a list means what the evaluator computes, wherever that is defined |
| CondToCil.TranslatedIsEvaluated | jni/libsepol-N/src/module_to_cil.c:1114-1255 | the tree printed is the one the evaluator computes, up to the evaluator's stack |
| Ebitmap.CanonicalUnique | jni/libsepol-N/src/ebitmap.c:150-169 | two canonical bitmaps with the same bits are the same list |
| Ebitmap.Ebitmap.GetBit | jni/libsepol-N/src/ebitmap.c:249-268 | true exactly for the bits of the set |
| Ebitmap.Ebitmap.SetBit | jni/libsepol-N/src/ebitmap.c:270-343 | adds or removes one bit and keeps the canonical form; refused exactly for the last 64 positions |
| Ebitmap.Or | jni/libsepol-N/src/ebitmap.c:18-59 | the merge of two lists is canonical and holds the union |
| Ebitmap.HighestOfBoth | jni/libsepol-N/src/ebitmap.c:57-57 | the larger high bit is that of the union |
| Ebitmap.And | jni/libsepol-N/src/ebitmap.c:74-86 | the intersection |
| Ebitmap.Xor | jni/libsepol-N/src/ebitmap.c:88-99 | the symmetric difference |
| Ebitmap.Not | jni/libsepol-N/src/ebitmap.c:101-112 | the complement below maxbit; fails exactly when maxbit reaches into the last word |
| Ebitmap.AndNot | jni/libsepol-N/src/ebitmap.c:114-126 | the difference, clipped to maxbit |
| Ebitmap.Cmp | jni/libsepol-N/src/ebitmap.c:150-169 | decides equality of the sets |
| Ebitmap.Contains | jni/libsepol-N/src/ebitmap.c:200-225 | decides inclusion |
| Ebitmap.MatchAny | jni/libsepol-N/src/ebitmap.c:227-247 | decides overlap |
| Ebitmap.Cardinality | jni/libsepol-N/src/ebitmap.c:128-135 | the number of bits |
| Ebitmap.HammingDistance | jni/libsepol-N/src/ebitmap.c:137-148 | the number of positions in which two bitmaps differ |
| Ebitmap.ForEachBit | jni/libsepol-N/include/sepol/policydb/ebitmap.h:45-78 | iteration visits all 64 positions of every word in order |
| MlsRuns.VisitedVisits | jni/libsepol-N/include/sepol/policydb/ebitmap.h:45-78 | the visited positions ascend, miss no bit, and jump only over absent words |
| MlsRuns.ScanSound | jni/libsepol-N/src/mls.c:195-227 | at every point the items printed stand for the bits seen, or a badly printed run has spoiled them |
| MlsRuns.ItemsFaithful | jni/libsepol-N/src/mls.c:195-240 | the printed items stand for the set if and only if no run of two ends at a jump and none of three or more has a jump in or after it |
| MlsRuns.ItemsAreRuns | jni/libsepol-N/src/mls.c:195-240 | what is printed is, run by run, a single category, two of them, or a range for three and more |
| MlsRuns.FaithfulExactly | jni/libsepol-N/src/mls.c:195-240 | the same for a bitmap |
| MlsRuns.GaplessFaithful | jni/libsepol-N/src/mls.c:195-240 | without an absent word between present ones every set is printed faithfully |
| MlsPrint.TextIsItems | jni/libsepol-N/src/mls.c:195-227 | what has been written is the text of the items found so far |
| MlsPrint.ItemsShape | jni/libsepol-N/src/mls.c:195-240 | how single categories and ranges are written: colon, commas and dots, whatever the names |
| MlsPrint.RangeShape | jni/libsepol-N/src/mls.c:181-252 | equal levels are written once, others with a dash between |
| MlsPrint.EndHasName | jni/libsepol-N/src/mls.c:208-237 | the category printed at the end of a run has a name |
| MlsPrint.LevelLen | jni/libsepol-N/src/mls.c:122-148 | the length counted for a level is that of its text |
| MlsPrint.ComputeContextLen | jni/libsepol-N/src/mls.c:109-160 | the length computed is that of the text of the range |
| MlsPrint.WriteLevel | jni/libsepol-N/src/mls.c:181-240 | writes the text of a level and a closing zero, staying inside the buffer |
| MlsPrint.SidToContext | jni/libsepol-N/src/mls.c:167-252 | writes the text of the range in a buffer one longer than it, and leaves the cursor on the closing zero |
| MlsPrint.ToString | jni/libsepol-N/src/mls.c:42-63 | moving the cursor back by the computed length lands on the start of the buffer; the copy without the colon fits its buffer exactly |
| MlsParse.NextWord | jni/libsepol-N/src/mls.c:346-352 | cuts at the first delimiter and steps over it |
| MlsParse.SetWord | jni/libsepol-N/src/mls.c:374-419 | sets one category, or an ascending range of them; fails exactly on unknown names and ranges that do not ascend |
| MlsParse.WordMeans | jni/libsepol-N/src/mls.c:374-419 | a word names one category, or with a dot all from the first to the second, which must come later |
| MlsParse.ParseCategories | jni/libsepol-N/src/mls.c:364-423 | sets the categories of all words up to a dash or the end |
| MlsParse.ContextToSid | jni/libsepol-N/src/mls.c:329-448 | fails exactly when the text has no meaning, and otherwise gives the range and the position it means |
| MlsParse.RangeReads | jni/libsepol-N/src/mls.c:167-448 | every printed range parses, to the sensitivities and to what the printed items stand for |
| MlsParse.RoundTrip | jni/libsepol-N/src/mls.c:167-448 | printing and parsing give the range back if and only if both category sets are printed faithfully |
| MlsParse.PrintThenParse | jni/libsepol-N/src/mls.c:42-448 | run one after the other, printer and parser give the very same range, bitmap nodes included, if and only if both category sets are printed faithfully |
| MlsParse.GaplessRoundTrip | jni/libsepol-N/src/mls.c:167-448 | they do when no word is absent between present ones |
| MlsParse.ThirdLevelIgnored | jni/libsepol-N/src/mls.c:424-434 | behind the categories of the high level a dash and anything whatever are accepted and change neither level |
| MlsParse.AbsentWordExample | jni/libsepol-N/src/mls.c:208-237 | 62, 63 and 193 are a set that does not come back |
| Avc.Cache.constructor | jni/libselinux/src/avc.c:119-173 | a fresh cache has all its nodes on the free list, and no answer of the server |
| Avc.Cache.ScanPass | jni/libselinux/src/avc.c:257-272 | one turn unmarks nodes up to the first unused one, or all of them |
| Avc.Cache.ReclaimNode | jni/libselinux/src/avc.c:250-286 | takes the first node in scan order that is unused, or else the first of all, out of its chain and out of no other; nothing exactly when the cache is empty |
| Avc.VictimUsed | jni/libselinux/src/avc.c:250-286 | the node taken is chained, and used only if all chained nodes are |
| Avc.Cache.TakeNode | jni/libselinux/src/avc.c:300-310 | gives the first free node, or else the reclaimed one, and nothing exactly when there are no nodes at all; the pool is otherwise as it was |
| Avc.Cache.ClaimNode | jni/libselinux/src/avc.c:293-324 | the claimed node heads the chain of its key; the pool is otherwise the old one without the node taken |
| Avc.Cache.SearchNode | jni/libselinux/src/avc.c:326-357 | finds the newest node of the key, and nothing exactly when there is none |
| Avc.Cache.Lookup | jni/libselinux/src/avc.c:374-396 | hits exactly when the newest node of the key has a decision that covers the request |
| Avc.Cache.Insert | jni/libselinux/src/avc.c:416-442 | an answer older than the last notice is refused and changes nothing; any other is cached as given, in the node taken |
| Avc.Cache.FlushSlot | jni/libselinux/src/avc.c:463-474 | the nodes of a slot go to the free list, cleared, and are no longer counted |
| Avc.Cache.Reset | jni/libselinux/src/avc.c:450-493 | the cache is empty and every node free |
| Avc.Cache.SsReset | jni/libselinux/src/avc.c:1036-1048 | empty, and the notice number never goes back |
| Avc.Cache.TryReference | jni/libselinux/src/avc.c:706-717 | a reference is used exactly when its node is still under the key and covers the request; a stale one never answers |
| Avc.Cache.FindNode | jni/libselinux/src/avc.c:706-721 | the node that answers without the server: the reference if it does, otherwise the newest cached one |
| Avc.HitIs | jni/libselinux/src/avc.c:706-721 | the reference answers if its node has the key and decided the request; a key all of whose nodes decided it is answered from the cache, and one none of whose nodes did is not |
| Avc.Cache.Consult | jni/libselinux/src/avc.c:722-730 | the answer of the server is recorded as given, refused if stale, and otherwise cached |
| Avc.Cache.FindDecision | jni/libselinux/src/avc.c:698-729 | the server is asked exactly when neither the reference nor the cache answers, and then its answer is the one used |
| Avc.Cache.Decide | jni/libselinux/src/avc.c:734-746 | denied exactly when something is missing (or nothing asked) while enforcing and not permissive; otherwise the cached decision is extended |
| Avc.Cache.HasPermNoaudit | jni/libselinux/src/avc.c:683-752 | outcome, decision handed out, reference, answers learned and the pool left behind are exact; so what is granted while enforcing lies inside an answer of the server not older than the last notice, what is denied does not, and nothing is denied while permissive |
| Avc.DecisionJustified | jni/libselinux/src/avc.c:734-746 | a coherent node that decided the request justifies the outcome by a current answer of the server |
| Avc.DecisionFaithful | jni/libselinux/src/avc.c:731-732 | a decision handed out is that of a current answer, extended only while it is not enforced |
| Avc.Cache.SetEnforceNotice | jni/libselinux/src/avc_internal.c:178-195 | ignored when the mode is fixed; turning enforcement on empties the cache |
| Avc.Cache.PolicyLoadNotice | jni/libselinux/src/avc_internal.c:197-213 | empties the cache and raises the notice number |
| Avc.Cache.Handle | jni/libselinux/src/avc.c:683-752 | one event: its outcome, the pool it leaves, notice and mode are exact, and answers are learned from checks that ask only |
| Avc.Cache.Run | jni/libselinux/src/avc.c:683-752 | any run of checks, policy loads and mode switches keeps the pool partitioned, counted and coherent; every outcome is justified by the notices and the mode of its own moment and by an answer given up to that moment which decided the request or was given for it, and a check fails only for want of an answer, of a current one, or of nodes |
| Avc.MarksDoNotMatter | jni/libselinux/src/avc.c:263-268 | used marks have no part in the invariants |
| Avc.UnlinkKeeps | jni/libselinux/src/avc.c:278-285 | unlinking a node makes it the one spare node of a pool otherwise partitioned |
| Avc.FillKeeps | jni/libselinux/src/avc.c:312-320 | filling the spare node and heading its chain restores the partition |
| Avc.FreeKeeps | jni/libselinux/src/avc.c:466-471 | freeing the spare node restores the partition |
| BootImage.DecodeEncode | jni/bootimg.h:29-57 | the header read at the start of an image is the one written there |
| BootImage.Mask2048 | jni/repack.c:119-120 | clearing the low bits rounds down to a page of 2048 |
| BootImage.Mask4096 | jni/repack.c:119-120 | to one of 4096 |
| BootImage.Mask16384 | jni/repack.c:119-120 | to one of 16384 |
| BootImage.NextIsPages | jni/bootimg.h:59-76 | the masked position is the one (size + page - 1) / page gives, on a page boundary |
| BootImage.DumpRamdisk | jni/extract.c:24-50 | peels MTK wrappers and names the content by its first bytes |
| BootImage.WrappedReads | jni/repack.c:31-53 | a wrapped ramdisk comes back without its wrapper and with its flags |
| BootBytes.WrapperBytes | jni/repack.c:31-53 | the wrapper byte for byte: mark, size, ROOTFS or RECOVERY, zeros, bytes of 255, and the gzip file from 512 on |
| BootImage.FindMagic | jni/extract.c:94-102 | the loop ends at the first header at a multiple of 256, or at none |
| BootImage.FirstMagicIs | jni/extract.c:94-102 | that position holds the header, and no multiple of 256 before it does |
| BootBytes.UsableBehind | jni/repack.c:84-98 | other bytes before an image, without a header at a multiple of 256, do not change the header that is used |
| BootBytes.HeaderBehind | jni/repack.c:84-98 | any header behind such bytes is read as it was written, exactly if its page size is 2048, 4096 or 16384 |
| BootBytes.Marks | jni/extract.c:24-50 | the marks looked for, spelled out |
| BootBytes.KnownKinds | jni/extract.c:131-142 | the four kinds of device trees that are known |
| BootImage.Assemble | jni/repack.c:101-144 | the image is the new header and the padded sections in order, cut at the last page |
| BootImage.Repack | jni/repack.c:63-147 | an image is made exactly when the original has a usable first header, the ramdisk files go together and no checksum is asked for; it is the header of the original with the new sizes and the sections |
| BootImage.Extract | jni/extract.c:82-152 | the result is that of taking the image apart at its first header; without one it fails |
| BootImage.SectionsLie | jni/repack.c:115-142 | sections begin on page boundaries, one behind the other, inside the file, and the last ends it |
| BootImage.RoundTrip | jni/extract.c:111-147 | an assembled image read at its header gives the kernel, the ramdisk of a known kind, the second stage and a known device tree back; an unknown device tree is left and the image marked instead |
| BootImage.RepackThenExtract | jni/repack.c:63-147 | repacking behind the header of any usable original and extracting the result gives back what was put in, for every kernel, ramdisk of a known kind, second stage and device tree |
| BootBytes.RepackedHeader | jni/repack.c:99-142 | the header of a repacked image is the original byte for byte, wherever that lies, but for four sizes, lowest byte first, and an id of zeros |
| BootBytes.ExtractBehind | jni/extract.c:94-147 | the same parts are extracted from an image behind other bytes, unless its device tree is cut off but its position passes in the longer file, and then nothing is |
| BootBytes.RepackThenExtractBehind | jni/extract.c:94-147 | a repacked image gives its parts back behind other bytes too |
| Crc.EntryIsShift | jni/rkcrc.h:33-96 | each of the 256 table entries is what eight division steps make of its index |
| CrcWords.ShiftLinear | jni/rkcrc.h:33-96 | multiplying by x modulo the polynomial is linear |
| Crc.TableStepIsStepByte | jni/rkcrc.h:98-104 | one table lookup does what eight bit steps do |
| Crc.Rkcrc | jni/rkcrc.h:98-104 | the loop computes the bitwise checksum of the bytes for every initial value |
| Crc.CrcIsRemainder | jni/rkcrc.h:98-104 | the checksum is the remainder of the message times x^32 by long division |
| Crc.ResidueIsZero | jni/rkcrc.h:98-104 | a message followed by its checksum, highest byte first, has checksum 0 |
| Crc.OneByteNoticed | jni/rkcrc.h:98-104 | two messages that differ in one byte have different checksums |

## Left out

- Expand.ExpandAvtab: for rules without Enabled marks and with exactly one specifier each. The only caller (jni/libsepol-N/src/write.c:291) hands it the unconditional table (jni/libsepol-N/src/write.c:2107), which has no others; the `data` field of an extended permission entry is the one inserted first and so depends on the order.
- Expand.ExpandAvtabNode: one entry of such a table.
- Assertion.CheckAssertionAvtabMatch: the branch for plain neverallow rules; that for ioctl rules is `AssertionXperms.CheckXpermsAvtabMatch`.
- Assertion.CheckAssertion: likewise for plain rules; see `AssertionXperms.CheckXpermsAssertion`.
- Assertion.ReportAssertionAvtabMatches: for plain rules; for ioctl rules see `AssertionXperms.ReportXpermsAvtabMatches`.
- Assertion.ReportAssertionFailures: for plain rules; for ioctl rules it leaves the table of the lookups unset (jni/libsepol-N/src/assertion.c:295-309), and nothing can be said of the sum over the tables.
- AssertionXperms.XpermsCheckIsExact: for rules without self; those with self are judged by `AssertionXperms.XpermsSelfIsExact` and `AssertionXperms.XpermsAnySelfIsExact`. Blocks are taken not to be empty: of an empty one only the driver is compared.
- AssertionXperms.ExpandedXpermsExact: for rules without self; see `AssertionXperms.ExpandedSelfExact`.
- AssertionXperms.ReportPairIsRight: the table is a parameter, while the code never sets it (jni/libsepol-N/src/assertion.c:295-309); so too `AssertionXperms.ReportXpermsAvtabMatches`.
- AssertionXperms.ReportExtendedPermissions: given the table, as above.
- AssertionXperms.ReportXpermsAvtabMatches: given the table, as above.
- Linker.LinkState.EnableAvrules: when classes without scope are involved, which of the two errors is returned depends on the order of the blocks; the contract gives it as the result of the sweeps, between the bounds of `Linker.SettleErr` and `Linker.StuckFails`.
- Bounds.BoundsSoundAsSource: conditional lists hold allow rules only, since their expansion does not look at specifiers (see `Bounds.AuditRuleIsCounted`); each conditional has a value, an undefined one selects neither branch and is not an assignment.
- Bounds.SplitGrantIsRecorded: shows that the check is not complete permission by permission; complete rule by rule it is, by `Bounds.BoundsExact`.
- RoleAttributes.RolePolicy.ExpandRoleAttributes: containment must not be cyclic; an attribute may list itself if no other lists it. On other graphs the restart loop need not end. The role set is modelled as a set: that clearing the bit of the attribute itself may free the bitmap node the loop is standing on (jni/libsepol-N/src/link.c:2441-2446 with jni/libsepol-N/src/ebitmap.c:289-309) is not part of the model.
- RoleAttributes.RolePolicy.ExpandAll: the same restriction to containment that is not cyclic.
- Linker.ElsesKeepMet: else branches are enabled without looking at their own requirements, so nothing is said about those.
- CondNormalize.Precompute: the order in which the lists are freed and the messages printed is not modelled.
- CondState.Optimize: the pointer updates of the linked list are modelled as sequence edits.
- MlsPrint.ToString: for a policy with sensitivity levels turned on; names hold no zero character.
- MlsParse.ContextToSid: the zeros the parser writes into its input are not modelled, words are cut out instead; ranges are taken for a policy with levels turned on and a context that comes with empty category sets.
- MlsParse.RoundTrip: names of sensitivities hold no colon or dash, names of categories no comma, dash or dot.
- Avc.Cache.Run: grant, revoke and audit events, computing creation contexts, statistics, locks and callbacks are not part of the runs; destroying the cache is not modelled.
- BootImage.Repack: section sizes are 32-bit numbers and positions unbounded ones, what has been written when the program gives up is not kept, file operations succeed, and reading a section past the end of a file ends the run, as does an MTK wrapper shorter than its header; a mark that would lie past the end is not found.
- BootImage.Extract: the flag file for Chrome OS images is not modelled; the mask on positions is modelled by the remainder, which `BootImage.Mask2048` and its companions justify on 32-bit words.
- Allocation failures, logging, freeing of memory.
- Reading and writing of binary policies and modules, and bitmaps read with a larger high bit.
- Accumulation of auditdeny and dontaudit data before expansion (jni/libsepol-N/src/expand.c:1843-1856).
- Expansion of role sets with a star (jni/libsepol-N/src/expand.c:2422-2427).
- Bounds of roles and users, validity of contexts, labelling, file system and netlink access.
