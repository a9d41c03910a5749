# Verification of the OpenSLP common library and the r8125 driver

This project models two C trees of the repository in Dafny and proves what they are for: the common
library of OpenSLP 2.0 (`assets/drivers/broadcom9560RAID/openslp-2.0.0/common`) and the Realtek r8125
network driver (`assets/drivers/r8125-9.012.03/src`). `dafny verify dfyconfig.toml` checks all of it.

## Parts

- **LDAP filters.** `Bison.dfy` is the parser skeleton that both grammars share: the packed tables, the loop of
  `yyparse`, and the theorem that tables with a valid certificate accept exactly their grammar.
  `FilterGrammar.dfy` holds the filter tables and checks the certificate. `FilterParser.dfy` specifies the
  actions, which edit one flat list of filters by nesting level, and shows that the list ends up holding the parse
  trees. `FilterReader.dfy` is the parser as a whole on values, and `FilterTrees.dfy` has the trees of filters on the
  heap. `FilterRings.dfy` is the parser on the heap: it relinks filters from its list to rings of children and accounts
  for every filter allocated. `FilterEval.dfy` is the evaluator, which walks the same rings and writes a value into
  every node. `FilterPrinter.dfy` prints the trees, `Wildcard.dfy` is the local `fnmatch`, one of the matchers that the
  evaluator may be given, and `FilterMatch.dfy` puts parser and evaluator together.
- **Attribute lists.** `AttrGrammar.dfy`, `AttrParser.dfy` and `AttrReader.dfy` do the same for the attribute parser.
  `Ring.dfy` proves the macros on sentinel rings, for both parsers; `AttrRings.dfy` is the parser on the heap, with its
  three rings and an account of every node from its allocation to its release. `SlpAttr.dfy` holds attributes and their
  typed values.
- **Firmware.** `Firmware.dfy` is the static check of a PHY firmware blob and the small machine that runs it.
- **Property store.** `LinkedList.dfy` and `PropertyStore.dfy`: a map with write permissions, kept in a doubly linked
  list.
- **Codecs and lists.** `Utf8.dfy` (the six-byte form, section 2 of RFC 2279), `StringList.dfy` (comma-separated
  lists), `Ipv6.dfy` (section 2.2 of RFC 4291), `Dhcp.dfy` (section 2 of RFC 2132, sections 3 and 4 of RFC 2610),
  `Wire.dfy` (integers in messages, and the bytes that are hashed for authentication blocks, section 9.2 of RFC 2608),
  `Rss.dfy` (hash options and indirection table of the driver).
- `Basics.dfy` holds what several of these share.

Where the C code updates something in place, the model is a class or works on arrays, and its methods are proved
against functions on values; the main results are lemmas about those functions.

## Where code and documentation disagree

The model follows the code.

- The comment at `slp_filter.h:55` says that the operator codes match the token values. They are one less, except that
  the parser writes `expr_present` itself. `FilterMatch.GroupAsRead` says what becomes of groups and
  `FilterMatch.ComparisonAsRead` what becomes of comparisons. `&` is still a conjunction exactly when the filters of the
  group are all true or all false (`FilterMatch.AndAsRead`), an or-group never a disjunction (`FilterMatch.OrAsRead`),
  `!` a negation exactly when some filter of the group is true (`FilterMatch.NotAsRead`); `FilterMatch.GroupsGoneWrong`
  gives an input for each.
- The comment of `SLPPropertySet` says that an empty value erases the property. Only a null value does; an empty one is
  stored.
- The comment of `SLPSubsetStringList` speaks of a proper subset. A list counts as a subset of itself.
- The comment of `SLPContainsStringList` speaks of the position of the string in the list. What is returned is one more
  than the byte offset of the item.
- The comment of `SLPUnionStringList` gives a bound on the buffer, which is proved. The union can still lose an empty
  item (`StringList.UnionLosesEmptyItem`), and an item with a comma behind a backslash is cut when the union is read as
  the comparison reads lists (`StringList.UnionSplitsEscaped`); `StringList.UnionItems` says exactly when the union
  splits into the items that it is made of.
- A failed decode of an attribute list frees every attribute node, but not the head that was allocated for the result:
  `SLPFreeAttrList(temp, 0)` frees the nodes of a ring and not its head (`AttrRings.Reader.FreeResult`,
  `AttrRings.Reader.Decode`).
- A subset is decided by comparing two counts. For a list without repeated items the answer is yes exactly when all
  items of the sublist are in the list, none of them is repeated, and the sublist does not end in a comma
  (`StringList.SubsetByCounting`). Every list with a repeated item is answered wrongly for some sublist that meets the
  other two conditions, unless it consists of commas (`StringList.ListsForCounting`).

## Assumptions about the machine

`size_t` and `long` have 64 bits, `int` and `unsigned` 32, `char` holds a byte, and the host is little-endian where the
driver copies the hash key by words. Allocation succeeds. Sections under a mutex are atomic. What a device answers, the
contents of configuration files, and the comparison of two list items (`norm`, under which items compare equal when it
takes them to the same string) are parameters.

So is `fnmatch`. The predicate code brings its own only where it is built for Windows (`slp_predicate.c:48-90`), and
that one is `Wildcard.Fnmatch`; elsewhere it calls the C library's, with more special characters, and without case
folding where the library does not offer it. The evaluator is proved for every function `fn` that stands for
`fnmatch(pattern, string, FNM_CASEFOLD)`; of the C library it is only assumed that `FNM_NOMATCH` is 1.

## Model

| member | source | states |
|---|---|---|
| `Bison.RunIsExact` | assets/drivers/broadcom9560RAID/openslp-2.0.0/common/slp_filter_y.c:1348-1442 | for every set of packed tables that a certificate fits, and every token sequence: the automaton accepts if and only if the grammar derives the sequence by a tree that fits the stack; a syntax error means that there is no derivation at all |
| `Bison.RunIsSound` | assets/drivers/broadcom9560RAID/openslp-2.0.0/common/slp_filter_y.c:1348-1442 | an accepted input has a derivation, and the reductions were exactly its postorder walk |
| `Bison.RunIsComplete` | assets/drivers/broadcom9560RAID/openslp-2.0.0/common/slp_filter_y.c:1294-1365 | a derivable input is accepted by walking its derivation, or exhausts the stack exactly when the derivation needs YYMAXDEPTH slots |
| `Bison.RunForest` | assets/drivers/broadcom9560RAID/openslp-2.0.0/common/slp_filter_y.c:1289-1664 | along a run the stack stands for a forest of derivation trees whose yield is what has been read; how the run ended can be read off the last stack |
| `Bison.FinalStack` | assets/drivers/broadcom9560RAID/openslp-2.0.0/common/slp_filter_y.c:1360-1361 | in the final state the stack holds the right-hand side of the start rule and nothing else |
| `Bison.Driver.constructor` | assets/drivers/broadcom9560RAID/openslp-2.0.0/common/slp_filter_y.c:1266-1284 | a parse starts with the start state alone on a stack of YYINITDEPTH slots, and no token read |
| `Bison.Driver.Reserve` | assets/drivers/broadcom9560RAID/openslp-2.0.0/common/slp_filter_y.c:1294-1356 | there is room for one more state unless the stack has reached YYMAXDEPTH; a stack that is not full keeps its size, and a full one doubles up to that limit |
| `Bison.Driver.Recover` | assets/drivers/broadcom9560RAID/openslp-2.0.0/common/slp_filter_y.c:1763-1796 | with tables that nowhere shift the error token, error recovery empties the stack, whatever is on it, and the parse is aborted |
| `Bison.Driver.Lex` | assets/drivers/broadcom9560RAID/openslp-2.0.0/common/slp_filter_y.c:1380-1399 | a token is read once, and only if none is waiting |
| `Bison.Driver.Backup` | assets/drivers/broadcom9560RAID/openslp-2.0.0/common/slp_filter_y.c:1368-1436 | the decision is that of the automaton on the next token; a state that reduces by default does so without reading a token |
| `Bison.Driver.ReduceBy` | assets/drivers/broadcom9560RAID/openslp-2.0.0/common/slp_filter_y.c:1646-1664 | a reduction pops a right-hand side that is on the stack and pushes the state that the goto tables give |
| `Bison.Driver.Take` | assets/drivers/broadcom9560RAID/openslp-2.0.0/common/slp_filter_y.c:1414-1426 | a shift or a reduction keeps the forest in line with the stack and is the next event of the run |
| `Bison.Driver.Advance` | assets/drivers/broadcom9560RAID/openslp-2.0.0/common/slp_filter_y.c:1289-1442 | one pass through the loop does the first thing that is left of the run, and brings the run closer to its end |
| `FilterGrammar.FilterAutomatonIsValid` | assets/drivers/broadcom9560RAID/openslp-2.0.0/common/slp_filter_y.c:551-627 | the filter parser's tables fit the certificate of its grammar: states, edges, default reductions, goto tables, rule table |
| `AttrGrammar.AttrAutomatonIsValid` | assets/drivers/broadcom9560RAID/openslp-2.0.0/common/slp_attr_y.c:533-607 | the attribute parser's tables fit the certificate of its grammar |
| `FilterParser.ReadFilters` | assets/drivers/broadcom9560RAID/openslp-2.0.0/common/slp_filter_y.c:1348-1442 | every derivation of a list of filters is the derivation of a list of expressions |
| `FilterParser.DeriveExprs` | assets/drivers/broadcom9560RAID/openslp-2.0.0/common/slp_filter_y.c:1348-1442 | every list of expressions has a derivation |
| `FilterParser.LinkPresent` | assets/drivers/broadcom9560RAID/openslp-2.0.0/common/slp_filter_y.c:1536-1555 | a presence test ends up as a node with the operator `expr_present` and the value `*` |
| `FilterParser.LinkCompare` | assets/drivers/broadcom9560RAID/openslp-2.0.0/common/slp_filter_y.c:1556-1616 | a comparison ends up as a node with the token code as operator and the typed value |
| `FilterParser.LiteralMeaning` | assets/drivers/broadcom9560RAID/openslp-2.0.0/common/slp_filter_y.c:1556-1616 | the node of a comparison holds the name, the code, and the literal: a text, a truth value, an integer n from 0 up to 2^31 as n, and a negative one as n + 2^32 |
| `FilterParser.GroupMeaning` | assets/drivers/broadcom9560RAID/openslp-2.0.0/common/slp_filter_y.c:1460-1555 | the node of a group holds the code, its level, no attribute, and the filters it encloses in order, one level deeper; a presence test is 265 with the value `*` |
| `FilterParser.Adoption` | assets/drivers/broadcom9560RAID/openslp-2.0.0/common/slp_filter_y.c:1468-1483 | the filters one level deeper are exactly those linked last, in order |
| `FilterParser.LinkGroup` | assets/drivers/broadcom9560RAID/openslp-2.0.0/common/slp_filter_y.c:1460-1493 | a group adopts exactly the filters read since its opening parenthesis |
| `FilterParser.LinkExprs` | assets/drivers/broadcom9560RAID/openslp-2.0.0/common/slp_filter_y.c:1460-1625 | whatever is on the list already, reading filters appends their trees in source order, at the current level |
| `FilterParser.RoomByNesting` | assets/drivers/broadcom9560RAID/openslp-2.0.0/common/slp_filter_y.c:1294-1356 | the stack that a list of filters needs grows by three slots per nested group, whatever its length |
| `FilterReader.FilterLanguage` | assets/drivers/broadcom9560RAID/openslp-2.0.0/common/slp_filter_y.c:1203-1850 | the parser accepts exactly the non-empty lists of filters whose need is below YYMAXDEPTH |
| `FilterReader.FilterMeaning` | assets/drivers/broadcom9560RAID/openslp-2.0.0/common/slp_filter_y.c:1460-1625 | after the parse, `reducedFilters` holds the parse trees of the top-level filters in source order and `nesting_level` is 1 again |
| `FilterReader.ResultCodes` | assets/drivers/broadcom9560RAID/openslp-2.0.0/common/slp_filter_y.c:1348-1365 | the parser returns 0 for a list of filters that needs fewer than 10000 stack slots and 2 for any other; for anything else 1, or 2 if the stack is full before the error is seen |
| `FilterReader.NestingLimit` | assets/drivers/broadcom9560RAID/openslp-2.0.0/common/slp_filter_y.c:882-895 | every list of filters nested at most 3331 deep is accepted |
| `FilterReader.ListInvariant` | assets/drivers/broadcom9560RAID/openslp-2.0.0/common/slp_filter_y.c:1460-1526 | at every point of every parse, also of a failing one, levels never go down along the list, and they exceed `nesting_level` at most by one, between a closing parenthesis and its reduction |
| `FilterReader.SpotMoves` | assets/drivers/broadcom9560RAID/openslp-2.0.0/common/slp_filter_y.c:1348-1664 | along every run the only pointer on the value stack to a filter that no list holds is that of an expression: rules 11 to 14 put it there, rule 5 takes it away, and no other event does either |
| `FilterReader.GroupNotEmpty` | assets/drivers/broadcom9560RAID/openslp-2.0.0/common/slp_filter_y.c:1466-1490 | whatever the input, a group is never closed while the list is empty, so the branch that gives a new filter up is never taken |
| `FilterReader.Drive` | assets/drivers/broadcom9560RAID/openslp-2.0.0/common/slp_filter_y.c:1289-1442 | one pass of the driver keeps stack, state and rest of the run in agreement, with the list in order, and says where the waiting filter is |
| `FilterTrees.PickReads` | assets/drivers/broadcom9560RAID/openslp-2.0.0/common/slp_filter_y.c:1470-1483 | picking the trees of one level out of a list picks the filters of that level out of what it reads as |
| `FilterTrees.PickLinked` | assets/drivers/broadcom9560RAID/openslp-2.0.0/common/slp_filter_y.c:1470-1483 | picking the trees of one level out of a sound list keeps every tree, node and ring of children |
| `FilterRings.AllocFilter` | assets/drivers/broadcom9560RAID/openslp-2.0.0/common/slp_filter_y.c:1864-1884 | a new filter is on no ring, has the value 0, level 0 and an empty ring of children of its own |
| `FilterRings.Reader.Init` | assets/drivers/broadcom9560RAID/openslp-2.0.0/common/slp_filter_y.c:1943-1961 | a decode starts with an empty list, whatever it held before, and with nesting level 1 |
| `FilterRings.Reader.Adopt` | assets/drivers/broadcom9560RAID/openslp-2.0.0/common/slp_filter_y.c:1468-1483 | the loop relinks exactly the filters one level deeper, in list order, from the list to the ring of children of the new filter, for any list |
| `FilterRings.Reader.Collect` | assets/drivers/broadcom9560RAID/openslp-2.0.0/common/slp_filter_y.c:1466-1487 | after the adoption the new filter is at the end of the list over the filters adopted, and every ring of children in the list is sound |
| `FilterRings.Reader.Group` | assets/drivers/broadcom9560RAID/openslp-2.0.0/common/slp_filter_y.c:1463-1492 | rule 4 leaves a list that reads as the specification says, with every filter allocated in one of its trees |
| `FilterRings.Reader.Simple` | assets/drivers/broadcom9560RAID/openslp-2.0.0/common/slp_filter_y.c:1498-1506 | rule 5 gives the waiting filter the current level and links it at the end of the list |
| `FilterRings.Reader.Expression` | assets/drivers/broadcom9560RAID/openslp-2.0.0/common/slp_filter_y.c:1536-1616 | rules 11 to 14 allocate a filter with one attribute, which no list holds yet |
| `FilterRings.Reader.Reduce` | assets/drivers/broadcom9560RAID/openslp-2.0.0/common/slp_filter_y.c:1445-1633 | each action changes rings, level and value as the specification of its rule says, and loses no filter unless rule 4 meets an empty list |
| `FilterRings.Reader.Handle` | assets/drivers/broadcom9560RAID/openslp-2.0.0/common/slp_filter_y.c:1420-1426 | the value stack and the rings follow the events of the automaton |
| `FilterRings.Reader.YyParse` | assets/drivers/broadcom9560RAID/openslp-2.0.0/common/slp_filter_y.c:1203-1850 | the parser returns 0, 1 or 2 as its input is accepted, wrong or too deep; success or not, it leaves the rings and the level that the events of the run determine, linked as the evaluator needs them, with every filter allocated in the trees of the list once, but for at most one expression, and none on success; on success the list reads as the expressions parsed |
| `FilterRings.ParsedValues` | assets/drivers/broadcom9560RAID/openslp-2.0.0/common/slp_predicate.c:328-407 | once the evaluator has been over the list that a parse left, every filter on it holds the value of the expression it was read from |
| `FilterPrinter.ShowMeaning` | assets/drivers/broadcom9560RAID/openslp-2.0.0/common/slp_filter_y.c:1536-1616 | a node printed by its operator code has one token less than was read for every `<=*`, and gives back the tokens when there is none |
| `FilterPrinter.PrintsBack` | assets/drivers/broadcom9560RAID/openslp-2.0.0/common/slp_filter_y.c:1460-1625 | printing the trees gives back the tokens that were read if and only if no filter says `<=*` |
| `FilterPrinter.SpellSays` | assets/drivers/broadcom9560RAID/openslp-2.0.0/common/slp_filter_y.c:1556-1616 | tokens count as given back exactly if they are of one kind and have the same text, truth value or number, numbers modulo 2^32 |
| `FilterPrinter.LessOrEqualStar` | assets/drivers/broadcom9560RAID/openslp-2.0.0/common/slp_filter_y.c:1536-1616 | `(a<=*)` and `(a=*)` build the same node, since the token code of `<=` is the code of a presence test |
| `Wildcard.MatchesStar` | assets/drivers/broadcom9560RAID/openslp-2.0.0/common/slp_predicate.c:70-80 | a star matches some run, and the rest of the pattern what follows, under the declarative rule |
| `Wildcard.MatchesOne` | assets/drivers/broadcom9560RAID/openslp-2.0.0/common/slp_predicate.c:81-86 | any other character matches one character that is alike, and the rest what follows |
| `Wildcard.AlikeExactly` | assets/drivers/broadcom9560RAID/openslp-2.0.0/common/slp_predicate.c:81-86 | two codes are alike exactly if they are equal, or with case folding equal up to the bit 0x20 |
| `Wildcard.StarsAndTexts` | assets/drivers/broadcom9560RAID/openslp-2.0.0/common/slp_predicate.c:65-90 | a star alone matches every string, and a pattern without stars exactly the strings of its length that are alike place by place |
| `Wildcard.MatchesIsMatch` | assets/drivers/broadcom9560RAID/openslp-2.0.0/common/slp_predicate.c:65-90 | the recursive form of the rule decides whether there is an alignment |
| `Wildcard.Fnmatch` | assets/drivers/broadcom9560RAID/openslp-2.0.0/common/slp_predicate.c:65-90 | the loop with recursion terminates and returns 0 if and only if the string can be cut into what the characters of the pattern stand for |
| `FilterEval.EvaluateOperation` | assets/drivers/broadcom9560RAID/openslp-2.0.0/common/slp_predicate.c:236-264 | the result is 1 exactly when the comparison satisfies the operator |
| `FilterEval.IntegersCompared` | assets/drivers/broadcom9560RAID/openslp-2.0.0/common/slp_predicate.c:288-289 | integers compare by their difference in 32 bits with sign: as they are if it is under 2^31 in size, and by the wrapped difference otherwise |
| `FilterEval.ValuesCompared` | assets/drivers/broadcom9560RAID/openslp-2.0.0/common/slp_predicate.c:276-314 | texts compare by the result of the matcher, truth values as such, and values of different types never pass |
| `FilterEval.EvaluateAttributes` | assets/drivers/broadcom9560RAID/openslp-2.0.0/common/slp_predicate.c:276-314 | the result is 1 exactly when two values of the same type satisfy the operator, whatever matcher `fnmatch` is; for integers at most 2^31 apart exactly when m <= n, m >= n or m == n, and otherwise when their difference modulo 2^32, as an `int`, has that sign |
| `FilterEval.EvaluateLeaf` | assets/drivers/broadcom9560RAID/openslp-2.0.0/common/slp_predicate.c:381-405 | the value is 1 exactly when the first attribute whose name the matcher accepts passes |
| `FilterEval.LeafLooks` | assets/drivers/broadcom9560RAID/openslp-2.0.0/common/slp_predicate.c:381-405 | a filter that is no group is false without an attribute or a matching name, and otherwise asks the first attribute with a matching name; a presence or approximate test asks no more |
| `FilterEval.GroupGrows` | assets/drivers/broadcom9560RAID/openslp-2.0.0/common/slp_predicate.c:336-379 | an empty group is true for AND and NOT and false for OR, and one more child is one more conjunct, disjunct, or filter that must fail |
| `FilterEval.Combine` | assets/drivers/broadcom9560RAID/openslp-2.0.0/common/slp_predicate.c:336-379 | for the links of any ring of children: AND is 1 if no child is false, OR if some child is true, NOT if no child is true |
| `FilterEval.ValueOfNode` | assets/drivers/broadcom9560RAID/openslp-2.0.0/common/slp_predicate.c:336-405 | the denotation of a node in terms of the values that its children hold |
| `FilterEval.HasSibling` | assets/drivers/broadcom9560RAID/openslp-2.0.0/common/slp_predicate.c:334-335 | the test on the links finds the next sibling exactly when the ring has one, also for a root that is on no ring |
| `FilterEval.SetValue` | assets/drivers/broadcom9560RAID/openslp-2.0.0/common/slp_predicate.c:338-406 | with its children evaluated, the node receives its denotation |
| `FilterEval.EvaluateFilterTree` | assets/drivers/broadcom9560RAID/openslp-2.0.0/common/slp_predicate.c:328-407 | for every well-formed structure of rings: terminates, leaves the denotation in the node, everything below it and every following sibling, returns the node's own, and writes nothing but these values |
| `FilterEval.EvaluateChildren` | assets/drivers/broadcom9560RAID/openslp-2.0.0/common/slp_predicate.c:331-332 | everything below the node holds its denotation |
| `FilterMatch.GroupAsRead` | assets/drivers/broadcom9560RAID/openslp-2.0.0/common/slp_filter.h:53-63 | the codes differ by one: a group written with `&` is true if some filter in it is, one with an or-sign if none is, one with `!` never |
| `FilterMatch.AndAsRead` | assets/drivers/broadcom9560RAID/openslp-2.0.0/common/slp_filter.h:53-63 | `&` is evaluated as a conjunction if and only if the filters of the group are all true or all false |
| `FilterMatch.OrAsRead` | assets/drivers/broadcom9560RAID/openslp-2.0.0/common/slp_filter.h:53-63 | an or-group is never evaluated as a disjunction |
| `FilterMatch.NotAsRead` | assets/drivers/broadcom9560RAID/openslp-2.0.0/common/slp_filter.h:53-63 | `!` is evaluated as a negation if and only if some filter of the group is true |
| `FilterMatch.GroupsGoneWrong` | assets/drivers/broadcom9560RAID/openslp-2.0.0/common/slp_filter.h:53-63 | with `a` as the only attribute, `(&(a=*)(b=*))` is true, the or-group of the same filters false, and `(!(b=*))` false, for every matcher that tells `a` from `b` |
| `FilterMatch.GroupsGoneWrongLocally` | assets/drivers/broadcom9560RAID/openslp-2.0.0/common/slp_filter.h:53-63 | the same with the local matcher, without assumptions |
| `FilterMatch.ComparisonAsRead` | assets/drivers/broadcom9560RAID/openslp-2.0.0/common/slp_filter.h:53-63 | what a comparison tests after parsing: `=` greater or equal, `>=` less or equal, `~=` only the type, `<=` only the attribute; strings by the matcher, integers by the sign of the difference in 32 bits, truth values for equality by all but `<=` |
| `FilterMatch.IntegersAsRead` | assets/drivers/broadcom9560RAID/openslp-2.0.0/common/slp_predicate.c:276-314 | for a literal j and an attribute k that are any `int`s: `>=` is true if and only if k >= j, and `=` if and only if k <= j, exactly where j - k is an `int`; where it wraps, `>=` is true if and only if k < j, and `=` if and only if k > j |
| `FilterMatch.SmallIntegersAsRead` | assets/drivers/broadcom9560RAID/openslp-2.0.0/common/slp_predicate.c:276-314 | for integers from 0 up to 2^31, `(a>=n)` is true if and only if the first attribute called `a` is an integer that is at least n, and `(a=n)` if and only if it is one that is at most n |
| `FilterMatch.PresenceAsRead` | assets/drivers/broadcom9560RAID/openslp-2.0.0/common/slp_filter.h:53-63 | a presence test is true if and only if the matcher accepts the name of some attribute |
| `AttrParser.CollectSlots` | assets/drivers/broadcom9560RAID/openslp-2.0.0/common/slp_attr_y.c:1514-1582 | the typed values of one attribute collect on the tag ring in source order |
| `AttrParser.LinkItem` | assets/drivers/broadcom9560RAID/openslp-2.0.0/common/slp_attr_y.c:1472-1513 | an attribute appends its nodes to the attribute ring: one for a tag, one per value otherwise, all with its name |
| `AttrParser.LinkParts` | assets/drivers/broadcom9560RAID/openslp-2.0.0/common/slp_attr_y.c:1438-1582 | a list moves the nodes of its attributes to the final ring in source order and leaves the working rings empty |
| `AttrParser.FlattenReads` | assets/drivers/broadcom9560RAID/openslp-2.0.0/common/slp_attr_y.c:1438-1582 | the flattening goes attribute by attribute: one entry for a tag, and for several values one each, in order, with its name and its value as read: an integer token n as n, or n + 2^32 if it is negative |
| `AttrReader.AttrLanguage` | assets/drivers/broadcom9560RAID/openslp-2.0.0/common/slp_attr_y.c:1183-1815 | the parser accepts exactly the attribute lists, of any length |
| `AttrReader.AttrMeaning` | assets/drivers/broadcom9560RAID/openslp-2.0.0/common/slp_attr_y.c:1438-1582 | after the parse of a list, `attrHead` is its flattening and both working rings are empty |
| `AttrReader.ValueIsRead` | assets/drivers/broadcom9560RAID/openslp-2.0.0/common/slp_attr_y.c:1538-1582 | after the parse of a list, the entry of each value holds its name and that value: an integer token n from 0 up to 2^31 is stored as n, a negative one as n + 2^32, truth values as 1 and 0, any other as its text |
| `AttrReader.StackIsBounded` | assets/drivers/broadcom9560RAID/openslp-2.0.0/common/slp_attr_y.c:1269-1336 | whatever the input, the state stack never holds more than nine states |
| `AttrReader.NeverExhausted` | assets/drivers/broadcom9560RAID/openslp-2.0.0/common/slp_attr_y.c:1778-1783 | the memory-exhausted outcome is unreachable |
| `AttrReader.OnlyTopWaits` | assets/drivers/broadcom9560RAID/openslp-2.0.0/common/slp_attr_y.c:1514-1582 | at every point of every parse only the top of the value stack can be a node that is on no ring, and it is one exactly when a value has just been read |
| `AttrReader.WaitingLinks` | assets/drivers/broadcom9560RAID/openslp-2.0.0/common/slp_attr_y.c:549-570 | a state links a waiting node at once, whatever the next token is: such states reduce by default |
| `Ring.LinkBetween` | assets/drivers/broadcom9560RAID/openslp-2.0.0/common/slp_linkedlist.h:88-103 | the four assignments of both insertions put a node between two neighbours |
| `Ring.Insert` | assets/drivers/broadcom9560RAID/openslp-2.0.0/common/slp_linkedlist.h:88-96 | links a node after another one; rings with other heads are unchanged |
| `Ring.InsertBefore` | assets/drivers/broadcom9560RAID/openslp-2.0.0/common/slp_linkedlist.h:98-103 | links a node before another one, before the head meaning at the end; rings with other heads are unchanged |
| `Ring.Unlink` | assets/drivers/broadcom9560RAID/openslp-2.0.0/common/slp_linkedlist.h:121-125 | takes a node out of its ring; rings with other heads are unchanged |
| `Ring.IsEmpty` | assets/drivers/broadcom9560RAID/openslp-2.0.0/common/slp_linkedlist.h:84-86 | tells whether a ring has no node but its head |
| `Ring.NextIsHead` | assets/drivers/broadcom9560RAID/openslp-2.0.0/common/slp_linkedlist.h:81 | tells the same by the node after the head |
| `Ring.Move` | assets/drivers/broadcom9560RAID/openslp-2.0.0/common/slp_filter_y.c:1472-1475 | takes any node out of one ring and links it at the end of another; rings with other heads are unchanged |
| `Ring.MoveFirst` | assets/drivers/broadcom9560RAID/openslp-2.0.0/common/slp_attr_y.c:1443-1449 | moves the first node of one ring to the end of another |
| `Ring.Drain` | assets/drivers/broadcom9560RAID/openslp-2.0.0/common/slp_attr_y.c:1944-1961 | the freeing loops take every node out of a ring, once, in order |
| `Ring.LinkHead` | assets/drivers/broadcom9560RAID/openslp-2.0.0/common/slp_linkedlist.h:138-142 | the new head takes the place of the old one, whose own links stay as they were |
| `AttrRings.LooseIsLinked` | assets/drivers/broadcom9560RAID/openslp-2.0.0/common/slp_attr_y.c:549-570 | the top of the stack is a node on no ring exactly when the next event links it |
| `AttrRings.Reader.Init` | assets/drivers/broadcom9560RAID/openslp-2.0.0/common/slp_attr_y.c:1919-1928 | empties the three rings |
| `AttrRings.Reader.Alloc` | assets/drivers/broadcom9560RAID/openslp-2.0.0/common/slp_attr_y.c:1821-1871 | allocates a node that is on no ring |
| `AttrRings.Reader.Finish` | assets/drivers/broadcom9560RAID/openslp-2.0.0/common/slp_attr_y.c:1440-1471 | moves every node of the attribute ring to the end of the final ring, in order |
| `AttrRings.Reader.AddTag` | assets/drivers/broadcom9560RAID/openslp-2.0.0/common/slp_attr_y.c:1472-1497 | links a new node for a tag at the end of the attribute ring |
| `AttrRings.Reader.NameTags` | assets/drivers/broadcom9560RAID/openslp-2.0.0/common/slp_attr_y.c:1498-1513 | names every node of the tag ring and moves it to the end of the attribute ring |
| `AttrRings.Reader.LinkFirstTag` | assets/drivers/broadcom9560RAID/openslp-2.0.0/common/slp_attr_y.c:1514-1525 | links a waiting node at the front of the tag ring |
| `AttrRings.Reader.LinkLastTag` | assets/drivers/broadcom9560RAID/openslp-2.0.0/common/slp_attr_y.c:1526-1537 | links a waiting node at the end of the tag ring |
| `AttrRings.Reader.ReduceValue` | assets/drivers/broadcom9560RAID/openslp-2.0.0/common/slp_attr_y.c:1538-1582 | allocates a node with the typed value of a token |
| `AttrRings.Reader.Reduce` | assets/drivers/broadcom9560RAID/openslp-2.0.0/common/slp_attr_y.c:1438-1582 | every action does to the rings what its specification says, and keeps every node allocated so far on one ring, once, or waiting on the stack |
| `AttrRings.Reader.HandleReduced` | assets/drivers/broadcom9560RAID/openslp-2.0.0/common/slp_attr_y.c:1422-1613 | a reduction pops its right-hand side, acts on the rings, and pushes its value |
| `AttrRings.Reader.Handle` | assets/drivers/broadcom9560RAID/openslp-2.0.0/common/slp_attr_y.c:1404-1409 | value stack and rings follow the events of the automaton |
| `AttrRings.Reader.Step` | assets/drivers/broadcom9560RAID/openslp-2.0.0/common/slp_attr_y.c:1269-1422 | one pass through the loop keeps stacks, rings and run in agreement |
| `AttrRings.Reader.YyParse` | assets/drivers/broadcom9560RAID/openslp-2.0.0/common/slp_attr_y.c:1183-1815 | whether the parse succeeds or gives up, every node allocated is on exactly one of the three rings; the result is 0 or 1 |
| `AttrRings.Reader.Cleanup` | assets/drivers/broadcom9560RAID/openslp-2.0.0/common/slp_attr_y.c:1940-1966 | the loops end, free every node on the rings in order, and leave empty rings |
| `AttrRings.Reader.AllDelivered` | assets/drivers/broadcom9560RAID/openslp-2.0.0/common/slp_attr_y.c:1970-1973 | with empty working rings, every node allocated is on the final ring, once |
| `AttrRings.Reader.Deliver` | assets/drivers/broadcom9560RAID/openslp-2.0.0/common/slp_attr_y.c:1970-1973 | the nodes of the final ring are handed over in order |
| `AttrRings.Reader.AllocAttrList` | assets/drivers/broadcom9560RAID/openslp-2.0.0/common/slp_attr_y.c:1873-1882 | allocates a head that is alone on its ring |
| `AttrRings.Reader.FreeAttrList` | assets/drivers/broadcom9560RAID/openslp-2.0.0/common/slp_attr_y.c:1902-1917 | frees the nodes of a ring, and the head exactly if the flag is set |
| `AttrRings.Reader.FreeResult` | assets/drivers/broadcom9560RAID/openslp-2.0.0/common/slp_attr_y.c:1942 | without the flag, the head of the result is not freed |
| `AttrRings.Reader.Decode` | assets/drivers/broadcom9560RAID/openslp-2.0.0/common/slp_attr_y.c:1930-1981 | the result is null if and only if the input is not an attribute list, and then every attribute node has been freed exactly once; otherwise its ring holds the flattening of the list, and every node allocated is on it exactly once; the head allocated for the result is in no case freed, so it is lost exactly when the result is null |
| `Firmware.OkIsSafe` | assets/drivers/r8125-9.012.03/src/r8125_firmware.c:116-166 | an instruction that passes the check is defined, and a taken jump or skip leads to a real instruction in the wrap-around arithmetic of `size_t` |
| `Firmware.CodeOkIsExact` | assets/drivers/r8125-9.012.03/src/r8125_firmware.c:116-166 | a program passes the check if and only if each of its instructions is safe in every state of the machine: nothing unsafe passes and nothing safe is refused |
| `Firmware.OpcodesAccepted` | assets/drivers/r8125-9.012.03/src/r8125_firmware.c:116-166 | by opcode, register and operand: exactly the thirteen opcodes pass, a selection with an operand up to 1, a jump back with a register up to its place, and skips that end inside the code |
| `Firmware.RunsDevice` | assets/drivers/r8125-9.012.03/src/r8125_firmware.c:184-236 | a read stores and counts the answer, a write carries its operand or the low 16 bits of what is stored, each to its register through the selected pair, and a delay carries its operand |
| `Firmware.RunsData` | assets/drivers/r8125-9.012.03/src/r8125_firmware.c:184-236 | OR and AND put the bitwise result with their operand in place of what is stored, a selection selects by its operand, and the count is cleared |
| `Firmware.RunsSkips` | assets/drivers/r8125-9.012.03/src/r8125_firmware.c:184-236 | a jump goes back by its register, and every skip is taken exactly under its condition, by its distance |
| `Firmware.ReadModifyWrite` | assets/drivers/r8125-9.012.03/src/r8125_firmware.c:184-236 | for every register and all masks: a read answered x, AND m, OR v and a write back do a read answered x and then a write of the low 16 bits of `(x & m) | v`, and nothing else |
| `Firmware.ReadsCount` | assets/drivers/r8125-9.012.03/src/r8125_firmware.c:186-189 | any number of reads in a row raises the count by that number, modulo 2^32, and does exactly these reads, in order |
| `Firmware.CountedReadsSkip` | assets/drivers/r8125-9.012.03/src/r8125_firmware.c:209-218 | after the count has been cleared, so many reads in a row make the test for a number skip exactly if it is theirs |
| `Firmware.SelectsPair` | assets/drivers/r8125-9.012.03/src/r8125_firmware.c:199-214 | a write after a selection goes through the pair selected |
| `Firmware.StartsAndStops` | assets/drivers/r8125-9.012.03/src/r8125_firmware.c:168-183 | a run starts at the first word with the first pair and nothing stored or counted, and stops at a word of zero or behind the last one |
| `Firmware.RunIsSafe` | assets/drivers/r8125-9.012.03/src/r8125_firmware.c:168-237 | for every sequence of device answers and at every point of the run, the program counter is at a safe instruction or just past the last one |
| `Firmware.ForwardCodeHalts` | assets/drivers/r8125-9.012.03/src/r8125_firmware.c:168-237 | an accepted program without backward jumps ends within one pass |
| `Firmware.SelfJumpNeverHalts` | assets/drivers/r8125-9.012.03/src/r8125_firmware.c:134-140 | an accepted jump to itself never ends |
| `Firmware.FormatOf` | assets/drivers/r8125-9.012.03/src/r8125_firmware.c:70-114 | accepted code lies inside the bytes of the blob |
| `Firmware.FormatIsExact` | assets/drivers/r8125-9.012.03/src/r8125_firmware.c:70-114 | byte by byte: exactly which blobs have a right format, and where and how long their code is |
| `Firmware.WordIsBytes` | assets/drivers/r8125-9.012.03/src/r8125_firmware.c:177-178 | a word of the code is four bytes, the lowest first |
| `Firmware.BlobReadsBack` | assets/drivers/r8125-9.012.03/src/r8125_firmware.c:70-114 | a blob built with header, version and checksum is accepted, and the code read from it is the code put in |
| `Firmware.RtlFw.Checksum` | assets/drivers/r8125-9.012.03/src/r8125_firmware.c:79-86 | the sum of all bytes modulo 256 |
| `Firmware.RtlFw.FormatOk` | assets/drivers/r8125-9.012.03/src/r8125_firmware.c:70-114 | accepts exactly the blobs of the right format, and sets where the code is |
| `Firmware.RtlFw.DataOk` | assets/drivers/r8125-9.012.03/src/r8125_firmware.c:116-166 | accepts exactly the programs in which every instruction passes its check |
| `Firmware.RtlFw.RequestFirmware` | assets/drivers/r8125-9.012.03/src/r8125_firmware.c:245-264 | succeeds exactly when both checks do |
| `Firmware.RtlFw.Execute` | assets/drivers/r8125-9.012.03/src/r8125_firmware.c:184-236 | the `switch` and the increment compute the machine's next state and its effect on the device |
| `Firmware.RtlFw.Fetch` | assets/drivers/r8125-9.012.03/src/r8125_firmware.c:177-178 | every fetch reads inside the blob |
| `Firmware.RtlFw.WriteFirmware` | assets/drivers/r8125-9.012.03/src/r8125_firmware.c:168-237 | the interpreter performs exactly the effects of the machine's run, and every fetch on the way is inside the code |
| `LinkedList.SLPList.Unlink` | assets/drivers/broadcom9560RAID/openslp-2.0.0/common/slp_linkedlist.c:56-72 | takes exactly one item out of the list; head, tail, count and links agree with the rest |
| `LinkedList.SLPList.LinkHead` | assets/drivers/broadcom9560RAID/openslp-2.0.0/common/slp_linkedlist.c:81-97 | puts the item in front |
| `LinkedList.SLPList.LinkTail` | assets/drivers/broadcom9560RAID/openslp-2.0.0/common/slp_linkedlist.c:106-122 | puts the item at the end |
| `PropertyStore.OnlyPermittedChanges` | assets/drivers/broadcom9560RAID/openslp-2.0.0/common/slp_property.c:607-623 | a request changes no entry but its own, and that only as the entry's attributes permit |
| `PropertyStore.RequestOutcome` | assets/drivers/broadcom9560RAID/openslp-2.0.0/common/slp_property.c:581-634 | a request with a value for a non-empty name leaves exactly that setting, and one without a value removes the name, if the name is absent, or its entry has attributes 0, or entry and request are both exactly 1 (user set); every other request leaves the store as it was |
| `PropertyStore.LockedForGood` | assets/drivers/broadcom9560RAID/openslp-2.0.0/common/slp_property.c:568-580 | an entry with attributes other than none or exactly "user set" survives every sequence of requests unchanged |
| `PropertyStore.UserSetStays` | assets/drivers/broadcom9560RAID/openslp-2.0.0/common/slp_property.c:568-580 | a "user set" entry survives every sequence of requests of which none is a user's for it |
| `PropertyStore.LastRequestDecides` | assets/drivers/broadcom9560RAID/openslp-2.0.0/common/slp_property.c:607-623 | the last request for an entry decides, and sets or removes it, if it and those before are for an entry without attributes, or if it is a user's, as all those before that protect the entry |
| `PropertyStore.FileNameIsKept` | assets/drivers/broadcom9560RAID/openslp-2.0.0/common/slp_property.c:387-402 | once a file has been read, nothing later changes the entry that records its name; an entry that was protected before is left as it was |
| `PropertyStore.Reinitialized` | assets/drivers/broadcom9560RAID/openslp-2.0.0/common/slp_property.c:816-825 | after a re-initialization every default property is set and the name of every file read is recorded read-only, whatever the files say |
| `PropertyStore.ReinitPrecedence` | assets/drivers/broadcom9560RAID/openslp-2.0.0/common/slp_property.c:816-825 | after a re-initialization any other property has the value of the application's file, else of the environment's, else of the global one, else the default, the last setting in each; an adjusted MTU replaces them all |
| `PropertyStore.StoreHas` | assets/drivers/broadcom9560RAID/openslp-2.0.0/common/slp_property.c:420-429 | an entry of the list is what the map says about its name |
| `PropertyStore.StoreWithout` | assets/drivers/broadcom9560RAID/openslp-2.0.0/common/slp_property.c:616-617 | taking an entry out of the list takes its name out of the map |
| `PropertyStore.Properties.Find` | assets/drivers/broadcom9560RAID/openslp-2.0.0/common/slp_property.c:420-429 | finds the entry of a name, or shows that the map has none |
| `PropertyStore.Properties.RemoveOld` | assets/drivers/broadcom9560RAID/openslp-2.0.0/common/slp_property.c:609-618 | takes the old entry out exactly if there is one and it has attributes 0, or it and the request are exactly "user set" |
| `PropertyStore.Properties.Set` | assets/drivers/broadcom9560RAID/openslp-2.0.0/common/slp_property.c:581-634 | returns 0 and leaves exactly the setting asked for, or removes it without a value, exactly if the name is not empty and absent, without attributes, or "user set" as the request is; returns -1 and changes nothing otherwise; names stay unique and every entry allocated is linked once or freed once |
| `PropertyStore.Properties.Cleanup` | assets/drivers/broadcom9560RAID/openslp-2.0.0/common/slp_property.c:786-802 | empties the store; every entry ever allocated has then been freed exactly once |
| `PropertyStore.Properties.SetDefaultValues` | assets/drivers/broadcom9560RAID/openslp-2.0.0/common/slp_property.c:108-185 | applies the defaults in order, and cannot fail on an empty store |
| `PropertyStore.Properties.ReadFile` | assets/drivers/broadcom9560RAID/openslp-2.0.0/common/slp_property.c:387-402 | applies the settings of a file, and records its name read-only |
| `PropertyStore.Properties.Reinit` | assets/drivers/broadcom9560RAID/openslp-2.0.0/common/slp_property.c:816-825 | the new store is what all requests of a re-initialization make of the empty map, whatever it was before |
| `Utf8.HighBits` | assets/drivers/broadcom9560RAID/openslp-2.0.0/common/slp_utf8.c:62-77 | the high bits of a character fit in its first byte, whose class tells the length |
| `Utf8.SplitBits` | assets/drivers/broadcom9560RAID/openslp-2.0.0/common/slp_utf8.c:131-159 | a number is put together from its high bits and its groups of six bits |
| `Utf8.SixForms` | assets/drivers/broadcom9560RAID/openslp-2.0.0/common/slp_utf8.c:62-77 | the six forms byte by byte: which numbers take how many bytes, and which bits each byte holds |
| `Utf8.Assemble` | assets/drivers/broadcom9560RAID/openslp-2.0.0/common/slp_utf8.c:79-129 | with a first byte of a class and that many continuation bytes, the assembled number is the only character possible, and it is one exactly when it is not overlong |
| `Utf8.OnlyOne` | assets/drivers/broadcom9560RAID/openslp-2.0.0/common/slp_utf8.c:79-129 | a byte string begins with at most one character |
| `Utf8.UniToUtf` | assets/drivers/broadcom9560RAID/openslp-2.0.0/common/slp_utf8.c:131-159 | encodes every value up to 0x7FFFFFFF as the standard says, and refuses every other |
| `Utf8.UtfToUni` | assets/drivers/broadcom9560RAID/openslp-2.0.0/common/slp_utf8.c:79-129 | returns a character and its length if the bytes begin with its encoding, and fails if and only if they begin with no encoding |
| `Utf8.SpelledOnce` | assets/drivers/broadcom9560RAID/openslp-2.0.0/common/slp_utf8.c:262-288 | a byte string is the encoding of at most one sequence of characters |
| `Utf8.DecodesBack` | assets/drivers/broadcom9560RAID/openslp-2.0.0/common/slp_utf8.c:79-159 | the bytes of an encoded character, whatever follows, begin with that character and no other |
| `Utf8.Recode` | assets/drivers/broadcom9560RAID/openslp-2.0.0/common/slp_utf8.c:79-159 | decoding and then encoding gives back exactly the bytes that were taken, and fails exactly if the bytes begin with no character |
| `Utf8.CountEncoding` | assets/drivers/broadcom9560RAID/openslp-2.0.0/common/slp_utf8.c:262-288 | the loop succeeds exactly when the string is UTF-8, what it needs fits, and fewer than 2^31 bytes are left after the first character, and then counts 2 or 4 bytes per character |
| `Utf8.ToEncoding` | assets/drivers/broadcom9560RAID/openslp-2.0.0/common/slp_utf8.c:245-288 | without a buffer, for every encoding and every length: the exact conditions of success, and the number of bytes |
| `StringList.ContainsStringList` | assets/drivers/broadcom9560RAID/openslp-2.0.0/common/slp_compare.c:499-522 | returns one more than the position of the first equal item, and zero exactly if there is none |
| `StringList.ItemStandsAt` | assets/drivers/broadcom9560RAID/openslp-2.0.0/common/slp_compare.c:499-522 | the position of an item is where it stands in the list: behind a comma or at the front, up to the next comma or the end |
| `StringList.CommonCounts` | assets/drivers/broadcom9560RAID/openslp-2.0.0/common/slp_compare.c:534-557 | the count is the number of places in the first list whose item is equal to some item of the second |
| `StringList.IntersectStringList` | assets/drivers/broadcom9560RAID/openslp-2.0.0/common/slp_compare.c:534-557 | counts the items of the first list that have an equal one in the second |
| `StringList.ItemsAreSplit` | assets/drivers/broadcom9560RAID/openslp-2.0.0/common/slp_compare.c:499-522 | the items that the cursor loops see are the pieces between the commas, without an empty one at the end |
| `StringList.CountAll` | assets/drivers/broadcom9560RAID/openslp-2.0.0/common/slp_compare.c:738-746 | a list has as many items as commas if it ends in a comma, and one more otherwise |
| `StringList.SubsetStringList` | assets/drivers/broadcom9560RAID/openslp-2.0.0/common/slp_compare.c:728-753 | returns 1 exactly when both lists are non-empty and the two counts agree |
| `StringList.SubsetByCounting` | assets/drivers/broadcom9560RAID/openslp-2.0.0/common/slp_compare.c:728-753 | for a list without repeated items, the counts agree if and only if every item of the sublist is in the list, none is repeated, and the sublist does not end in a comma |
| `StringList.RepeatedItemIsMissed` | assets/drivers/broadcom9560RAID/openslp-2.0.0/common/slp_compare.c:728-753 | a list with a repeated item is answered wrongly for that item alone |
| `StringList.RepeatedEmptyIsMissed` | assets/drivers/broadcom9560RAID/openslp-2.0.0/common/slp_compare.c:728-753 | a list with a repeated empty item is answered wrongly for the empty and any other item together |
| `StringList.ListsForCounting` | assets/drivers/broadcom9560RAID/openslp-2.0.0/common/slp_compare.c:728-753 | for every list with more than commas in it: the counts are right about all sublists with neither a repeated item nor a comma at the end if and only if the list has no repeated item |
| `StringList.SubsetNeedsDistinct` | assets/drivers/broadcom9560RAID/openslp-2.0.0/common/slp_compare.c:728-753 | four inputs: `b` passes as a part of `a,a`; `a` does not; of `a,b` the sublist `a,a` does not, nor of `a` the sublist `a,` |
| `StringList.PlainItems` | assets/drivers/broadcom9560RAID/openslp-2.0.0/common/slp_compare.c:683-690 | without backslashes, the items that the union sees are the items of the list |
| `StringList.EscapedStandsAt` | assets/drivers/broadcom9560RAID/openslp-2.0.0/common/slp_compare.c:683-690 | the items that the union sees: all commas in an item are escaped, by a backslash or at the front of the list by the byte before it, and the one behind it is not |
| `StringList.SeekItem` | assets/drivers/broadcom9560RAID/openslp-2.0.0/common/slp_compare.c:683-690 | the seek ends at the next comma that no backslash precedes, or at the end of the list |
| `StringList.AppendItem` | assets/drivers/broadcom9560RAID/openslp-2.0.0/common/slp_compare.c:702-709 | appends a comma, if anything is in front, and the item |
| `StringList.AppendIfMissing` | assets/drivers/broadcom9560RAID/openslp-2.0.0/common/slp_compare.c:692-710 | appends an item exactly if no equal one is in the first list and it fits |
| `StringList.AppendMissing` | assets/drivers/broadcom9560RAID/openslp-2.0.0/common/slp_compare.c:677-712 | appends exactly the missing items, in order, as far as they fit, also from lists with backslashes |
| `StringList.UnionStringList` | assets/drivers/broadcom9560RAID/openslp-2.0.0/common/slp_compare.c:660-714 | writes only inside the buffer; fails exactly if some item does not fit, never with list1len + list2len + 1 bytes; otherwise the buffer holds the first list and then the missing items |
| `StringList.FitsExactly` | assets/drivers/broadcom9560RAID/openslp-2.0.0/common/slp_compare.c:694-700 | the items fit exactly if the whole result fits the buffer, and where the first list is empty the first item with a byte to spare |
| `StringList.JoinedItems` | assets/drivers/broadcom9560RAID/openslp-2.0.0/common/slp_compare.c:660-714 | any list with any items appended splits into its own items and those if and only if none of the latter has a comma and `ComesBack` holds |
| `StringList.UnionItems` | assets/drivers/broadcom9560RAID/openslp-2.0.0/common/slp_compare.c:660-714 | for every second list that does not end in a backslash: the union splits into the items of the first list and the missing ones of the second if and only if no missing item has a comma (behind a backslash), and nothing is missing, or no empty item ends up at an end of the list, or only empty items are put behind a comma at the end |
| `StringList.PlainUnion` | assets/drivers/broadcom9560RAID/openslp-2.0.0/common/slp_compare.c:660-714 | the same without the condition on commas, for a second list without backslashes |
| `StringList.UnionSplitsEscaped` | assets/drivers/broadcom9560RAID/openslp-2.0.0/common/slp_compare.c:660-714 | an item with a comma behind a backslash: appended to `b` it splits into two |
| `StringList.UnionLosesEmptyItem` | assets/drivers/broadcom9560RAID/openslp-2.0.0/common/slp_compare.c:660-714 | the union of `b` and `a,,b` is `b,a,`, which has lost the empty item |
| `Ipv6.CopyPre` | assets/drivers/broadcom9560RAID/openslp-2.0.0/common/slp_net.c:283-299 | each round copies one group, right-aligned, to its slot |
| `Ipv6.HandlePreArea` | assets/drivers/broadcom9560RAID/openslp-2.0.0/common/slp_net.c:263-302 | the groups before the double colon, or all of them, fill the first slots of the template |
| `Ipv6.CutGroup` | assets/drivers/broadcom9560RAID/openslp-2.0.0/common/slp_net.c:327-342 | each round cuts the last group off the copy; the round that finds a colon at the end finds no group |
| `Ipv6.HandlePostArea` | assets/drivers/broadcom9560RAID/openslp-2.0.0/common/slp_net.c:316-344 | the groups after the double colon fill the last slots |
| `Ipv6.ExpandIpv6Addr` | assets/drivers/broadcom9560RAID/openslp-2.0.0/common/slp_net.c:738-768 | every shorthand expands to the 39 characters of its eight groups, with `::` standing for the missing zero groups; null pointers and buffers under 40 bytes are refused, the buffer untouched |
| `Ipv6.ExpandedAt` | assets/drivers/broadcom9560RAID/openslp-2.0.0/common/slp_net.c:738-768 | the expanded text character by character: the groups in front come first, those behind the gap last, zeros between, each right-aligned in four places with a colon behind |
| `Ipv6.PadKeepsValue` | assets/drivers/broadcom9560RAID/openslp-2.0.0/common/slp_net.c:738-768 | padding a group does not change its number |
| `Ipv6.SameValueSameText` | assets/drivers/broadcom9560RAID/openslp-2.0.0/common/slp_net.c:738-768 | groups of lower-case hexadecimal digits stand for the same number if and only if they expand to the same text |
| `Dhcp.ProcessOptions` | assets/drivers/broadcom9560RAID/openslp-2.0.0/common/slp_dhcp.c:254-284 | for every callback and context: without the cookie nothing happens; otherwise the options found go to the callback in order, up to the first it refuses, each a slice of the data, and the result is that refusal, 0, or -1 |
| `Dhcp.ProcessTags` | assets/drivers/broadcom9560RAID/openslp-2.0.0/common/slp_dhcp.c:269-283 | the loop terminates on every input, with data and size always ending at the end of the buffer |
| `Dhcp.TagRead` | assets/drivers/broadcom9560RAID/openslp-2.0.0/common/slp_dhcp.c:269-283 | one step of the walk on data of any size: an option is refused exactly without a size byte, with fewer bytes left than it says, or with the bytes left negative as an `int` |
| `Dhcp.WalkOfPieces` | assets/drivers/broadcom9560RAID/openslp-2.0.0/common/slp_dhcp.c:269-283 | on an encoded list of options and pads, the walk finds exactly the options |
| `Dhcp.PiecesOfWalk` | assets/drivers/broadcom9560RAID/openslp-2.0.0/common/slp_dhcp.c:269-283 | a walk that succeeds has gone over an encoded list |
| `Dhcp.FieldBytes` | assets/drivers/broadcom9560RAID/openslp-2.0.0/common/slp_dhcp.c:254-284 | a field byte by byte: a zero for padding, an option as tag, size and payload, behind the four bytes of the cookie |
| `Dhcp.AllDelivered` | assets/drivers/broadcom9560RAID/openslp-2.0.0/common/slp_dhcp.c:276-279 | a callback that accepts every option goes through all of them |
| `Dhcp.FirstRefusal` | assets/drivers/broadcom9560RAID/openslp-2.0.0/common/slp_dhcp.c:276-279 | the first option that the callback refuses ends the delivery with that result, and the context after it |
| `Dhcp.AcceptedFields` | assets/drivers/broadcom9560RAID/openslp-2.0.0/common/slp_dhcp.c:269-283 | the walk gets to the end if and only if the field is an encoded list of options; a callback that accepts them is handed exactly these, in order, and the result is 0, and -1 for any other data |
| `Dhcp.CollectsAddresses` | assets/drivers/broadcom9560RAID/openslp-2.0.0/common/slp_dhcp.c:614-665 | over any options, the addresses are those of all of them, in order, cut at 256 bytes |
| `Dhcp.AddressesOf` | assets/drivers/broadcom9560RAID/openslp-2.0.0/common/slp_dhcp.c:614-665 | an option 78 with a flag byte under 128 adds all bytes behind it; in the older format it adds four bytes exactly if the agent is not given by name, the size says four or more, and they are there |
| `Dhcp.ScopesOf` | assets/drivers/broadcom9560RAID/openslp-2.0.0/common/slp_dhcp.c:557-610 | an option 79 with a flag byte, or with the encoding 3, sets the scopes to the text behind; one with the encoding 1000 does not |
| `Dhcp.BufferAfter` | assets/drivers/broadcom9560RAID/openslp-2.0.0/common/slp_dhcp.c:557-610 | the buffer after an option 79 byte by byte: a text replaces its front and ends it with a zero, wide characters replace its front and leave the length |
| `Dhcp.NoneSetsScopes` | assets/drivers/broadcom9560RAID/openslp-2.0.0/common/slp_dhcp.c:598-610 | options of which none sets the scopes leave the text that was there, up to what wide characters overwrite |
| `Dhcp.LastScopeDecides` | assets/drivers/broadcom9560RAID/openslp-2.0.0/common/slp_dhcp.c:557-610 | over any options, the scopes are the text of the last option that sets them, up to what options with wide characters behind it overwrite |
| `Dhcp.TextSurvives` | assets/drivers/broadcom9560RAID/openslp-2.0.0/common/slp_dhcp.c:601-603 | that text survives if and only if at each place the last option that writes there writes what was there |
| `Dhcp.WideOverwrites` | assets/drivers/broadcom9560RAID/openslp-2.0.0/common/slp_dhcp.c:601-603 | an input where it does not: the text `A`, and then a wide character |
| `Dhcp.FieldCollected` | assets/drivers/broadcom9560RAID/openslp-2.0.0/common/slp_dhcp.c:254-284 | walking an encoded field with that callback returns 0 and leaves exactly these addresses and scopes, whichever options the field holds |
| `Dhcp.Context.Append` | assets/drivers/broadcom9560RAID/openslp-2.0.0/common/slp_dhcp.c:634-637 | appends bytes to the address list as far as they fit |
| `Dhcp.Context.PutText` | assets/drivers/broadcom9560RAID/openslp-2.0.0/common/slp_dhcp.c:583-586 | stores a text up to its first zero byte, cut to the buffer, of which the last byte becomes zero |
| `Dhcp.Context.ParseSLPTags` | assets/drivers/broadcom9560RAID/openslp-2.0.0/common/slp_dhcp.c:542-668 | does to the buffers what the callback does to the value of the context, for both options in both formats |
| `Dhcp.Context.ParseAll` | assets/drivers/broadcom9560RAID/openslp-2.0.0/common/slp_dhcp.c:542-668 | over all options the buffers hold what the callback collects |
| `Wire.ValueOfBytes` | assets/drivers/broadcom9560RAID/openslp-2.0.0/common/slp_message.c:61-157 | extracting what was inserted gives back every value that fits |
| `Wire.ValueIsCut` | assets/drivers/broadcom9560RAID/openslp-2.0.0/common/slp_message.c:123-157 | a value that does not fit is cut to the width of the field |
| `Wire.BytesOfValue` | assets/drivers/broadcom9560RAID/openslp-2.0.0/common/slp_message.c:61-157 | inserting what was extracted gives back the bytes |
| `Wire.Buffer.PutUINT16` | assets/drivers/broadcom9560RAID/openslp-2.0.0/common/slp_message.c:123-129 | appends two bytes, most significant first, and leaves the rest of the buffer |
| `Wire.Buffer.PutUINT24` | assets/drivers/broadcom9560RAID/openslp-2.0.0/common/slp_message.c:136-142 | appends three bytes |
| `Wire.Buffer.PutUINT32` | assets/drivers/broadcom9560RAID/openslp-2.0.0/common/slp_message.c:149-156 | appends four bytes |
| `Wire.Buffer.GetUINT16` | assets/drivers/broadcom9560RAID/openslp-2.0.0/common/slp_message.c:61-67 | extracts the value of two bytes and moves on |
| `Wire.Buffer.GetUINT24` | assets/drivers/broadcom9560RAID/openslp-2.0.0/common/slp_message.c:75-81 | extracts the value of three bytes |
| `Wire.Buffer.GetUINT32` | assets/drivers/broadcom9560RAID/openslp-2.0.0/common/slp_message.c:89-96 | extracts the value of four bytes |
| `Wire.PutField` | assets/drivers/broadcom9560RAID/openslp-2.0.0/common/slp_auth.c:101-107 | appends a length and the bytes that it counts |
| `Wire.FillString` | assets/drivers/broadcom9560RAID/openslp-2.0.0/common/slp_auth.c:80-120 | the buffer for a string is filled exactly, with its layout |
| `Wire.FillDAAdvert` | assets/drivers/broadcom9560RAID/openslp-2.0.0/common/slp_auth.c:136-189 | the buffer for a directory agent is filled exactly, with its layout |
| `Wire.DAAdvertInjective` | assets/drivers/broadcom9560RAID/openslp-2.0.0/common/slp_auth.c:136-189 | two directory agents are hashed over the same bytes if and only if everything that is signed about them is the same, stamps modulo 2^32 |
| `Wire.DAAdvertReads` | assets/drivers/broadcom9560RAID/openslp-2.0.0/common/slp_auth.c:136-189 | successive reads of the hashed bytes return the name of the parameters, the boot stamp, the URL, the scopes, the attributes, the supported names and the stamp, in this order, and leave nothing |
| `Wire.StringInjective` | assets/drivers/broadcom9560RAID/openslp-2.0.0/common/slp_auth.c:80-120 | a name and a text under 2^16 bytes are hashed over the same bytes as another pair, of any lengths, if and only if both pairs are the same, stamps modulo 2^32 |
| `Wire.StringReads` | assets/drivers/broadcom9560RAID/openslp-2.0.0/common/slp_auth.c:80-120 | successive reads of the hashed bytes return the name, the text and the stamp, in this order, and leave nothing |
| `Wire.StringCollision` | assets/drivers/broadcom9560RAID/openslp-2.0.0/common/slp_auth.c:80-120 | for every pair of lengths of which one is 2^16 or more, different strings, the first with these lengths, are hashed over the same bytes |
| `Wire.UnambiguousLengths` | assets/drivers/broadcom9560RAID/openslp-2.0.0/common/slp_auth.c:80-120 | what is hashed over strings of given lengths says which strings they are if and only if both lengths are under 2^16 |
| `Rss.Log2IsHighestBit` | assets/drivers/r8125-9.012.03/src/r8125_rss.c:129-131 | the logarithm is the place of the highest bit |
| `Rss.FieldIsPlace` | assets/drivers/r8125-9.012.03/src/r8125_rss.c:129-131 | for 1 to 255 rings or entries the field is the place of the highest bit |
| `Rss.ConfigInStep` | assets/drivers/r8125-9.012.03/src/r8125_rss.c:123-154 | the configured register agrees with the flags and holds the two fields |
| `Rss.UpdateInStep` | assets/drivers/r8125-9.012.03/src/r8125_rss.c:242-263 | an update of the UDP bits keeps the ring-count and hash-mask fields and brings the register in line with the new flags |
| `Rss.InStepBits` | assets/drivers/r8125-9.012.03/src/r8125_rss.c:123-154 | bit by bit: 0x800 is set if and only if the flag of UDP over IPv4 is, 0x1000 and 0x2000 if and only if that of UDP over IPv6 is; the six kinds are set, and the fields stand at bits 16 and 8 |
| `Rss.UpdateKeeps` | assets/drivers/r8125-9.012.03/src/r8125_rss.c:242-263 | an update leaves every other bit of the register as it was |
| `Rss.NewFlag` | assets/drivers/r8125-9.012.03/src/r8125_rss.c:182-210 | an accepted setting moves its own flag only |
| `Rss.ReportsSetting` | assets/drivers/r8125-9.012.03/src/r8125_rss.c:54-86 | after an accepted setting the flow reports that setting, and every other flow what it reported before |
| `Rss.ReportsLastAccepted` | assets/drivers/r8125-9.012.03/src/r8125_rss.c:54-86 | after any sequence of requests each flow reports its last accepted setting |
| `Rss.ReportedValues` | assets/drivers/r8125-9.012.03/src/r8125_rss.c:54-86 | the values reported: addresses and ports (0xF0) for TCP, addresses (0x30) for IP, and for UDP either, by flag 1 for IPv4 and flag 2 for IPv6 |
| `Rss.AcceptedValues` | assets/drivers/r8125-9.012.03/src/r8125_rss.c:157-231 | the settings accepted: 0xF0 for TCP, 0x30 or 0xF0 for UDP, 0 for flows without support, nothing else |
| `Rss.RunInStep` | assets/drivers/r8125-9.012.03/src/r8125_rss.c:123-267 | after configuration and any sequence of requests the UDP bits agree with the flags, and the ring-count and hash-mask fields are what they were |
| `Rss.RunBits` | assets/drivers/r8125-9.012.03/src/r8125_rss.c:123-267 | after configuration and any sequence of requests, 0x800 is set if and only if the last accepted setting of UDP over IPv4 has ports, and 0x1000 and 0x2000 if and only if that of UDP over IPv6 has |
| `Rss.Unpack` | assets/drivers/r8125-9.012.03/src/r8125_rss.c:359-377 | a packed register unpacks to its four bytes |
| `Rss.PackedLowFirst` | assets/drivers/r8125-9.012.03/src/r8125_rss.c:359-377 | a register holds four entries, the first in its lowest byte |
| `Rss.EveryEntryNamesARing` | assets/drivers/r8125-9.012.03/src/r8125_rss.c:403-415 | after an accepted table every entry names a ring, and is the entry given if there are at most 256 rings |
| `Rss.Device.GetHashOpts` | assets/drivers/r8125-9.012.03/src/r8125_rss.c:54-86 | the report for a flow; other flows are refused |
| `Rss.Device.ConfigHashOpt` | assets/drivers/r8125-9.012.03/src/r8125_rss.c:123-154 | puts the control register in step with the flags: 0x800 is set if and only if the flag of UDP over IPv4 is, 0x1000 and 0x2000 if and only if that of UDP over IPv6 is |
| `Rss.Device.UpdateUdp` | assets/drivers/r8125-9.012.03/src/r8125_rss.c:233-264 | changes the flags and keeps the control register in step: 0x800 is set if and only if the new flag of UDP over IPv4 is, 0x1000 and 0x2000 if and only if that of UDP over IPv6 is |
| `Rss.Device.SetHashOpt` | assets/drivers/r8125-9.012.03/src/r8125_rss.c:157-267 | accepts exactly the settings that are acceptable, changes only their flag, leaves everything unchanged otherwise, and keeps the control register in step |
| `Rss.Device.StoreReta` | assets/drivers/r8125-9.012.03/src/r8125_rss.c:359-377 | the registers unpack to the table; registers beyond it are unchanged |
| `Rss.Device.StoreKey` | assets/drivers/r8125-9.012.03/src/r8125_rss.c:379-388 | the registers unpack to the key |
| `Rss.Device.ConfigRss` | assets/drivers/r8125-9.012.03/src/r8125_rss.c:458-465 | after configuration all registers agree with flags, table and key |
| `Rss.Device.SetRxfh` | assets/drivers/r8125-9.012.03/src/r8125_rss.c:390-426 | a rejected request changes nothing and is rejected exactly for a wrong hash function or ring; an accepted one stores what is given, and the registers unpack to it |

## Left out

- The scanners `slp_attr_l.c` and `slp_filter_l.c`: the parsers start from arbitrary sequences of tokens.
- Failed allocations, in both parsers and in the property store.
- The end of `SLPDecodeLDAPFilter`, after `yyparse` returns: linking the list under a new filter leaves the old head
  pointing into it, and the loop that follows on that head is not part of this model.
- FilterRings.Reader.Group: that a new filter is given up on an empty list is modelled, its release is not; the release
  of a list (`SLPFreeFilterList`) empties rings and frees attributes, but none of the filters, and is left out.
- FilterEval.EvaluateAttributes: two opaque values count as equal, as the code returns; its `memcmp`, whose result is
  not used, reads memory that is not part of this model.
- FilterEval.EvaluateLeaf: the ring of attributes is a sequence, since the evaluator only reads it; the parser fills it
  with one attribute (`FilterRings.Reader.Expression`).
- `SLP_predicate_match`, which composes a decode, an evaluation and a release.
- Firmware.RtlFw.WriteFirmware: the run is bounded by the number of device answers given, since an accepted program
  need not end (`Firmware.SelfJumpNeverHalts`); delays take no time.
- The version string of a firmware blob, which is only copied, and the loading and the release of the blob.
- PropertyStore.Properties.SetDefaultValues: the table of defaults and the parsing of a file are parameters; the
  reading functions (`SLPPropertyGet`, `SLPPropertyAsBoolean` and so on) and the MTU probe on a socket are not modelled.
- Utf8.ToEncoding: what is written when there is a buffer, of which the pointer never advances; and `SLPv1AsUTF8`,
  which uses a stale length.
- StringList.ContainsStringList: what `SLPCompareString` computes (unescaping, folding, case) is the parameter `norm`;
  the model claims nothing about section 6.4 of RFC 2608.
- StringList.UnionStringList: a second list that ends in a backslash, for which the code reads behind the list; the
  byte in front of the list, which the code looks at if the list begins with a comma, is the parameter `before`.
- StringList.UnionItems: what the union is when it is read as the union itself reads lists, with commas behind
  backslashes as parts of items, is not stated.
- `SLPIntersectRemoveStringList`, which works with a stale length.
- Ipv6.ExpandIpv6Addr: texts that are no shorthand address: empty groups, groups of more than four characters, or too
  many groups, for which the code would write outside the slots.
- Dhcp.Context.ParseSLPTags: an option for directory agents in the older format that lacks its size byte, for which the
  code reads behind the option; what `wcstombs` makes of wide characters is the parameter `narrow`.
- Wire.FillString: the digest itself and the signatures are calls into a cryptographic library.
- Rss.Device.SetRxfh: hash options and tables are refused by the callers when the feature is off; those tests, the
  copying getters, `rtl8125_init_rss` and the warning about fragmented packets are not modelled. Entries of a table
  whose size is no multiple of four beyond the last whole register are not written, as in the code.
- Rss.Device.ConfigHashOpt: the register is a variable that holds what was written to it.
- Sockets, interface discovery, threads, the remaining OpenSLP sources, the rest of the r8125 driver and the shell
  scripts of the repository.
