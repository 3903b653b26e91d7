# Proofs about the compliance platform's algorithmic cores

This project models six self-contained parts of the platform and proves what each is for:

- a CEL expression engine with its own linear-time regex matcher (`RegexTree`, `RegexNfa`,
  `RegexSyntax`, `RegexSearch`, `RegexAnchors`, `RegexMeaning`, `CelSyntax`, `CelStrict`,
  `CelParser`, `CelPrecedence`, `PyValue`, `CelEval`, `CelMeaning`, `CelLogic`, `CelCommutative`);
- the hash-chained log of agent decisions with a signed head (`AgentAudit`);
- the assessment write path: idempotency keys, concurrent commits, the sequential service,
  posture with its interval history, the append-only temporal log, and paged reading (`IdemKey`,
  `CommitRace`, `Assessment`, `Posture`, `TemporalLog`, `FindingPages`);
- the policy expression evaluator, its free-name analysis and the policy decision
  (`PolicyExpr`, `PolicyMeaning`, `PolicyNames`, `PolicyEngine`, `PolicyDecision`);
- the sliding-window rate limiter (`Limiter`);
- the resilient HTTP client's circuit breaker, retry loop and pagination (`HttpClient`,
  `Pagination`).

Code that changes state in place is modelled by classes and loops, each proved against a
function or relation on values; the properties are lemmas about those functions, over every
input, run or reachable state. `RegexMeaning`, `CelPrecedence`, `CelMeaning`, `PolicyMeaning` and
`PolicyDecision` say what patterns, token lists, expressions and policies mean in terms of their text
and values alone, with every table of escapes, precedences, operators and functions spelled out. Clocks, the network, database outcomes, connector results and
digests are inputs or idealised functions.

## Where the code departs from its own description

- `^` and `$` are stripped from the ends of the whole pattern, so they tie every top-level branch
  (app/policy_as_code/cel.py:265-269), where ordinary anchors tie only the branch they are written
  in: `^a|b` does not find the `b` of `xb` (`RegexAnchors.CaretLosesB`), nor `a|b$` the `a` of `ax`
  (`RegexAnchors.DollarOfTwo`). Which patterns are read alike on every text is
  `RegexAnchors.CaretAgreesExactly`, `RegexAnchors.DollarAgreesExactly` and
  `RegexAnchors.BothAgreeExactly`. All of this is in terms of `RegexTree.Matches`, the language of
  a pattern's tree defined apart from any automaton.
- A final `$` is a literal after any backslash (app/policy_as_code/cel.py:267), even one that is
  itself escaped: `RegexAnchors.DollarRule` says when that differs from counting escapes, and
  `RegexAnchors.DollarAfterEscapedBackslash` gives a pattern. Inside a pattern `^` and `$` stand for
  themselves: `RegexAnchors.InnerAnchorsAreLiteral`.
- `&&` and `||` look at their operands from left to right (app/policy_as_code/cel.py:673-677),
  unlike the commutative operators of the CEL definition's "Logical Operators". They agree except
  exactly where the left operand faults and the right one decides:
  `CelLogic.AndIsCommutativeExactly`, `CelLogic.OrIsCommutativeExactly`.
- `all` and `exists` evaluate their predicate on every item before they look at any result
  (app/policy_as_code/cel.py:761-773), so a fault is final even where another item decides; the
  definition's macros absorb it. The exact condition is `CelLogic.QuantifiersExactly`. With all of
  these replaced through a whole tree, a tree without `has` keeps every value
  (`CelCommutative.ValuesAreKept`), and one with `has` need not
  (`CelCommutative.HasLosesTheField`).
- A parser token is accepted by its value alone, so a string literal spelled `)` closes a group
  (app/policy_as_code/cel.py:388-392): `CelSyntax.StringClosesGroup`. Without string literals
  spelled `)`, `]`, `}` or `:` the parser follows the strict grammar, errors included:
  `CelStrict.PlainParsesStrictly`.
- A failed probe after the cooldown does not open the breaker again
  (app/connectors/http_client.py:120-123): `HttpClient.FailedProbeLeavesItCooled`.
- A collection of exactly `max_pages` pages is refused although nothing of it is missing
  (app/connectors/http_client.py:219-253): `Pagination.SteadyServer`.
- Puts out of time order can leave overlapping intervals and several open ones, and a correction
  dated back into a closed interval is not read there (app/services/bitemporal.py:47-70):
  `TemporalLog.EarlierPutOverlaps`, `TemporalLog.BackdatedPutIsIgnored`. The exact conditions are
  `TemporalLog.DisjointExactly` (no put starts after both an earlier and a later one, and after
  every step back some put starts where the earlier one did; being in time order is sufficient,
  not necessary), `TemporalLog.OneOpenRow` and `TemporalLog.ReadsLastExactly`.
- Two workers that both find a record stale both commit, as the code's comment admits
  (app/services/assessment.py:233-239): `CommitRace.RenewersMayDuplicate`, for any two workers on
  a derived key. That this is the only way to two findings inside one window is
  `CommitRace.DuplicateNeedsRace`.
- The free-name analysis drops a field spelled like a called function and a dotted path that
  starts with a literal word, both of which the evaluator reads
  (app/policy_as_code/evaluator.py:152-173, 330-345): `PolicyNames.CalledNameIsDropped`,
  `PolicyNames.LiteralBaseIsDropped`, and exactly when it drops nothing,
  `PolicyNames.CoverageIsWellFormedness`.
- A malformed escalation is meant not to block the decision (app/policy_as_code/engine.py:158-166),
  but one without a condition, or one that fires without a severity while the rank is below high,
  raises a KeyError: `PolicyEngine.EvaluationCanRaise`. When an evaluation raises anything is
  `PolicyEngine.RaisesExactly`.
- A log whose clock ties or goes back can fail to verify although nothing was tampered with
  (app/services/agent_audit.py:95-121, 175-184): exactly if some action but a tenant's last was
  recorded after one that comes later by time and id, `AgentAudit.HonestLogVerifies`.
- A limiter whose maximum is zero or less raises an IndexError at every request
  (app/hardening.py:49-50): `Limiter.RaisesExactlyWithoutMaximum`.

## Model

| member | source | states |
|---|---|---|
| RegexNfa.Compiler.Compile | app/policy_as_code/cel.py:187-221 | compilation appends exactly the node's layout, returns its entry, patches the loop placeholder and leaves every earlier state alone |
| RegexNfa.JoinLoop | app/policy_as_code/cel.py:209-220 | patching the split laid down before a loop's body completes both star and plus |
| RegexNfa.FirstExit | app/policy_as_code/cel.py:187-221 | a run that starts in a compiled part leaves it only through the part's continuation |
| RegexNfa.Sound | app/policy_as_code/cel.py:187-221 | every string read on the way through a compiled node is in the node's language |
| RegexNfa.Complete | app/policy_as_code/cel.py:187-221 | every string of the node's language has a run through it |
| RegexNfa.CompiledLanguage | app/policy_as_code/cel.py:187-221 | acceptance by the compiled automaton is membership in the tree's language, both ways |
| RegexSyntax.ReParser.Parse | app/policy_as_code/cel.py:96-184 | the cursor parser computes the pattern grammar's result, trees and errors alike |
| RegexSyntax.ParseRegex | app/policy_as_code/cel.py:109-184 | a parsed tree costs at most one automaton state per pattern character, and its classes hold at most three ranges per pattern character |
| RegexSyntax.RegexRoundTrip | app/policy_as_code/cel.py:96-184 | printing a tree minimally and parsing it yields that tree |
| RegexSyntax.RegexImage | app/policy_as_code/cel.py:96-184 | the trees that some pattern parses to are exactly the printable ones |
| RegexSearch.Frontier.AddState | app/policy_as_code/cel.py:227-244 | with a shared `seen` set, the worklist adds exactly the epsilon closure, stops on epsilon cycles and pops in proportion to what it newly sees |
| RegexSearch.LiveNext | app/policy_as_code/cel.py:281-291 | the states reachable after one more character are those reached by a test and epsilon moves, or from a new start when unanchored |
| RegexSearch.Advance | app/policy_as_code/cel.py:281-292 | one step of the simulation takes exactly the reachable set to the next exactly reachable set, within a linear amount of work |
| RegexSearch.DeadStaysDead | app/policy_as_code/cel.py:288-298 | once an anchored simulation has no state left it never has one again, so giving up early is sound |
| RegexSearch.PlacedRanges | app/policy_as_code/cel.py:247-253 | the ranges that all states of a compiled tree are compared against are those of the tree |
| RegexSearch.Scan | app/policy_as_code/cel.py:275-298 | the scan finds a match exactly when a permitted substring is in the tree's language, within linear work |
| RegexSearch.Search | app/policy_as_code/cel.py:256-298 | the answer, errors included, is the declared meaning of the pattern, with at most 8 (pattern + 1) (text + 1) pops, state tests and range comparisons together |
| RegexAnchors.ParseIsAlternation | app/policy_as_code/cel.py:109-127 | every pattern body parses to the left-associated alternation of the branches its top-level bars separate, or fails as they do |
| RegexAnchors.AnchorsTieAll | app/policy_as_code/cel.py:265-273 | for every pattern and text the search finds a match exactly when some top-level branch has one tied to whatever ends the pattern is |
| RegexAnchors.AgreesOnText | app/policy_as_code/cel.py:265-273 | on a text that is the answer of ordinary anchors unless only a branch that these leave untied matches |
| RegexAnchors.CaretAgreesExactly | app/policy_as_code/cel.py:265-273 | a pattern with a leading caret is read like ordinary anchors on every text if and only if whatever precedes a string of a later branch, the whole begins with a string of a branch |
| RegexAnchors.DollarAgreesExactly | app/policy_as_code/cel.py:265-273 | a pattern with a final dollar likewise, if and only if whatever follows a string of an earlier branch, the whole ends with a string of a branch |
| RegexAnchors.BothAgreeExactly | app/policy_as_code/cel.py:265-273 | between both anchors, if and only if every text that ordinary anchors allow around a string of a branch is a string of a branch |
| RegexAnchors.NothingToTie | app/policy_as_code/cel.py:265-273 | without anchors or with one branch there is no difference |
| RegexAnchors.EmptyBranchAgrees | app/policy_as_code/cel.py:265-273 | a branch that matches the empty string makes a leading caret harmless |
| RegexAnchors.LaterBranchIsLost | app/policy_as_code/cel.py:265-273 | a character that starts no branch hides every string of a later branch behind it |
| RegexAnchors.CaretLosesB | app/policy_as_code/cel.py:265-273 | `^a|b` and `^a|b|c` do not find the `b` of `xb`, which ordinary anchors find |
| RegexAnchors.DollarOfTwo | app/policy_as_code/cel.py:265-273 | `a|b$` does not find the `a` of `ax`, for any letters |
| RegexAnchors.DollarRule | app/policy_as_code/cel.py:265-269 | a final dollar is an anchor exactly if no backslash precedes it, which differs from counting escapes exactly for an even number of backslashes above zero |
| RegexAnchors.PairOfBackslashes | app/policy_as_code/cel.py:136-156 | two backslashes are one literal backslash and escape nothing after them |
| RegexAnchors.InnerAnchorsAreLiteral | app/policy_as_code/cel.py:136-156 | a caret or dollar that reaches the parser stands for itself |
| RegexAnchors.DollarAfterEscapedBackslash | app/policy_as_code/cel.py:265-273 | a letter, two backslashes and a dollar do not find the letter and backslash that end the text |
| RegexMeaning.DigitsAreFound | app/policy_as_code/cel.py:85-93 | `\d` finds exactly the texts with a character from `0` to `9`, `\D` those with any other |
| RegexMeaning.WordCharsAreFound | app/policy_as_code/cel.py:85-93 | `\w` finds exactly the texts with an ASCII letter, a digit or an underscore, `\W` those with anything else |
| RegexMeaning.BlanksAreFound | app/policy_as_code/cel.py:85-93 | `\s` finds exactly the texts with one of the six blanks, `\S` those with anything else |
| RegexMeaning.DotFindsAllButNewline | app/policy_as_code/cel.py:247-253 | `.` finds every character but a newline |
| RegexMeaning.LiteralFindsItself | app/policy_as_code/cel.py:136-156 | a character that is not special finds exactly itself |
| RegexMeaning.EscapedFindsItself | app/policy_as_code/cel.py:147-155 | behind a backslash every character but the six class letters finds exactly itself, `$` included |
| RegexMeaning.ClassFindsItsItems | app/policy_as_code/cel.py:158-184 | a class finds exactly the characters equal to one of its characters or within one of its ranges |
| RegexMeaning.NegatedClassFindsTheRest | app/policy_as_code/cel.py:158-184 | a negated class finds exactly the characters within none of its items, a newline among them |
| RegexMeaning.LowerCaseClass | app/policy_as_code/cel.py:158-184 | `[a-z]` is the range and `[^a-z]` its complement |
| RegexMeaning.EscapeInClass | app/policy_as_code/cel.py:163-172 | inside a class `\d`, `\w` and `\s` stand for what they find, and `\D`, `\W` and `\S` are refused |
| RegexMeaning.SearchFindsAPart | app/policy_as_code/cel.py:256-298 | a search of any group finds exactly the texts with a part that the pattern reads as a whole, at the start behind `^` and at the end before `$` |
| RegexMeaning.RepetitionLaw | app/policy_as_code/cel.py:129-134 | for any pattern, `*` reads the texts that split into any number of texts it reads, `+` into at least one, `?` into at most one |
| RegexMeaning.SequenceLaw | app/policy_as_code/cel.py:122-127 | two patterns in sequence read the texts that split between them |
| RegexMeaning.RepetitionBindsTightest | app/policy_as_code/cel.py:122-134 | a repetition operator applies to the last of two groups alone |
| RegexMeaning.BarLaw | app/policy_as_code/cel.py:115-120 | a bar between any two patterns reads what either reads, so nothing binds looser |
| RegexMeaning.SmallestPatterns | app/policy_as_code/cel.py:122-156 | the empty pattern reads the empty text alone, and a single test one character that it finds |
| RegexMeaning.WordIsFound | app/policy_as_code/cel.py:256-298 | a word without special characters is a substring search, and between anchors equality |
| RegexMeaning.RefusedPatterns | app/policy_as_code/cel.py:256-264 | more than 512 characters, and an unmatched parenthesis on either side, are refused |
| RegexMeaning.UnfinishedPatterns | app/policy_as_code/cel.py:147-184 | a trailing backslash and an unclosed class are refused |
| CelSyntax.PrintParse | app/policy_as_code/cel.py:398-511 | parsing the minimally parenthesised tokens of any tree yields that tree and uses up every token, strings spelled like punctuation included |
| CelSyntax.TernaryRoundTrip | app/policy_as_code/cel.py:404-412 | right-nested conditionals read back, whatever may follow them |
| CelSyntax.SpineRoundTrip | app/policy_as_code/cel.py:414-425 | left-associative chains at each of the five levels read back |
| CelSyntax.PostfixRoundTrip | app/policy_as_code/cel.py:436-456 | select, index and method-call chains read back |
| CelSyntax.CelImage | app/policy_as_code/cel.py:398-511 | the trees that some token list parses to are exactly the printable ones |
| CelSyntax.StringClosesGroup | app/policy_as_code/cel.py:388-392 | a string literal spelled like a closing parenthesis closes a group |
| CelStrict.EatDiffers | app/policy_as_code/cel.py:388-392 | one closing symbol or colon is eaten differently from a comparison of kinds exactly at a string literal of its spelling |
| CelStrict.PlainParsesStrictly | app/policy_as_code/cel.py:388-511 | on tokens without a string literal spelled like a closing symbol or a colon the parser gives the strict grammar's tree or error |
| CelStrict.DiffersOnlyWhereStopped | app/policy_as_code/cel.py:388-511 | on any tokens the parser departs from the strict grammar only where that stops for want of a symbol, so all it accepts is parsed to the same tree |
| CelParser.Parser.Parse | app/policy_as_code/cel.py:380-402 | the cursor parser over the token list agrees with the grammar on every token list, errors included |
| CelParser.Parser.Binary | app/policy_as_code/cel.py:414-425 | the climbing loop builds the left-associated tree of the grammar |
| CelPrecedence.TwoOperatorsOnNames | app/policy_as_code/cel.py:371-377 | of any two binary operators between three names the first takes the middle one exactly if its row, of five spelled out, is at least as tight |
| CelPrecedence.TwoOperatorsOnGroups | app/policy_as_code/cel.py:371-425 | the same between any three expressions in parentheses |
| CelPrecedence.RangeCheckReads | app/policy_as_code/cel.py:371-425 | `a > n && b <= m` is the conjunction of its two comparisons |
| CelPrecedence.PrefixBindsTighter | app/policy_as_code/cel.py:427-434 | `!` and `-` bind tighter than every binary operator, on either side of it |
| CelPrecedence.ConditionalIsLoosest | app/policy_as_code/cel.py:404-412 | a conditional takes a whole operation for its test and any expressions, conditionals included, for its answers |
| CelPrecedence.PostfixBindsTightest | app/policy_as_code/cel.py:436-456 | selection, index and method call apply in turn to all of the operand on their left, before any prefix, and a method's receiver is its first argument |
| CelPrecedence.PrimariesAreRead | app/policy_as_code/cel.py:458-496 | names, calls and lists hold the expressions between their commas, in order |
| CelPrecedence.MapsAreRead | app/policy_as_code/cel.py:497-510 | a map holds its keys and values, in order |
| CelPrecedence.LiteralsAreRead | app/policy_as_code/cel.py:469-477 | numbers, strings and the three keywords stand for the literals of their names |
| CelEval.TruncatingDivision | app/policy_as_code/cel.py:599-622 | for all integers and nonzero divisors the quotient truncates toward zero, quotient and remainder recompose the dividend, and a nonzero remainder is smaller than the divisor and has the dividend's sign |
| CelEval.Evaluator.Lookup | app/policy_as_code/cel.py:631-637 | the innermost binding of a name wins, and the context comes last |
| CelEval.Evaluator.Eval | app/policy_as_code/cel.py:639-682 | evaluation with a stack of scopes equals evaluation in one environment and leaves the stack as it was, on success and on every fault |
| CelEval.Evaluator.Has | app/policy_as_code/cel.py:684-694 | `has` answers as the environment semantics does, and a fault it swallows leaves no binding behind |
| CelEval.Evaluator.Macro | app/policy_as_code/cel.py:743-778 | a macro binds its variable per item, stops where the semantics stops, and pops its scope on every path |
| CelEval.Evaluate | app/policy_as_code/cel.py:781-790 | parsing then evaluating from an empty stack gives the environment semantics of the parsed tree |
| CelEval.Coincidence | app/policy_as_code/cel.py:626-778 | environments that agree on an expression's free names give it the same value or fault |
| CelEval.InnerMacroShadows | app/policy_as_code/cel.py:743-778 | an outer binding of a macro's own variable cannot be seen inside it |
| CelMeaning.IntegersCompare | app/policy_as_code/cel.py:570-585 | on integers the six comparisons are those of their names |
| CelMeaning.LiteralsCompare | app/policy_as_code/cel.py:570-585 | in particular on two literals |
| CelMeaning.IntegersAdd | app/policy_as_code/cel.py:586-595 | on integers `+` and `-` add and subtract |
| CelMeaning.IntegersMultiply | app/policy_as_code/cel.py:596-598 | and `*` multiplies |
| CelMeaning.IntegersDivide | app/policy_as_code/cel.py:599-622 | division by zero faults; otherwise quotient and remainder recompose the dividend, the remainder smaller than the divisor and with the dividend's sign |
| CelMeaning.Negation | app/policy_as_code/cel.py:649-655 | `-` takes an integer and `!` a bool |
| CelMeaning.NoOrder | app/policy_as_code/cel.py:580-585 | bools and null have no order, nor have numbers and strings between them |
| CelMeaning.NoArithmetic | app/policy_as_code/cel.py:564-622 | arithmetic takes integers only, and `+` two strings or two lists besides |
| CelMeaning.StringsCompare | app/policy_as_code/cel.py:570-585 | strings compare by the first character in which they differ |
| CelMeaning.StringsJoin | app/policy_as_code/cel.py:574-589 | strings are joined by `+`, and `in` asks for a substring |
| CelMeaning.EqualityIsSame | app/policy_as_code/cel.py:570-573 | equality depends on the two values alone and `!=` is its negation |
| CelMeaning.SameScalars | app/policy_as_code/cel.py:570-573 | scalars are equal if they are the same, but a bool equals the integer it stands for |
| CelMeaning.SameLists | app/policy_as_code/cel.py:570-573 | lists are equal item by item |
| CelMeaning.SameMaps | app/policy_as_code/cel.py:570-573 | maps are equal key by key |
| CelMeaning.Membership | app/policy_as_code/cel.py:574-579 | `in` asks for an equal item of a list, a key of a map or a substring, and faults on anything else |
| CelMeaning.ListsJoin | app/policy_as_code/cel.py:586-590 | `+` joins two lists |
| CelMeaning.ShorterListIsLess | app/policy_as_code/cel.py:580-585 | where one list begins with the other the lengths decide |
| CelMeaning.FirstUnequalItemDecides | app/policy_as_code/cel.py:580-585 | otherwise the first unequal items decide |
| CelMeaning.ListIndex | app/policy_as_code/cel.py:665-670 | a position counts from the front, or from the end if negative, and any other faults |
| CelMeaning.StringIndex | app/policy_as_code/cel.py:665-670 | a string gives its one character at the position |
| CelMeaning.MapIndex | app/policy_as_code/cel.py:658-670 | a map gives the value under a key, by index or by field, or faults |
| CelMeaning.NoIndex | app/policy_as_code/cel.py:658-670 | nothing else has fields or positions |
| CelMeaning.LastValueWins | app/policy_as_code/cel.py:647-648 | a map display holds each of its keys with the last value written for it |
| CelMeaning.Displays | app/policy_as_code/cel.py:641-646 | literals are their values, names what the environment holds, and a list its items' values |
| CelMeaning.LogicOnBools | app/policy_as_code/cel.py:673-677 | on bools the logical operators are those of their names |
| CelMeaning.Conditional | app/policy_as_code/cel.py:656-657 | only the chosen branch is evaluated, and only a bool chooses |
| CelMeaning.SizeOf | app/policy_as_code/cel.py:702-704 | `size` is the number of characters, items or keys |
| CelMeaning.AbsoluteValue | app/policy_as_code/cel.py:733-735 | `abs` is the magnitude |
| CelMeaning.TextTests | app/policy_as_code/cel.py:705-711 | `startsWith`, `endsWith` and `contains` say where one string occurs in the other |
| CelMeaning.MatchesSearches | app/policy_as_code/cel.py:712-717 | `matches` searches its first argument for the pattern that is its second |
| CelMeaning.LeastAndGreatest | app/policy_as_code/cel.py:736-740 | `min` and `max` of a list or of several arguments are one of the integers, with none below or above it |
| CelMeaning.NothingIsExtreme | app/policy_as_code/cel.py:736-740 | of nothing they fault |
| CelMeaning.WrongCalls | app/policy_as_code/cel.py:698-741 | a wrong number of arguments faults, and so does an unknown function |
| CelMeaning.AllAndExists | app/policy_as_code/cel.py:743-778 | with a bool for every item `all` wants every one true and `exists` some one |
| CelMeaning.FilterKeepsTheTrue | app/policy_as_code/cel.py:743-778 | `filter` keeps exactly the items whose predicate is true, in order, and `exists_one` wants exactly one |
| CelMeaning.MapGivesEachValue | app/policy_as_code/cel.py:743-778 | `map` gives the predicate's value for every item, in order |
| CelMeaning.FirstFaultIsFinal | app/policy_as_code/cel.py:761-767 | the first item whose predicate faults makes every macro fault |
| CelMeaning.BoolsAreNeeded | app/policy_as_code/cel.py:769-777 | a result that is no bool faults `filter` and `exists_one` wherever it stands |
| CelMeaning.FirstDeciderDecides | app/policy_as_code/cel.py:769-772 | the first result that is not the bool `all` or `exists` waits through answers, or faults if it is no bool |
| CelMeaning.MacroNeedsAList | app/policy_as_code/cel.py:743-760 | a macro over anything but a list, or in another form, faults |
| CelMeaning.FirstOperandFaults | app/policy_as_code/cel.py:665-678 | of two operands the first fault decides |
| CelMeaning.FirstArgumentFaults | app/policy_as_code/cel.py:645-696 | of a call's arguments and a list's items likewise |
| CelMeaning.HasAsksForAField | app/policy_as_code/cel.py:687-694 | `has` asks whether a map has the field, and a fault of the language in its base counts as no |
| CelLogic.AndIsCommutativeExactly | app/policy_as_code/cel.py:673-677 | `&&` gives what the commutative operator gives unless, and only unless, the left operand faults and the right one is false |
| CelLogic.OrIsCommutativeExactly | app/policy_as_code/cel.py:673-677 | `||` gives what the commutative operator gives unless, and only unless, the left operand faults and the right one is true |
| CelLogic.Commute | app/policy_as_code/cel.py:673-677 | the order of the commutative operators' operands matters only where both are faults |
| CelLogic.UnknownOnTheLeft | app/policy_as_code/cel.py:673-677 | an unknown name on the left is a fault where the same operands the other way round have a value |
| CelLogic.MacroIsEager | app/policy_as_code/cel.py:758-773 | `all` and `exists` collect what their predicate gives for every item before they look at any result |
| CelLogic.QuantifiersExactly | app/policy_as_code/cel.py:761-773 | they answer as macros that absorb faults except exactly where an item decides and yet an item faults or a result that is no bool stands before all that decide |
| CelCommutative.ValuesAreKept | app/policy_as_code/cel.py:639-778 | a tree without `has` keeps every value the code gives it when all operators and quantifying macros are commutative and absorbing |
| CelCommutative.HasLosesTheField | app/policy_as_code/cel.py:687-694 | a tree with `has` whose value changes: it takes a fault that would be absorbed for the field's absence |
| AgentAudit.AgentLog.RecordAction | app/services/agent_audit.py:95-121 | an action appends one row linked to the latest, and updates and signs the tenant's head |
| AgentAudit.AgentLog.UpsertHead | app/services/agent_audit.py:61-76 | the head takes the new hash, counts one more and is signed afresh |
| AgentAudit.FindBroken | app/services/agent_audit.py:165-173 | exactly the rows whose link is missing or whose hash does not fit their content are reported |
| AgentAudit.FindFork | app/services/agent_audit.py:175-184 | a fork is reported exactly when two rows continue the same row |
| AgentAudit.Verify | app/services/agent_audit.py:140-214 | the report is the declared one for any set of rows and any head |
| AgentAudit.RunOfTenant | app/services/agent_audit.py:61-121 | after any run that recorded a tenant's actions in order, but for the last, its rows are the chain of its actions and its head is the signed tip |
| AgentAudit.RunRows | app/services/agent_audit.py:61-121 | whatever the clock did, each record names the latest of those before it and the head is signed for the last record and the count |
| AgentAudit.EachNamesTheLatest | app/services/agent_audit.py:95-103 | after any run a tenant's first record names no predecessor and every other the one before it with the latest time and, among those, the greatest id |
| AgentAudit.OutOfOrderForks | app/services/agent_audit.py:95-121 | an action recorded after a later one leaves two records with one predecessor |
| AgentAudit.StrictClockIsInOrder | app/services/agent_audit.py:95-121 | a strictly increasing clock keeps every tenant's actions in order |
| AgentAudit.LinksReach | app/services/agent_audit.py:41-44 | in any row set whose links all resolve, a row reaches the start through genuine hashes |
| AgentAudit.VerifierIsExact | app/services/agent_audit.py:140-214 | under a genuinely signed head, rows verify if and only if they are, as a multiset, exactly the first `action_count` genuine records |
| AgentAudit.IssueIsNamed | app/services/agent_audit.py:176-205 | a fork is named first, then exactly one of no head, a bad signature, a tail that is gone and a wrong count, in this order, or nothing |
| AgentAudit.RemovedRecordIsNamed | app/services/agent_audit.py:186-200 | with the signed head at hand, a genuine log without its last record is reported as having lost its tail, and without any other as having the wrong count |
| AgentAudit.BrokenAreListed | app/services/agent_audit.py:161-172 | without a fork the report lists the ids of exactly the rows that do not match their hash or whose predecessor is gone |
| AgentAudit.HonestLogVerifies | app/services/agent_audit.py:95-214 | a log built from empty verifies if and only if its tenant's actions, but for the last, were recorded in the order of time and id; its head verifies in any case |
| AgentAudit.StoredHeadIsGenuine | app/services/agent_audit.py:61-121 | every head stored for a tenant at any moment of a run is one of those signed for its actions |
| AgentAudit.StoredHeadIsExact | app/services/agent_audit.py:140-214 | against a head stored at some moment exactly the tenant's rows of that moment are accepted |
| AgentAudit.RollbackIsAccepted | app/services/agent_audit.py:186-214 | a log rolled back together with its head is accepted |
| TemporalLog.Log.Put | app/services/bitemporal.py:47-58 | a put closes the open rows at or before it and inserts its own in order |
| TemporalLog.Log.AsOf | app/services/bitemporal.py:60-70 | `as_of` holds, for each key, the first covering row's value, and no key without one |
| TemporalLog.Log.ValueAt | app/services/bitemporal.py:72-77 | the value of one key at a time is that of its first covering row |
| TemporalLog.ReplayRows | app/services/bitemporal.py:47-58 | after any puts in any time order the rows are the sorted puts, each ending where the next later put that is not earlier begins |
| TemporalLog.Coverage | app/services/bitemporal.py:60-70 | a time has a value if and only if some put starts at or before it |
| TemporalLog.PastImmutable | app/services/bitemporal.py:47-70 | a put changes no answer about a time before it |
| TemporalLog.ReadIsEarliest | app/services/bitemporal.py:60-70 | for every sequence of puts a read gives the value of the earliest-starting row that covers the time, the earliest put first among equals, and nothing if none covers it |
| TemporalLog.ReadsLastExactly | app/services/bitemporal.py:47-70 | a read finds the last put at or before the time if and only if every earlier put that starts no later than it was superseded by then |
| TemporalLog.ReadsOnePut | app/services/bitemporal.py:60-70 | at most one put is the one that a read finds |
| TemporalLog.BackdatedPutIsIgnored | app/services/bitemporal.py:47-70 | a correction dated back into a closed interval is not read there |
| TemporalLog.DisjointExactly | app/services/bitemporal.py:47-58 | the intervals are pairwise disjoint if and only if no put starts after both an earlier and a later one and every step back is returned from |
| TemporalLog.PeakOverEmptyRow | app/services/bitemporal.py:47-58 | descending from empty intervals only is not sufficient for that |
| TemporalLog.OneOpenRow | app/services/bitemporal.py:47-58 | exactly one interval is open if and only if the last put starts no earlier than any other |
| TemporalLog.EarlierPutOverlaps | app/services/bitemporal.py:47-58 | a put dated before the one already there leaves two open intervals that overlap |
| TemporalLog.InOrderDisjoint | app/services/bitemporal.py:47-58 | for puts in time order no two intervals share a time |
| TemporalLog.InOrderReadsLast | app/services/bitemporal.py:60-70 | for puts in time order the answer is the last put at or before the time |
| Posture.PostureStore.UpsertPosture | app/services/assessment.py:172-219 | the posture row is overwritten with its previous status kept, and a change of status closes and opens history |
| Posture.CurrentOfCell | app/services/assessment.py:187-206 | after any run a cell's posture is its last assessment, with the status before it |
| Posture.CellIgnoresCase | app/services/assessment.py:172-180 | two sources are one cell exactly if they differ at most in the case of letters |
| Posture.HistoryOfCell | app/services/assessment.py:208-219 | a cell's history is the temporal log of its changes of status |
| Posture.HistoryIsKept | app/services/assessment.py:172-219 | a cell has one open history row exactly when it has a posture row, their statuses agree, intervals are contiguous and neighbours differ |
| Posture.HistoryAnswersAsReplay | app/services/assessment.py:172-219 | reading the coalesced history as of any time gives the status that replaying every assessment gives |
| IdemKey.CharRoundTrip | app/services/assessment.py:114-115 | every character's JSON escape, surrogate pairs included, reads back |
| IdemKey.DumpsInjective | app/services/assessment.py:99-115 | the JSON array of optional strings decodes to its inputs, so no value forges a boundary and null is not "None" |
| IdemKey.HashKeyInjective | app/services/assessment.py:99-115 | equal keys have the same kind and the same parts |
| IdemKey.KeyMeansOneThing | app/services/assessment.py:118-146 | two requests share a key exactly when both name the same explicit key, or neither does and they assess the same thing |
| IdemKey.OnlyAFilledKeyIsExplicit | app/services/assessment.py:143-146 | an empty key is no key, and behind any other only the tenant counts |
| IdemKey.ExternalKeysApart | app/services/assessment.py:460-460 | an ingested finding's key is no request's key, and identifies its external finding |
| CommitRace.StepInv | app/services/assessment.py:221-396 | every step of every worker keeps the protocol's invariant |
| CommitRace.RunInv | app/services/assessment.py:221-396 | every reachable state under every interleaving, failure and retry satisfies the invariant |
| CommitRace.OneFindingPerKey | app/services/assessment.py:229-243 | at most one finding is ever committed under a key its callers named, and at most one under any key while what was committed lies within a window; the record points at it |
| CommitRace.DuplicateNeedsRace | app/services/assessment.py:233-239 | two findings of one key inside one window: the key is derived, and the later worker found the record stale before the earlier finding was committed |
| CommitRace.EveryoneGetsTheWinner | app/services/assessment.py:321-326 | all workers that return under such a key return the same committed finding |
| CommitRace.EvidenceAlwaysBacked | app/services/assessment.py:252-295 | at every moment an evidence row has its artifact in the store under the digest of what was collected, and pairs with a committed finding |
| CommitRace.LoserFindsWinner | app/services/assessment.py:321-326 | a worker that lost the race for its key always finds a winner, so the handler re-raises only for other constraints |
| CommitRace.CommittedStays | app/services/assessment.py:301-320 | nothing committed is lost or changed later; a record that differs later names a finding whose worker found it stale, and a key its callers named keeps its record |
| CommitRace.RenewersMayDuplicate | app/services/assessment.py:233-239 | any two workers on a derived key with a record can both find it stale and both commit, at the same moment even |
| Assessment.AssessmentService.CommitFinding | app/services/assessment.py:221-341 | a commit returns the existing finding, or appends one, points the record at it and updates posture, or changes nothing |
| Assessment.AssessmentService.RunSingle | app/services/assessment.py:379-396 | a request is answered from its record unless that is missing or has aged out; otherwise the tables are unchanged or hold one new finding with the collected status and severity |
| Assessment.AssessmentService.RecordUnverifiable | app/services/assessment.py:398-441 | an unverifiable control is recorded as an error, or nothing if a finding answers for it or the write fails |
| Assessment.AssessmentService.RecordExternalFinding | app/services/assessment.py:443-467 | an external finding is recorded once |
| Assessment.RunInv | app/services/assessment.py:153-467 | every sequential run with a clock that does not go back keeps records, findings and posture consistent |
| Assessment.OneFindingPerWindow | app/services/assessment.py:363-377 | two findings under one key are more than five minutes apart, and the key is a derived one |
| Assessment.RecordsPointHome | app/services/assessment.py:312-317 | every record points at an existing finding of its tenant, the newest under its key |
| Assessment.RequestIsAnswered | app/services/assessment.py:363-396 | a request gets an earlier finding exactly when one binds it, a new one exactly when none does and everything succeeds, and always one of its own tenant and subject |
| Assessment.RequestRecordsWhatWasCollected | app/services/assessment.py:294-317 | a request changes nothing or adds one finding with the collected status and severity and the commit's time, which its record and its cell's posture row then show, every other row as it was |
| Assessment.RequestAddsExactly | app/services/assessment.py:379-396 | it adds one exactly if there is a verdict, no finding binds the request, and the commit lands |
| Assessment.UnverifiableIsAnError | app/services/assessment.py:431-441 | an unverifiable request adds nothing or a finding with status error and severity medium, shown likewise |
| Assessment.UnverifiableAddsExactly | app/services/assessment.py:431-441 | exactly if no finding binds it and the commit lands |
| Assessment.ExternalKeepsItsVerdict | app/services/assessment.py:443-467 | an external finding keeps the status and severity it came with, shown likewise |
| Assessment.ExternalAddsExactly | app/services/assessment.py:443-467 | it is added exactly if none is under its key and the commit lands |
| Assessment.ExplicitKeyForever | app/services/assessment.py:62-84 | a caller's own key answered once is answered with that finding for ever |
| Assessment.FindingsAreKept | app/services/assessment.py:301-320 | findings are only appended |
| Assessment.PostureIsNewestFinding | app/services/assessment.py:172-219 | a cell's posture is the status and severity of its newest finding |
| FindingPages.ListFindings | app/services/assessment.py:525-538 | a page holds consecutive rows from the clamped offset, never more than the cap, and a short page is the last |
| FindingPages.PageIsFull | app/services/assessment.py:525-538 | a page has as many rows as asked for, between 1 and 500, unless the answer ends first |
| FindingPages.AnswerIsUnique | app/services/assessment.py:532-537 | the order leaves the database one sequence to return |
| FindingPages.TieBreakIsNeeded | app/services/assessment.py:532-537 | ordering by time alone permits pages that repeat one row and lose another |
| FindingPages.IterFindings | app/services/assessment.py:540-566 | for every requested batch, every wanted finding is yielded exactly once, in order, and the loop ends |
| PolicyExpr.ResolveDotted | app/policy_as_code/evaluator.py:152-173 | the loops over a dotted path compute navigation from its base name, with the same errors |
| PolicyMeaning.NamesAreLookedUp | app/policy_as_code/evaluator.py:137-150 | a name is one of six literals, or illegal with two underscores, or what the context holds, or what the parameters hold, or None |
| PolicyMeaning.FieldsAreFollowed | app/policy_as_code/evaluator.py:152-173 | a field of a dictionary, or None where there is no such field or no dictionary |
| PolicyMeaning.AndOr | app/policy_as_code/evaluator.py:98-102 | `and` wants every operand true and `or` some one, for any truth values |
| PolicyMeaning.FirstOperandDecides | app/policy_as_code/evaluator.py:98-102 | the first operand that settles it or faults is the last to be evaluated |
| PolicyMeaning.NotAndMinus | app/policy_as_code/evaluator.py:103-107 | `not` negates the truth of any value, and `-` an integer |
| PolicyMeaning.ChainsAreConjunctions | app/policy_as_code/evaluator.py:116-131 | a chain holds exactly if every link holds between its neighbours' values |
| PolicyMeaning.ChainStops | app/policy_as_code/evaluator.py:116-131 | a first link that does not hold settles a chain, and `is` is refused |
| PolicyMeaning.IntegersCompare | app/policy_as_code/evaluator.py:41-45 | integers are ordered as integers |
| PolicyMeaning.StringsCompare | app/policy_as_code/evaluator.py:41-45 | strings are ordered by the first character in which they differ |
| PolicyMeaning.NoOrder | app/policy_as_code/evaluator.py:122-130 | None on either side, and a pair without an order, satisfies no ordering |
| PolicyMeaning.EqualityIsSame | app/policy_as_code/evaluator.py:41-45 | `==` is equality of values and `!=` its negation |
| PolicyMeaning.Membership | app/policy_as_code/evaluator.py:41-45 | `in` asks for an equal item, a substring or a key; where it cannot look neither it nor `not in` holds |
| PolicyMeaning.QuantifierOnItems | app/policy_as_code/evaluator.py:192-216 | without a predicate text `all` is for every item, `any` for some item, and `count` the number of items that are true |
| PolicyMeaning.AllMeansAll | app/policy_as_code/evaluator.py:192-216 | in particular on a named list |
| PolicyMeaning.QuantifierOnText | app/policy_as_code/evaluator.py:192-216 | with one, the text's value in each item's own fields is tested instead |
| PolicyMeaning.FirstItemDecides | app/policy_as_code/evaluator.py:204-215 | `all` stops at the first untrue item, `any` at the first true one, and every quantifier at the first fault before that |
| PolicyMeaning.QuantifierOfNothing | app/policy_as_code/evaluator.py:192-197 | what is no list has no items, and a quantifier of nothing is untrue or 0 |
| PolicyMeaning.FaultsThatAreForgiven | app/policy_as_code/evaluator.py:108-190 | a registry function's TypeError or ValueError is None, and arithmetic's TypeError or division by zero is 0 |
| PolicyMeaning.CallsThatAreRefused | app/policy_as_code/evaluator.py:175-182 | only fifteen functions can be called, by name and without keywords |
| PolicyMeaning.ListsAndRefusals | app/policy_as_code/evaluator.py:89-135 | a list is its items, and constructs outside the language are refused |
| PolicyNames.CollectFreeNames | app/policy_as_code/evaluator.py:315-345 | the worklist collects exactly the names mentioned that are neither literal words nor called |
| PolicyNames.Coincidence | app/policy_as_code/evaluator.py:89-216 | contexts that agree on what an expression reads give it the same value or fault |
| PolicyNames.CoverageIsWellFormedness | app/policy_as_code/evaluator.py:315-345 | the free names cover every read if and only if no field read is spelled like a called function and no path starts with a literal word |
| PolicyNames.FreeNamesDecide | app/policy_as_code/evaluator.py:89-216 | contexts that agree on the free names of a well-formed expression give it the same value or fault |
| PolicyNames.CalledNameIsDropped | app/policy_as_code/evaluator.py:330-345 | an expression without free names whose value an entry of the context decides |
| PolicyNames.LiteralBaseIsDropped | app/policy_as_code/evaluator.py:152-173 | the same for a path that starts with a literal word |
| PolicyNames.DeeperAgrees | app/policy_as_code/evaluator.py:192-216 | an evaluation that did not run out of stack has its final result, at any larger depth |
| PolicyEngine.Evaluate | app/policy_as_code/engine.py:82-179 | the evaluation loops compute the declared decision, reasons and exceptions included |
| PolicyEngine.PassExactly | app/policy_as_code/engine.py:92-145 | a policy passes exactly when every signal is present, every rule holds and every required control passes |
| PolicyEngine.NotApplicableExactly | app/policy_as_code/engine.py:92-138 | it is not applicable exactly when a signal is missing, or rules and failing controls aside a required control is unassessed |
| PolicyEngine.ErrorExactly | app/policy_as_code/engine.py:99-113 | it is an error exactly when the first rule to fault does so with a policy error |
| PolicyEngine.SeverityIsWorst | app/policy_as_code/engine.py:147-166 | a failing policy's severity is the worst of its base, its failed rules and the escalations that fire, and is one of theirs |
| PolicyDecision.SeveritiesInOrder | app/policy_as_code/engine.py:33-33 | info, low, medium, high and critical rank in this order, and anything else with info |
| PolicyDecision.DecisionLists | app/policy_as_code/engine.py:92-179 | a passing or failing decision lists every rule with whether it held, its severity and its complaint; only a failing one carries obligations and a severity above info |
| PolicyDecision.WhyNotApplicable | app/policy_as_code/engine.py:92-138 | a decision that is not applicable names exactly the missing signals or, if none is, the unassessed controls |
| PolicyDecision.WhyItFails | app/policy_as_code/engine.py:168-179 | a failing decision names exactly the complaints of its failed rules, the failing controls and those without a status |
| PolicyDecision.WhyItPasses | app/policy_as_code/engine.py:140-145 | a passing one is explained by the policy's description, if there is one |
| PolicyEngine.CompleteEscalationsDecide | app/policy_as_code/engine.py:152-166 | escalations that name condition and severity never stand in the way of a decision |
| PolicyEngine.EscalatedExactly | app/policy_as_code/engine.py:152-166 | the escalations raise an exception if and only if one of them does at the rank reached before it |
| PolicyEngine.RaisesExactly | app/policy_as_code/engine.py:82-179 | evaluation raises if and only if the signals are there and either the first rule that faults does so with something other than a policy error, or the decision gets as far as the escalations and one of them raises |
| PolicyEngine.EvaluationCanRaise | app/policy_as_code/engine.py:152-166 | a policy whose evaluation raises for want of an escalation's condition or severity, and gets a decision once both are there |
| PolicyEngine.EvidenceDecides | app/policy_as_code/engine.py:82-179 | evidence that agrees on the signals and the free names of rules and escalations gets the same decision |
| PolicyEngine.LoadSignals | app/policy_as_code/engine.py:261-268 | the signals are those declared, or exactly the free names of the rules that are no parameters, in strictly increasing order |
| PolicyEngine.NoRuleReadsNothing | app/policy_as_code/engine.py:92-97 | with inferred signals no well-formed rule is evaluated while an entry it may read is missing |
| PolicyEngine.MissingFieldIsNotAPass | app/policy_as_code/engine.py:92-97 | a missing field that a rule needs makes the decision not applicable |
| Limiter.SlidingWindowLimiter.Check | app/hardening.py:42-53 | pruning the queue in place and deciding on its length is the step on tables |
| Limiter.SlidingWindowLimiter.Sweep | app/hardening.py:55-66 | a sweep prunes every queue and drops the empty ones, if the table is large |
| Limiter.RaisesExactlyWithoutMaximum | app/hardening.py:49-50 | after any run a request raises an IndexError if and only if the maximum is below one |
| Limiter.CheckIsExact | app/hardening.py:42-53 | after any run, whether a request is admitted, how many remain and how long to wait are what the log of admissions in the closed window calls for |
| Limiter.RemainingIsHowManyMore | app/hardening.py:42-53 | the number remaining is how many further requests at once are admitted: each uses up one, and at 0 none is |
| Limiter.FirstCheckIsAdmitted | app/hardening.py:42-53 | a key not seen before is admitted with one less than the maximum remaining |
| Limiter.NoWindowOverfull | app/hardening.py:42-53 | no closed interval of the window's length holds more than the maximum of a key's admissions |
| Limiter.SweepsInvisible | app/hardening.py:55-66 | runs that differ only in their sweeps give the next request the same answer |
| Limiter.RetryTimeIsExact | app/hardening.py:49-51 | a refused client's next request is admitted if and only if it waited longer than it was told |
| HttpClient.CircuitBreaker.IsOpen | app/connectors/http_client.py:110-128 | being open is the exact opposite of allowing |
| HttpClient.CircuitBreaker.RecordFailure | app/connectors/http_client.py:120-123 | the fields stay what the history of outcomes makes them |
| HttpClient.BreakerRemembersStreak | app/connectors/http_client.py:102-128 | after any history the breaker holds the length of the current streak and the time of the failure that completed the threshold |
| HttpClient.OpenedIffThreshold | app/connectors/http_client.py:120-123 | the opening time is set exactly while the failures have reached the threshold, if and only if the threshold is positive or something failed since the last success |
| HttpClient.CooldownIsNotExtended | app/connectors/http_client.py:110-128 | until the next success, calls are refused exactly for one cooldown from the opening, whatever fails later |
| HttpClient.ShortStreakAllows | app/connectors/http_client.py:110-114 | a streak below the threshold allows every call |
| HttpClient.ResilientClient.Send | app/connectors/http_client.py:273-343 | at most one attempt more than the retries, trying again only after no answer or one of 429, 500, 502, 503 and 504, and stopping at the first other reply; each attempt is one recorded outcome; only a status below 400 is returned, an expected 404 is an absence, and anything else raises; each check before the first attempt has its own reason; the fall-through is reached exactly for a negative retry count |
| HttpClient.CallCountsEveryAttempt | app/connectors/http_client.py:306-343 | a raising call adds its attempts to the failures and a returning one clears them |
| HttpClient.FailedProbeLeavesItCooled | app/connectors/http_client.py:110-128 | a failed call after the cooldown does not open the breaker again |
| Pagination.GetAllPages | app/connectors/http_client.py:193-253 | it returns exactly when the whole chain can be collected before any stop, and then all of it in order; no URL is fetched twice; each error names its reason |
| Pagination.StopsAreFinal | app/connectors/http_client.py:222-253 | while a collectable chain is being followed no stop applies |
| Pagination.EndingChainIsAcyclic | app/connectors/http_client.py:229-231 | a chain that ends, on a server that does not change its mind, visits no URL twice |
| Pagination.SteadyServer | app/connectors/http_client.py:193-253 | without time-outs and with a steady server it returns if and only if the chain ends after fewer than `max_pages` pages |

## Left out

- CelSyntax.PrintParse: is about tokens; the lexer's spelling of numbers, escapes and names is not modelled.
- CelParser.Parser.Parse: has no depth limit; Python's recursion limit is not modelled.
- CelEval.Evaluate: floats are not among the values, and `lower`, `upper`, `int`, `double` and `string` are one arbitrary pure function of their argument.
- PyValue.PyEq: compares the values modelled here; NaN, floats and user-defined equality do not occur.
- AgentAudit.VerifierIsExact: a digest is an injective constructor and a signature is valid only for a triple that was signed; the canonical JSON of the payload is the payload itself.
- AgentAudit.HonestLogVerifies: starts from an empty log, because a head created over older rows counts from one.
- TemporalLog.Log.Put: the interval object that `put` returns may be closed in place by a later put; the model returns a value, so that alias is not captured.
- TemporalLog.Log.ValueAt: a stored None and an absent key look alike to the source's caller; the model keeps them apart.
- Posture.PostureStore.UpsertPosture: the cadence and the next validation date are not modelled, and upper-casing is ASCII only.
- IdemKey.KeyMeansOneThing: the digest is injective; lone surrogates do not occur in Dafny's characters.
- CommitRace.RunInv: a savepoint is one atomic step seen by everyone at once; transaction isolation, the outer commit and the retry count are not modelled, so a worker may retry for ever. The clock does not go back.
- Assessment.RunInv: starts without records under the legacy key format, which would never age out; notifications and metrics are not modelled.
- FindingPages.IterFindings: the table does not change while it is read; yielding is modelled as appending to the result.
- PolicyExpr.Walk: parsing, arithmetic and the registry functions (`matches` among them) are arbitrary pure functions; the interpreter's stack is counted only in nested predicate evaluations.
- PolicyEngine.Evaluate: reasons are structured rather than rendered as English text.
- Limiter.SlidingWindowLimiter.Check: times are real numbers.
- HttpClient.ResilientClient.Send: backoff and jitter, header handling and redaction are not modelled; a breaker shared by several threads is not modelled.
- Pagination.GetAllPages: the text of the Link header is not parsed; what a URL gets is an arbitrary function of the fetch.
- Routes, middleware, authentication, configuration, migrations and logging: input, output and wiring.
- Vendor connectors, catalogs and registries: field shuffling over interfaces that are not visible here.
- Policy loading from YAML, obligation dispatch, scoring and coverage reports: short folds and tables that would add only easy members.
